/** Bytes, fixed-width unsigned words, bits and their order on the wire. */
module Bytes {

  datatype Option<+T> = None | Some(value: T)

  const TWO16: int := 0x1_0000
  const TWO31: int := 0x8000_0000
  const TWO32: int := 0x1_0000_0000

  type byte = x: int | 0 <= x < 256
  type bit = x: int | 0 <= x < 2
  type u16 = x: int | 0 <= x < 0x1_0000
  type u32 = x: int | 0 <= x < 0x1_0000_0000

  /** The `n` low bytes of `x`, lowest first. */
  function LowBytes(x: nat, n: nat): (s: seq<byte>)
    ensures |s| == n
    decreases n, x
  {
    if n == 0 then [] else [x % 256] + LowBytes(x / 256, n - 1)
  }

  /** The bytes of a text in plain characters. */
  function Ascii(s: string): seq<byte> {
    seq(|s|, i requires 0 <= i < |s| => s[i] as int % 256)
  }

  function Zeros(n: nat): (s: seq<byte>)
    ensures |s| == n && forall i :: 0 <= i < n ==> s[i] == 0
  {
    seq(n, _ => 0)
  }

  /** Little-endian order, as `WriteShort` and `WriteLong` store it. */
  function Le16(x: u16): (s: seq<byte>)
    ensures |s| == 2
  {
    LowBytes(x, 2)
  }

  function Le32(x: u32): (s: seq<byte>)
    ensures |s| == 4
  {
    LowBytes(x, 4)
  }

  lemma Le16Bytes(x: u16)
    ensures Le16(x) == [x % 256, x / 256]
  {
    assert LowBytes(x / 256, 1) == [x / 256 % 256] + LowBytes(x / 256 / 256, 0);
    assert Le16(x) == [x % 256] + LowBytes(x / 256, 1);
  }

  lemma Le32Bytes(x: u32)
    ensures Le32(x) == [x % 256, x / 256 % 256, x / 0x1_0000 % 256, x / 0x100_0000]
  {
    var x1, x2, x3 := x / 256, x / 0x1_0000, x / 0x100_0000;
    assert x2 == x1 / 256 && x3 == x2 / 256 && x3 == x3 % 256;
    assert LowBytes(x3, 1) == [x3] + LowBytes(x3 / 256, 0) == [x3];
    assert LowBytes(x2, 2) == [x2 % 256] + LowBytes(x3, 1) == [x2 % 256, x3];
    assert LowBytes(x1, 3) == [x1 % 256] + LowBytes(x2, 2) == [x1 % 256, x2 % 256, x3];
  }

  lemma LowDigit(x: byte, y: nat)
    ensures (x + 256 * y) % 256 == x && (x + 256 * y) / 256 == y
  {
  }

  /** The number whose bytes are `s`, lowest first. */
  function LowValue(s: seq<byte>): nat {
    if s == [] then 0 else s[0] + 256 * LowValue(s[1..])
  }

  function Reverse<T>(s: seq<T>): (r: seq<T>)
    ensures |r| == |s|
  {
    if s == [] then [] else Reverse(s[1..]) + [s[0]]
  }

  /** Network order: what `WriteLong(SwapLong(x))` stores. */
  function Be32(x: u32): (s: seq<byte>)
    ensures |s| == 4
  {
    Reverse(Le32(x))
  }

  function BigValue(s: seq<byte>): nat {
    LowValue(Reverse(s))
  }

  function Word(b0: int, b1: int, b2: int, b3: int): int {
    b0 + 256 * b1 + 0x1_0000 * b2 + 0x100_0000 * b3
  }

  lemma BigValueOf(s: seq<byte>)
    requires |s| == 4
    ensures BigValue(s) == Word(s[3], s[2], s[1], s[0])
    ensures Reverse(s) == [s[3], s[2], s[1], s[0]]
  {
    var s1, s2 := s[1..], s[2..];
    assert s1[1..] == s2 && s2[1..] == [s[3]];
    assert Reverse([s[3]]) == Reverse<byte>([]) + [s[3]] == [s[3]];
    assert Reverse(s2) == [s[3]] + [s[2]];
    assert Reverse(s1) == [s[3], s[2], s[1]];
    var r := [s[3], s[2], s[1], s[0]];
    assert Reverse(s) == r;
    assert r[1..] == [s[2], s[1], s[0]] && r[1..][1..] == [s[1], s[0]] && r[1..][1..][1..] == [s[0]];
    assert LowValue([s[0]][1..]) == 0;
    assert LowValue([s[0]]) == s[0];
    assert LowValue([s[1], s[0]]) == Word(s[1], s[0], 0, 0);
    assert LowValue([s[2], s[1], s[0]]) == Word(s[2], s[1], s[0], 0);
  }

  lemma {:induction false} ReverseSnoc<T>(s: seq<T>, x: T)
    ensures Reverse(s + [x]) == [x] + Reverse(s)
  {
    if s != [] {
      ReverseSnoc(s[1..], x);
      assert (s + [x])[1..] == s[1..] + [x];
    }
  }

  lemma {:induction false} ReverseTwice<T>(s: seq<T>)
    ensures Reverse(Reverse(s)) == s
  {
    if s != [] {
      ReverseTwice(s[1..]);
      ReverseSnoc(Reverse(s[1..]), s[0]);
      assert s == [s[0]] + s[1..];
    }
  }

  /** `x` fits in `n` bytes, for the widths in use. */
  predicate FitsIn(x: nat, n: nat) {
    if n == 0 then x == 0 else if n == 1 then x < 0x100 else if n == 2 then x < 0x1_0000
    else if n == 3 then x < 0x100_0000 else n == 4 && x < TWO32
  }

  lemma {:induction false} LowValueOfLowBytes(x: nat, n: nat)
    requires FitsIn(x, n)
    ensures LowValue(LowBytes(x, n)) == x
  {
    if n > 0 {
      LowValueOfLowBytes(x / 256, n - 1);
      assert LowBytes(x, n)[1..] == LowBytes(x / 256, n - 1);
    }
  }

  lemma BigRoundTrip(x: u32)
    ensures BigValue(Be32(x)) == x
  {
    ReverseTwice(Le32(x));
    LowValueOfLowBytes(x, 4);
  }

  lemma Assoc<T>(a: seq<T>, b: seq<T>, c: seq<T>)
    ensures a + (b + c) == (a + b) + c
  {
  }

  lemma Slices<T>(a: seq<T>, b: seq<T>)
    ensures (a + b)[..|a|] == a && (a + b)[|a|..] == b
  {
  }

  /** One element moved from what is left to what is done. */
  lemma TakeOne<T>(done: seq<T>, s: seq<T>, i: nat)
    requires i < |s|
    ensures done + s[i..] == (done + [s[i]]) + s[i + 1..]
  {
    assert s[i..] == [s[i]] + s[i + 1..];
    Assoc(done, [s[i]], s[i + 1..]);
  }

  /** One element after another, as `data[cursize++] = c` leaves a buffer of `max` bytes. */
  function Clip(c: seq<byte>, max: nat, s: seq<byte>): (r: seq<byte>)
    ensures |c| <= max ==> |r| <= max
    ensures |c| + |s| <= max ==> r == c + s
  {
    if |c| >= max then c else if |c| + |s| <= max then c + s else c + s[..max - |c|]
  }

  lemma ClipTwice(c: seq<byte>, max: nat, s: seq<byte>, t: seq<byte>)
    ensures Clip(Clip(c, max, s), max, t) == Clip(c, max, s + t)
  {
    if |c| >= max {
    } else if |c| + |s| <= max {
      assert (c + s) + t == c + (s + t);
      if |c| + |s| + |t| > max && |c| + |s| < max {
        assert (c + s) + t[..max - |c + s|] == c + (s + t)[..max - |c|];
      }
      if |c| + |s| == max {
        assert c + s == c + (s + t)[..max - |c|];
      }
    } else {
      assert s[..max - |c|] == (s + t)[..max - |c|];
    }
  }

  function Power2(n: nat): nat {
    if n == 0 then 1 else 2 * Power2(n - 1)
  }

  /** The number whose binary digits are `bs`, lowest first. */
  function Value(bs: seq<bool>): (x: nat)
    ensures x < Power2(|bs|)
  {
    if bs == [] then 0 else (if bs[0] then 1 else 0) + 2 * Value(bs[1..])
  }

  function Digits(x: nat, n: nat): (bs: seq<bool>)
    ensures |bs| == n
    decreases n, x
  {
    if n == 0 then [] else [x % 2 == 1] + Digits(x / 2, n - 1)
  }

  lemma {:induction false} DigitsOfValue(bs: seq<bool>)
    ensures Digits(Value(bs), |bs|) == bs
  {
    if bs != [] {
      DigitsOfValue(bs[1..]);
      assert bs == [bs[0]] + bs[1..];
    }
  }

  lemma {:induction false} ValueOfDigits(x: nat, n: nat)
    requires x < Power2(n)
    ensures Value(Digits(x, n)) == x
  {
    if n > 0 {
      ValueOfDigits(x / 2, n - 1);
      assert Digits(x, n)[1..] == Digits(x / 2, n - 1);
    }
  }

  lemma HalfThenDivide(x: nat, p: nat)
    requires p > 0
    ensures x / 2 / p == x / (2 * p)
  {
    var q, r := x / 2 / p, x / 2 % p;
    assert x / 2 == p * q + r;
    assert x == 2 * (p * q + r) + x % 2 == (2 * p) * q + (2 * r + x % 2);
    DivisionIs(x, 2 * p, q, 2 * r + x % 2);
  }

  lemma DivisionIs(x: nat, d: nat, q: nat, r: nat)
    requires d > 0 && x == d * q + r && r < d
    ensures x / d == q
  {
    var y: int := x / d;
    var k: int := y - q;
    assert d * k == r - x % d;
    SmallMultiple(d, k);
  }

  lemma SmallMultiple(d: int, k: int)
    requires -d < d * k < d
    ensures k == 0
  {
  }

  /** Digit `i` is the bit of weight `2^i`. */
  lemma {:induction false} DigitAt(x: nat, n: nat, i: nat)
    requires i < n
    ensures Power2(i) > 0 && (Digits(x, n)[i] <==> x / Power2(i) % 2 == 1)
  {
    if i > 0 {
      DigitAt(x / 2, n - 1, i - 1);
      HalfThenDivide(x, Power2(i - 1));
    }
  }

  lemma ClipNothing(c: seq<byte>, max: nat)
    ensures Clip(c, max, []) == c
  {
  }

  /** Concatenation of all blocks. */
  function Flatten<T>(ss: seq<seq<T>>): seq<T> {
    if ss == [] then [] else Flatten(ss[..|ss| - 1]) + ss[|ss| - 1]
  }

  lemma FlattenSnoc<T>(ss: seq<seq<T>>, s: seq<T>)
    ensures Flatten(ss + [s]) == Flatten(ss) + s
  {
    assert (ss + [s])[..|ss|] == ss;
  }

  lemma FlattenSplit<T>(ss: seq<seq<T>>)
    requires ss != []
    ensures Flatten(ss) == Flatten(ss[..|ss| - 1]) + ss[|ss| - 1]
  {
  }

  lemma FlattenNil<T>(s: seq<T>)
    ensures s + Flatten([]) == s
  {
    assert Flatten<T>([]) == [] && s + [] == s;
  }

  lemma {:induction false} FlattenAppend<T>(a: seq<seq<T>>, b: seq<seq<T>>)
    ensures Flatten(a + b) == Flatten(a) + Flatten(b)
  {
    hide Flatten;
    if b == [] {
      assert a + b == a;
      FlattenNil(Flatten(a));
    } else {
      var n := |b| - 1;
      FlattenAppend(a, b[..n]);
      assert a + b == (a + b[..n]) + [b[n]];
      FlattenSnoc(a + b[..n], b[n]);
      FlattenSplit(b);
      Assoc(Flatten(a), Flatten(b[..n]), b[n]);
    }
  }
}
