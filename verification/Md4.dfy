/** The driver of the MD4 checksum: blocks, padding and output. */
module Md4 {
  import opened Bytes

  const BLOCK := 64
  const TWO29: nat := 0x2000_0000

  datatype Words = Words(a: u32, b: u32, c: u32, d: u32)

  const BEGIN := Words(0x67452301, 0xefcdab89, 0x98badcfe, 0x10325476)

  /** The compression of one block of 16 words into the four of the state. */
  type Compress = (Words, seq<u32>) -> Words

  function WordAt(s: seq<byte>, i: nat): u32
    requires i + 4 <= |s|
  {
    (s[i] as int) + 256 * (s[i + 1] as int) + 0x1_0000 * (s[i + 2] as int) + 0x100_0000 * (s[i + 3] as int)
  }

  /** A block as words, low-order byte first. */
  function BlockWords(s: seq<byte>): (m: seq<u32>)
    requires |s| == BLOCK
    ensures |m| == 16
  {
    seq(16, i requires 0 <= i < 16 => WordAt(s, 4 * i))
  }

  function Fold(f: Compress, w: Words, s: seq<byte>): Words
    decreases |s|
  {
    if |s| < BLOCK then w else Fold(f, f(w, BlockWords(s[..BLOCK])), s[BLOCK..])
  }

  /** How many zeroes bring `n` bytes and the one bit to 56 modulo 64. */
  function Fill(n: nat): (z: nat)
    ensures z < BLOCK && (n + 1 + z + 8) % BLOCK == 0
  {
    var r := n % BLOCK;
    if r <= 55 then 55 - r else 119 - r
  }

  /** RFC 1320, sections 3.1 and 3.2: a one bit, zeroes up to 56 modulo 64, the length in bits as 64 bits. */
  function Padded(s: seq<byte>): (p: seq<byte>)
    ensures |p| % BLOCK == 0
  {
    s + ([0x80] + Zeros(Fill(|s|)) + LowBytes(8 * |s|, 8))
  }

  /** The padding as the code has it, the length in bits kept in a 32-bit word. */
  function PaddedHere(s: seq<byte>, n: nat): (p: seq<byte>)
    ensures |p| == |s| + 1 + Fill(|s|) + 8
  {
    s + ([0x80] + Zeros(Fill(|s|)) + (LowBytes(8 * n % TWO32, 4) + Zeros(4)))
  }

  lemma LowBytesOfEight(x: nat)
    ensures LowBytes(x, 8) == LowBytes(x, 4) + LowBytes(x / TWO32, 4)
  {
    var x1, x2, x3, x4 := x / 0x100, x / 0x1_0000, x / 0x100_0000, x / TWO32;
    assert x2 == x1 / 256 && x3 == x2 / 256 && x4 == x3 / 256;
    var t := LowBytes(x4, 4);
    assert LowBytes(x3, 5) == [x3 % 256] + t;
    assert LowBytes(x2, 6) == [x2 % 256, x3 % 256] + t;
    assert LowBytes(x1, 7) == [x1 % 256, x2 % 256, x3 % 256] + t;
    assert LowBytes(x3, 1) == [x3 % 256] + LowBytes(x4, 0) == [x3 % 256];
    assert LowBytes(x2, 2) == [x2 % 256] + LowBytes(x3, 1) == [x2 % 256, x3 % 256];
    assert LowBytes(x1, 3) == [x1 % 256] + LowBytes(x2, 2) == [x1 % 256, x2 % 256, x3 % 256];
    assert LowBytes(x, 4) == [x % 256] + LowBytes(x1, 3) == [x % 256, x1 % 256, x2 % 256, x3 % 256];
    assert LowBytes(x, 8) == [x % 256] + LowBytes(x1, 7);
  }

  lemma {:induction false} LowBytesOfZero(n: nat)
    ensures LowBytes(0, n) == Zeros(n)
  {
    if n > 0 {
      LowBytesOfZero(n - 1);
    }
  }

  /** The padding is the standard's exactly for messages shorter than 2^29 bytes. */
  lemma PaddingIsStandard(s: seq<byte>)
    requires |s| < TWO31
    ensures PaddedHere(s, |s|) == Padded(s) <==> |s| < TWO29
  {
    hide Fill, LowBytes, Zeros;
    var x := 8 * |s|;
    var front := [0x80] + Zeros(Fill(|s|));
    var a, b := LowBytes(x, 8), LowBytes(x % TWO32, 4) + Zeros(4);
    assert Padded(s)[|s|..][|front|..] == a && PaddedHere(s, |s|)[|s|..][|front|..] == b;
    LengthIsStandard(x);
  }

  lemma LengthIsStandard(x: nat)
    requires x < 4 * TWO32
    ensures LowBytes(x % TWO32, 4) + Zeros(4) == LowBytes(x, 8) <==> x < TWO32
  {
    LowBytesOfEight(x);
    LowBytesOfZero(4);
    var y := x / TWO32;
    assert y < 4 && (y == 0 <==> x < TWO32) && y % 256 == y;
    assert LowBytes(y, 4)[0] == y;
    hide LowBytes;
    var a, b := LowBytes(x, 8), LowBytes(x % TWO32, 4) + Zeros(4);
    assert a[4] == LowBytes(y, 4)[0] && b[4] == 0;
  }

  lemma FoldBlock(f: Compress, w: Words, block: seq<byte>, rest: seq<byte>)
    requires |block| == BLOCK
    ensures Fold(f, w, block + rest) == Fold(f, f(w, BlockWords(block)), rest)
  {
    assert (block + rest)[..BLOCK] == block && (block + rest)[BLOCK..] == rest;
  }

  /** Taking whole blocks off the front and padding what is left is padding the whole. */
  lemma BlockThenPad(f: Compress, w: Words, s: seq<byte>, n: nat)
    requires |s| >= BLOCK
    ensures Fold(f, w, PaddedHere(s, n)) == Fold(f, f(w, BlockWords(s[..BLOCK])), PaddedHere(s[BLOCK..], n))
  {
    assert Fill(|s|) == Fill(|s[BLOCK..]|);
    assert PaddedHere(s, n) == s[..BLOCK] + PaddedHere(s[BLOCK..], n);
    FoldBlock(f, w, s[..BLOCK], PaddedHere(s[BLOCK..], n));
  }

  /** A tail that leaves room for the length makes one block, any other makes two. */
  lemma TailFolds(f: Compress, w: Words, s: seq<byte>, n: nat)
    requires |s| < BLOCK
    ensures var p := PaddedHere(s, n);
            if |s| <= 55 then |p| == BLOCK && Fold(f, w, p) == f(w, BlockWords(p))
            else |p| == 2 * BLOCK && Fold(f, w, p) == f(f(w, BlockWords(p[..BLOCK])), BlockWords(p[BLOCK..]))
  {
    var p := PaddedHere(s, n);
    if |s| <= 55 {
      assert p + [] == p;
      FoldBlock(f, w, p, []);
    } else {
      assert p == p[..BLOCK] + p[BLOCK..] && p[BLOCK..] + [] == p[BLOCK..];
      FoldBlock(f, w, p[..BLOCK], p[BLOCK..]);
      FoldBlock(f, f(w, BlockWords(p[..BLOCK])), p[BLOCK..], []);
    }
  }

  function Output(w: Words): seq<byte> {
    Le32(w.a) + Le32(w.b) + Le32(w.c) + Le32(w.d)
  }

  /** The checksum of RFC 1320, sections 3.1 to 3.5, over a given compression. */
  function Digest(f: Compress, s: seq<byte>): seq<byte> {
    Output(Fold(f, BEGIN, Padded(s)))
  }

  /** Words are read and written low-order byte first, and the four of the output come in order. */
  lemma OutputReadsBack(w: Words)
    ensures var s := Output(w);
            |s| == 16 && WordAt(s, 0) == w.a && WordAt(s, 4) == w.b && WordAt(s, 8) == w.c && WordAt(s, 12) == w.d
  {
    hide Le32;
    WordOfLe32([], w.a, Le32(w.b) + Le32(w.c) + Le32(w.d));
    WordOfLe32(Le32(w.a), w.b, Le32(w.c) + Le32(w.d));
    WordOfLe32(Le32(w.a) + Le32(w.b), w.c, Le32(w.d));
    WordOfLe32(Le32(w.a) + Le32(w.b) + Le32(w.c), w.d, []);
    var s := Output(w);
    assert s == [] + Le32(w.a) + (Le32(w.b) + Le32(w.c) + Le32(w.d));
    assert s == Le32(w.a) + Le32(w.b) + (Le32(w.c) + Le32(w.d));
    assert s == Le32(w.a) + Le32(w.b) + Le32(w.c) + Le32(w.d) + [];
  }

  lemma WordOfLe32(front: seq<byte>, x: u32, back: seq<byte>)
    ensures WordAt(front + Le32(x) + back, |front|) == x
  {
    Le32Bytes(x);
    var s, n := front + Le32(x) + back, |front|;
    assert s[n..n + 4] == Le32(x);
    assert s[n] == s[n..n + 4][0] && s[n + 1] == s[n..n + 4][1];
    assert s[n + 2] == s[n..n + 4][2] && s[n + 3] == s[n..n + 4][3];
    var x1, x2 := x / 256, x / 0x1_0000;
    assert x2 == x1 / 256 && x / 0x100_0000 == x2 / 256;
  }

  /** RFC 1320, section 3.3: the state begins as the bytes 01 23 45 67, 89 ab cd ef, and the same backwards. */
  lemma BeginsAsBytes()
    ensures Output(BEGIN) == [0x01, 0x23, 0x45, 0x67, 0x89, 0xab, 0xcd, 0xef,
                              0xfe, 0xdc, 0xba, 0x98, 0x76, 0x54, 0x32, 0x10]
  {
    hide Le32, LowBytes;
    Le32Bytes(BEGIN.a);
    Le32Bytes(BEGIN.b);
    Le32Bytes(BEGIN.c);
    Le32Bytes(BEGIN.d);
  }

  method Copy64(input: seq<byte>) returns (m: array<u32>)
    requires |input| == BLOCK
    ensures fresh(m) && m[..] == BlockWords(input)
  {
    m := new u32[16];
    for i := 0 to 16
      invariant forall j :: 0 <= j < i ==> m[j] == WordAt(input, 4 * j)
    {
      m[i] := WordAt(input, 4 * i);
    }
  }

  method Copy4(out: array<byte>, at: nat, x: u32)
    requires at + 4 <= out.Length
    modifies out
    ensures out[at..at + 4] == Le32(x)
    ensures forall j :: 0 <= j < out.Length && !(at <= j < at + 4) ==> out[j] == old(out[j])
  {
    out[at] := x % 256;
    out[at + 1] := x / 256 % 256;
    out[at + 2] := x / 0x1_0000 % 256;
    out[at + 3] := x / 0x100_0000;
    Le32Bytes(x);
  }

  /** The bytes of the padding, one by one. */
  lemma PaddedAt(s: seq<byte>, n: nat, i: nat)
    requires |s| < BLOCK && i < |PaddedHere(s, n)|
    ensures var at := |PaddedHere(s, n)| - 8;
            PaddedHere(s, n)[i] == if i < |s| then s[i] else if i == |s| then 0x80
                                   else if at <= i < at + 4 then LowBytes(8 * n % TWO32, 4)[i - at] else 0
  {
    hide LowBytes;
    var low, z := LowBytes(8 * n % TWO32, 4), Zeros(Fill(|s|));
    assert PaddedHere(s, n) == s + [0x80] + z + low + Zeros(4);
  }

  method PadBuffer(input: seq<byte>, b: u32, ghost total: nat) returns (buf: array<byte>)
    requires |input| < BLOCK && b == 8 * total % TWO32
    ensures fresh(buf) && buf.Length == 128
    ensures |PaddedHere(input, total)| == (if |input| <= 55 then 64 else 128)
    ensures buf[..|PaddedHere(input, total)|] == PaddedHere(input, total)
  {
    var n := |input|;
    buf := new byte[128](_ => 0);
    for i := 0 to n
      invariant forall j :: 0 <= j < i ==> buf[j] == input[j]
      invariant forall j :: i <= j < 128 ==> buf[j] == 0
    {
      buf[i] := input[i];
    }
    buf[n] := 0x80;
    var at := if n <= 55 then 56 else 120;
    Copy4(buf, at, b);
    ghost var p := PaddedHere(input, total);
    assert |p| == at + 8;
    forall i | 0 <= i < |p| ensures buf[i] == p[i] {
      PaddedAt(input, total, i);
      if at <= i < at + 4 {
        assert buf[i] == buf[at..at + 4][i - at];
      }
    }
    assert buf[..|p|] == p;
  }

  class Mdfour {
    const compress: Compress
    var words: Words
    var totalN: u32

    constructor (compress: Compress)
      ensures words == BEGIN && totalN == 0 && this.compress == compress
    {
      this.compress := compress;
      words, totalN := BEGIN, 0;
    }

    method Block(input: seq<byte>)
      requires |input| == BLOCK
      modifies this`words
      ensures words == compress(old(words), BlockWords(input))
    {
      var m := Copy64(input);
      words := compress(words, m[..]);
    }

    /** `mdfour_tail`: at most 63 bytes, padded into one block or two. */
    method Tail(input: seq<byte>)
      requires |input| < BLOCK && totalN + |input| < TWO32
      modifies this
      ensures totalN == old(totalN) + |input|
      ensures words == Fold(compress, old(words), PaddedHere(input, totalN))
    {
      totalN := totalN + |input|;
      TailFolds(compress, words, input, totalN);
      ghost var p := PaddedHere(input, totalN);
      hide Fold, PaddedHere, BlockWords;
      var buf := PadBuffer(input, 8 * totalN % TWO32, totalN);
      Block(buf[..64]);
      if |input| > 55 {
        assert buf[64..128] == buf[..128][64..] && buf[..64] == buf[..128][..64];
        Block(buf[64..128]);
      }
    }

    /** `mdfour_update`, given the whole message. */
    method Update(input: seq<byte>)
      requires |input| < TWO31 && totalN == 0
      modifies this
      ensures words == Fold(compress, old(words), PaddedHere(input, |input|))
    {
      var at, n := 0, |input|;
      assert input[0..] == input;
      while n >= BLOCK
        invariant 0 <= at && 0 <= n && at + n == |input| && totalN == at
        invariant Fold(compress, words, PaddedHere(input[at..], |input|))
          == Fold(compress, old(words), PaddedHere(input, |input|))
      {
        BlockThenPad(compress, words, input[at..], |input|);
        assert input[at..][..BLOCK] == input[at..at + BLOCK] && input[at..][BLOCK..] == input[at + BLOCK..];
        Block(input[at..at + BLOCK]);
        at := at + BLOCK;
        n := n - BLOCK;
        totalN := totalN + BLOCK;
      }
      Tail(input[at..]);
    }

    method Result(out: array<byte>)
      requires out.Length == 16
      modifies out
      ensures out[..] == Output(words)
    {
      Copy4(out, 0, words.a);
      Copy4(out, 4, words.b);
      Copy4(out, 8, words.c);
      Copy4(out, 12, words.d);
      assert out[..] == out[0..4] + out[4..8] + out[8..12] + out[12..16];
    }
  }

  /** The checksum of a message: the standard's for every message shorter than 2^29 bytes. */
  method Checksum(compress: Compress, input: seq<byte>) returns (out: array<byte>)
    requires |input| < TWO31
    ensures fresh(out)
    ensures |input| < TWO29 ==> out[..] == Digest(compress, input)
  {
    PaddingIsStandard(input);
    var md := new Mdfour(compress);
    md.Update(input);
    out := new byte[16](_ => 0);
    md.Result(out);
  }
}
