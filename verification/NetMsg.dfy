/** The byte cursor every message codec rests on. */
module NetMsg {
  import opened Bytes

  const MAX_MSGLEN := 8192
  const MAX_NQMSGLEN := 8000
  const PACKET_HEADER := 8

  /** The size of the buffer a datagram is put together in. */
  const SEND_BUFFER := MAX_NQMSGLEN + PACKET_HEADER

  /** What a reader still has in front of it; `overrun` once it has read past the end. */
  datatype Cursor = Cursor(rest: seq<byte>, overrun: bool)

  function Start(s: seq<byte>): Cursor {
    Cursor(s, false)
  }

  /** A read past the end gives 0 and moves `readpos` beyond `cursize` for good. */
  function GetByte(c: Cursor): (r: (byte, Cursor))
    ensures c.rest == [] ==> r == (0, Cursor([], true))
    ensures |r.1.rest| <= |c.rest|
  {
    if c.rest == [] then (0, Cursor([], true)) else (c.rest[0], c.(rest := c.rest[1..]))
  }

  /** The next `n` bytes as one number, lowest first. */
  function GetLow(c: Cursor, n: nat): (r: (nat, Cursor))
    ensures |r.1.rest| <= |c.rest|
    decreases n, c
  {
    if n == 0 then (0, c)
    else
      var r := GetLow(GetByte(c).1, n - 1);
      (GetByte(c).0 + 256 * r.0, r.1)
  }

  lemma GetLow2(c: Cursor)
    ensures GetLow(c, 2) == (GetByte(c).0 + 256 * GetByte(GetByte(c).1).0, GetByte(GetByte(c).1).1)
  {
    var c1 := GetByte(c).1;
    assert GetLow(c1, 1) == (GetByte(c1).0, GetByte(c1).1);
  }

  lemma GetLow4(c: Cursor)
    ensures GetLow(c, 4) == (GetLow(c, 2).0 + 0x1_0000 * GetLow(GetLow(c, 2).1, 2).0, GetLow(GetLow(c, 2).1, 2).1)
  {
    GetLow2(c);
    var c1 := GetByte(c).1;
    var c2 := GetByte(c1).1;
    var r := GetLow(c2, 2);
    assert GetLow(c1, 3) == (GetByte(c1).0 + 256 * r.0, r.1);
    assert GetLow(c, 4) == (GetByte(c).0 + 256 * (GetByte(c1).0 + 256 * r.0), r.1);
  }

  function GetShort(c: Cursor): (r: (u16, Cursor))
    ensures |r.1.rest| <= |c.rest|
  {
    GetLow2(c);
    (GetLow(c, 2).0, GetLow(c, 2).1)
  }

  function GetLong(c: Cursor): (r: (u32, Cursor))
    ensures |r.1.rest| <= |c.rest|
  {
    GetLow4(c);
    GetLow2(c);
    GetLow2(GetLow(c, 2).1);
    (GetLow(c, 4).0, GetLow(c, 4).1)
  }

  /** Four bytes, highest first; a missing one reads as 0 here too. */
  function GetBigLong(c: Cursor): (r: (u32, Cursor)) {
    var b0 := GetByte(c);
    var b1 := GetByte(b0.1);
    var b2 := GetByte(b1.1);
    var b3 := GetByte(b2.1);
    (Word(b3.0, b2.0, b1.0, b0.0), b3.1)
  }

  lemma BigLongOf(s: seq<byte>)
    requires |s| >= 4
    ensures GetBigLong(Start(s)) == (BigValue(s[..4]), Start(s[4..]))
  {
    hide BigValue;
    BigValueOf(s[..4]);
    assert s[1..][1..] == s[2..] && s[2..][1..] == s[3..] && s[3..][1..] == s[4..];
  }

  /** What is left behind a long, whether or not it was there. */
  lemma BigLongLeaves(c: Cursor)
    ensures GetBigLong(c).1 == if |c.rest| < 4 then Cursor([], true) else c.(rest := c.rest[4..])
  {
    if |c.rest| >= 4 {
      var s := c.rest;
      assert s[1..][1..] == s[2..] && s[2..][1..] == s[3..] && s[3..][1..] == s[4..];
    }
  }

  // ---- Where a reader is, in terms of places in the datagram ----

  /** Byte `i`, or the 0 that a reader past the end gets. */
  function ByteAt(s: seq<byte>, i: nat): byte {
    if i < |s| then s[i] else 0
  }

  /** A reader that started at the front and has taken `k` bytes. */
  function CursorAt(s: seq<byte>, k: nat): Cursor {
    if k <= |s| then Start(s[k..]) else Cursor([], true)
  }

  lemma ByteIsAt(s: seq<byte>, k: nat)
    ensures GetByte(CursorAt(s, k)) == (ByteAt(s, k), CursorAt(s, k + 1))
  {
    if k < |s| {
      assert s[k..][1..] == s[k + 1..];
    }
  }

  /** Words are little-endian. */
  lemma ShortIsAt(s: seq<byte>, k: nat)
    ensures GetShort(CursorAt(s, k)) == (ByteAt(s, k) + 256 * ByteAt(s, k + 1), CursorAt(s, k + 2))
  {
    hide GetByte, CursorAt;
    GetLow2(CursorAt(s, k));
    ByteIsAt(s, k);
    ByteIsAt(s, k + 1);
  }

  lemma LongIsAt(s: seq<byte>, k: nat)
    ensures GetLong(CursorAt(s, k)) ==
            (Word(ByteAt(s, k), ByteAt(s, k + 1), ByteAt(s, k + 2), ByteAt(s, k + 3)), CursorAt(s, k + 4))
  {
    hide GetByte, CursorAt;
    var c := CursorAt(s, k);
    GetLow4(c);
    GetLow2(c);
    GetLow2(GetLow(c, 2).1);
    ByteIsAt(s, k);
    ByteIsAt(s, k + 1);
    ByteIsAt(s, k + 2);
    ByteIsAt(s, k + 3);
  }

  /** Except in network order. */
  lemma BigLongIsAt(s: seq<byte>, k: nat)
    ensures GetBigLong(CursorAt(s, k)) ==
            (Word(ByteAt(s, k + 3), ByteAt(s, k + 2), ByteAt(s, k + 1), ByteAt(s, k)), CursorAt(s, k + 4))
  {
    hide GetByte, CursorAt;
    ByteIsAt(s, k);
    ByteIsAt(s, k + 1);
    ByteIsAt(s, k + 2);
    ByteIsAt(s, k + 3);
  }

  lemma ByteRoundTrip(x: byte, rest: seq<byte>)
    ensures GetByte(Start([x] + rest)) == (x, Start(rest))
  {
    assert ([x] + rest)[1..] == rest;
  }

  /** Reading what was written gives it back and consumes exactly that. */
  lemma {:induction false} LowRoundTrip(x: nat, n: nat, rest: seq<byte>)
    requires FitsIn(x, n)
    ensures GetLow(Start(LowBytes(x, n) + rest), n) == (x, Start(rest))
  {
    if n == 0 {
      assert LowBytes(x, n) + rest == rest;
    } else {
      LowRoundTrip(x / 256, n - 1, rest);
      assert LowBytes(x, n) + rest == [x % 256] + (LowBytes(x / 256, n - 1) + rest);
      ByteRoundTrip(x % 256, LowBytes(x / 256, n - 1) + rest);
    }
  }

  lemma ShortRoundTrip(x: u16, rest: seq<byte>)
    ensures GetShort(Start(Le16(x) + rest)) == (x, Start(rest))
  {
    LowRoundTrip(x, 2, rest);
  }

  lemma LongRoundTrip(x: u32, rest: seq<byte>)
    ensures GetLong(Start(Le32(x) + rest)) == (x, Start(rest))
  {
    LowRoundTrip(x, 4, rest);
  }

  /** The rest of a string too long for its buffer is read and lost. */
  function SkipString(c: Cursor): (r: Cursor)
    ensures |r.rest| <= |c.rest|
    decreases |c.rest|
  {
    if GetByte(c).0 == 0 then GetByte(c).1 else SkipString(GetByte(c).1)
  }

  /** A string read into a buffer with room for `room` characters and the terminator. */
  function GetString(c: Cursor, room: nat): (r: (seq<byte>, Cursor))
    ensures |r.0| <= room && 0 !in r.0
    ensures |r.1.rest| <= |c.rest|
    decreases room, c
  {
    if room == 0 then ([], SkipString(c))
    else if GetByte(c).0 == 0 then ([], GetByte(c).1)
    else
      var r := GetString(GetByte(c).1, room - 1);
      ([GetByte(c).0] + r.0, r.1)
  }

  /** A string that just fills the buffer still comes back whole, terminator consumed. */
  lemma {:induction false} StringRoundTrip(s: seq<byte>, rest: seq<byte>, room: nat)
    requires 0 !in s && |s| <= room
    ensures GetString(Start(s + [0] + rest), room) == (s, Start(rest))
  {
    if s == [] {
      assert s + [0] + rest == [0] + rest;
      ByteRoundTrip(0, rest);
    } else {
      assert s + [0] + rest == [s[0]] + (s[1..] + [0] + rest);
      ByteRoundTrip(s[0], s[1..] + [0] + rest);
      StringRoundTrip(s[1..], rest, room - 1);
      assert s == [s[0]] + s[1..];
    }
  }

  lemma {:induction false} SkipsString(s: seq<byte>, rest: seq<byte>)
    requires 0 !in s
    ensures SkipString(Start(s + [0] + rest)) == Start(rest)
  {
    if s == [] {
      assert s + [0] + rest == [0] + rest;
      ByteRoundTrip(0, rest);
    } else {
      assert s + [0] + rest == [s[0]] + (s[1..] + [0] + rest);
      ByteRoundTrip(s[0], s[1..] + [0] + rest);
      SkipsString(s[1..], rest);
    }
  }

  /** A longer one is cut, and what does not fit is gone from the message too. */
  lemma {:induction false} LongStringIsCut(s: seq<byte>, rest: seq<byte>, room: nat)
    requires 0 !in s && room <= |s|
    ensures GetString(Start(s + [0] + rest), room) == (s[..room], Start(rest))
  {
    if room == 0 {
      SkipsString(s, rest);
    } else {
      assert s + [0] + rest == [s[0]] + (s[1..] + [0] + rest);
      ByteRoundTrip(s[0], s[1..] + [0] + rest);
      LongStringIsCut(s[1..], rest, room - 1);
      assert s[..room] == [s[0]] + s[1..][..room - 1];
    }
  }

  /** All or nothing, and silent either way: `WriteData`. */
  function PutData(c: seq<byte>, max: nat, s: seq<byte>): (r: seq<byte>)
    ensures |c| <= max ==> |r| <= max
    ensures |c| + |s| <= max ==> r == Clip(c, max, s)
    ensures |c| + |s| > max ==> r == c
  {
    if |c| + |s| > max then c else c + s
  }

  class NetMsg {
    var data: array<byte>
    var readpos: nat
    var cursize: nat
    var maxsize: nat

    ghost predicate Valid()
      reads this
    {
      cursize <= maxsize <= data.Length && readpos <= cursize + 1
    }

    ghost function Contents(): (s: seq<byte>)
      requires Valid()
      reads this, data
    {
      data[..cursize]
    }

    ghost function Rest(): (c: Cursor)
      requires Valid()
      reads this, data
    {
      if readpos > cursize then Cursor([], true) else Cursor(data[readpos..cursize], false)
    }

    constructor (buffer: array<byte>, length: nat)
      requires length <= buffer.Length
      ensures Valid() && data == buffer && maxsize == length
      ensures Contents() == [] && Rest() == Start([])
    {
      data, maxsize := buffer, length;
      readpos, cursize := 0, 0;
    }

    method ReadByte() returns (b: byte)
      requires Valid()
      modifies this`readpos
      ensures Valid() && (b, Rest()) == GetByte(old(Rest()))
    {
      if readpos >= cursize {
        readpos := cursize + 1;
        return 0;
      }
      b := data[readpos];
      readpos := readpos + 1;
    }

    method ReadShort() returns (x: u16)
      requires Valid()
      modifies this`readpos
      ensures Valid() && (x, Rest()) == GetShort(old(Rest()))
    {
      GetLow2(Rest());
      var b1: int := ReadByte();
      var b2: int := ReadByte();
      x := b1 + 256 * b2;
    }

    method ReadLong() returns (x: u32)
      requires Valid()
      modifies this`readpos
      ensures Valid() && (x, Rest()) == GetLong(old(Rest()))
    {
      GetLow4(Rest());
      var s1: int := ReadShort();
      var s2: int := ReadShort();
      x := s1 + 0x1_0000 * s2;
    }

    method ReadBigLong() returns (x: u32)
      requires Valid()
      modifies this`readpos
      ensures Valid() && (x, Rest()) == GetBigLong(old(Rest()))
    {
      var b0: int := ReadByte();
      var b1: int := ReadByte();
      var b2: int := ReadByte();
      var b3: int := ReadByte();
      x := Word(b3, b2, b1, b0);
    }

    /** `room` characters and a terminator is what the caller's buffer holds. */
    method ReadString(room: nat) returns (s: seq<byte>)
      requires Valid()
      modifies this`readpos
      ensures Valid() && (s, Rest()) == GetString(old(Rest()), room)
    {
      s := [];
      var left := room;
      while left > 0
        invariant Valid() && 0 <= left <= room
        invariant GetString(old(Rest()), room).0 == s + GetString(Rest(), left).0
        invariant GetString(old(Rest()), room).1 == GetString(Rest(), left).1
      {
        var b := ReadByte();
        if b == 0 {
          assert s + [] == s;
          return;
        }
        assert forall tail: seq<byte> :: s + ([b] + tail) == s + [b] + tail;
        s := s + [b];
        left := left - 1;
      }
      SkipToEnd();
      assert s + [] == s;
    }

    method SkipToEnd()
      requires Valid()
      modifies this`readpos
      ensures Valid() && Rest() == SkipString(old(Rest()))
    {
      var b := ReadByte();
      while b != 0
        invariant Valid() && SkipString(old(Rest())) == if b == 0 then Rest() else SkipString(Rest())
        decreases |Rest().rest|, b
      {
        b := ReadByte();
      }
    }

    method WriteByte(c: byte)
      requires Valid()
      modifies this`cursize, data
      ensures Valid() && Contents() == Clip(old(Contents()), maxsize, [c])
    {
      if cursize >= maxsize {
        return;
      }
      data[cursize] := c;
      cursize := cursize + 1;
    }

    method WriteShort(x: u16)
      requires Valid()
      modifies this`cursize, data
      ensures Valid() && Contents() == Clip(old(Contents()), maxsize, Le16(x))
    {
      ClipTwice(Contents(), maxsize, [x % 256], [x / 256]);
      WriteByte(x % 256);
      WriteByte(x / 256);
      Le16Bytes(x);
      assert [x % 256] + [x / 256] == Le16(x);
    }

    method WriteLong(x: u32)
      requires Valid()
      modifies this`cursize, data
      ensures Valid() && Contents() == Clip(old(Contents()), maxsize, Le32(x))
    {
      var b0, b1, b2, b3 := x % 256, x / 256 % 256, x / 0x1_0000 % 256, x / 0x100_0000;
      ClipTwice(Contents(), maxsize, [b0], [b1]);
      ClipTwice(Contents(), maxsize, [b0] + [b1], [b2]);
      ClipTwice(Contents(), maxsize, [b0] + [b1] + [b2], [b3]);
      WriteByte(b0);
      WriteByte(b1);
      WriteByte(b2);
      WriteByte(b3);
      Le32Bytes(x);
      assert [b0] + [b1] + [b2] + [b3] == Le32(x);
    }

    method WriteBigLong(x: u32)
      requires Valid() && cursize + 4 <= maxsize
      modifies this`cursize, data
      ensures Valid() && Contents() == old(Contents()) + Be32(x)
    {
      Le32Bytes(x);
      BigValueOf(Le32(x));
      WriteByte(x / 0x100_0000);
      WriteByte(x / 0x1_0000 % 256);
      WriteByte(x / 256 % 256);
      WriteByte(x % 256);
      assert Contents() == old(Contents()) + Be32(x);
    }

    /** `str` is the text before its terminator. */
    method WriteString(str: seq<byte>)
      requires Valid() && 0 !in str
      modifies this`cursize, data
      ensures Valid() && Contents() == Clip(old(Contents()), maxsize, str + [0])
    {
      hide Clip;
      ClipNothing(Contents(), maxsize);
      for i := 0 to |str|
        invariant Valid() && Contents() == Clip(old(Contents()), maxsize, str[..i])
      {
        WriteByte(str[i]);
        ClipTwice(old(Contents()), maxsize, str[..i], [str[i]]);
        assert str[..i] + [str[i]] == str[..i + 1];
      }
      WriteByte(0);
      ClipTwice(old(Contents()), maxsize, str, [0]);
      assert str[..|str|] == str;
    }

    method WriteData(s: seq<byte>)
      requires Valid()
      modifies this`cursize, data
      ensures Valid() && Contents() == PutData(old(Contents()), maxsize, s)
    {
      if cursize + |s| > maxsize {
        return;
      }
      for i := 0 to |s|
        invariant cursize == old(cursize)
        invariant data[..cursize] == old(Contents())
        invariant data[cursize..cursize + i] == s[..i]
      {
        data[cursize + i] := s[i];
      }
      cursize := cursize + |s|;
    }
  }
}
