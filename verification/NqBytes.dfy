/** NetQuake datagrams byte by byte: what is sent, what is taken and what is refused. */
module NqBytes {
  import opened Bytes
  import opened NetMsg
  import opened NqChannel

  /** The sequence is bytes 4 to 7, highest first. */
  function SequenceAt(s: seq<byte>): u32 {
    Word(ByteAt(s, 7), ByteAt(s, 6), ByteAt(s, 5), ByteAt(s, 4))
  }

  lemma HeadingAt(s: seq<byte>)
    ensures ReadHeading(s) == Heading(Word(ByteAt(s, 3), ByteAt(s, 2), ByteAt(s, 1), ByteAt(s, 0)),
                                      ByteAt(s, 3) + 256 * ByteAt(s, 2), SequenceAt(s))
  {
    hide GetBigLong;
    assert CursorAt(s, 0) == Start(s);
    BigLongIsAt(s, 0);
    BigLongIsAt(s, 4);
  }

  lemma HighHalf(high: nat, low: u16)
    ensures var w := 0x1_0000 * high + low;
            w / 0x1_0000 == high && w / 0x2_0000 == high / 2 && w / 0x8_0000 == high / 8
            && w / 0x10_0000 == high / 16 && w / 0x8000_0000 == high / 0x8000
  {
  }

  lemma HighByte(b0: byte, b1: byte)
    ensures var h := 256 * b0 + b1;
            h % 2 == b1 % 2 && h / 2 % 2 == b1 / 2 % 2 && h / 8 % 2 == b1 / 8 % 2 && h / 16 % 2 == b1 / 16 % 2
            && h / 0x8000 == b0 / 128
  {
    var h := 256 * b0 + b1;
    assert h / 2 == 128 * b0 + b1 / 2 && h / 8 == 32 * b0 + b1 / 8 && h / 16 == 16 * b0 + b1 / 16;
  }

  /** The flags live in the two high bytes. */
  lemma FlagsAt(b0: byte, b1: byte, b2: byte, b3: byte)
    ensures var w := Word(b3, b2, b1, b0);
            && (Has(w, NETFLAG_CTL) <==> b0 >= 128) && (Has(w, NETFLAG_ACK) <==> b1 / 2 % 2 == 1)
            && (Has(w, NETFLAG_UNRELIABLE) <==> b1 / 16 % 2 == 1) && (Has(w, NETFLAG_DATA) <==> b1 % 2 == 1)
            && (Has(w, NETFLAG_EOM) <==> b1 / 8 % 2 == 1)
  {
    HighHalf(256 * b0 + b1, 256 * b2 + b3);
    HighByte(b0, b1);
  }

  /** Copying is undefined exactly for a datagram without a whole header behind fragments that make up for it. */
  lemma UndefinedExactly(c: Chan, s: seq<byte>)
    ensures Undefined(c, s) <==> |s| < 8 && 8 <= |c.fragment| + |s| < 8008
  {
  }

  /** A datagram of another length than it says, or with the control bit set, is not looked at. */
  predicate Foreign(s: seq<byte>) {
    |s| != ByteAt(s, 3) + 256 * ByteAt(s, 2) || ByteAt(s, 0) >= 128
  }

  lemma ForeignIsRefused(c: Chan, s: seq<byte>)
    requires !Undefined(c, s) && Foreign(s)
    ensures AfterProcess(c, s) == Outcome(c, None, 0, [])
  {
    hide Has, ReadHeading;
    HeadingAt(s);
    FlagsAt(ByteAt(s, 0), ByteAt(s, 1), ByteAt(s, 2), ByteAt(s, 3));
  }

  /** An acknowledgement moves the sender on exactly when it names the fragment in flight. */
  lemma AckExactly(c: Chan, s: seq<byte>)
    requires !Undefined(c, s) && !Foreign(s) && ByteAt(s, 1) / 2 % 2 == 1
    ensures var o := AfterProcess(c, s);
            && o.reply == None && o.result == 0
            && (SequenceAt(s) != c.reliableSequence ==> o.chan == c)
            && (SequenceAt(s) == c.reliableSequence ==>
                  o.chan == c.(reliableSequence := (c.reliableSequence + 1) % TWO32,
                               incomingReliableAcked := c.reliableSequence,
                               start := if |c.reliable| > c.start + 1024 then c.start + 1024 else 0,
                               reliable := if |c.reliable| > c.start + 1024 then c.reliable else []))
  {
    hide Has, ReadHeading;
    HeadingAt(s);
    FlagsAt(ByteAt(s, 0), ByteAt(s, 1), ByteAt(s, 2), ByteAt(s, 3));
  }

  /** Unreliable data is passed on exactly when nothing later has been. */
  lemma UnreliableExactly(c: Chan, s: seq<byte>)
    requires !Undefined(c, s) && !Foreign(s) && ByteAt(s, 1) / 2 % 2 == 0 && ByteAt(s, 1) / 16 % 2 == 1
    ensures var o := AfterProcess(c, s);
            && o.reply == None
            && (o.result == 1 <==> c.incomingUnreliable <= SequenceAt(s))
            && (o.result != 1 ==> o.result == 0 && o.chan == c)
            && (o.result == 1 ==>
                  && o.message == (if |s| < 8 then [] else s[8..])
                  && o.chan == c.(incomingUnreliable := SequenceAt(s),
                                  incomingAcked := (c.incomingAcked + 1) % TWO32))
  {
    hide Has, ReadHeading;
    HeadingAt(s);
    FlagsAt(ByteAt(s, 0), ByteAt(s, 1), ByteAt(s, 2), ByteAt(s, 3));
  }

  /** A fragment is always acknowledged, and taken exactly when it is the one awaited and there is room. */
  lemma DataExactly(c: Chan, s: seq<byte>)
    requires !Undefined(c, s) && !Foreign(s)
    requires ByteAt(s, 1) / 2 % 2 == 0 && ByteAt(s, 1) / 16 % 2 == 0 && ByteAt(s, 1) % 2 == 1
    ensures var o := AfterProcess(c, s);
            var awaited := SequenceAt(s) == c.incomingReliable;
            var room := 8 <= |c.fragment| + |s| < 8008;
            && o.reply == Some([0, 2, 0, 8] + [ByteAt(s, 4), ByteAt(s, 5), ByteAt(s, 6), ByteAt(s, 7)])
            && (!awaited ==> o.chan == c)
            && (awaited ==> o.chan.incomingReliable == (c.incomingReliable + 1) % TWO32)
            && (awaited && !room ==> o.chan.drop && o.chan.fragment == c.fragment)
            && (awaited && room ==>
                  && o.chan.drop == c.drop
                  && var whole := c.fragment + s[8..];
                     if ByteAt(s, 1) / 8 % 2 == 1 then o.message == whole && o.chan.fragment == []
                     else o.chan.fragment == whole)
            && (o.result == 2 <==> awaited && room && ByteAt(s, 1) / 8 % 2 == 1)
            && (o.result != 2 ==> o.result == 0)
  {
    hide Be32, Has, ReadHeading;
    HeadingAt(s);
    FlagsAt(ByteAt(s, 0), ByteAt(s, 1), ByteAt(s, 2), ByteAt(s, 3));
    BigBytes(0, 2, 0, 8);
    BigBytes(ByteAt(s, 4), ByteAt(s, 5), ByteAt(s, 6), ByteAt(s, 7));
    var named := [ByteAt(s, 4), ByteAt(s, 5), ByteAt(s, 6), ByteAt(s, 7)];
    assert Runt(SequenceAt(s)) == [0, 2, 0, 8] + named;
  }

  /** Anything without one of these flags changes nothing. */
  lemma UnflaggedIsRefused(c: Chan, s: seq<byte>)
    requires !Undefined(c, s) && !Foreign(s)
    requires ByteAt(s, 1) / 2 % 2 == 0 && ByteAt(s, 1) / 16 % 2 == 0 && ByteAt(s, 1) % 2 == 0
    ensures AfterProcess(c, s) == Outcome(c, None, 0, [])
  {
    hide Has, ReadHeading;
    HeadingAt(s);
    FlagsAt(ByteAt(s, 0), ByteAt(s, 1), ByteAt(s, 2), ByteAt(s, 3));
  }

  /** Network order, highest byte first. */
  lemma BigBytes(b0: byte, b1: byte, b2: byte, b3: byte)
    ensures Be32(Word(b3, b2, b1, b0)) == [b0, b1, b2, b3]
  {
    hide Reverse, LowBytes;
    var w := Word(b3, b2, b1, b0);
    LowDigit(b3, b2 + 256 * b1 + 0x1_0000 * b0);
    LowDigit(b2, b1 + 256 * b0);
    LowDigit(b1, b0);
    assert w / 0x1_0000 == w / 256 / 256 && w / 0x100_0000 == w / 256 / 256 / 256;
    Le32Bytes(w);
    BigValueOf(Le32(w));
  }

  /** The bytes of a sequence number. */
  function Ordered(n: u32): seq<byte> {
    [n / 0x100_0000, n / 0x1_0000 % 256, n / 256 % 256, n % 256]
  }

  lemma BigIsOrdered(n: u32)
    ensures Be32(n) == Ordered(n)
  {
    Le32Bytes(n);
    BigValueOf(Le32(n));
  }

  /** What one call sends, in bytes: at most one fragment of 1024 bytes, then the unreliable data. */
  lemma SendsExactly(c: Chan, data: seq<byte>)
    ensures var packets := AfterTransmit(c, data).1;
            var moved := c.reliable == [] && c.message != [];
            var m, start := if moved then c.message else c.reliable, if moved then 0 else c.start;
            var left := |m| - start;
            var n := if left > 1024 then 1024 else left;
            var loose := if |data| <= 8000 then data else [];
            var first := if left <= 0 then []
                         else [[0, if left <= 1024 then 9 else 1, (n + 8) / 256, (n + 8) % 256]
                               + Ordered(c.reliableSequence) + m[start..start + n]];
            var second := if data == [] then []
                          else [[0, 16, (|loose| + 8) / 256, (|loose| + 8) % 256]
                                + Ordered(c.outgoingUnreliable) + loose];
            && packets == first + second
            && AfterTransmit(c, data).0 ==
               c.(message := if moved then [] else c.message, reliable := m, start := start,
                  outgoingUnreliable := if data == [] then c.outgoingUnreliable
                                        else if c.outgoingUnreliable == 0xffff_ffff then 0
                                        else c.outgoingUnreliable + 1)
  {
    hide Be32, Ordered;
    BigIsOrdered(c.reliableSequence);
    BigIsOrdered(c.outgoingUnreliable);
    var c1 := Load(c);
    if Outstanding(c1) {
      var f := Piece(c1.reliable, c1.start);
      var n := |f.body| + 8;
      BigBytes(0, if f.eom then 9 else 1, n / 256, n % 256);
    }
    if data != [] {
      var n := |Trimmed(data)| + 8;
      BigBytes(0, 16, n / 256, n % 256);
    }
  }
}
