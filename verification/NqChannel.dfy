/** The NetQuake half of `netchan_t`: stop-and-wait over fragments of 1024 bytes. */
module NqChannel {
  import opened Bytes
  import opened NetMsg

  const MAX_NQDATAGRAM := 1024

  const NETFLAG_DATA: int := 0x0001_0000
  const NETFLAG_ACK: int := 0x0002_0000
  const NETFLAG_EOM: int := 0x0008_0000
  const NETFLAG_UNRELIABLE: int := 0x0010_0000
  const NETFLAG_CTL: int := 0x8000_0000

  /** `reliable` is the first `reliable_length` bytes of `reliable_buf`, `fragment` the first
      `in_fragment_length` bytes of `in_fragment_buf`. */
  datatype Chan = Chan(
    maxsize: nat, drop: bool, message: seq<byte>, reliable: seq<byte>, start: nat,
    reliableSequence: u32, incomingReliable: u32, fragment: seq<byte>,
    outgoingUnreliable: u32, incomingUnreliable: u32, incomingAcked: u32, incomingReliableAcked: u32)

  function Setup(maxsize: nat): Chan {
    Chan(maxsize, false, [], [], 0, 0, 0, [], 0, 0, 0, 0)
  }

  /** A datagram: flags and total length, then the sequence, both in network order, then the body. */
  function Datagram(flags: nat, sequence: u32, body: seq<byte>): (s: seq<byte>)
    requires flags + 8 + |body| < TWO32
  {
    Be32(flags + 8 + |body|) + Be32(sequence) + body
  }

  datatype Fragment = Fragment(body: seq<byte>, eom: bool)

  /** The fragment of a reliable message that starts at `start`. */
  function Piece(m: seq<byte>, start: nat): (f: Fragment)
    requires start < |m|
    ensures 0 < |f.body| <= MAX_NQDATAGRAM
  {
    var end := if |m| - start > MAX_NQDATAGRAM then start + MAX_NQDATAGRAM else |m|;
    Fragment(m[start..end], end == |m|)
  }

  function DataFlags(f: Fragment): nat {
    if f.eom then NETFLAG_DATA + NETFLAG_EOM else NETFLAG_DATA
  }

  function Load(c: Chan): Chan {
    if c.reliable == [] && c.message != [] then c.(reliable := c.message, start := 0, message := []) else c
  }

  predicate Outstanding(c: Chan) {
    c.start < |c.reliable|
  }

  function ReliablePart(c: Chan): seq<seq<byte>> {
    if Outstanding(c) then
      [Datagram(DataFlags(Piece(c.reliable, c.start)), c.reliableSequence, Piece(c.reliable, c.start).body)]
    else []
  }

  /** What `WriteData` leaves of unreliable data behind the eight header bytes. */
  function Trimmed(data: seq<byte>): (s: seq<byte>)
    ensures |s| + 8 <= SEND_BUFFER
  {
    if 8 + |data| <= SEND_BUFFER then data else []
  }

  function UnreliablePart(c: Chan, data: seq<byte>): seq<seq<byte>> {
    if data == [] then [] else [Datagram(NETFLAG_UNRELIABLE, c.outgoingUnreliable, Trimmed(data))]
  }

  /** One call of `Netchan_Transmit`: the new state and the datagrams, in order. */
  function AfterTransmit(c: Chan, data: seq<byte>): (Chan, seq<seq<byte>>) {
    var c1 := Load(c);
    (if data == [] then c1 else c1.(outgoingUnreliable := (c1.outgoingUnreliable + 1) % TWO32),
     ReliablePart(c1) + UnreliablePart(c1, data))
  }

  datatype Heading = Heading(flags: u32, length: u32, sequence: u32)

  /** A datagram too short for its header reads as if zeroes followed it. */
  function ReadHeading(bytes: seq<byte>): Heading {
    var w := GetBigLong(Start(bytes));
    Heading(w.0, w.0 % TWO16, GetBigLong(w.1).0)
  }

  function Payload(bytes: seq<byte>): seq<byte> {
    if |bytes| < 8 then [] else bytes[8..]
  }

  /** The fragment buffer would not hold the payload, or its length comes out negative, which the
      unsigned comparison takes for a huge one. */
  predicate TooBig(c: Chan, bytes: seq<byte>) {
    |c.fragment| + |bytes| < 8 || |c.fragment| + |bytes| - 8 >= MAX_NQMSGLEN
  }

  /** A copy of negative length that the comparison lets through. */
  predicate Undefined(c: Chan, bytes: seq<byte>) {
    |bytes| < 8 && !TooBig(c, bytes)
  }

  predicate Has(flags: u32, flag: nat)
    requires flag > 0
  {
    flags / flag % 2 == 1
  }

  /** The new state, the datagram sent in reply, the value returned, and the message it makes readable. */
  datatype Outcome = Outcome(chan: Chan, reply: Option<seq<byte>>, result: nat, message: seq<byte>)

  function TakeAck(c: Chan, sequence: u32): Chan {
    if sequence != c.reliableSequence then c
    else
      var done := c.start + MAX_NQDATAGRAM >= |c.reliable|;
      c.(start := if done then 0 else c.start + MAX_NQDATAGRAM, reliable := if done then [] else c.reliable,
         incomingReliableAcked := c.reliableSequence, reliableSequence := (c.reliableSequence + 1) % TWO32)
  }

  function Runt(sequence: u32): seq<byte> {
    Datagram(NETFLAG_ACK, sequence, [])
  }

  function TakeData(c: Chan, h: Heading, bytes: seq<byte>): Outcome {
    var reply := Some(Runt(h.sequence));
    if h.sequence != c.incomingReliable then Outcome(c, reply, 0, [])
    else
      var c1 := c.(incomingReliable := (c.incomingReliable + 1) % TWO32);
      if TooBig(c, bytes) then Outcome(c1.(drop := true), reply, 0, [])
      else if Has(h.flags, NETFLAG_EOM) then Outcome(c1.(fragment := []), reply, 2, c.fragment + Payload(bytes))
      else Outcome(c1.(fragment := c.fragment + Payload(bytes)), reply, 0, [])
  }

  /** One call of `NQNetchan_Process`. */
  function AfterProcess(c: Chan, bytes: seq<byte>): Outcome
    requires !Undefined(c, bytes)
  {
    var h := ReadHeading(bytes);
    if |bytes| != h.length || Has(h.flags, NETFLAG_CTL) then Outcome(c, None, 0, [])
    else if Has(h.flags, NETFLAG_ACK) then Outcome(TakeAck(c, h.sequence), None, 0, [])
    else if Has(h.flags, NETFLAG_UNRELIABLE) then
      if h.sequence < c.incomingUnreliable then Outcome(c, None, 0, [])
      else Outcome(c.(incomingUnreliable := h.sequence, incomingAcked := (c.incomingAcked + 1) % TWO32), None, 1,
                   Payload(bytes))
    else if Has(h.flags, NETFLAG_DATA) then TakeData(c, h, bytes)
    else Outcome(c, None, 0, [])
  }

  lemma HeadingRoundTrip(flags: nat, sequence: u32, body: seq<byte>)
    requires flags + 8 + |body| < TWO32 && flags % TWO16 == 0 && 8 + |body| < TWO16
    ensures var s := Datagram(flags, sequence, body);
      |s| == 8 + |body| && s[8..] == body && ReadHeading(s) == Heading(flags + 8 + |body|, 8 + |body|, sequence)
  {
    hide Be32, BigValue, GetBigLong;
    var n := flags + 8 + |body|;
    var s := Datagram(flags, sequence, body);
    assert s[..4] == Be32(n) && s[4..][..4] == Be32(sequence);
    BigLongOf(s);
    BigLongOf(s[4..]);
    BigRoundTrip(n);
    BigRoundTrip(sequence);
  }

  lemma FlagsOf(n: nat)
    requires n < TWO16
    ensures !Has(NETFLAG_DATA + n, NETFLAG_CTL) && !Has(NETFLAG_DATA + n, NETFLAG_ACK)
      && !Has(NETFLAG_DATA + n, NETFLAG_UNRELIABLE) && Has(NETFLAG_DATA + n, NETFLAG_DATA)
      && !Has(NETFLAG_DATA + n, NETFLAG_EOM)
    ensures var f := NETFLAG_DATA + NETFLAG_EOM + n;
      !Has(f, NETFLAG_CTL) && !Has(f, NETFLAG_ACK) && !Has(f, NETFLAG_UNRELIABLE) && Has(f, NETFLAG_DATA)
      && Has(f, NETFLAG_EOM)
    ensures !Has(NETFLAG_ACK + n, NETFLAG_CTL) && Has(NETFLAG_ACK + n, NETFLAG_ACK)
    ensures !Has(NETFLAG_UNRELIABLE + n, NETFLAG_CTL) && !Has(NETFLAG_UNRELIABLE + n, NETFLAG_ACK)
      && Has(NETFLAG_UNRELIABLE + n, NETFLAG_UNRELIABLE)
  {
  }

  /** What each kind of datagram does to the end that processes it. */
  lemma ProcessesData(c: Chan, f: Fragment, sequence: u32)
    requires |f.body| <= MAX_NQDATAGRAM
    ensures var s := Datagram(DataFlags(f), sequence, f.body);
      && |s| == 8 + |f.body| && Payload(s) == f.body
      && AfterProcess(c, s) == TakeData(c, Heading(DataFlags(f) + 8 + |f.body|, 8 + |f.body|, sequence), s)
      && (Has(DataFlags(f) + 8 + |f.body|, NETFLAG_EOM) <==> f.eom)
  {
    HeadingRoundTrip(DataFlags(f), sequence, f.body);
    FlagsOf(8 + |f.body|);
  }

  lemma ProcessesAck(c: Chan, sequence: u32)
    ensures |Runt(sequence)| >= 8
    ensures AfterProcess(c, Runt(sequence)) == Outcome(TakeAck(c, sequence), None, 0, [])
  {
    HeadingRoundTrip(NETFLAG_ACK, sequence, []);
    FlagsOf(8);
  }

  lemma ProcessesUnreliable(c: Chan, sequence: u32, data: seq<byte>)
    requires |data| + 8 <= SEND_BUFFER
    ensures var s := Datagram(NETFLAG_UNRELIABLE, sequence, data);
      && |s| >= 8
      && AfterProcess(c, s) ==
         if sequence < c.incomingUnreliable then Outcome(c, None, 0, [])
         else Outcome(c.(incomingUnreliable := sequence, incomingAcked := (c.incomingAcked + 1) % TWO32), None, 1, data)
  {
    HeadingRoundTrip(NETFLAG_UNRELIABLE, sequence, data);
    FlagsOf(8 + |data|);
  }

  class NqNetChan {
    var drop: bool
    var message: NetMsg
    var reliableBuf: array<byte>
    var reliableLength: nat
    var reliableStart: nat
    var reliableSequence: u32
    var incomingReliableSequence: u32
    var inFragmentBuf: array<byte>
    var inFragmentLength: nat
    var outgoingUnreliable: u32
    var incomingUnreliable: u32
    var incomingAcknowledged: u32
    var incomingReliableAcknowledged: u32

    ghost predicate Valid()
      reads this, message
    {
      && message.Valid() && message.readpos == 0
      && message.data.Length == reliableBuf.Length == MAX_MSGLEN && inFragmentBuf.Length == MAX_NQMSGLEN
      && message.data != reliableBuf && message.data != inFragmentBuf
      && reliableLength <= reliableBuf.Length && inFragmentLength <= inFragmentBuf.Length
      && reliableStart <= reliableLength
    }

    ghost function State(): Chan
      requires Valid()
      reads this, message, message.data, reliableBuf, inFragmentBuf
    {
      Chan(message.maxsize, drop, message.Contents(), reliableBuf[..reliableLength], reliableStart,
           reliableSequence, incomingReliableSequence, inFragmentBuf[..inFragmentLength],
           outgoingUnreliable, incomingUnreliable, incomingAcknowledged, incomingReliableAcknowledged)
    }

    constructor ()
      ensures Valid() && State() == Setup(MAX_MSGLEN)
      ensures State() == Chan(8192, false, [], [], 0, 0, 0, [], 0, 0, 0, 0)
      ensures fresh(message) && fresh(message.data) && fresh(reliableBuf) && fresh(inFragmentBuf)
    {
      reliableBuf := new byte[MAX_MSGLEN];
      inFragmentBuf := new byte[MAX_NQMSGLEN];
      var buffer := new byte[MAX_MSGLEN];
      message := new NetMsg(buffer, MAX_MSGLEN);
      drop, reliableLength, reliableStart, inFragmentLength := false, 0, 0, 0;
      reliableSequence, incomingReliableSequence, outgoingUnreliable := 0, 0, 0;
      incomingUnreliable, incomingAcknowledged, incomingReliableAcknowledged := 0, 0, 0;
      new;
      assert Valid();
      ghost var c := State();
      assert c.message == [] && c.reliable == [] && c.fragment == [];
      assert c == Setup(MAX_MSGLEN);
    }

    method Transmit(data: seq<byte>) returns (packets: seq<seq<byte>>)
      requires Valid()
      modifies this, message`cursize, reliableBuf
      ensures Valid() && message == old(message) && inFragmentBuf == old(inFragmentBuf)
        && reliableBuf == old(reliableBuf)
      ensures (State(), packets) == AfterTransmit(old(State()), data)
    {
      hide Datagram, Piece, Clip;
      if reliableLength == 0 && message.cursize != 0 {
        TakeMessage();
      }
      ghost var loaded := State();
      assert loaded == Load(old(State()));
      packets := SendFragment();
      if data != [] {
        var packet := Packet(NETFLAG_UNRELIABLE, outgoingUnreliable, Trimmed(data));
        packets := packets + [packet];
        outgoingUnreliable := (outgoingUnreliable + 1) % TWO32;
      }
      assert packets == ReliablePart(loaded) + UnreliablePart(loaded, data);
    }

    method SendFragment() returns (packets: seq<seq<byte>>)
      requires Valid()
      ensures packets == ReliablePart(State())
    {
      if reliableStart >= reliableLength {
        return [];
      }
      var i := if reliableLength - reliableStart > MAX_NQDATAGRAM then MAX_NQDATAGRAM
        else reliableLength - reliableStart;
      var flags := if reliableStart + i == reliableLength then NETFLAG_DATA + NETFLAG_EOM else NETFLAG_DATA;
      var body := reliableBuf[reliableStart..reliableStart + i];
      assert Piece(State().reliable, State().start) == Fragment(body, reliableStart + i == reliableLength);
      var packet := Packet(flags, reliableSequence, body);
      packets := [packet];
    }

    method TakeMessage()
      requires Valid() && reliableLength == 0 && message.cursize != 0
      modifies this`reliableLength, this`reliableStart, message`cursize, reliableBuf
      ensures Valid() && State() == Load(old(State()))
    {
      forall i | 0 <= i < message.cursize {
        reliableBuf[i] := message.data[i];
      }
      reliableLength := message.cursize;
      reliableStart := 0;
      message.cursize := 0;
      assert reliableBuf[..reliableLength] == old(message.data[..message.cursize]);
    }

    /** Header last: the length is only known once the body is written. */
    method Packet(flags: nat, sequence: u32, body: seq<byte>) returns (packet: seq<byte>)
      requires flags <= NETFLAG_CTL && 8 + |body| <= SEND_BUFFER
      ensures packet == Datagram(flags, sequence, body)
    {
      hide Be32, PutData, Clip;
      ghost var w, n := Be32(flags + 8 + |body|), Be32(sequence);
      var buffer := new byte[SEND_BUFFER];
      var send := new NetMsg(buffer, SEND_BUFFER);
      send.WriteBigLong(flags + 8 + |body|);
      assert send.Contents() == w by { assert [] + w == w; }
      send.WriteBigLong(sequence);
      assert send.Contents() == w + n;
      send.WriteData(body);
      packet := send.data[..send.cursize];
    }

    /** `reply` is sent back at once; on result 2 `msg` has become the whole reassembled message. */
    method Process(msg: NetMsg) returns (result: nat, reply: Option<seq<byte>>)
      requires Valid() && msg.Valid() && msg != message && !Undefined(State(), msg.Contents())
      requires msg.data != inFragmentBuf && msg.data != message.data && msg.data != reliableBuf
      modifies this, msg, msg.data, inFragmentBuf
      ensures Valid() && msg.Valid() && message == old(message) && msg.data == old(msg.data)
      ensures var o := AfterProcess(old(State()), old(msg.Contents()));
        && State() == o.chan && reply == o.reply && result == o.result
        && (result == 1 ==> msg.Rest() == Cursor(o.message, old(msg.cursize) < 8))
        && (result == 2 ==>
              msg.Contents() == PutData([], msg.maxsize, o.message) && msg.Rest() == Start(msg.Contents()))
    {
      hide ReadHeading, Datagram, PutData, TakeAck, Has;
      var h := ReadHeader(msg);
      reply := None;
      if msg.cursize != h.length || Has(h.flags, NETFLAG_CTL) {
        return 0, None;
      }
      if Has(h.flags, NETFLAG_ACK) {
        AcceptAck(h.sequence);
        return 0, None;
      }
      if Has(h.flags, NETFLAG_UNRELIABLE) {
        if h.sequence < incomingUnreliable {
          return 0, None;
        }
        incomingUnreliable := h.sequence;
        incomingAcknowledged := (incomingAcknowledged + 1) % TWO32;
        return 1, None;
      }
      if Has(h.flags, NETFLAG_DATA) {
        var runt := Packet(NETFLAG_ACK, h.sequence, []);
        reply := Some(runt);
        result := AcceptData(msg, h);
        return;
      }
      result := 0;
    }

    method ReadHeader(msg: NetMsg) returns (h: Heading)
      requires Valid() && msg.Valid() && msg != message
      modifies msg`readpos
      ensures msg.Valid() && Valid()
      ensures h == ReadHeading(msg.Contents()) && msg.Rest() == Cursor(Payload(msg.Contents()), msg.cursize < 8)
    {
      hide GetBigLong;
      msg.readpos := 0;
      ghost var s := msg.Contents();
      assert msg.Rest() == Start(s);
      BigLongLeaves(Start(s));
      BigLongLeaves(GetBigLong(Start(s)).1);
      var w := msg.ReadBigLong();
      var sequence := msg.ReadBigLong();
      h := Heading(w, w % TWO16, sequence);
    }

    method AcceptAck(sequence: u32)
      requires Valid()
      modifies this
      ensures Valid() && State() == TakeAck(old(State()), sequence) && message == old(message)
    {
      if sequence == reliableSequence {
        if reliableStart + MAX_NQDATAGRAM >= reliableLength {
          reliableLength := 0;
          reliableStart := 0;
        } else {
          reliableStart := reliableStart + MAX_NQDATAGRAM;
        }
        incomingReliableAcknowledged := reliableSequence;
        reliableSequence := (reliableSequence + 1) % TWO32;
      }
    }

    method AppendFragment(msg: NetMsg)
      requires Valid() && msg.Valid() && msg != message && msg.cursize >= 8
      requires inFragmentLength + (msg.cursize - 8) < MAX_NQMSGLEN
      requires msg.data != inFragmentBuf
      modifies this`inFragmentLength, inFragmentBuf
      ensures Valid()
      ensures State() == old(State()).(fragment := old(State()).fragment + old(msg.Contents())[8..])
    {
      var n := msg.cursize - 8;
      ghost var before, body := inFragmentBuf[..inFragmentLength], msg.Contents()[8..];
      forall i | 0 <= i < n {
        inFragmentBuf[inFragmentLength + i] := msg.data[8 + i];
      }
      assert inFragmentBuf[..inFragmentLength + n] == before + body;
      inFragmentLength := inFragmentLength + n;
    }

    /** The reassembled message takes the place of the datagram. */
    method HandOver(msg: NetMsg)
      requires Valid() && msg.Valid() && msg != message
      requires msg.data != inFragmentBuf && msg.data != message.data && msg.data != reliableBuf
      modifies this`inFragmentLength, msg, msg.data
      ensures Valid() && msg.Valid() && msg.data == old(msg.data) && msg.maxsize == old(msg.maxsize)
      ensures State() == old(State()).(fragment := [])
      ensures msg.Contents() == PutData([], msg.maxsize, old(State()).fragment) && msg.Rest() == Start(msg.Contents())
    {
      hide PutData;
      msg.cursize := 0;
      msg.readpos := 0;
      assert msg.Contents() == [];
      msg.WriteData(inFragmentBuf[..inFragmentLength]);
      inFragmentLength := 0;
    }

    method AcceptData(msg: NetMsg, h: Heading) returns (result: nat)
      requires Valid() && msg.Valid() && msg != message && !Undefined(State(), msg.Contents())
      requires msg.data != inFragmentBuf && msg.data != message.data && msg.data != reliableBuf
      modifies this, msg, msg.data, inFragmentBuf
      ensures Valid() && msg.Valid() && message == old(message) && msg.data == old(msg.data)
      ensures var o := TakeData(old(State()), h, old(msg.Contents()));
        && State() == o.chan && result == o.result
        && (result == 2 ==>
              msg.Contents() == PutData([], msg.maxsize, o.message) && msg.Rest() == Start(msg.Contents()))
        && result != 1
    {
      hide Runt, PutData, Has;
      if h.sequence != incomingReliableSequence {
        return 0;
      }
      incomingReliableSequence := (incomingReliableSequence + 1) % TWO32;
      if inFragmentLength + msg.cursize < 8 || inFragmentLength + msg.cursize - 8 >= MAX_NQMSGLEN {
        drop := true;
        return 0;
      }
      AppendFragment(msg);
      if Has(h.flags, NETFLAG_EOM) {
        HandOver(msg);
        return 2;
      }
      result := 0;
    }
  }
}
