/** The QuakeWorld half of `netchan_t`: sequence numbers carrying one alternating reliable bit. */
module QwChannel {
  import opened Bytes
  import opened NetMsg

  /** The values of the fields both directions of a channel live on. `reliable` is the first
      `reliable_length` bytes of `reliable_buf`. */
  datatype Chan = Chan(
    isClient: bool, qport: u16, maxsize: nat, overflowed: bool, drop: bool,
    message: seq<byte>, reliable: seq<byte>,
    outgoing: u32, incoming: u32, incomingAcked: u32, lastReliable: u32,
    incomingReliableAcked: bit, incomingReliable: bit, reliableBit: bit)

  function Setup(isClient: bool, qport: u16, maxsize: nat): Chan {
    Chan(isClient, qport, maxsize, false, false, [], [], 0, 0, 0, 0, 0, 0, 0)
  }

  /** `x | (b << 31)` on 32 bits. */
  function TopBit(x: u32, b: bit): u32 {
    if b == 1 && x < TWO31 then x + TWO31 else x
  }

  function Header(c: Chan, sendReliable: bool): (h: seq<byte>)
    ensures |h| == if c.isClient then 10 else 8
  {
    Le32(TopBit(c.outgoing, if sendReliable then 1 else 0))
    + Le32(TopBit(c.incoming, c.incomingReliable))
    + if c.isClient then Le16(c.qport) else []
  }

  /** The block is due again: a later packet was acknowledged with the wrong bit. */
  predicate Resend(c: Chan) {
    c.incomingAcked > c.lastReliable && c.incomingReliableAcked != c.reliableBit
  }

  predicate Starts(c: Chan) {
    c.reliable == [] && c.message != []
  }

  /** The channel after the pending message moved into an empty reliable buffer. */
  function Load(c: Chan): Chan {
    if Starts(c) then c.(reliable := c.message, message := [], reliableBit := 1 - c.reliableBit) else c
  }

  function Body(c: Chan, sendReliable: bool): seq<byte> {
    if sendReliable then c.reliable else []
  }

  /** One call of `Netchan_Transmit`: the new state, and the datagram if one is sent. */
  function AfterTransmit(c: Chan, data: seq<byte>): (Chan, Option<seq<byte>>) {
    if c.overflowed then (c.(drop := true), None)
    else
      var sendReliable := Resend(c) || Starts(c);
      var c1 := Load(c);
      var packet := PutData(PutData(Header(c1, sendReliable), SEND_BUFFER, Body(c1, sendReliable)), SEND_BUFFER, data);
      var out := (c1.outgoing + 1) % TWO32;
      (c1.(outgoing := out, lastReliable := if sendReliable then out else c1.lastReliable), Some(packet))
  }

  /** What `Netchan_Process` reads of a datagram before it changes anything. */
  datatype Heading = Heading(sequence: u32, ack: u32, reliable: bit, reliableAck: bit, known: bool)

  function ReadHeading(isClient: bool, qport: u16, bytes: seq<byte>): (Heading, Cursor) {
    var w1 := GetLong(Start(bytes));
    var w2 := GetLong(w1.1);
    var port := GetShort(w2.1);
    var known := isClient || port.0 == qport;
    (Heading(w1.0 % TWO31, w2.0 % TWO31, w1.0 / TWO31, w2.0 / TWO31, known), if isClient then w2.1 else port.1)
  }

  predicate Accepts(c: Chan, h: Heading) {
    h.known && h.sequence > c.incoming
  }

  /** One call of `Netchan_Process`: the new state, and whether the payload is to be read. */
  function AfterProcess(c: Chan, h: Heading): (Chan, bool) {
    if !Accepts(c, h) then (c, false)
    else
      (c.(reliable := if h.reliableAck == c.reliableBit then [] else c.reliable,
          incoming := h.sequence, incomingAcked := h.ack, incomingReliableAcked := h.reliableAck,
          incomingReliable := if h.reliable == 1 then 1 - c.incomingReliable else c.incomingReliable), true)
  }

  /** What a datagram says to the other end of the channel that sent it. */
  lemma HeadingRoundTrip(from: Chan, to: Chan, sendReliable: bool, rest: seq<byte>)
    requires from.isClient != to.isClient && from.qport == to.qport
    requires from.outgoing < TWO31 && from.incoming < TWO31
    ensures ReadHeading(to.isClient, to.qport, Header(from, sendReliable) + rest) ==
            (Heading(from.outgoing, from.incoming, if sendReliable then 1 else 0, from.incomingReliable, true),
             Start(rest))
  {
    var w1 := TopBit(from.outgoing, if sendReliable then 1 else 0);
    var w2 := TopBit(from.incoming, from.incomingReliable);
    var port := if from.isClient then Le16(from.qport) else [];
    assert Header(from, sendReliable) + rest == Le32(w1) + (Le32(w2) + (port + rest));
    LongRoundTrip(w1, Le32(w2) + (port + rest));
    LongRoundTrip(w2, port + rest);
    if from.isClient {
      ShortRoundTrip(from.qport, rest);
    } else {
      assert port + rest == rest;
    }
  }

  /** The word at place `k` of a datagram. */
  function WordAt(s: seq<byte>, k: nat): u32 {
    Word(ByteAt(s, k), ByteAt(s, k + 1), ByteAt(s, k + 2), ByteAt(s, k + 3))
  }

  /** The port a client writes behind the two words. */
  function PortOf(s: seq<byte>): int {
    ByteAt(s, 8) + 256 * ByteAt(s, 9)
  }

  /**
   * Over the bytes themselves: a datagram is taken exactly when the end is a client or the port is
   * its own, and the low 31 bits of the first word are past those taken last; otherwise nothing
   * changes. What is taken moves the counters to what it says and toggles the bit it carries.
   */
  lemma TakenExactly(c: Chan, bytes: seq<byte>)
    ensures var h := ReadHeading(c.isClient, c.qport, bytes);
      var r := AfterProcess(c, h.0);
      var w1 := WordAt(bytes, 0);
      var w2 := WordAt(bytes, 4);
      && (r.1 <==> (c.isClient || PortOf(bytes) == c.qport) && w1 % TWO31 > c.incoming)
      && (!r.1 ==> r.0 == c)
      && (r.1 ==>
            && r.0 == c.(reliable := if w2 >= TWO31 <==> c.reliableBit == 1 then [] else c.reliable,
                         incoming := w1 % TWO31, incomingAcked := w2 % TWO31,
                         incomingReliableAcked := if w2 >= TWO31 then 1 else 0,
                         incomingReliable := if w1 >= TWO31 then 1 - c.incomingReliable else c.incomingReliable)
            && h.1 == CursorAt(bytes, if c.isClient then 8 else 10))
  {
    hide ReadHeading, WordAt, PortOf, CursorAt;
    HeadingAt(c.isClient, c.qport, bytes);
  }

  lemma HeadingAt(isClient: bool, qport: u16, bytes: seq<byte>)
    ensures var w1 := WordAt(bytes, 0);
      var w2 := WordAt(bytes, 4);
      ReadHeading(isClient, qport, bytes) ==
      (Heading(w1 % TWO31, w2 % TWO31, w1 / TWO31, w2 / TWO31, isClient || PortOf(bytes) == qport),
       CursorAt(bytes, if isClient then 8 else 10))
  {
    hide GetLong, GetShort;
    assert CursorAt(bytes, 0) == Start(bytes);
    LongIsAt(bytes, 0);
    LongIsAt(bytes, 4);
    ShortIsAt(bytes, 8);
  }

  /**
   * One call, written out: a message moves into an empty reliable buffer, the block goes along when it
   * has just moved or a later packet was acknowledged with the wrong bit, and block and data are each
   * in the datagram exactly when there is room in its 8008 bytes.
   */
  lemma SentExactly(c: Chan, data: seq<byte>)
    requires !c.overflowed
    ensures
      var moved := c.reliable == [] && c.message != [];
      var block := if moved then c.message else c.reliable;
      var due := moved || (c.incomingAcked > c.lastReliable && c.incomingReliableAcked != c.reliableBit);
      var out := (c.outgoing + 1) % TWO32;
      var w1 := if due && c.outgoing < TWO31 then c.outgoing + TWO31 else c.outgoing;
      var w2 := if c.incomingReliable == 1 && c.incoming < TWO31 then c.incoming + TWO31 else c.incoming;
      var head := Le32(w1) + Le32(w2) + if c.isClient then Le16(c.qport) else [];
      var front := head + if due && |head| + |block| <= 8008 then block else [];
      && AfterTransmit(c, data).1 == Some(front + if |front| + |data| <= 8008 then data else [])
      && AfterTransmit(c, data).0 ==
         c.(reliable := block, message := if moved then [] else c.message, outgoing := out,
            reliableBit := if moved then 1 - c.reliableBit else c.reliableBit,
            lastReliable := if due then out else c.lastReliable)
  {
    hide Le32, Le16;
    var c1, due := Load(c), Resend(c) || Starts(c);
    var head := Header(c1, due);
    assert head + [] == head && (head + c1.reliable) + [] == head + c1.reliable;
  }

  class NetChan {
    const isClient: bool
    const qport: u16
    var drop: bool
    var message: NetMsg
    var overflowed: bool
    var reliableBuf: array<byte>
    var reliableLength: nat
    var outgoingSequence: u32
    var incomingSequence: u32
    var incomingAcknowledged: u32
    var lastReliableSequence: u32
    var incomingReliableAcknowledged: bit
    var incomingReliableSequence: bit
    var reliableSequence: bit

    ghost predicate Valid()
      reads this, message
    {
      && message.Valid() && message.readpos == 0
      && message.data.Length == reliableBuf.Length == MAX_MSGLEN
      && message.data != reliableBuf
      && reliableLength <= reliableBuf.Length
    }

    ghost function State(): Chan
      requires Valid()
      reads this, message, message.data, reliableBuf
    {
      Chan(isClient, qport, message.maxsize, overflowed, drop, message.Contents(), reliableBuf[..reliableLength],
           outgoingSequence, incomingSequence, incomingAcknowledged, lastReliableSequence,
           incomingReliableAcknowledged, incomingReliableSequence, reliableSequence)
    }

    constructor (isClient: bool, qport: u16)
      ensures Valid() && State() == Setup(isClient, qport, MAX_MSGLEN)
      ensures State() == Chan(isClient, qport, 8192, false, false, [], [], 0, 0, 0, 0, 0, 0, 0)
      ensures fresh(message) && fresh(message.data) && fresh(reliableBuf)
    {
      this.isClient, this.qport := isClient, qport;
      var buffer := new byte[MAX_MSGLEN];
      message := new NetMsg(buffer, MAX_MSGLEN);
      reliableBuf := new byte[MAX_MSGLEN];
      drop, overflowed, reliableLength := false, false, 0;
      outgoingSequence, incomingSequence, incomingAcknowledged, lastReliableSequence := 0, 0, 0, 0;
      incomingReliableAcknowledged, incomingReliableSequence, reliableSequence := 0, 0, 0;
      new;
      assert message.Contents() == [] && message.readpos == 0 && message.maxsize == MAX_MSGLEN;
      assert reliableBuf[..reliableLength] == [];
      assert State().message == [] && State().reliable == [];
    }

    method Transmit(data: seq<byte>) returns (packet: Option<seq<byte>>)
      requires Valid()
      modifies this, message`cursize, reliableBuf
      ensures Valid() && message == old(message) && message.data == old(message.data) && reliableBuf == old(reliableBuf)
      ensures (State(), packet) == AfterTransmit(old(State()), data)
      ensures old(overflowed) ==> packet == None && drop
      ensures !old(overflowed) ==> packet != None && drop == old(drop)
    {
      hide Header, Body, PutData;
      if overflowed {
        drop := true;
        return None;
      }
      var sendReliable := incomingAcknowledged > lastReliableSequence
        && incomingReliableAcknowledged != reliableSequence;
      if reliableLength == 0 && message.cursize != 0 {
        TakeMessage();
        sendReliable := true;
      }
      assert State() == Load(old(State()));
      var bytes := Packet(sendReliable, data);
      packet := Some(bytes);
      outgoingSequence := (outgoingSequence + 1) % TWO32;
      if sendReliable {
        lastReliableSequence := outgoingSequence;
      }
    }

    /** The datagram: header, then the reliable block, then the unreliable data if it still fits. */
    method Packet(sendReliable: bool, data: seq<byte>) returns (bytes: seq<byte>)
      requires Valid()
      ensures bytes == PutData(PutData(Header(State(), sendReliable), SEND_BUFFER, Body(State(), sendReliable)),
                               SEND_BUFFER, data)
    {
      hide Header, Clip;
      var send := WriteHeader(sendReliable);
      if sendReliable {
        send.WriteData(reliableBuf[..reliableLength]);
      }
      if send.maxsize - send.cursize >= |data| {
        send.WriteData(data);
      }
      bytes := send.data[..send.cursize];
    }

    method TakeMessage()
      requires Valid() && reliableLength == 0 && message.cursize != 0
      modifies this`reliableLength, this`reliableSequence, message`cursize, reliableBuf
      ensures Valid() && State() == Load(old(State()))
    {
      forall i | 0 <= i < message.cursize {
        reliableBuf[i] := message.data[i];
      }
      reliableLength := message.cursize;
      message.cursize := 0;
      reliableSequence := 1 - reliableSequence;
      assert reliableBuf[..reliableLength] == old(message.data[..message.cursize]);
    }

    method WriteHeader(sendReliable: bool) returns (send: NetMsg)
      requires Valid()
      ensures fresh(send) && fresh(send.data) && send.Valid() && send.maxsize == SEND_BUFFER
      ensures send.Contents() == Header(State(), sendReliable)
    {
      hide Le32, Le16, TopBit, Clip;
      var buffer := new byte[SEND_BUFFER];
      send := new NetMsg(buffer, SEND_BUFFER);
      ghost var w := Le32(TopBit(outgoingSequence, if sendReliable then 1 else 0));
      send.WriteLong(TopBit(outgoingSequence, if sendReliable then 1 else 0));
      assert send.Contents() == w by { assert [] + w == w; }
      send.WriteLong(TopBit(incomingSequence, incomingReliableSequence));
      if isClient {
        send.WriteShort(qport);
      }
    }

    /** `ok` says the caller may read the payload that `msg` is left in front of. */
    method Process(msg: NetMsg) returns (ok: bool)
      requires Valid() && msg.Valid() && msg != message
      modifies this, msg`readpos
      ensures Valid() && msg.Valid() && message == old(message) && reliableBuf == old(reliableBuf)
      ensures (State(), ok) == AfterProcess(old(State()), ReadHeading(isClient, qport, old(msg.Contents())).0)
      ensures ok ==> msg.Rest() == ReadHeading(isClient, qport, old(msg.Contents())).1
      ensures var s := old(msg.Contents());
        ok <==> (isClient || PortOf(s) == qport) && WordAt(s, 0) % TWO31 > old(incomingSequence)
      ensures !ok ==> State() == old(State())
      ensures ok ==> msg.Rest() == CursorAt(old(msg.Contents()), if isClient then 8 else 10)
    {
      hide ReadHeading, WordAt, PortOf, CursorAt;
      TakenExactly(State(), msg.Contents());
      var h := ReadHeader(msg);
      if !h.known || h.sequence <= incomingSequence {
        return false;
      }
      TakeHeading(h);
      ok := true;
    }

    method TakeHeading(h: Heading)
      requires Valid() && Accepts(State(), h)
      modifies this
      ensures Valid() && message == old(message) && reliableBuf == old(reliableBuf)
        && State() == AfterProcess(old(State()), h).0
    {
      if h.reliableAck == reliableSequence {
        reliableLength := 0;
      }
      incomingSequence := h.sequence;
      incomingAcknowledged := h.ack;
      incomingReliableAcknowledged := h.reliableAck;
      if h.reliable == 1 {
        incomingReliableSequence := 1 - incomingReliableSequence;
      }
    }

    method ReadHeader(msg: NetMsg) returns (h: Heading)
      requires Valid() && msg.Valid() && msg != message
      modifies msg`readpos
      ensures msg.Valid()
      ensures (h, msg.Rest()) == ReadHeading(isClient, qport, old(msg.Contents()))
    {
      msg.readpos := 0;
      assert msg.Rest() == Start(msg.Contents());
      var sequence: int := msg.ReadLong();
      var sequenceAck: int := msg.ReadLong();
      var known := true;
      if !isClient {
        var port := msg.ReadShort();
        known := qport == port;
      }
      h := Heading(sequence % TWO31, sequenceAck % TWO31, sequence / TWO31, sequenceAck / TWO31, known);
    }
  }
}
