/** The cyclic buffer in front of every downstream proxy. */
module ProxyBuffer {
  import opened Bytes
  import MvdFormat
  import StreamForward

  const SIZE := StreamForward.MAX_PROXY_BUFFER

  /** What `send` or `fwrite` reports. */
  datatype Result = Sent(n: nat) | WouldBlock | Failed

  /** The bytes not yet flushed, the position of the first of them, and the two marks. */
  datatype Queue = Queue(pending: seq<byte>, pos: nat, flushing: bool, drop: bool)

  /** A queue with everything it ever took in and gave out. */
  datatype History = History(q: Queue, accepted: seq<byte>, flushed: seq<byte>)

  const EMPTY := Queue([], 0, false, false)

  function Min(a: nat, b: nat): nat {
    if a < b then a else b
  }

  /** How much one flush offers: the stretch up to the end of the cyclic buffer. */
  function Offered(q: Queue): nat {
    Min(|q.pending|, SIZE - q.pos % SIZE)
  }

  function Taken(q: Queue, r: Result): (k: nat)
    ensures k <= |q.pending|
  {
    if r.Sent? then Min(r.n, Offered(q)) else 0
  }

  /** `Net_TryFlushProxyBuffer`. */
  function AfterFlush(q: Queue, r: Result): Queue {
    var k := Taken(q, r);
    if q.pending == [] then q.(pos := q.pos % SIZE)
    else if r == WouldBlock then q.(pos := q.pos % SIZE)
    else if k == 0 then q.(pos := q.pos % SIZE, drop := true, flushing := false)
    else q.(pos := q.pos % SIZE + k, pending := q.pending[k..])
  }

  function Flushed(q: Queue, r: Result): seq<byte> {
    q.pending[..Taken(q, r)]
  }

  /** One binary frame of the websocket protocol, as `Net_ProxySend` writes it. */
  function Frame(data: seq<byte>): seq<byte> {
    (if |data| >= 126 then [0x82, 126, |data| / 256 % 256, |data| % 256] else [0x82, |data|]) + data
  }

  function Encoded(websocket: bool, data: seq<byte>): seq<byte> {
    if websocket then Frame(data) else data
  }

  predicate Fits(q: Queue, websocket: bool, data: seq<byte>) {
    |q.pending| + |data| + (if websocket then 4 else 0) <= SIZE
  }

  function Header(demType: byte, length: u32, mask: u32): seq<byte> {
    [0, demType] + Le32(length) + if demType == StreamForward.DEM_MULTIPLE then Le32(mask) else []
  }

  predicate BothFit(q: Queue, h: seq<byte>, data: seq<byte>) {
    |q.pending| + |data| + |h| <= SIZE
  }

  // ---- Histories ----

  /** Whether `Net_ProxySend` queues the data. */
  predicate Takes(h: History, websocket: bool, data: seq<byte>, r1: Result) {
    data != [] && Fits(HMakeRoom(h, Fits(h.q, websocket, data), r1).q, websocket, data)
  }

  predicate Inv(h: History) {
    h.q.pos <= SIZE && |h.q.pending| <= SIZE && h.flushed + h.q.pending == h.accepted
  }

  function HFlush(h: History, r: Result): History {
    h.(q := AfterFlush(h.q, r), flushed := h.flushed + Flushed(h.q, r))
  }

  /** The flush that is tried when there is no room. */
  function HMakeRoom(h: History, fits: bool, r: Result): History {
    if fits then h else HFlush(h, r)
  }

  /** `Net_ProxySend`; `r1` answers the flush for room, `r2` the one after a websocket frame. */
  function HSend(h: History, websocket: bool, data: seq<byte>, r1: Result, r2: Result): History {
    if data == [] then h
    else
      var h1 := HMakeRoom(h, Fits(h.q, websocket, data), r1);
      if !Fits(h1.q, websocket, data) then h1.(q := h1.q.(flushing := true))
      else
        var e := Encoded(websocket, data);
        var h2 := h1.(q := h1.q.(pending := h1.q.pending + e), accepted := h1.accepted + e);
        if websocket then HFlush(h2, r2) else h2
  }

  /** `Prox_SendMessage`: the answers are those of its own flush and of the two sends. */
  function HMessage(h: History, websocket: bool, data: seq<byte>, header: seq<byte>, rs: seq<Result>): History
    requires |rs| == 5
  {
    var h1 := HMakeRoom(h, BothFit(h.q, header, data), rs[0]);
    if !BothFit(h1.q, header, data) then h1.(q := h1.q.(flushing := true))
    else HSend(HSend(h1, websocket, header, rs[1], rs[2]), websocket, data, rs[3], rs[4])
  }

  lemma FlushKeepsInv(h: History, r: Result)
    requires Inv(h)
    ensures Inv(HFlush(h, r)) && HFlush(h, r).accepted == h.accepted
    ensures |HFlush(h, r).q.pending| <= |h.q.pending|
  {
    var k := Taken(h.q, r);
    assert h.q.pending == h.q.pending[..k] + h.q.pending[k..];
    assert (h.flushed + h.q.pending[..k]) + h.q.pending[k..] == h.flushed + h.q.pending;
  }

  /** The three things a flush can do. */
  lemma FlushIs(h: History, r: Result)
    ensures var q, k := h.q.(pos := h.q.pos % SIZE), Taken(h.q, r);
      HFlush(h, r) ==
      if q.pending == [] || r == WouldBlock then h.(q := q)
      else if k == 0 then h.(q := q.(drop := true, flushing := false))
      else h.(q := q.(pos := q.pos + k, pending := q.pending[k..]), flushed := h.flushed + q.pending[..k])
  {
    assert h.q.pending[..0] == [] && h.flushed + [] == h.flushed;
  }

  /**
   * A flush offers what lies in front of the end of the 131072 bytes, gives up as much of it as was
   * taken, and marks the proxy to be dropped exactly when there was something to give and a socket
   * that does not block took nothing.
   */
  lemma FlushExactly(q: Queue, r: Result)
    ensures var room := 131072 - q.pos % 131072;
      var offered := if |q.pending| < room then |q.pending| else room;
      var n := if r.Sent? then if r.n < offered then r.n else offered else 0;
      var broken := q.pending != [] && r != WouldBlock && n == 0;
      && Flushed(q, r) == q.pending[..n]
      && AfterFlush(q, r) == Queue(q.pending[n..], q.pos % 131072 + n, q.flushing && !broken, q.drop || broken)
  {
  }

  /** Data goes in exactly when it fits now or after one flush; refused data asks for flushing. */
  lemma SendsExactly(h: History, websocket: bool, data: seq<byte>, r1: Result, r2: Result)
    requires data != []
    ensures var need := |data| + if websocket then 4 else 0;
      var fits := |h.q.pending| + need <= 131072;
      var left := if fits then |h.q.pending| else |AfterFlush(h.q, r1).pending|;
      var t := HSend(h, websocket, data, r1, r2);
      && (t.accepted == h.accepted + Encoded(websocket, data) <==> left + need <= 131072)
      && (left + need > 131072 ==>
            && t.accepted == h.accepted && t.flushed == h.flushed + Flushed(h.q, r1)
            && t.q == AfterFlush(h.q, r1).(flushing := true))
      && (fits && !websocket ==>
            t == h.(q := h.q.(pending := h.q.pending + data), accepted := h.accepted + data))
  {
    hide AfterFlush, Flushed;
    FrameSize(data);
    assert |h.accepted + Encoded(websocket, data)| > |h.accepted|;
  }

  lemma FrameSize(data: seq<byte>)
    ensures |data| + 2 <= |Frame(data)| <= |data| + 4
  {
  }

  lemma SendKeepsInv(h: History, websocket: bool, data: seq<byte>, r1: Result, r2: Result)
    requires Inv(h)
    ensures Inv(HSend(h, websocket, data, r1, r2))
    ensures HSend(h, websocket, data, r1, r2).accepted ==
      if Takes(h, websocket, data, r1) then h.accepted + Encoded(websocket, data) else h.accepted
  {
    hide AfterFlush, Flushed, Frame;
    FlushKeepsInv(h, r1);
    FrameSize(data);
    var h1 := HMakeRoom(h, Fits(h.q, websocket, data), r1);
    if data != [] && Fits(h1.q, websocket, data) {
      var e := Encoded(websocket, data);
      var h2 := h1.(q := h1.q.(pending := h1.q.pending + e), accepted := h1.accepted + e);
      assert h1.flushed + (h1.q.pending + e) == (h1.flushed + h1.q.pending) + e;
      FlushKeepsInv(h2, r2);
    }
  }

  /** Without websocket framing the header and the payload are queued together or not at all. */
  lemma MessageTogether(h: History, data: seq<byte>, header: seq<byte>, rs: seq<Result>)
    requires Inv(h) && |rs| == 5 && header != []
    ensures var t := HMessage(h, false, data, header, rs);
      && Inv(t)
      && (t.accepted == h.accepted || t.accepted == h.accepted + header + data)
      && (t.accepted == h.accepted <==> !BothFit(HMakeRoom(h, BothFit(h.q, header, data), rs[0]).q, header, data))
  {
    hide AfterFlush, Flushed;
    FlushKeepsInv(h, rs[0]);
    var h1 := HMakeRoom(h, BothFit(h.q, header, data), rs[0]);
    if BothFit(h1.q, header, data) {
      SendKeepsInv(h1, false, header, rs[1], rs[2]);
      var h2 := HSend(h1, false, header, rs[1], rs[2]);
      SendKeepsInv(h2, false, data, rs[3], rs[4]);
      assert h.accepted + header + [] == h.accepted + header;
      assert |h.accepted + header + data| > |h.accepted|;
    }
  }

  /** A message is refused as a whole exactly when both parts do not fit, even after one flush. */
  lemma RefusedExactly(h: History, websocket: bool, data: seq<byte>, header: seq<byte>, rs: seq<Result>)
    requires |rs| == 5
    ensures var size := |header| + |data|;
      var fits := |h.q.pending| + size <= 131072;
      var left := if fits then |h.q.pending| else |AfterFlush(h.q, rs[0]).pending|;
      var t := HMessage(h, websocket, data, header, rs);
      && (left + size > 131072 ==>
            t == History(AfterFlush(h.q, rs[0]).(flushing := true), h.accepted, h.flushed + Flushed(h.q, rs[0])))
      && (fits && !websocket && header != [] ==>
            t == h.(q := h.q.(pending := h.q.pending + header + data), accepted := h.accepted + header + data))
  {
    hide AfterFlush, Flushed, HSend;
    if |h.q.pending| + |header| + |data| <= 131072 && !websocket && header != [] {
      SendsExactly(h, false, header, rs[1], rs[2]);
      var h1 := HSend(h, false, header, rs[1], rs[2]);
      if data == [] {
        SendsNothing(h1, false, rs[3], rs[4]);
        assert h1.q.pending + [] == h1.q.pending && h1.accepted + [] == h1.accepted;
      } else {
        SendsExactly(h1, false, data, rs[3], rs[4]);
      }
    }
  }

  lemma SendsNothing(h: History, websocket: bool, r1: Result, r2: Result)
    ensures HSend(h, websocket, [], r1, r2) == h
  {
  }

  /** The packet a message is meant to be: at once, of the type given, with the body given. */
  predicate Meant(p: MvdFormat.Mvd, demType: byte, data: seq<byte>) {
    MvdFormat.Proper(p) && p.time == 0 && p.kind == demType && !p.Set? && p.body == data
  }

  /** Types with the plain form; or dem_multiple itself, whose two words come out in the wrong order,
      when they are the same number. */
  predicate Sendable(demType: byte, mask: u32, data: seq<byte>) {
    |data| <= MvdFormat.BODY_LIMIT && demType % 8 != 2 && (demType % 8 == 3 ==> demType == 3 && mask == |data|)
  }

  /**
   * The bytes of a message are those of the packet it is meant to be exactly for the types with the
   * plain form, and for dem_multiple exactly when the mask is the length: the length is written in
   * front of the mask, and the readers take it from behind.
   */
  lemma MessageIsPacketExactly(demType: byte, mask: u32, data: seq<byte>)
    requires |data| < TWO32
    ensures (exists p :: Meant(p, demType, data) && MvdFormat.Laid(p) == Header(demType, |data|, mask) + data)
       <==> Sendable(demType, mask, data)
  {
    if Sendable(demType, mask, data) {
      var p := AsPacket(demType, mask, data);
      LaidMessage(demType, mask, data);
      assert Meant(p, demType, data);
    } else {
      forall p | Meant(p, demType, data)
        ensures MvdFormat.Laid(p) != Header(demType, |data|, mask) + data
      {
        NotLaid(p, demType, mask, data);
      }
    }
  }

  function AsPacket(demType: byte, mask: u32, data: seq<byte>): MvdFormat.Mvd {
    if demType % 8 == 3 then MvdFormat.Multiple(0, demType, mask, data) else MvdFormat.Other(0, demType, data)
  }

  lemma LaidMessage(demType: byte, mask: u32, data: seq<byte>)
    requires Sendable(demType, mask, data)
    ensures MvdFormat.Proper(AsPacket(demType, mask, data)) && |data| < TWO32
    ensures MvdFormat.Laid(AsPacket(demType, mask, data)) == Header(demType, |data|, mask) + data
  {
    hide Le32;
    var w := Le32(|data|);
    if demType % 8 == 3 {
      assert [0, demType] + w + w + data == [0, demType] + (w + (w + data));
    } else {
      assert [0, demType] + w + [] + data == [0, demType] + (w + data);
    }
  }

  lemma NotLaid(p: MvdFormat.Mvd, demType: byte, mask: u32, data: seq<byte>)
    requires |data| < TWO32 && Meant(p, demType, data) && !Sendable(demType, mask, data)
    ensures MvdFormat.Laid(p) != Header(demType, |data|, mask) + data
  {
    hide Le32;
    if demType == 3 {
      var s, t := MvdFormat.Laid(p), Header(demType, |data|, mask) + data;
      assert s[6..10] == Le32(|data|) && t[6..10] == Le32(mask);
      WordsDiffer(|data|, mask);
    } else {
      assert |MvdFormat.Laid(p)| == |data| + 10;
    }
  }

  lemma WordsDiffer(x: u32, y: u32)
    requires x != y
    ensures Le32(x) != Le32(y)
  {
    hide LowValue, LowBytes;
    LowValueOfLowBytes(x, 4);
    LowValueOfLowBytes(y, 4);
  }

  /**
   * What an accepted message adds on an unframed connection is, for those types, one packet: the
   * next proxy finds it behind whatever packets were added before, and nothing more.
   */
  lemma MessageAddsPacket(h: History, demType: byte, mask: u32, data: seq<byte>, rs: seq<Result>,
                          before: seq<MvdFormat.Mvd>)
    requires Inv(h) && |rs| == 5 && Sendable(demType, mask, data)
    requires MvdFormat.AllProper(before) && h.accepted == MvdFormat.Joined(MvdFormat.Pieces(before), [])
    ensures |data| < TWO32
    ensures var t := HMessage(h, false, data, Header(demType, |data|, mask), rs);
      var after := before + [AsPacket(demType, mask, data)];
      t.accepted != h.accepted ==>
        && MvdFormat.AllProper(after) && t.accepted == MvdFormat.Joined(MvdFormat.Pieces(after), [])
        && StreamForward.Packets(t.accepted) == MvdFormat.Pieces(after)
        && StreamForward.Available(t.accepted) == |t.accepted|
  {
    hide HMessage, Inv, StreamForward.Packets, StreamForward.Available, MvdFormat.Joined, MvdFormat.Pieces;
    LaidMessage(demType, mask, data);
    var header, p := Header(demType, |data|, mask), AsPacket(demType, mask, data);
    MessageTogether(h, data, header, rs);
    var t := HMessage(h, false, data, header, rs);
    if t.accepted != h.accepted {
      Assoc(h.accepted, header, data);
      MvdFormat.OneMore(before, p);
      MvdFormat.NothingBehind(before + [p]);
    }
  }

  /** Both frames of a message, an empty payload having none. */
  function Frames(header: seq<byte>, data: seq<byte>): seq<byte> {
    Frame(header) + if data == [] then [] else Frame(data)
  }

  /** The message was queued whole or not at all. */
  predicate Whole(h: History, t: History, header: seq<byte>, data: seq<byte>) {
    t.accepted == h.accepted || t.accepted == h.accepted + Frames(header, data)
  }

  /** The queue as the guard's own flush leaves it. */
  function Guarded(h: History, header: seq<byte>, data: seq<byte>, r0: Result): History {
    HMakeRoom(h, BothFit(h.q, header, data), r0)
  }

  /** Room for both frames, which the guard does not ask for. */
  predicate FramesFit(q: Queue, header: seq<byte>, data: seq<byte>) {
    |q.pending| + |header| + |data| + 6 <= SIZE
  }

  /** What a message adds, send by send. */
  lemma MessageAdds(h: History, data: seq<byte>, header: seq<byte>, rs: seq<Result>)
    requires Inv(h) && |rs| == 5
    ensures var h1 := Guarded(h, header, data, rs[0]);
      var h2 := HSend(h1, true, header, rs[1], rs[2]);
      && Inv(h1) && Inv(h2) && h1.accepted == h.accepted
      && HMessage(h, true, data, header, rs).accepted ==
         if !BothFit(h1.q, header, data) then h.accepted
         else h.accepted + (if Takes(h1, true, header, rs[1]) then Frame(header) else [])
              + (if Takes(h2, true, data, rs[3]) then Frame(data) else [])
  {
    hide HSend, HFlush, Takes, Frame, BothFit, Inv;
    FlushKeepsInv(h, rs[0]);
    var h1 := Guarded(h, header, data, rs[0]);
    SendKeepsInv(h1, true, header, rs[1], rs[2]);
    SendKeepsInv(HSend(h1, true, header, rs[1], rs[2]), true, data, rs[3], rs[4]);
    assert h.accepted + [] == h.accepted && forall x: seq<byte> :: x + [] == x;
  }

  /** A send with room goes in, and a frame header is all it adds. */
  lemma RoomTakes(h: History, data: seq<byte>, r1: Result, r2: Result)
    requires Inv(h) && Fits(h.q, true, data) && data != []
    ensures Takes(h, true, data, r1)
    ensures |HSend(h, true, data, r1, r2).q.pending| <= |h.q.pending| + |Frame(data)|
  {
    hide Frame, AfterFlush, Flushed;
    FrameSize(data);
    var e := Frame(data);
    var h2 := h.(q := h.q.(pending := h.q.pending + e), accepted := h.accepted + e);
    assert h.flushed + (h.q.pending + e) == (h.flushed + h.q.pending) + e;
    FlushKeepsInv(h2, r2);
  }

  /** A send on a blocked socket goes in exactly when it fits as things are. */
  lemma BlockedSend(h: History, data: seq<byte>)
    requires data != []
    ensures Takes(h, true, data, WouldBlock) <==> Fits(h.q, true, data)
    ensures |HSend(h, true, data, WouldBlock, WouldBlock).q.pending|
         == |h.q.pending| + if Fits(h.q, true, data) then |Frame(data)| else 0
  {
    hide Frame;
    BlockedFlush(h.q);
    BlockedFlush(h.q.(pending := h.q.pending + Frame(data)));
  }

  lemma RoomKeepsTogether(h: History, data: seq<byte>, header: seq<byte>, rs: seq<Result>)
    requires Inv(h) && |rs| == 5 && 4 <= |header| < 126
    requires var q := Guarded(h, header, data, rs[0]).q;
      data == [] || !BothFit(q, header, data) || FramesFit(q, header, data)
    ensures Whole(h, HMessage(h, true, data, header, rs), header, data)
  {
    hide HMessage, HSend, HFlush, Frame, Inv;
    MessageAdds(h, data, header, rs);
    ShortFrame(header);
    var h1 := Guarded(h, header, data, rs[0]);
    assert h.accepted + [] + [] == h.accepted;
    Assoc(h.accepted, Frame(header), if data == [] then [] else Frame(data));
    if data != [] && FramesFit(h1.q, header, data) {
      RoomTakes(h1, header, rs[1], rs[2]);
      RoomTakes(HSend(h1, true, header, rs[1], rs[2]), data, rs[3], rs[4]);
    }
  }

  lemma ShortFrame(header: seq<byte>)
    requires |header| < 126
    ensures |Frame(header)| == |header| + 2
  {
  }

  /** Without room for both frames, a socket that blocks parts the message: the header goes in
      alone, or where even that has no room for its frame the payload does. */
  lemma BlockedSplits(h: History, data: seq<byte>, header: seq<byte>, r0: Result)
    requires Inv(h) && 4 <= |header| < 126 && data != []
    requires var q := Guarded(h, header, data, r0).q; BothFit(q, header, data) && !FramesFit(q, header, data)
    ensures HMessage(h, true, data, header, [r0, WouldBlock, WouldBlock, WouldBlock, WouldBlock]).accepted
         == h.accepted + if Fits(Guarded(h, header, data, r0).q, true, header) then Frame(header) else Frame(data)
  {
    hide HMessage, HSend, HFlush, Frame, Inv, Takes;
    var rs := [r0, WouldBlock, WouldBlock, WouldBlock, WouldBlock];
    MessageAdds(h, data, header, rs);
    ShortFrame(header);
    var h1 := Guarded(h, header, data, r0);
    BlockedSend(h1, header);
    BlockedSend(HSend(h1, true, header, WouldBlock, WouldBlock), data);
    assert h.accepted + Frame(header) + [] == h.accepted + Frame(header) && h.accepted + [] == h.accepted;
  }

  /**
   * With websocket framing a header and a payload can come apart, since the guard leaves out the
   * two frame headers. Once the guard's own flush has been answered, they are queued together or
   * not at all, whatever the socket does from there, exactly when there is room for both frames
   * or not even for what the guard counts.
   */
  lemma MessageSplitsExactly(h: History, data: seq<byte>, header: seq<byte>, r0: Result)
    requires Inv(h) && 4 <= |header| < 126
    ensures var q := Guarded(h, header, data, r0).q;
      (forall rs: seq<Result> :: |rs| == 5 && rs[0] == r0 ==>
         Whole(h, HMessage(h, true, data, header, rs), header, data))
      <==> data == [] || !BothFit(q, header, data) || FramesFit(q, header, data)
  {
    hide HMessage, Frame, Guarded, Inv;
    var q := Guarded(h, header, data, r0).q;
    if data == [] || !BothFit(q, header, data) || FramesFit(q, header, data) {
      forall rs: seq<Result> | |rs| == 5 && rs[0] == r0
        ensures Whole(h, HMessage(h, true, data, header, rs), header, data) {
        RoomKeepsTogether(h, data, header, rs);
      }
    } else {
      var rs := [r0, WouldBlock, WouldBlock, WouldBlock, WouldBlock];
      BlockedSplits(h, data, header, r0);
      FrameSize(header);
      FrameSize(data);
      assert !Whole(h, HMessage(h, true, data, header, rs), header, data);
    }
  }

  lemma BlockedFlush(q: Queue)
    ensures AfterFlush(q, WouldBlock).pending == q.pending && Flushed(q, WouldBlock) == []
  {
  }

  datatype Step =
    | Flush(r: Result)
    | Send(websocket: bool, data: seq<byte>, r1: Result, r2: Result)
    | Message(websocket: bool, data: seq<byte>, header: seq<byte>, rs: seq<Result>)

  predicate Enabled(step: Step) {
    step.Message? ==> |step.rs| == 5
  }

  function Next(h: History, step: Step): History
    requires Enabled(step)
  {
    match step
    case Flush(r) => HFlush(h, r)
    case Send(ws, data, r1, r2) => HSend(h, ws, data, r1, r2)
    case Message(ws, data, header, rs) => HMessage(h, ws, data, header, rs)
  }

  ghost predicate Run(h: History, steps: seq<Step>, t: History)
    decreases |steps|
  {
    if steps == [] then t == h
    else Enabled(steps[0]) && Run(Next(h, steps[0]), steps[1..], t)
  }

  lemma StepKeepsInv(h: History, step: Step)
    requires Inv(h) && Enabled(step)
    ensures Inv(Next(h, step))
  {
    hide HFlush, HSend;
    match step
    case Flush(r) => FlushKeepsInv(h, r);
    case Send(ws, data, r1, r2) => SendKeepsInv(h, ws, data, r1, r2);
    case Message(ws, data, header, rs) =>
      FlushKeepsInv(h, rs[0]);
      var h1 := HMakeRoom(h, BothFit(h.q, header, data), rs[0]);
      SendKeepsInv(h1, ws, header, rs[1], rs[2]);
      SendKeepsInv(HSend(h1, ws, header, rs[1], rs[2]), ws, data, rs[3], rs[4]);
  }

  /** First in, first out, and the counters stay small: `bufferpos` is at most the buffer, and
      `buffersize` at most twice that. */
  lemma {:induction false} FirstInFirstOut(h: History, steps: seq<Step>, t: History)
    requires Inv(h) && Run(h, steps, t)
    ensures t.flushed + t.q.pending == t.accepted
    ensures t.q.pos <= SIZE && t.q.pos + |t.q.pending| <= 2 * SIZE
    decreases |steps|
  {
    if steps != [] {
      StepKeepsInv(h, steps[0]);
      FirstInFirstOut(Next(h, steps[0]), steps[1..], t);
    }
  }

  /** Where byte `i` after position `p` is stored. */
  function Slot(p: nat, i: nat): nat {
    (p + i) % SIZE
  }

  lemma DistinctSlots(p: nat, i: nat, j: nat)
    requires i < j < i + SIZE
    ensures Slot(p, i) != Slot(p, j)
  {
    var x, y := p + i, p + j;
    assert x / SIZE == y / SIZE ==> y - x == y % SIZE - x % SIZE;
  }

  class OProxy {
    const websocket: bool
    const buffer: array<byte>
    var buffersize: nat
    var bufferpos: nat
    var flushing: bool
    var drop: bool
    ghost var accepted: seq<byte>
    ghost var flushed: seq<byte>

    ghost predicate Shape()
      reads this`buffersize, this`bufferpos
    {
      buffer.Length == SIZE && bufferpos <= buffersize <= bufferpos + SIZE && bufferpos <= SIZE
    }

    ghost function Pending(): (s: seq<byte>)
      requires Shape()
      reads this`buffersize, this`bufferpos, buffer
      ensures |s| == buffersize - bufferpos
      ensures forall i :: 0 <= i < |s| ==> s[i] == buffer[Slot(bufferpos, i)]
    {
      var n, p, b := buffersize - bufferpos, bufferpos, buffer;
      seq(n, i requires 0 <= i && b.Length == SIZE reads b => b[Slot(p, i)])
    }

    ghost function State(): History
      requires Shape()
      reads this, buffer
    {
      History(Queue(Pending(), bufferpos, flushing, drop), accepted, flushed)
    }

    ghost predicate Valid()
      reads this, buffer
    {
      Shape() && Inv(State())
    }

    constructor (websocket: bool)
      ensures Valid() && State() == History(EMPTY, [], []) && this.websocket == websocket
    {
      this.websocket := websocket;
      buffer := new byte[SIZE];
      buffersize, bufferpos, flushing, drop, accepted, flushed := 0, 0, false, false, [], [];
      new;
      assert Pending() == [];
    }

    method TryFlush(r: Result)
      requires Valid()
      modifies this
      ensures Valid() && State() == HFlush(old(State()), r)
    {
      FlushKeepsInv(State(), r);
      Flush(r);
    }

    method Flush(r: Result)
      requires Shape()
      modifies this`bufferpos, this`buffersize, this`flushed, this`flushing, this`drop
      ensures Shape() && State() == HFlush(old(State()), r)
    {
      FlushIs(State(), r);
      hide HFlush;
      Rebase();
      var length := buffersize - bufferpos;
      if length > SIZE - bufferpos {
        length := SIZE - bufferpos;
      }
      if length == 0 {
        return;
      }
      var sent := if r.Sent? then Min(r.n, length) else 0;
      if r == WouldBlock {
      } else if sent == 0 {
        drop, flushing := true, false;
      } else {
        Advance(sent);
      }
    }

    /** Both counters come down together, so that they never wrap. */
    method Rebase()
      requires Shape()
      modifies this`bufferpos, this`buffersize
      ensures Shape() && bufferpos == old(bufferpos) % SIZE && Pending() == old(Pending())
    {
      ghost var p := bufferpos;
      while bufferpos >= SIZE
        invariant bufferpos <= p && p <= SIZE && bufferpos % SIZE == p % SIZE
        invariant buffersize - bufferpos == old(buffersize) - p && bufferpos <= buffersize
      {
        bufferpos, buffersize := bufferpos - SIZE, buffersize - SIZE;
      }
      forall i | 0 <= i < buffersize - bufferpos ensures Slot(bufferpos, i) == Slot(p, i) {
      }
      assert Pending() == old(Pending());
    }

    /** `send` was handed the stretch of the buffer from `bufferpos` on. */
    method Advance(sent: nat)
      requires Shape() && sent <= buffersize - bufferpos && bufferpos + sent <= SIZE
      modifies this`bufferpos, this`flushed
      ensures Shape() && bufferpos == old(bufferpos) + sent
      ensures Pending() == old(Pending())[sent..] && flushed == old(flushed) + old(Pending())[..sent]
    {
      ghost var was, p := Pending(), bufferpos;
      flushed := flushed + buffer[bufferpos..bufferpos + sent];
      assert buffer[bufferpos..bufferpos + sent] == was[..sent];
      bufferpos := bufferpos + sent;
      forall i | 0 <= i < buffersize - bufferpos ensures Slot(bufferpos, i) == Slot(p, sent + i) {
      }
      assert Pending() == was[sent..];
    }

    method Put(c: byte)
      requires Shape() && buffersize < bufferpos + SIZE
      modifies this`buffersize, buffer
      ensures Shape() && Pending() == old(Pending()) + [c]
    {
      ghost var was, p := Pending(), bufferpos;
      forall i | 0 <= i < |was| ensures Slot(p, i) != Slot(p, |was|) {
        DistinctSlots(p, i, |was|);
      }
      assert Slot(p, |was|) == buffersize % SIZE;
      buffer[buffersize % SIZE] := c;
      buffersize := buffersize + 1;
      assert Pending() == was + [c];
    }

    method PutAll(data: seq<byte>)
      requires Shape() && buffersize + |data| <= bufferpos + SIZE
      modifies this`buffersize, buffer
      ensures Shape() && Pending() == old(Pending()) + data
    {
      for i := 0 to |data|
        invariant Shape() && buffersize == old(buffersize) + i
        invariant Pending() == old(Pending()) + data[..i]
      {
        Put(data[i]);
        assert data[..i + 1] == data[..i] + [data[i]];
      }
      assert data[..|data|] == data;
    }

    method PutFrame(data: seq<byte>)
      requires Shape() && buffersize + |data| + 4 <= bufferpos + SIZE
      modifies this`buffersize, buffer
      ensures Shape() && Pending() == old(Pending()) + Frame(data)
    {
      var enclen := |data|;
      if enclen >= 126 {
        PutAll([0x82, 126, enclen / 256 % 256, enclen % 256]);
      } else {
        PutAll([0x82, enclen]);
      }
      PutAll(data);
    }

    method ProxySend(data: seq<byte>, r1: Result, r2: Result)
      requires Valid()
      modifies this, buffer
      ensures Valid() && State() == HSend(old(State()), websocket, data, r1, r2)
    {
      hide HFlush;
      if data == [] {
        return;
      }
      SendKeepsInv(State(), websocket, data, r1, r2);
      var extra := if websocket then 4 else 0;
      if buffersize - bufferpos + |data| + extra > SIZE {
        TryFlush(r1);
        if buffersize - bufferpos + |data| + extra > SIZE {
          flushing := true;
          return;
        }
      }
      Accept(data);
      if websocket {
        TryFlush(r2);
      }
    }

    method Accept(data: seq<byte>)
      requires Valid() && Fits(State().q, websocket, data)
      modifies this`buffersize, this`accepted, buffer
      ensures Valid()
      ensures var h, e := old(State()), Encoded(websocket, data);
        State() == h.(q := h.q.(pending := h.q.pending + e), accepted := h.accepted + e)
    {
      hide Frame;
      FrameSize(data);
      ghost var was := Pending();
      if websocket {
        PutFrame(data);
      } else {
        PutAll(data);
      }
      accepted := accepted + Encoded(websocket, data);
      assert flushed + (was + Encoded(websocket, data)) == (flushed + was) + Encoded(websocket, data);
    }

    method SendMessage(data: seq<byte>, demType: byte, playermask: u32, rs: seq<Result>)
      requires Valid() && |rs| == 5 && |data| < TWO32
      modifies this, buffer
      ensures Valid() && State() == HMessage(old(State()), websocket, data, Header(demType, |data|, playermask), rs)
    {
      hide HFlush, HSend;
      var header := Header(demType, |data|, playermask);
      if buffersize - bufferpos + |data| + |header| > SIZE {
        TryFlush(rs[0]);
        if buffersize - bufferpos + |data| + |header| > SIZE {
          flushing := true;
          return;
        }
      }
      ProxySend(header, rs[1], rs[2]);
      ProxySend(data, rs[3], rs[4]);
    }
  }
}
