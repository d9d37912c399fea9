/** From `SendBufferToViewer` to the far end of the viewer's channel: one first-in first-out stream. */
module ViewerStream {
  import opened Bytes
  import NetMsg
  import opened QwChannel
  import opened QwProtocol
  import ViewerQueue

  const MAX_QWMSGLEN := 1450

  /** The viewer's client is end `a` of the channel, this server is end `b`. `given` is everything
      handed to `SendBufferToViewer`. */
  datatype Stream = Stream(sys: Sys, backbuf: seq<seq<byte>>, drop: bool, given: seq<byte>)

  datatype Step =
    | Give(chunk: seq<byte>)                // SendBufferToViewer
    | Packets(data: seq<byte>)              // SendViewerPackets: transmit, then shift
    | Arrive(i: nat)                        // the server processes a datagram of the client
    | Client(step: QwProtocol.Step)         // anything the client or the network does at its end

  function Queue(s: Stream): ViewerQueue.Queue {
    ViewerQueue.Queue(false, s.sys.b.chan.maxsize, s.sys.b.chan.message, s.backbuf, s.drop)
  }

  /** The channel end after its message buffer became `message`, `fed` of it new. */
  function Fed(e: End, message: seq<byte>, fed: seq<byte>): End {
    e.(chan := e.chan.(message := message), queued := e.queued + fed)
  }

  function Gives(s: Stream, chunk: seq<byte>): Stream {
    var q := ViewerQueue.AfterSend(Queue(s), chunk);
    var fed := if ViewerQueue.FitsMessage(Queue(s), chunk) then chunk else [];
    s.(sys := s.sys.(b := Fed(s.sys.b, q.message, fed)), backbuf := q.backbuf, drop := q.drop, given := s.given + chunk)
  }

  function Shifts(s: Stream): Stream {
    var q := ViewerQueue.AfterShift(Queue(s));
    var fed := if q.backbuf != s.backbuf then q.message else [];
    s.(sys := s.sys.(b := Fed(s.sys.b, q.message, fed)), backbuf := q.backbuf)
  }

  predicate AtClient(step: QwProtocol.Step) {
    match step
    case Send(atA, _) => atA
    case Deliver(toA, _) => toA
    case Queue(atA, _) => atA
    case Intrude(_, _) => true
  }

  predicate Enabled(s: Stream, step: Step) {
    match step
    case Give(chunk) => |chunk| <= ViewerQueue.MAX_BACKBUF_SIZE
    case Packets(data) => QwProtocol.Enabled(s.sys, Send(false, data))
    case Arrive(i) => QwProtocol.Enabled(s.sys, Deliver(false, i))
    case Client(step) => AtClient(step) && QwProtocol.Enabled(s.sys, step)
  }

  function Next(s: Stream, step: Step): Stream
    requires Enabled(s, step)
  {
    match step
    case Give(chunk) => Gives(s, chunk)
    case Packets(data) => Shifts(s.(sys := QwProtocol.Next(s.sys, Send(false, data))))
    case Arrive(i) => s.(sys := QwProtocol.Next(s.sys, Deliver(false, i)))
    case Client(step) => s.(sys := QwProtocol.Next(s.sys, step))
  }

  ghost predicate Run(s: Stream, steps: seq<Step>, t: Stream)
    decreases |steps|
  {
    if steps == [] then t == s
    else Enabled(s, steps[0]) && Run(Next(s, steps[0]), steps[1..], t)
  }

  function Init(qport: u16): Stream {
    Stream(QwProtocol.Init(qport, MAX_QWMSGLEN), [], false, [])
  }

  ghost predicate Inv(s: Stream) {
    && |s.backbuf| <= ViewerQueue.MAX_BACK_BUFFERS
    && (!s.drop ==>
         && QwProtocol.Inv(s.sys) && Small(s.sys.a) && Small(s.sys.b) && s.sys.b.chan.maxsize == MAX_QWMSGLEN
         && (forall i :: 0 <= i < |s.backbuf| ==> |s.backbuf[i]| <= ViewerQueue.MAX_BACKBUF_SIZE)
         && s.given == s.sys.b.queued + Flatten(s.backbuf))
  }

  lemma FedIsQueued(e: End, data: seq<byte>)
    requires |e.chan.message| + |data| <= e.chan.maxsize
    ensures Fed(e, e.chan.message + data, data) == Queues(e, data)
  {
  }

  lemma FedNothing(e: End)
    ensures Fed(e, e.chan.message, []) == e
  {
    assert e.queued + [] == e.queued;
  }

  lemma GiveKeeps(s: Stream, chunk: seq<byte>)
    requires Inv(s) && |chunk| <= ViewerQueue.MAX_BACKBUF_SIZE
    ensures Inv(Gives(s, chunk))
  {
    hide QwProtocol.Inv, Flatten;
    var q, r := Queue(s), Gives(s, chunk);
    if !r.drop {
      if ViewerQueue.FitsMessage(q, chunk) {
        FedIsQueued(s.sys.b, chunk);
        GiveToMessage(s, chunk);
      } else {
        FedNothing(s.sys.b);
        if ViewerQueue.FitsLast(q, chunk) {
          ViewerQueue.FlattenUpdateLast(s.backbuf, chunk);
        } else {
          assert NetMsg.PutData([], ViewerQueue.MAX_BACKBUF_SIZE, chunk) == chunk;
          FlattenSnoc(s.backbuf, chunk);
        }
        Assoc(s.sys.b.queued, Flatten(s.backbuf), chunk);
      }
    }
  }

  lemma GiveToMessage(s: Stream, chunk: seq<byte>)
    requires Inv(s) && !s.drop && s.backbuf == [] && |s.sys.b.chan.message| + |chunk| <= s.sys.b.chan.maxsize
    ensures QwProtocol.Inv(s.sys.(b := Queues(s.sys.b, chunk)))
    ensures s.given + chunk == Queues(s.sys.b, chunk).queued + Flatten(s.backbuf)
    ensures Queues(s.sys.b, chunk).chan.maxsize == s.sys.b.chan.maxsize
  {
    QueueKeeps(s.sys.b, s.sys.a, chunk);
    hide QwProtocol.Inv;
    var none: seq<byte> := Flatten(s.backbuf);
    assert none == [] && s.given == s.sys.b.queued + none == s.sys.b.queued;
    assert s.sys.b.queued + chunk + none == s.sys.b.queued + chunk;
  }

  /** Moving the first back buffer into the empty message is one more thing queued on the channel. */
  lemma ShiftIsQueued(s: Stream)
    requires Inv(s) && !s.drop && s.sys.b.chan.message == [] && s.backbuf != []
    ensures |s.backbuf[0]| <= s.sys.b.chan.maxsize
    ensures Shifts(s) == s.(sys := s.sys.(b := Queues(s.sys.b, s.backbuf[0])), backbuf := s.backbuf[1..])
  {
    hide QwProtocol.Inv, Flatten;
    assert s.backbuf[1..] != s.backbuf;
    assert s.sys.b.chan.message + s.backbuf[0] == s.backbuf[0];
    FedIsQueued(s.sys.b, s.backbuf[0]);
  }

  lemma FlattenFirst(ss: seq<seq<byte>>)
    requires ss != []
    ensures Flatten(ss) == ss[0] + Flatten(ss[1..])
  {
    hide Flatten;
    assert ss == [ss[0]] + ss[1..];
    FlattenAppend([ss[0]], ss[1..]);
    FlattenOne(ss[0]);
  }

  lemma FlattenOne(s: seq<byte>)
    ensures Flatten([s]) == s
  {
    var ss := [s];
    assert ss[..0] == [] && [] + s == s;
  }

  lemma ShiftKeeps(s: Stream)
    requires Inv(s)
    ensures Inv(Shifts(s))
  {
    var b := s.sys.b;
    if s.drop {
    } else if b.chan.message == [] && s.backbuf != [] {
      ShiftIsQueued(s);
      QueueKeeps(b, s.sys.a, s.backbuf[0]);
      hide QwProtocol.Inv, Flatten;
      FlattenFirst(s.backbuf);
      Assoc(b.queued, s.backbuf[0], Flatten(s.backbuf[1..]));
    } else {
      hide QwProtocol.Inv, Flatten;
      FedNothing(b);
    }
  }

  /** The channel between a shift and the next. */
  lemma PacketsKeep(s: Stream, data: seq<byte>)
    requires Inv(s) && Enabled(s, Packets(data))
    ensures Inv(s.(sys := QwProtocol.Next(s.sys, Send(false, data))))
  {
    if !s.drop {
      SmallStep(s.sys, Send(false, data));
      SendKeeps(s.sys.b, s.sys.a, data);
    }
    hide QwProtocol.Inv, Both, Flies, Small, Flatten;
  }

  lemma ArriveKeeps(s: Stream, i: nat)
    requires Inv(s) && Enabled(s, Arrive(i))
    ensures Inv(s.(sys := QwProtocol.Next(s.sys, Deliver(false, i))))
  {
    if !s.drop {
      SmallStep(s.sys, Deliver(false, i));
      DeliverKeeps(s.sys.b, s.sys.a, i);
    }
    hide QwProtocol.Inv, Both, ReadHeading, Small, Flatten;
  }

  lemma ClientKeeps(s: Stream, step: QwProtocol.Step)
    requires Inv(s) && Enabled(s, Client(step))
    ensures Inv(s.(sys := QwProtocol.Next(s.sys, step)))
  {
    if !s.drop {
      SmallStep(s.sys, step);
      QwProtocol.StepKeepsInv(s.sys, step);
      if step.Intrude? {
        IntruderIsIgnored(if step.toA then s.sys.a else s.sys.b, step.bytes);
      }
    }
    hide QwProtocol.Inv, Sends, Receives, Queues, Small, Flatten;
  }

  lemma StepKeepsInv(s: Stream, step: Step)
    requires Inv(s) && Enabled(s, step)
    ensures Inv(Next(s, step))
  {
    hide Inv, QwProtocol.Next, Shifts, Gives;
    match step
    case Give(chunk) => GiveKeeps(s, chunk);
    case Packets(data) =>
      PacketsKeep(s, data);
      ShiftKeeps(s.(sys := QwProtocol.Next(s.sys, Send(false, data))));
    case Arrive(i) => ArriveKeeps(s, i);
    case Client(step) => ClientKeeps(s, step);
  }

  lemma {:induction false} RunKeepsInv(s: Stream, steps: seq<Step>, t: Stream)
    requires Inv(s) && Run(s, steps, t)
    ensures Inv(t)
    decreases |steps|
  {
    if steps != [] {
      StepKeepsInv(s, steps[0]);
      RunKeepsInv(Next(s, steps[0]), steps[1..], t);
    }
  }

  /** The block in flight: started, and not yet accepted by the client. */
  function InFlight(s: Sys): seq<byte> {
    if |s.a.accepted| < |s.b.started| then s.b.chan.reliable else []
  }

  /** Until the viewer is dropped, nothing given is lost, repeated or reordered. */
  lemma FirstInFirstOut(qport: u16, steps: seq<Step>, t: Stream)
    requires Run(Init(qport), steps, t) && !t.drop
    ensures t.given == Flatten(t.sys.a.accepted) + InFlight(t.sys) + t.sys.b.chan.message + Flatten(t.backbuf)
  {
    InitInv(qport, MAX_QWMSGLEN);
    RunKeepsInv(Init(qport), steps, t);
    QueuedParts(t);
  }

  /** What the server queued on the channel, block by block. */
  lemma QueuedParts(t: Stream)
    requires Inv(t) && !t.drop
    ensures t.given == Flatten(t.sys.a.accepted) + InFlight(t.sys) + t.sys.b.chan.message + Flatten(t.backbuf)
  {
    hide Wire, Carried, Acks, Indexed, Flatten, Small, Paired, StartedFit;
    var a, b := t.sys.a, t.sys.b;
    var m := |a.accepted|;
    if m < |b.started| {
      assert b.started == a.accepted + [b.chan.reliable];
      FlattenSnoc(a.accepted, b.chan.reliable);
    } else {
      assert b.started == a.accepted;
      assert Flatten(a.accepted) + [] == Flatten(a.accepted);
    }
  }
}
