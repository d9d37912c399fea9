/** The same stream as `ViewerStream`, to a viewer on the NetQuake channel. */
module NqViewerStream {
  import opened Bytes
  import opened NetMsg
  import opened NqChannel
  import opened NqProtocol
  import ViewerQueue

  /** The viewer's client is end `a` of the channel, this server is end `b`. `given` is everything
      handed to `SendBufferToViewer`. */
  datatype Stream = Stream(sys: Sys, backbuf: seq<seq<byte>>, drop: bool, given: seq<byte>)

  datatype Step =
    | Give(chunk: seq<byte>)                // SendBufferToViewer
    | Packets(data: seq<byte>)              // SendViewerPackets: transmit, then shift
    | Arrive(i: nat)                        // the server processes a datagram of the client
    | Client(step: NqProtocol.Step)         // anything the client or the network does at its end

  function Queue(s: Stream): ViewerQueue.Queue {
    ViewerQueue.Queue(true, s.sys.b.chan.maxsize, s.sys.b.chan.message, s.backbuf, s.drop)
  }

  /** The channel end after its message buffer became `message`. */
  function Fed(e: End, message: seq<byte>): End {
    e.(chan := e.chan.(message := message))
  }

  /** The stream after its queue became `q`. */
  function Requeued(s: Stream, q: ViewerQueue.Queue): Stream {
    s.(sys := s.sys.(b := Fed(s.sys.b, q.message)), backbuf := q.backbuf, drop := q.drop)
  }

  function Gives(s: Stream, chunk: seq<byte>): Stream {
    Requeued(s, ViewerQueue.AfterSend(Queue(s), chunk)).(given := s.given + chunk)
  }

  function Shifts(s: Stream): Stream {
    Requeued(s, ViewerQueue.AfterShift(Queue(s)))
  }

  predicate AtClient(step: NqProtocol.Step) {
    match step
    case Send(atA, _) => atA
    case Deliver(toA, _) => toA
    case Queue(atA, _) => atA
  }

  predicate Enabled(s: Stream, step: Step) {
    match step
    case Give(chunk) => |chunk| <= ViewerQueue.MAX_BACKBUF_SIZE
    case Packets(data) => true
    case Arrive(i) => NqProtocol.Enabled(s.sys, Deliver(false, i))
    case Client(step) => AtClient(step) && NqProtocol.Enabled(s.sys, step)
  }

  function Next(s: Stream, step: Step): Stream
    requires Enabled(s, step)
  {
    match step
    case Give(chunk) => Gives(s, chunk)
    case Packets(data) => Shifts(s.(sys := NqProtocol.Next(s.sys, Send(false, data))))
    case Arrive(i) => s.(sys := NqProtocol.Next(s.sys, Deliver(false, i)))
    case Client(step) => s.(sys := NqProtocol.Next(s.sys, step))
  }

  ghost predicate Run(s: Stream, steps: seq<Step>, t: Stream)
    decreases |steps|
  {
    if steps == [] then t == s
    else Enabled(s, steps[0]) && Run(Next(s, steps[0]), steps[1..], t)
  }

  function Init(): Stream {
    Stream(NqProtocol.Init(MAX_MSGLEN), [], false, [])
  }

  /** What was taken off the queue, message by message, and what is still on it. */
  ghost predicate InStep(s: Stream) {
    s.given == Flatten(s.sys.b.taken) + ViewerQueue.Pending(Queue(s))
  }

  ghost predicate Inv(s: Stream) {
    |s.backbuf| <= ViewerQueue.MAX_BACK_BUFFERS && NqProtocol.Inv(s.sys) && (!s.drop ==> InStep(s))
  }

  lemma RequeuedKeeps(s: Stream, q: ViewerQueue.Queue)
    requires NqProtocol.Inv(s.sys)
    ensures NqProtocol.Inv(Requeued(s, q).sys)
  {
    hide Dir;
    var b, b' := s.sys.b, Fed(s.sys.b, q.message);
    SenderSide(b, b', s.sys.a);
    ReceiverSide(s.sys.a, b, b');
  }

  lemma GiveKeeps(s: Stream, chunk: seq<byte>)
    requires Inv(s) && |chunk| <= ViewerQueue.MAX_BACKBUF_SIZE
    ensures Inv(Gives(s, chunk))
  {
    hide NqProtocol.Inv, Flatten, ViewerQueue.Pending;
    var q := ViewerQueue.AfterSend(Queue(s), chunk);
    RequeuedKeeps(s, q);
    if !q.drop {
      ViewerQueue.AcceptedIsAppended(Queue(s), chunk);
      assert Queue(Gives(s, chunk)) == q;
      Assoc(Flatten(s.sys.b.taken), ViewerQueue.Pending(Queue(s)), chunk);
    }
  }

  lemma ShiftKeeps(s: Stream)
    requires Inv(s)
    ensures Inv(Shifts(s))
  {
    hide NqProtocol.Inv, Flatten, ViewerQueue.Pending;
    var q := ViewerQueue.AfterShift(Queue(s));
    RequeuedKeeps(s, q);
    ViewerQueue.ShiftKeepsPending(Queue(s));
    assert Queue(Shifts(s)) == q;
  }

  /** A transmit moves the message, if any, to the end of those taken. */
  lemma SendMoves(e: End, data: seq<byte>)
    ensures var e' := Sends(e, data); Flatten(e'.taken) + e'.chan.message == Flatten(e.taken) + e.chan.message
  {
    hide Flatten, Flies;
    if Loads(e.chan) {
      FlattenSnoc(e.taken, e.chan.message);
      assert Flatten(e.taken + [e.chan.message]) + [] == Flatten(e.taken + [e.chan.message]);
    }
  }

  lemma PacketsKeep(s: Stream, data: seq<byte>)
    requires Inv(s)
    ensures Inv(s.(sys := NqProtocol.Next(s.sys, Send(false, data))))
  {
    NqProtocol.StepKeepsInv(s.sys, Send(false, data));
    hide NqProtocol.Inv, Flatten, Sends;
    var b, b' := s.sys.b, Sends(s.sys.b, data);
    SendMoves(b, data);
    Assoc(Flatten(b.taken), b.chan.message, Flatten(s.backbuf));
    Assoc(Flatten(b'.taken), b'.chan.message, Flatten(s.backbuf));
  }

  lemma ReceiveMovesNothing(e: End, f: Flight)
    ensures Receives(e, f).taken == e.taken && Receives(e, f).chan.message == e.chan.message
    ensures Receives(e, f).chan.maxsize == e.chan.maxsize
  {
  }

  lemma ArriveKeeps(s: Stream, i: nat)
    requires Inv(s) && Enabled(s, Arrive(i))
    ensures Inv(s.(sys := NqProtocol.Next(s.sys, Deliver(false, i))))
  {
    NqProtocol.StepKeepsInv(s.sys, Deliver(false, i));
    hide NqProtocol.Inv, Flatten, Receives;
    ReceiveMovesNothing(s.sys.b, s.sys.a.sent[i]);
  }

  lemma ClientKeeps(s: Stream, step: NqProtocol.Step)
    requires Inv(s) && Enabled(s, Client(step))
    ensures Inv(s.(sys := NqProtocol.Next(s.sys, step)))
  {
    NqProtocol.StepKeepsInv(s.sys, step);
    hide NqProtocol.Inv, Flatten, Sends, Receives, Queues;
  }

  lemma StepKeepsInv(s: Stream, step: Step)
    requires Inv(s) && Enabled(s, step)
    ensures Inv(Next(s, step))
  {
    hide Inv, NqProtocol.Next, Shifts, Gives;
    match step
    case Give(chunk) => GiveKeeps(s, chunk);
    case Packets(data) =>
      PacketsKeep(s, data);
      ShiftKeeps(s.(sys := NqProtocol.Next(s.sys, Send(false, data))));
    case Arrive(i) => ArriveKeeps(s, i);
    case Client(step) => ClientKeeps(s, step);
  }

  lemma {:induction false} RunKeepsInv(s: Stream, steps: seq<Step>, t: Stream)
    requires Inv(s) && Run(s, steps, t)
    ensures Inv(t)
    decreases |steps|
  {
    if steps != [] {
      StepKeepsInv(s, steps[0]);
      RunKeepsInv(Next(s, steps[0]), steps[1..], t);
    }
  }

  /** The message in flight: taken, and not yet completed by the client. */
  function InFlight(s: Sys): seq<byte> {
    if |s.a.done| < |s.b.taken| then s.b.chan.reliable else []
  }

  /**
   * Until the viewer is dropped, everything given is what was taken off the queue and what is still
   * on it; and as long as every message taken was under 8000 bytes, what was taken is what the
   * client has completed and the one message in flight. Nothing is lost, repeated or reordered.
   */
  lemma FirstInFirstOut(steps: seq<Step>, t: Stream)
    requires Run(Init(), steps, t) && !t.drop
    ensures t.given == Flatten(t.sys.b.taken) + (t.sys.b.chan.message + Flatten(t.backbuf))
    ensures Short(t.sys.b) ==>
      !t.sys.a.chan.drop
      && t.given == Flatten(t.sys.a.done) + InFlight(t.sys) + (t.sys.b.chan.message + Flatten(t.backbuf))
  {
    RunKeepsInv(Init(), steps, t);
    if Short(t.sys.b) {
      DoneOrInFlight(t.sys.b, t.sys.a);
      hide NqProtocol.Inv, Flatten;
      var a, b := t.sys.a, t.sys.b;
      if |a.done| < |b.taken| {
        FlattenSnoc(a.done, b.chan.reliable);
      } else {
        assert Flatten(a.done) + [] == Flatten(a.done);
      }
    }
  }
}
