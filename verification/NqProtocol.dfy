/** Two NetQuake channels joined by a network that may lose, repeat and reorder datagrams. */
module NqProtocol {
  import opened Bytes
  import opened NetMsg
  import opened NqChannel

  /** A datagram on its way, and what its sender meant by it. */
  datatype Flight =
    | Data(sequence: u32, fragment: Fragment)
    | Ack(sequence: u32)
    | Loose(sequence: u32, data: seq<byte>)

  function Wire(f: Flight): seq<byte>
    requires Sendable(f)
  {
    match f
    case Data(n, fragment) => Datagram(DataFlags(fragment), n, fragment.body)
    case Ack(n) => Runt(n)
    case Loose(n, data) => Datagram(NETFLAG_UNRELIABLE, n, data)
  }

  predicate Sendable(f: Flight) {
    match f
    case Data(_, fragment) => |fragment.body| <= MAX_NQDATAGRAM
    case Ack(_) => true
    case Loose(_, data) => |data| + 8 <= SEND_BUFFER
  }

  /** One end with its history: `taken` are the messages moved into `reliable_buf`, `fragments` the
      fragments offered so far (number n under sequence n), `done` the messages completed by EOM. */
  datatype End = End(chan: Chan, sent: seq<Flight>, taken: seq<seq<byte>>, fragments: seq<Fragment>,
                     done: seq<seq<byte>>)

  datatype Sys = Sys(a: End, b: End)

  function Fresh(maxsize: nat): End {
    End(Setup(maxsize), [], [], [], [])
  }

  predicate Loads(c: Chan) {
    c.reliable == [] && c.message != []
  }

  function Flies(c: Chan, data: seq<byte>): seq<Flight> {
    (if Outstanding(c) then [Data(c.reliableSequence, Piece(c.reliable, c.start))] else [])
    + (if data == [] then [] else [Loose(c.outgoingUnreliable, Trimmed(data))])
  }

  function Loaded(e: End): End {
    var c := Load(e.chan);
    if !Loads(e.chan) then e
    else e.(chan := c, taken := e.taken + [e.chan.message], fragments := e.fragments + [Piece(c.reliable, c.start)])
  }

  /** `Netchan_Transmit` at one end. */
  function Sends(e: End, data: seq<byte>): End {
    var e1 := Loaded(e);
    e1.(chan := AfterTransmit(e.chan, data).0, sent := e.sent + Flies(e1.chan, data))
  }

  /** The flights are the datagrams `Netchan_Transmit` hands to the socket. */
  lemma FliesAreSent(e: End, data: seq<byte>)
    ensures var fs := Flies(Loaded(e).chan, data);
      && |AfterTransmit(e.chan, data).1| == |fs|
      && forall i :: 0 <= i < |fs| ==> Sendable(fs[i]) && AfterTransmit(e.chan, data).1[i] == Wire(fs[i])
  {
  }

  function TakesData(e: End, n: u32, f: Fragment): End {
    var e1 := e.(sent := e.sent + [Ack(n)]);
    if n != e.chan.incomingReliable then e1
    else
      var c := e.chan.(incomingReliable := (n + 1) % TWO32);
      if |c.fragment| + |f.body| >= MAX_NQMSGLEN then e1.(chan := c.(drop := true))
      else if f.eom then e1.(chan := c.(fragment := []), done := e.done + [c.fragment + f.body])
      else e1.(chan := c.(fragment := c.fragment + f.body))
  }

  function TakesAck(e: End, n: u32): End {
    var c := TakeAck(e.chan, n);
    var more := n == e.chan.reliableSequence && Outstanding(c);
    e.(chan := c, fragments := if more then e.fragments + [Piece(c.reliable, c.start)] else e.fragments)
  }

  function TakesLoose(e: End, n: u32): End {
    if n < e.chan.incomingUnreliable then e
    else e.(chan := e.chan.(incomingUnreliable := n, incomingAcked := (e.chan.incomingAcked + 1) % TWO32))
  }

  /** What a flight does to the end it reaches. */
  function Receives(e: End, f: Flight): End {
    match f
    case Data(n, fragment) => TakesData(e, n, fragment)
    case Ack(n) => TakesAck(e, n)
    case Loose(n, _) => TakesLoose(e, n)
  }

  /** It is what `NQNetchan_Process` does with the bytes of that flight, its acknowledgement included. */
  lemma ReceivesIsProcess(e: End, f: Flight)
    requires Sendable(f)
    ensures |Wire(f)| >= 8
    ensures !Undefined(e.chan, Wire(f))
    ensures var o := AfterProcess(e.chan, Wire(f));
      && Receives(e, f).chan == o.chan
      && Receives(e, f).sent == e.sent + (if f.Data? then [Ack(f.sequence)] else [])
      && o.reply == (if f.Data? then Some(Wire(Ack(f.sequence))) else None)
      && Receives(e, f).done == e.done + (if o.result == 2 then [o.message] else [])
  {
    hide AfterProcess, Datagram, TakeAck;
    match f
    case Data(n, fragment) => ReceivesData(e, n, fragment);
    case Ack(n) => ProcessesAck(e.chan, n);
    case Loose(n, data) => ProcessesUnreliable(e.chan, n, data);
  }

  lemma ReceivesData(e: End, n: u32, f: Fragment)
    requires |f.body| <= MAX_NQDATAGRAM
    ensures var s := Datagram(DataFlags(f), n, f.body);
      && |s| >= 8 && !Undefined(e.chan, s)
      && var o := AfterProcess(e.chan, s);
         var e' := TakesData(e, n, f);
         && e'.chan == o.chan && e'.sent == e.sent + [Ack(n)] && o.reply == Some(Runt(n))
         && e'.done == e.done + (if o.result == 2 then [o.message] else [])
  {
    hide AfterProcess, Datagram, Has, Runt;
    ProcessesData(e.chan, f, n);
  }

  function Queues(e: End, data: seq<byte>): End {
    if |e.chan.message| + |data| > e.chan.maxsize then e
    else e.(chan := e.chan.(message := e.chan.message + data))
  }

  datatype Step = Send(atA: bool, data: seq<byte>) | Deliver(toA: bool, i: nat) | Queue(atA: bool, data: seq<byte>)

  predicate Enabled(s: Sys, step: Step) {
    match step
    case Deliver(toA, i) =>
      var e, p := if toA then s.a else s.b, if toA then s.b else s.a;
      && i < |p.sent|
      && e.chan.reliableSequence + 1 < TWO32 && e.chan.incomingReliable + 1 < TWO32
    case _ => true
  }

  function Next(s: Sys, step: Step): Sys
    requires Enabled(s, step)
  {
    match step
    case Send(atA, data) => if atA then s.(a := Sends(s.a, data)) else s.(b := Sends(s.b, data))
    case Deliver(toA, i) => if toA then s.(a := Receives(s.a, s.b.sent[i])) else s.(b := Receives(s.b, s.a.sent[i]))
    case Queue(atA, data) => if atA then s.(a := Queues(s.a, data)) else s.(b := Queues(s.b, data))
  }

  /** A step is one call at one end, over the bytes that are there; the other end is as it was. */
  lemma StepIsCall(s: Sys, step: Step)
    requires Enabled(s, step) && forall f :: f in s.a.sent + s.b.sent ==> Sendable(f)
    ensures var t := Next(s, step);
      var atA := match step case Send(x, _) => x case Deliver(x, _) => x case Queue(x, _) => x;
      var e, e', p, p' := if atA then s.a else s.b, if atA then t.a else t.b,
                          if atA then s.b else s.a, if atA then t.b else t.a;
      var c := e.chan;
      && p' == p && |e.sent| <= |e'.sent| && e'.sent[..|e.sent|] == e.sent
      && match step
         case Send(_, data) =>
           e'.chan == AfterTransmit(c, data).0
           && |e'.sent| == |e.sent| + |AfterTransmit(c, data).1|
           && forall k :: |e.sent| <= k < |e'.sent| ==>
                            Sendable(e'.sent[k]) && Wire(e'.sent[k]) == AfterTransmit(c, data).1[k - |e.sent|]
         case Deliver(_, i) =>
           && Sendable(p.sent[i]) && !Undefined(c, Wire(p.sent[i]))
           && e'.chan == AfterProcess(c, Wire(p.sent[i])).chan
         case Queue(_, data) => e'.chan == c.(message := PutData(c.message, c.maxsize, data))
  {
    hide AfterProcess, Wire, TakeAck;
    match step
    case Send(atA, data) =>
      FliesAreSent(if atA then s.a else s.b, data);
    case Deliver(toA, i) =>
      var e, f := if toA then s.a else s.b, if toA then s.b.sent[i] else s.a.sent[i];
      assert f in s.a.sent + s.b.sent;
      ReceivesIsProcess(e, f);
    case Queue(_, _) =>
  }

  ghost predicate Run(s: Sys, steps: seq<Step>, t: Sys)
    decreases |steps|
  {
    if steps == [] then t == s
    else Enabled(s, steps[0]) && Run(Next(s, steps[0]), steps[1..], t)
  }

  function Init(maxsize: nat): Sys {
    Sys(Fresh(maxsize), Fresh(maxsize))
  }

  // ---- Reassembly ----

  /** The complete messages in a row of fragments, and the bytes of the unfinished one. */
  function Assemble(fs: seq<Fragment>): (seq<seq<byte>>, seq<byte>) {
    if fs == [] then ([], [])
    else
      var r := Assemble(fs[..|fs| - 1]);
      var f := fs[|fs| - 1];
      if f.eom then (r.0 + [r.1 + f.body], []) else (r.0, r.1 + f.body)
  }

  lemma AssembleSnoc(fs: seq<Fragment>, f: Fragment)
    ensures Assemble(fs + [f]) ==
      if f.eom then (Assemble(fs).0 + [Assemble(fs).1 + f.body], []) else (Assemble(fs).0, Assemble(fs).1 + f.body)
  {
    assert (fs + [f])[..|fs|] == fs;
  }

  // ---- The invariant of one direction ----

  predicate Short(e: End) {
    forall m :: m in e.taken ==> |m| < MAX_NQMSGLEN
  }

  /** Fragments offered: all that were acknowledged, and the current one. */
  predicate Offered(a: End) {
    var c := a.chan;
    && c.start <= |c.reliable| && (c.reliable != [] ==> c.start < |c.reliable|)
    && |a.fragments| == c.reliableSequence + (if Outstanding(c) then 1 else 0)
    && (Outstanding(c) ==>
          && a.taken != [] && a.taken[|a.taken| - 1] == c.reliable
          && a.fragments[c.reliableSequence] == Piece(c.reliable, c.start))
    && Assemble(a.fragments[..c.reliableSequence]) ==
       if Outstanding(c) then (a.taken[..|a.taken| - 1], c.reliable[..c.start]) else (a.taken, [])
  }

  predicate Numbers(a: End, b: End) {
    && a.chan.reliableSequence <= b.chan.incomingReliable <= |a.fragments| <= a.chan.reliableSequence + 1
  }

  ghost predicate Flights(a: End, b: End) {
    && (forall i :: 0 <= i < |a.sent| && a.sent[i].Data? ==>
         a.sent[i].sequence < |a.fragments| && a.sent[i].fragment == a.fragments[a.sent[i].sequence])
    && (forall i :: 0 <= i < |b.sent| && b.sent[i].Ack? ==> b.sent[i].sequence < b.chan.incomingReliable)
    && (forall i :: 0 <= i < |a.sent| ==> Sendable(a.sent[i]))
  }

  predicate Content(a: End, b: End) {
    !b.chan.drop && b.chan.incomingReliable <= |a.fragments|
    && (b.done, b.chan.fragment) == Assemble(a.fragments[..b.chan.incomingReliable])
  }

  ghost predicate Dir(a: End, b: End) {
    Offered(a) && Numbers(a, b) && Flights(a, b) && (Short(a) ==> Content(a, b))
  }

  ghost predicate Inv(s: Sys) {
    Dir(s.a, s.b) && Dir(s.b, s.a)
  }

  // ---- Every step keeps it ----

  /** `e'` is `e` with further flights, none of which is the kind that counts for `Dir`. */
  ghost predicate MoreSent(e: End, e': End) {
    && |e.sent| <= |e'.sent|
    && (forall i :: 0 <= i < |e.sent| ==> e'.sent[i] == e.sent[i])
    && (forall i :: |e.sent| <= i < |e'.sent| ==> Sendable(e'.sent[i]))
  }

  /** Nothing a sender's half depends on has changed, and nothing new was offered. */
  lemma SenderSide(e: End, e': End, p: End)
    requires Dir(e, p) && MoreSent(e, e') && (forall i :: |e.sent| <= i < |e'.sent| ==> !e'.sent[i].Data?)
    requires e'.taken == e.taken && e'.fragments == e.fragments && e'.chan.start == e.chan.start
    requires e'.chan.reliable == e.chan.reliable && e'.chan.reliableSequence == e.chan.reliableSequence
    ensures Dir(e', p)
  {
    hide Assemble, Piece;
    assert Offered(e') && Numbers(e', p) && Flights(e', p);
  }

  /** Nothing a receiver's half depends on has changed, and nothing new was acknowledged. */
  lemma ReceiverSide(p: End, e: End, e': End)
    requires Dir(p, e) && MoreSent(e, e') && (forall i :: |e.sent| <= i < |e'.sent| ==> !e'.sent[i].Ack?)
    requires e'.done == e.done && e'.chan.drop == e.chan.drop && e'.chan.fragment == e.chan.fragment
    requires e'.chan.incomingReliable == e.chan.incomingReliable
    ensures Dir(p, e')
  {
    hide Assemble, Piece, Offered;
    assert Numbers(p, e') && Flights(p, e');
  }

  lemma LoadKeepsOffered(a: End)
    requires Offered(a)
    ensures Offered(Loaded(a))
  {
    if Loads(a.chan) {
      var a' := Loaded(a);
      assert a'.fragments[..a.chan.reliableSequence] == a.fragments == a.fragments[..a.chan.reliableSequence];
      assert a'.taken[..|a.taken|] == a.taken;
      assert a'.chan.reliable[..0] == [];
    }
  }

  lemma LoadKeepsOwn(a: End, b: End)
    requires Dir(a, b)
    ensures Dir(Loaded(a), b)
  {
    LoadKeepsOffered(a);
    var a' := Loaded(a);
    if Short(a') {
      assert forall m :: m in a.taken ==> m in a'.taken;
      assert a'.fragments[..b.chan.incomingReliable] == a.fragments[..b.chan.incomingReliable];
    }
  }

  predicate Offers(a: End, f: Flight)
    requires f.Data?
  {
    f.sequence < |a.fragments| && f.fragment == a.fragments[f.sequence]
  }

  /** More flights in the air that repeat the fragment due, or carry no fragment at all. */
  lemma FlyKeepsOwn(a: End, b: End, fs: seq<Flight>, u: u32)
    requires Dir(a, b)
    requires forall f :: f in fs ==> Sendable(f) && !f.Ack? && (f.Data? ==> Offers(a, f))
    ensures Dir(a.(chan := a.chan.(outgoingUnreliable := u), sent := a.sent + fs), b)
  {
    assert Offered(a.(chan := a.chan.(outgoingUnreliable := u), sent := a.sent + fs));
  }

  lemma SendKeepsOwn(a: End, b: End, data: seq<byte>)
    requires Dir(a, b)
    ensures Dir(Sends(a, data), b)
  {
    LoadKeepsOwn(a, b);
    FlyKeepsOwn(Loaded(a), b, Flies(Loaded(a).chan, data), Sends(a, data).chan.outgoingUnreliable);
  }

  lemma SendKeepsPeers(a: End, b: End, data: seq<byte>)
    requires Dir(a, b)
    ensures Dir(a, Sends(b, data))
  {
    hide Dir;
    ReceiverSide(a, b, Sends(b, data));
  }

  /** Everything offered so far, put together. */
  lemma AssembleOffered(a: End)
    requires Offered(a)
    ensures Assemble(a.fragments) ==
      if !Outstanding(a.chan) || Piece(a.chan.reliable, a.chan.start).eom then (a.taken, [])
      else (a.taken[..|a.taken| - 1], a.chan.reliable[..a.chan.start + MAX_NQDATAGRAM])
  {
    var n: nat, c := a.chan.reliableSequence, a.chan;
    if Outstanding(c) {
      var f := Piece(c.reliable, c.start);
      assert a.fragments == a.fragments[..n] + [f];
      AssembleSnoc(a.fragments[..n], f);
      assert a.taken == a.taken[..|a.taken| - 1] + [c.reliable];
      assert c.reliable[..c.start] + f.body == c.reliable[..c.start + |f.body|];
      if f.eom {
        assert c.reliable[..c.start] + f.body == c.reliable;
      }
    } else {
      assert a.fragments == a.fragments[..n];
    }
  }

  lemma DataKeepsContent(a: End, b: End, n: u32, f: Fragment)
    requires Content(a, b) && n == b.chan.incomingReliable < |a.fragments| && f == a.fragments[n] && n + 1 < TWO32
    requires |b.chan.fragment| + |f.body| < MAX_NQMSGLEN
    ensures Content(a, TakesData(b, n, f))
  {
    assert a.fragments[..n + 1] == a.fragments[..n] + [f];
    AssembleSnoc(a.fragments[..n], f);
  }

  lemma DataKeepsOwn(a: End, b: End, n: u32, f: Fragment)
    requires Dir(a, b) && n < |a.fragments| && f == a.fragments[n]
    requires b.chan.incomingReliable + 1 < TWO32
    ensures Dir(a, TakesData(b, n, f))
  {
    if n == b.chan.incomingReliable && Short(a) {
      assert n == a.chan.reliableSequence && Outstanding(a.chan);
      assert a.taken[|a.taken| - 1] in a.taken;
      assert |b.chan.fragment| == a.chan.start && f == Piece(a.chan.reliable, a.chan.start);
      DataKeepsContent(a, b, n, f);
    }
    var b' := TakesData(b, n, f);
    assert Numbers(a, b') && Flights(a, b');
  }

  lemma DataKeepsPeers(a: End, b: End, n: u32, f: Fragment)
    requires Dir(b, a)
    ensures Dir(TakesData(b, n, f), a)
  {
    hide Dir;
    SenderSide(b, TakesData(b, n, f), a);
  }

  lemma AckKeepsOffered(a: End, n: u32)
    requires Offered(a) && Outstanding(a.chan) && n == a.chan.reliableSequence && n + 1 < TWO32
    ensures Offered(TakesAck(a, n))
  {
    AssembleOffered(a);
    var a' := TakesAck(a, n);
    assert a'.fragments[..n + 1] == a.fragments;
  }

  lemma AckKeepsOwn(a: End, b: End, n: u32)
    requires Dir(a, b) && n < b.chan.incomingReliable && a.chan.reliableSequence + 1 < TWO32
    ensures Dir(TakesAck(a, n), b)
  {
    if n == a.chan.reliableSequence {
      AckKeepsOffered(a, n);
      var a' := TakesAck(a, n);
      assert a'.fragments[..b.chan.incomingReliable] == a.fragments[..b.chan.incomingReliable];
    }
  }

  lemma AckKeepsPeers(a: End, b: End, n: u32)
    requires Dir(b, a)
    ensures Dir(b, TakesAck(a, n))
  {
    hide Dir;
    ReceiverSide(b, a, TakesAck(a, n));
  }

  lemma LooseKeeps(a: End, b: End, n: u32)
    requires Dir(a, b) && Dir(b, a)
    ensures Dir(TakesLoose(a, n), b) && Dir(b, TakesLoose(a, n))
  {
    hide Dir;
    SenderSide(a, TakesLoose(a, n), b);
    ReceiverSide(b, a, TakesLoose(a, n));
  }

  lemma DeliverKeeps(e: End, p: End, i: nat)
    requires Dir(e, p) && Dir(p, e) && i < |p.sent|
    requires e.chan.reliableSequence + 1 < TWO32 && e.chan.incomingReliable + 1 < TWO32
    ensures Dir(Receives(e, p.sent[i]), p) && Dir(p, Receives(e, p.sent[i]))
  {
    match p.sent[i]
    case Data(n, f) =>
      DataKeepsOwn(p, e, n, f);
      DataKeepsPeers(p, e, n, f);
    case Ack(n) =>
      AckKeepsOwn(e, p, n);
      AckKeepsPeers(e, p, n);
    case Loose(n, _) =>
      LooseKeeps(e, p, n);
  }

  lemma QueueKeeps(e: End, p: End, data: seq<byte>)
    requires Dir(e, p) && Dir(p, e)
    ensures Dir(Queues(e, data), p) && Dir(p, Queues(e, data))
  {
    hide Dir;
    SenderSide(e, Queues(e, data), p);
    ReceiverSide(p, e, Queues(e, data));
  }

  lemma StepKeepsInv(s: Sys, step: Step)
    requires Inv(s) && Enabled(s, step)
    ensures Inv(Next(s, step))
  {
    match step
    case Send(atA, data) =>
      var e, p := if atA then s.a else s.b, if atA then s.b else s.a;
      SendKeepsOwn(e, p, data);
      SendKeepsPeers(p, e, data);
    case Deliver(toA, i) =>
      if toA { DeliverKeeps(s.a, s.b, i); } else { DeliverKeeps(s.b, s.a, i); }
    case Queue(atA, data) =>
      if atA { QueueKeeps(s.a, s.b, data); } else { QueueKeeps(s.b, s.a, data); }
  }

  lemma {:induction false} RunKeepsInv(s: Sys, steps: seq<Step>, t: Sys)
    requires Inv(s) && Run(s, steps, t)
    ensures Inv(t)
    decreases |steps|
  {
    if steps != [] {
      StepKeepsInv(s, steps[0]);
      RunKeepsInv(Next(s, steps[0]), steps[1..], t);
    }
  }

  // ---- What follows for every run ----

  /** The receiver is level with the sender or one fragment ahead; an acknowledgement exists only for
      a fragment it took; messages under 8000 bytes come out whole, in order, each once. */
  ghost predicate Safe(a: End, b: End) {
    && a.chan.reliableSequence <= b.chan.incomingReliable <= a.chan.reliableSequence + 1
    && (forall i :: 0 <= i < |b.sent| && b.sent[i].Ack? ==> b.sent[i].sequence < b.chan.incomingReliable)
    && (Short(a) ==> !b.chan.drop && b.done <= a.taken)
  }

  lemma Safety(maxsize: nat, steps: seq<Step>, t: Sys)
    requires Run(Init(maxsize), steps, t)
    ensures Safe(t.a, t.b) && Safe(t.b, t.a)
  {
    RunKeepsInv(Init(maxsize), steps, t);
    DirSafe(t.a, t.b);
    DirSafe(t.b, t.a);
  }

  lemma DirSafe(a: End, b: End)
    requires Dir(a, b)
    ensures Safe(a, b)
  {
    var n: nat := a.chan.reliableSequence;
    if Short(a) && b.chan.incomingReliable == n + 1 {
      AssembleOffered(a);
      assert a.fragments == a.fragments[..n + 1];
    }
  }

  /** Of the messages taken all are complete at the other end, or all but the one being sent. */
  lemma DoneOrInFlight(a: End, b: End)
    requires Dir(a, b) && Short(a)
    ensures !b.chan.drop
    ensures b.done == a.taken || (a.chan.reliable != [] && a.taken == b.done + [a.chan.reliable])
  {
    var n: nat := a.chan.reliableSequence;
    if b.chan.incomingReliable == n + 1 {
      AssembleOffered(a);
      assert a.fragments == a.fragments[..n + 1];
    }
  }

  // ---- The size limit is exact ----

  /** The fragments a message is sent in, from `start` on. */
  function Fragments(m: seq<byte>, start: nat): (fs: seq<Fragment>)
    requires start < |m|
    ensures 0 < |fs| <= |m| - start
    decreases |m| - start
  {
    if start + MAX_NQDATAGRAM >= |m| then [Piece(m, start)]
    else [Piece(m, start)] + Fragments(m, start + MAX_NQDATAGRAM)
  }

  /** The end after it has taken `fs`, in order, from its next expected sequence on. */
  function Feed(e: End, fs: seq<Fragment>): End
    requires e.chan.incomingReliable + |fs| < TWO32
    decreases |fs|
  {
    if fs == [] then e
    else
      var e1 := TakesData(e, e.chan.incomingReliable, fs[0]);
      Feed(e1, fs[1..])
  }

  /** A message that fits the sender's buffer completes exactly when it is shorter than 8000 bytes;
      otherwise the receiver drops the connection and nothing is completed. */
  lemma {:induction false} CompletesExactlyWhenShort(e: End, m: seq<byte>, start: nat)
    requires start < |m| <= MAX_MSGLEN && start % MAX_NQDATAGRAM == 0
    requires !e.chan.drop && e.chan.fragment == m[..start] && e.chan.incomingReliable + |Fragments(m, start)| < TWO32
    ensures var e' := Feed(e, Fragments(m, start));
      && (e'.chan.drop <==> |m| >= MAX_NQMSGLEN)
      && e'.done == (if |m| < MAX_NQMSGLEN then e.done + [m] else e.done)
    decreases |m| - start
  {
    var fs := Fragments(m, start);
    var e1 := TakesData(e, e.chan.incomingReliable, fs[0]);
    if start + MAX_NQDATAGRAM >= |m| {
      assert fs[1..] == [];
      assert m[..start] + fs[0].body == m;
    } else {
      assert m[..start] + m[start..start + MAX_NQDATAGRAM] == m[..start + MAX_NQDATAGRAM];
      assert fs[1..] == Fragments(m, start + MAX_NQDATAGRAM);
      CompletesExactlyWhenShort(e1, m, start + MAX_NQDATAGRAM);
    }
  }
}
