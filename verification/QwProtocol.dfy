/** Two QuakeWorld channels joined by a network that may lose, repeat and reorder datagrams. */
module QwProtocol {
  import opened Bytes
  import opened NetMsg
  import opened QwChannel

  /** A datagram on its way, with what its sender knew: how many blocks it had started and accepted. */
  datatype Flight = Flight(bytes: seq<byte>, reliable: bool, body: seq<byte>, extra: seq<byte>,
                           block: nat, ack: u32, got: nat)

  /** One end with its history. The network keeps `sent` forever, so any flight may arrive at any
      time, any number of times, or never. */
  datatype End = End(chan: Chan, sent: seq<Flight>, started: seq<seq<byte>>, accepted: seq<seq<byte>>,
                     queued: seq<byte>)

  datatype Sys = Sys(a: End, b: End)

  function Fresh(c: Chan): End {
    End(c, [], [], [], [])
  }

  function Flies(e: End, data: seq<byte>): Flight
    requires !e.chan.overflowed
  {
    var reliable := Resend(e.chan) || Starts(e.chan);
    var c := Load(e.chan);
    var body := Body(c, reliable);
    var extra := if |Header(c, reliable)| + |body| + |data| <= SEND_BUFFER then data else [];
    var block := |e.started| + if Starts(e.chan) then 1 else 0;
    Flight(AfterTransmit(e.chan, data).1.value, reliable, body, extra, block, e.chan.incoming, |e.accepted|)
  }

  /** `Netchan_Transmit` at one end. */
  function Sends(e: End, data: seq<byte>): End {
    var c := AfterTransmit(e.chan, data).0;
    if e.chan.overflowed then e.(chan := c)
    else
      e.(chan := c, sent := e.sent + [Flies(e, data)],
         started := if Starts(e.chan) then e.started + [e.chan.message] else e.started)
  }

  /** `Netchan_Process` at one end. */
  function Receives(e: End, f: Flight): End {
    var h := ReadHeading(e.chan.isClient, e.chan.qport, f.bytes).0;
    var r := AfterProcess(e.chan, h);
    e.(chan := r.0, accepted := if r.1 && h.reliable == 1 then e.accepted + [f.body] else e.accepted)
  }

  /** Something writes `data` onto `chan.message`, where it fits. */
  function Queues(e: End, data: seq<byte>): End {
    if |e.chan.message| + |data| > e.chan.maxsize then e
    else e.(chan := e.chan.(message := e.chan.message + data), queued := e.queued + data)
  }

  /** A datagram that is not of this channel. */
  function Unsent(bytes: seq<byte>): Flight {
    Flight(bytes, false, bytes, [], 0, 0, 0)
  }

  datatype Step =
    | Send(atA: bool, data: seq<byte>)
    | Deliver(toA: bool, i: nat)
    | Queue(atA: bool, data: seq<byte>)
    | Intrude(toA: bool, bytes: seq<byte>)  // anything at all with another port

  /** Sequence numbers keep their 31 bits; what arrives was sent, or has a port that is not the channel's. */
  predicate Enabled(s: Sys, step: Step) {
    match step
    case Send(atA, _) => (if atA then s.a else s.b).chan.outgoing + 1 < TWO31
    case Deliver(toA, i) => i < |(if toA then s.b else s.a).sent|
    case Queue(_, _) => true
    case Intrude(toA, bytes) =>
      var c := (if toA then s.a else s.b).chan; !c.isClient && PortOf(bytes) != c.qport
  }

  function Next(s: Sys, step: Step): Sys
    requires Enabled(s, step)
  {
    match step
    case Send(atA, data) => if atA then s.(a := Sends(s.a, data)) else s.(b := Sends(s.b, data))
    case Deliver(toA, i) => if toA then s.(a := Receives(s.a, s.b.sent[i])) else s.(b := Receives(s.b, s.a.sent[i]))
    case Queue(atA, data) => if atA then s.(a := Queues(s.a, data)) else s.(b := Queues(s.b, data))
    case Intrude(toA, bytes) =>
      if toA then s.(a := Receives(s.a, Unsent(bytes))) else s.(b := Receives(s.b, Unsent(bytes)))
  }

  /** A step is one call at one end, over the bytes that are there; the other end is as it was. */
  lemma StepIsCall(s: Sys, step: Step)
    requires Enabled(s, step)
    ensures var t := Next(s, step);
      var atA := match step case Send(x, _) => x case Deliver(x, _) => x case Queue(x, _) => x case Intrude(x, _) => x;
      var e, e', p, p' := if atA then s.a else s.b, if atA then t.a else t.b,
                          if atA then s.b else s.a, if atA then t.b else t.a;
      var c := e.chan;
      && p' == p && |e.sent| <= |e'.sent| && e'.sent[..|e.sent|] == e.sent
      && match step
         case Send(_, data) =>
           e'.chan == AfterTransmit(c, data).0
           && (if c.overflowed then e'.sent == e.sent
               else |e'.sent| == |e.sent| + 1 && AfterTransmit(c, data).1 == Some(e'.sent[|e.sent|].bytes))
         case Deliver(_, i) =>
           e'.chan == AfterProcess(c, ReadHeading(c.isClient, c.qport, p.sent[i].bytes).0).0
         case Queue(_, data) =>
           e'.chan == c.(message := PutData(c.message, c.maxsize, data))
           && |e'.queued| - |e.queued| == |e'.chan.message| - |c.message|
         case Intrude(_, bytes) => e'.chan == AfterProcess(c, ReadHeading(c.isClient, c.qport, bytes).0).0
  {
    hide AfterProcess, ReadHeading;
  }

  ghost predicate Run(s: Sys, steps: seq<Step>, t: Sys)
    decreases |steps|
  {
    if steps == [] then t == s
    else Enabled(s, steps[0]) && Run(Next(s, steps[0]), steps[1..], t)
  }

  function Init(qport: u16, maxsize: nat): Sys {
    Sys(Fresh(Setup(true, qport, maxsize)), Fresh(Setup(false, qport, maxsize)))
  }

  // ---- The invariant of one direction: `a` sends reliable blocks, `b` acknowledges them ----

  /** How many of its blocks `a` has seen acknowledged. */
  function Acked(a: End, b: End): nat {
    if 0 < a.chan.incoming < |b.sent| then b.sent[a.chan.incoming].got else 0
  }

  predicate Indexed(a: End, b: End) {
    && |a.sent| == a.chan.outgoing < TWO31
    && (b.chan.incoming == 0 || b.chan.incoming < |a.sent|)
    && a.chan.lastReliable <= |a.sent|
  }

  /** Each flight reads back as what it was sent to say. */
  ghost predicate Wire(a: End, b: End) {
    forall i :: 0 <= i < |a.sent| ==> Legible(a.sent[i], i, b.chan)
  }

  predicate Legible(f: Flight, i: nat, to: Chan) {
    && f.ack < TWO31 && i < TWO31
    && ReadHeading(to.isClient, to.qport, f.bytes) ==
       (Heading(i, f.ack, if f.reliable then 1 else 0, f.got % 2, true), Start(f.body + f.extra))
  }

  predicate Prefix(a: End, b: End) {
    && |b.accepted| <= |a.started|
    && b.accepted == a.started[..|b.accepted|]
    && a.chan.reliableBit == |a.started| % 2
    && b.chan.incomingReliable == |b.accepted| % 2
  }

  predicate Window(a: End, b: End) {
    && Acked(a, b) <= |b.accepted| <= |a.started| == Acked(a, b) + (if a.chan.reliable == [] then 0 else 1)
    && (a.chan.reliable != [] ==> a.chan.reliable == a.started[|a.started| - 1])
    && a.chan.incomingReliableAcked == Acked(a, b) % 2
    && a.chan.incomingAcked == (if 0 < a.chan.incoming < |b.sent| then b.sent[a.chan.incoming].ack else 0)
    && (a.chan.lastReliable == 0 ==> |a.started| == 0)
  }

  /** At most one flight that `b` would still take carries a block, and it is the one `b` waits for. */
  ghost predicate Carried(a: End, b: End) {
    forall i :: 0 <= i < |a.sent| && a.sent[i].reliable ==>
      && 1 <= a.sent[i].block <= |a.started| && a.sent[i].body == a.started[a.sent[i].block - 1]
      && (i > b.chan.incoming ==>
          i == a.chan.lastReliable - 1 && a.sent[i].block == |a.started| == |b.accepted| + 1)
  }

  /** Acknowledgements only grow, and one that covers the last reliable flight tells the truth. */
  ghost predicate Acks(a: End, b: End) {
    && (forall j :: 0 <= j < |b.sent| ==>
         && b.sent[j].ack <= b.chan.incoming && b.sent[j].got <= |b.accepted|
         && (0 < a.chan.lastReliable <= b.sent[j].ack + 1 ==> b.sent[j].got == |b.accepted|))
    && (forall j, k :: 0 <= j < k < |b.sent| ==> b.sent[j].got <= b.sent[k].got)
  }

  ghost predicate Dir(a: End, b: End) {
    Indexed(a, b) && Wire(a, b) && Prefix(a, b) && Window(a, b) && Carried(a, b) && Acks(a, b)
  }

  /** The block fits the send buffer behind the header. */
  predicate Sendable(c: Chan, block: seq<byte>) {
    |block| + (if c.isClient then 10 else 8) <= SEND_BUFFER
  }

  /** Every block that was started could be sent. */
  predicate StartedFit(e: End) {
    forall i :: 0 <= i < |e.started| ==> Sendable(e.chan, e.started[i])
  }

  predicate Fitting(e: End) {
    !e.chan.overflowed && StartedFit(e) && e.queued == Flatten(e.started) + e.chan.message
  }

  /** The block a transmit would start could be sent. */
  predicate NextFits(e: End) {
    Starts(e.chan) ==> Sendable(e.chan, e.chan.message)
  }

  predicate Paired(a: Chan, b: Chan) {
    a.isClient != b.isClient && a.qport == b.qport
  }

  ghost predicate Both(e: End, p: End) {
    Paired(e.chan, p.chan) && Fitting(e) && Fitting(p) && Dir(e, p) && Dir(p, e)
  }

  ghost predicate Inv(s: Sys) {
    Both(s.a, s.b)
  }

  // ---- Every step keeps it ----

  /** A block that fits is in the datagram, and the extra data behind it if that still fits. */
  lemma FlightBytes(a: End, data: seq<byte>)
    requires !a.chan.overflowed
    requires var f := Flies(a, data); |Header(Load(a.chan), f.reliable)| + |f.body| <= SEND_BUFFER
    ensures var f := Flies(a, data); f.bytes == Header(Load(a.chan), f.reliable) + (f.body + f.extra)
  {
    hide Header, Load;
    var f := Flies(a, data);
    var h := Header(Load(a.chan), f.reliable);
    assert PutData(h, SEND_BUFFER, f.body) == h + f.body;
    Assoc(h, f.body, f.extra);
    assert h + f.body + [] == h + f.body;
  }

  lemma FlightFits(a: End, b: End, data: seq<byte>)
    requires Fitting(a) && NextFits(a) && Dir(a, b)
    ensures var f := Flies(a, data); |Header(Load(a.chan), f.reliable)| + |f.body| <= SEND_BUFFER
  {
    hide Wire, Carried, Acks;
  }

  lemma FlightLegible(a: End, b: End, data: seq<byte>)
    requires Paired(a.chan, b.chan) && Fitting(a) && NextFits(a) && Dir(a, b) && Dir(b, a)
    ensures Legible(Flies(a, data), |a.sent|, b.chan)
  {
    FlightFits(a, b, data);
    FlightBytes(a, data);
    hide ReadHeading, PutData, Header, AfterTransmit, Wire, Carried, Acks;
    var f := Flies(a, data);
    HeadingRoundTrip(Load(a.chan), b.chan, f.reliable, f.body + f.extra);
  }

  /** What a transmit changes, without the bytes. */
  predicate Sent(a: End, a': End, f: Flight) {
    && a'.sent == a.sent + [f] && a'.accepted == a.accepted
    && a'.chan == a.chan.(message := a'.chan.message, reliable := a'.chan.reliable, reliableBit := a'.chan.reliableBit,
                          outgoing := a'.chan.outgoing, lastReliable := a'.chan.lastReliable)
    && a'.chan.outgoing == a.chan.outgoing + 1
    && a'.chan.lastReliable == (if f.reliable then a'.chan.outgoing else a.chan.lastReliable)
    && f.reliable == (Resend(a.chan) || Starts(a.chan))
    && f.ack == a.chan.incoming && f.got == |a.accepted| && f.block == |a'.started|
    && (f.reliable ==> f.body == a'.chan.reliable)
    && if Starts(a.chan) then
         a'.started == a.started + [a.chan.message] && a'.chan.reliable == a.chan.message
         && a'.chan.reliableBit == 1 - a.chan.reliableBit
       else
         a'.started == a.started && a'.chan.reliable == a.chan.reliable && a'.chan.reliableBit == a.chan.reliableBit
  }

  lemma SendsSent(a: End, data: seq<byte>)
    requires !a.chan.overflowed && a.chan.outgoing + 1 < TWO31
    ensures Sent(a, Sends(a, data), Flies(a, data))
  {
  }

  /** No flight still to be taken carries a block when a new copy is about to be sent. */
  lemma SendFindsNone(a: End, b: End)
    requires Dir(a, b)
    requires Resend(a.chan) || Starts(a.chan)
    ensures |b.accepted| == Acked(a, b)
    ensures forall i :: b.chan.incoming < i < |a.sent| ==> !a.sent[i].reliable
  {
    if Starts(a.chan) {
      assert |a.started| == |b.accepted|;
    } else {
      var j := a.chan.incoming;
      assert b.sent[j].got == |b.accepted| && a.chan.lastReliable < b.sent[j].ack <= b.chan.incoming;
    }
  }

  lemma SentKeepsWindow(a: End, a': End, f: Flight, b: End)
    requires Dir(a, b) && Sent(a, a', f)
    ensures Acked(a', b) == Acked(a, b) && Prefix(a', b) && Window(a', b)
  {
    if Starts(a.chan) {
      SendFindsNone(a, b);
    }
  }

  lemma SentKeepsCarried(a: End, a': End, f: Flight, b: End)
    requires Dir(a, b) && Sent(a, a', f)
    ensures Carried(a', b) && Acks(a', b)
  {
    if f.reliable {
      SendFindsNone(a, b);
      SentKeepsWindow(a, a', f, b);
    }
  }

  lemma SendKeepsOwn(a: End, b: End, data: seq<byte>)
    requires Paired(a.chan, b.chan) && Fitting(a) && NextFits(a) && Dir(a, b) && Dir(b, a)
    requires a.chan.outgoing + 1 < TWO31
    ensures Dir(Sends(a, data), b)
  {
    hide Sends, Flies, Legible, Prefix, Window, Carried, Acks;
    var a', f := Sends(a, data), Flies(a, data);
    FlightLegible(a, b, data);
    SendsSent(a, data);
    SentKeepsWindow(a, a', f, b);
    SentKeepsCarried(a, a', f, b);
  }

  lemma SentKeepsPeers(a: End, b: End, b': End, f: Flight)
    requires Dir(a, b) && Indexed(b, a) && Sent(b, b', f)
    ensures Dir(a, b')
  {
    assert Acked(a, b') == Acked(a, b);
    assert Acks(a, b');
  }

  lemma SendKeepsPeers(a: End, b: End, data: seq<byte>)
    requires Dir(a, b) && Fitting(b) && Indexed(b, a)
    requires b.chan.outgoing + 1 < TWO31
    ensures Dir(a, Sends(b, data))
  {
    SendsSent(b, data);
    SentKeepsPeers(a, b, Sends(b, data), Flies(b, data));
  }

  /** What a process changes, when flight `f` reads back as datagram `i`. */
  predicate Got(e: End, e': End, f: Flight, i: nat) {
    && e' == e.(chan := e'.chan, accepted := e'.accepted)
    && if i <= e.chan.incoming then e' == e
       else
         && i < TWO31
         && e'.chan == e.chan.(reliable := if f.got % 2 == e.chan.reliableBit then [] else e.chan.reliable,
                               incoming := i, incomingAcked := f.ack, incomingReliableAcked := f.got % 2,
                               incomingReliable := if f.reliable then 1 - e.chan.incomingReliable
                                 else e.chan.incomingReliable)
         && e'.accepted == if f.reliable then e.accepted + [f.body] else e.accepted
  }

  lemma ReceivesGot(e: End, f: Flight, i: nat)
    requires Legible(f, i, e.chan)
    ensures Got(e, Receives(e, f), f, i)
  {
  }

  lemma GotKeepsPrefix(a: End, b: End, b': End, i: nat)
    requires Dir(a, b) && i < |a.sent| && Got(b, b', a.sent[i], i)
    ensures Prefix(a, b') && Window(a, b')
  {
    hide Wire, Acks;
    if i > b.chan.incoming && a.sent[i].reliable {
      assert b'.accepted == b.accepted + [a.started[|b.accepted|]];
    }
  }

  lemma GotKeepsOwn(a: End, b: End, b': End, i: nat)
    requires Dir(a, b) && i < |a.sent| && Got(b, b', a.sent[i], i)
    ensures Dir(a, b')
  {
    GotKeepsPrefix(a, b, b', i);
    hide Legible, Prefix, Window;
    assert Wire(a, b') && Carried(a, b') && Acks(a, b');
  }

  lemma GotKeepsPeers(a: End, a': End, b: End, j: nat)
    requires Dir(a, b) && Indexed(b, a) && j < |b.sent| && Got(a, a', b.sent[j], j)
    ensures Dir(a', b)
  {
    if j > a.chan.incoming {
      assert Acked(a', b) == b.sent[j].got;
      if a.chan.incoming > 0 {
        assert b.sent[a.chan.incoming].got <= b.sent[j].got;
      }
    }
    hide Legible;
    assert Wire(a', b) && Prefix(a', b) && Window(a', b) && Carried(a', b) && Acks(a', b);
  }

  lemma SendKeepsFitting(e: End, data: seq<byte>)
    requires Fitting(e) && NextFits(e)
    ensures Fitting(Sends(e, data))
  {
    if Starts(e.chan) {
      FlattenSnoc(e.started, e.chan.message);
    }
  }

  lemma QueueKeepsOwn(a: End, b: End, data: seq<byte>)
    requires Dir(a, b)
    ensures Dir(Queues(a, data), b)
  {
    var a' := Queues(a, data);
    assert Wire(a', b) && Carried(a', b) && Acks(a', b);
  }

  lemma QueueKeepsPeers(a: End, b: End, data: seq<byte>)
    requires Dir(a, b)
    ensures Dir(a, Queues(b, data))
  {
    var b' := Queues(b, data);
    assert Wire(a, b') && Carried(a, b') && Acks(a, b');
  }

  lemma QueueKeepsFitting(e: End, data: seq<byte>)
    requires Fitting(e)
    ensures Fitting(Queues(e, data))
  {
    assert Flatten(e.started) + (e.chan.message + data) == (Flatten(e.started) + e.chan.message) + data;
  }

  lemma SendKeeps(e: End, p: End, data: seq<byte>)
    requires Both(e, p) && NextFits(e) && e.chan.outgoing + 1 < TWO31
    ensures Both(Sends(e, data), p)
  {
    SendKeepsOwn(e, p, data);
    SendKeepsPeers(p, e, data);
    SendKeepsFitting(e, data);
    SendsSent(e, data);
  }

  lemma DeliverKeeps(e: End, p: End, i: nat)
    requires Both(e, p) && i < |p.sent|
    ensures Both(Receives(e, p.sent[i]), p)
  {
    ReceivesGot(e, p.sent[i], i);
    GotKeepsOwn(p, e, Receives(e, p.sent[i]), i);
    GotKeepsPeers(e, Receives(e, p.sent[i]), p, i);
  }

  lemma QueueKeeps(e: End, p: End, data: seq<byte>)
    requires Both(e, p)
    ensures Both(Queues(e, data), p)
  {
    QueueKeepsOwn(e, p, data);
    QueueKeepsPeers(p, e, data);
    QueueKeepsFitting(e, data);
  }

  /** A datagram with another port changes nothing, whatever else it says. */
  lemma IntruderIsIgnored(e: End, bytes: seq<byte>)
    requires !e.chan.isClient && PortOf(bytes) != e.chan.qport
    ensures Receives(e, Unsent(bytes)) == e
  {
    hide ReadHeading, AfterProcess;
    TakenExactly(e.chan, bytes);
  }

  /** A send starts no block that could not be sent. */
  predicate StepFits(s: Sys, step: Step) {
    step.Send? ==> NextFits(if step.atA then s.a else s.b)
  }

  lemma StepKeepsInv(s: Sys, step: Step)
    requires Inv(s) && Enabled(s, step) && StepFits(s, step)
    ensures Inv(Next(s, step))
  {
    match step
    case Send(atA, data) =>
      if atA { SendKeeps(s.a, s.b, data); } else { SendKeeps(s.b, s.a, data); }
    case Deliver(toA, i) =>
      if toA { DeliverKeeps(s.a, s.b, i); } else { DeliverKeeps(s.b, s.a, i); }
    case Queue(atA, data) =>
      if atA { QueueKeeps(s.a, s.b, data); } else { QueueKeeps(s.b, s.a, data); }
    case Intrude(toA, bytes) =>
      IntruderIsIgnored(if toA then s.a else s.b, bytes);
  }

  lemma InitInv(qport: u16, maxsize: nat)
    ensures Inv(Init(qport, maxsize))
  {
  }

  predicate AllFit(s: Sys) {
    StartedFit(s.a) && StartedFit(s.b)
  }

  /** What was started stays started. */
  lemma StepGrows(s: Sys, step: Step)
    requires Enabled(s, step) && AllFit(Next(s, step)) && !s.a.chan.overflowed && !s.b.chan.overflowed
    ensures AllFit(s) && StepFits(s, step)
  {
    match step
    case Send(atA, data) => SendGrows(if atA then s.a else s.b, data);
    case Deliver(_, _) =>
    case Queue(_, _) =>
    case Intrude(toA, bytes) => IntruderIsIgnored(if toA then s.a else s.b, bytes);
  }

  lemma SendGrows(e: End, data: seq<byte>)
    requires StartedFit(Sends(e, data)) && !e.chan.overflowed
    ensures StartedFit(e) && NextFits(e)
  {
    var r := Sends(e, data).started;
    assert forall i :: 0 <= i < |e.started| ==> r[i] == e.started[i];
    if Starts(e.chan) {
      assert r[|e.started|] == e.chan.message;
    }
  }

  lemma {:induction false} RunGrows(s: Sys, steps: seq<Step>, t: Sys)
    requires Run(s, steps, t) && AllFit(t) && !s.a.chan.overflowed && !s.b.chan.overflowed
    ensures AllFit(s)
    ensures steps != [] ==> AllFit(Next(s, steps[0])) && StepFits(s, steps[0])
    decreases |steps|
  {
    if steps != [] {
      NeverOverflows(s, steps[0]);
      RunGrows(Next(s, steps[0]), steps[1..], t);
      StepGrows(s, steps[0]);
    }
  }

  lemma NeverOverflows(s: Sys, step: Step)
    requires Enabled(s, step) && !s.a.chan.overflowed && !s.b.chan.overflowed
    ensures var t := Next(s, step); !t.a.chan.overflowed && !t.b.chan.overflowed
  {
  }

  /** A run keeps the invariant as long as every block it starts can be sent. */
  lemma {:induction false} RunKeepsInv(s: Sys, steps: seq<Step>, t: Sys)
    requires Inv(s) && Run(s, steps, t) && AllFit(t)
    ensures Inv(t)
    decreases |steps|
  {
    if steps != [] {
      RunGrows(s, steps, t);
      StepKeepsInv(s, steps[0]);
      RunKeepsInv(Next(s, steps[0]), steps[1..], t);
    }
  }

  // ---- What follows for every run ----

  /** One direction is safe: `b` has accepted a prefix of the blocks `a` started, each once, and `a`
      is never more than one block ahead of what it has seen acknowledged. */
  predicate Safe(a: End, b: End) {
    && |b.accepted| <= |a.started| && b.accepted == a.started[..|b.accepted|]
    && Acked(a, b) <= |b.accepted| <= |a.started| <= Acked(a, b) + 1
    && a.queued == Flatten(a.started) + a.chan.message
    && Flatten(b.accepted) <= a.queued
  }

  /** Whatever the message buffers hold, as long as each block that was started could be sent. */
  lemma Safety(qport: u16, maxsize: nat, steps: seq<Step>, t: Sys)
    requires Run(Init(qport, maxsize), steps, t) && AllFit(t)
    ensures Safe(t.a, t.b) && Safe(t.b, t.a)
  {
    InitInv(qport, maxsize);
    RunKeepsInv(Init(qport, maxsize), steps, t);
    DirSafe(t.a, t.b);
    DirSafe(t.b, t.a);
  }

  lemma DirSafe(a: End, b: End)
    requires Dir(a, b) && Fitting(a)
    ensures Safe(a, b)
  {
    var m := |b.accepted|;
    assert a.started == a.started[..m] + a.started[m..];
    FlattenAppend(a.started[..m], a.started[m..]);
    assert a.queued == Flatten(b.accepted) + (Flatten(a.started[m..]) + a.chan.message);
  }

  /** Buffers that leave room for the header never start a block that cannot be sent. */
  lemma {:induction false} SmallBuffersFit(s: Sys, steps: seq<Step>, t: Sys)
    requires Run(s, steps, t) && AllFit(s) && Small(s.a) && Small(s.b)
    ensures AllFit(t) && Small(t.a) && Small(t.b)
    decreases |steps|
  {
    if steps != [] {
      SmallStep(s, steps[0]);
      SmallBuffersFit(Next(s, steps[0]), steps[1..], t);
    }
  }

  predicate Small(e: End) {
    |e.chan.message| <= e.chan.maxsize && e.chan.maxsize + 10 <= SEND_BUFFER && !e.chan.overflowed
  }

  lemma SmallStep(s: Sys, step: Step)
    requires Enabled(s, step) && AllFit(s) && Small(s.a) && Small(s.b)
    ensures var t := Next(s, step); AllFit(t) && Small(t.a) && Small(t.b)
    ensures StepFits(s, step)
  {
    if step.Intrude? {
      IntruderIsIgnored(if step.toA then s.a else s.b, step.bytes);
    }
  }

  /** The datagram that is taken hands over, first, exactly the block `b` waits for. */
  lemma TakenPayload(qport: u16, maxsize: nat, steps: seq<Step>, t: Sys, i: nat)
    requires Run(Init(qport, maxsize), steps, t) && AllFit(t)
    requires i < |t.a.sent|
    ensures var r := ReadHeading(t.b.chan.isClient, t.b.chan.qport, t.a.sent[i].bytes);
      Accepts(t.b.chan, r.0) && r.0.reliable == 1 ==>
        && |t.b.accepted| < |t.a.started|
        && t.a.started[|t.b.accepted|] <= r.1.rest
        && Receives(t.b, t.a.sent[i]).accepted == t.b.accepted + [t.a.started[|t.b.accepted|]]
  {
    InitInv(qport, maxsize);
    RunKeepsInv(Init(qport, maxsize), steps, t);
    InvHasDir(t);
    hide Inv, Dir, ReadHeading, Run, AllFit;
    DirTakes(t.a, t.b, i);
  }

  lemma InvHasDir(s: Sys)
    requires Inv(s)
    ensures Dir(s.a, s.b) && Dir(s.b, s.a)
  {
    hide Dir;
  }

  lemma DirTakes(a: End, b: End, i: nat)
    requires Dir(a, b) && i < |a.sent|
    ensures var r := ReadHeading(b.chan.isClient, b.chan.qport, a.sent[i].bytes);
      Accepts(b.chan, r.0) && r.0.reliable == 1 ==>
        && |b.accepted| < |a.started| && a.started[|b.accepted|] <= r.1.rest
        && Receives(b, a.sent[i]).accepted == b.accepted + [a.started[|b.accepted|]]
  {
    hide Window, Acks, ReadHeading;
    assert Legible(a.sent[i], i, b.chan);
  }

  /** A block that does not fit behind its header is announced by the reliable bit and not sent. */
  lemma BlockTravelsWhenItFits(c: Chan, data: seq<byte>)
    requires !c.overflowed && Starts(c)
    ensures var h := Header(Load(c), true);
      h + c.message <= AfterTransmit(c, data).1.value <==> |h| + |c.message| <= SEND_BUFFER
  {
    var h := Header(Load(c), true);
    if |h| + |c.message| <= SEND_BUFFER {
      assert PutData(h, SEND_BUFFER, c.message) == h + c.message;
    } else {
      assert |AfterTransmit(c, data).1.value| <= SEND_BUFFER;
    }
  }
}
