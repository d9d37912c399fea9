/** How far clean exchanges bring a NetQuake channel. */
module NqProgress {
  import opened Bytes
  import opened NqChannel
  import opened NqProtocol

  /** There is a fragment to acknowledge, of the message at hand or of the one about to be loaded. */
  predicate Busy(s: Sys) {
    Outstanding(Loaded(s.a).chan)
  }

  /** `a` transmits, `b` processes the fragment, and its acknowledgement reaches `a`. */
  function Exchange(s: Sys): Sys
    requires Busy(s)
  {
    var a1 := Sends(s.a, []);
    var n, f := a1.chan.reliableSequence, Piece(a1.chan.reliable, a1.chan.start);
    Sys(TakesAck(a1, n), TakesData(s.b, n, f))
  }

  /** `k` exchanges can be numbered without coming near the wrap of a sequence. */
  predicate Room(s: Sys, k: nat) {
    && s.a.chan.reliableSequence + k + 2 < TWO32 && s.b.chan.reliableSequence + 1 < TWO32
    && s.a.chan.incomingReliable + 1 < TWO32
  }

  function ExchangeSteps(s: Sys): seq<Step> {
    [Send(true, []), Deliver(false, |s.a.sent|), Deliver(true, |s.b.sent|)]
  }

  /** The exchange is three steps of the protocol. */
  lemma ExchangeIsRun(s: Sys)
    requires Inv(s) && Busy(s) && Room(s, 1)
    ensures Run(s, ExchangeSteps(s), Exchange(s)) && Inv(Exchange(s))
  {
    hide Dir, Piece, Run, TakesData, TakesAck;
    var s1 := Next(s, Send(true, []));
    StepKeepsInv(s, Send(true, []));
    InvLevel(s);
    var c := s1.a.chan;
    var f := Data(c.reliableSequence, Piece(c.reliable, c.start));
    assert s1.a.sent == s.a.sent + [f] by { SendsOne(s.a); }
    assert s1.a.sent[|s.a.sent|] == f;
    var s2 := Next(s1, Deliver(false, |s.a.sent|));
    StepKeepsInv(s1, Deliver(false, |s.a.sent|));
    assert s2.b == TakesData(s.b, f.sequence, f.fragment);
    TakesSendsAck(s.b, f.sequence, f.fragment);
    assert s2.b.sent[|s.b.sent|] == Ack(f.sequence);
    var s3 := Next(s2, Deliver(true, |s.b.sent|));
    StepKeepsInv(s2, Deliver(true, |s.b.sent|));
    assert s3 == Exchange(s);
    ThreeSteps(s, s1, s2, s3);
  }

  lemma TakesSendsAck(b: End, n: u32, f: Fragment)
    ensures TakesData(b, n, f).sent == b.sent + [Ack(n)]
    ensures TakesData(b, n, f).chan.reliableSequence == b.chan.reliableSequence
  {
  }

  lemma SendsOne(a: End)
    requires Outstanding(Loaded(a).chan)
    ensures var c := Sends(a, []).chan;
      Sends(a, []).sent == a.sent + [Data(c.reliableSequence, Piece(c.reliable, c.start))]
  {
    assert Flies(Loaded(a).chan, [])
      == [Data(Loaded(a).chan.reliableSequence, Piece(Loaded(a).chan.reliable, Loaded(a).chan.start))];
  }

  lemma InvLevel(s: Sys)
    requires Inv(s)
    ensures s.a.chan.reliableSequence <= s.b.chan.incomingReliable <= s.a.chan.reliableSequence + 1
  {
    hide Offered, Flights, Content;
  }

  lemma ThreeSteps(s: Sys, s1: Sys, s2: Sys, s3: Sys)
    requires var steps := ExchangeSteps(s);
      && Enabled(s, steps[0]) && Next(s, steps[0]) == s1
      && Enabled(s1, steps[1]) && Next(s1, steps[1]) == s2
      && Enabled(s2, steps[2]) && Next(s2, steps[2]) == s3
    ensures Run(s, ExchangeSteps(s), s3)
  {
    hide Next, Enabled;
    var steps := ExchangeSteps(s);
    assert steps[1..][1..] == [steps[2]] && steps[1..][0] == steps[1] && [steps[2]][1..] == [];
    assert Run(s3, [], s3);
    assert Run(s2, [steps[2]], s3);
    assert Run(s1, steps[1..], s3);
  }

  /**
   * From any reachable state, whether or not the fragment had got through before, a clean
   * exchange acknowledges exactly it and leaves both ends level.
   */
  lemma ExchangeAcknowledges(s: Sys)
    requires Inv(s) && Busy(s) && Room(s, 1)
    ensures var c, t := Loaded(s.a).chan, Exchange(s);
      && Inv(t)
      && t.b.chan.incomingReliable == t.a.chan.reliableSequence == s.a.chan.reliableSequence + 1
      && t.a.taken == Loaded(s.a).taken && t.a.chan.message == c.message
      && t.a.chan.reliable == (if c.start + MAX_NQDATAGRAM >= |c.reliable| then [] else c.reliable)
      && t.a.chan.start == (if c.start + MAX_NQDATAGRAM >= |c.reliable| then 0 else c.start + MAX_NQDATAGRAM)
      && t.b.chan.reliableSequence == s.b.chan.reliableSequence
      && t.a.chan.incomingReliable == s.a.chan.incomingReliable
  {
    hide Inv, Run, TakesData, TakesAck;
    ExchangeIsRun(s);
    InvLevel(s);
    var a1 := Sends(s.a, []);
    AckMovesOn(a1);
    DataLevels(s.b, a1.chan.reliableSequence, Piece(a1.chan.reliable, a1.chan.start));
  }

  lemma AckMovesOn(a: End)
    requires Outstanding(a.chan) && a.chan.reliableSequence + 1 < TWO32
    ensures var c, c' := a.chan, TakesAck(a, a.chan.reliableSequence).chan;
      && c'.reliableSequence == c.reliableSequence + 1 && c'.message == c.message
      && c'.incomingReliable == c.incomingReliable
      && c'.reliable == (if c.start + MAX_NQDATAGRAM >= |c.reliable| then [] else c.reliable)
      && c'.start == (if c.start + MAX_NQDATAGRAM >= |c.reliable| then 0 else c.start + MAX_NQDATAGRAM)
    ensures TakesAck(a, a.chan.reliableSequence).taken == a.taken
  {
    hide Piece;
  }

  lemma DataLevels(b: End, n: u32, f: Fragment)
    requires n <= b.chan.incomingReliable <= n + 1 < TWO32
    ensures TakesData(b, n, f).chan.incomingReliable == n + 1
    ensures TakesData(b, n, f).chan.reliableSequence == b.chan.reliableSequence
  {
  }

  function Exchanges(s: Sys, k: nat): Sys
    decreases k
  {
    if k == 0 then s else if !Busy(s) then s else Exchanges(Exchange(s), k - 1)
  }

  /** How many fragments are left of a message of `n` bytes. */
  function Needed(n: nat): nat {
    (n + MAX_NQDATAGRAM - 1) / MAX_NQDATAGRAM
  }

  /** Everything taken has been acknowledged, and a receiver that was never sent too much has it all. */
  ghost predicate Settled(s: Sys) {
    s.a.chan.reliable == [] && (Short(s.a) ==> !s.b.chan.drop && s.b.done == s.a.taken)
  }

  /**
   * A message, with or without a part of it acknowledged already, takes one exchange for every
   * 1024 bytes or part of them that are left: not one fewer, and no more.
   */
  lemma {:induction false} SettlesInExactly(s: Sys, k: nat)
    requires Inv(s) && Busy(s) && Room(s, k + 1)
    requires var c := Loaded(s.a).chan; k <= Needed(|c.reliable| - c.start)
    ensures var c, t := Loaded(s.a).chan, Exchanges(s, k);
      && Inv(t)
      && (k == Needed(|c.reliable| - c.start) ==> Settled(t) && t.a.taken == Loaded(s.a).taken)
      && (k < Needed(|c.reliable| - c.start) ==>
           Loaded(t.a).chan.reliable == c.reliable
           && Loaded(t.a).chan.start == c.start + k * MAX_NQDATAGRAM < |c.reliable|)
    decreases k
  {
    hide Inv, Settled, Exchange;
    var c := Loaded(s.a).chan;
    if k > 0 {
      var t := Exchange(s);
      ExchangeAcknowledges(s);
      if c.start + MAX_NQDATAGRAM >= |c.reliable| {
        EmptySettles(t);
      } else {
        assert Loaded(t.a) == t.a;
        SettlesInExactly(t, k - 1);
      }
    }
  }

  lemma EmptySettles(s: Sys)
    requires Inv(s) && s.a.chan.reliable == [] && s.b.chan.incomingReliable == s.a.chan.reliableSequence
    ensures Settled(s)
  {
    hide Assemble, Flights;
    assert Offered(s.a) && (Short(s.a) ==> Content(s.a, s.b));
  }
}
