/** The QuakeWorld channel delivers: three clean round trips always get the outstanding block through. */
module QwProgress {
  import opened Bytes
  import opened NetMsg
  import opened QwChannel
  import opened QwProtocol

  function There(s: Sys, data: seq<byte>): Sys {
    var a := Sends(s.a, data);
    if a.sent == [] then s.(a := a) else Sys(a, Receives(s.b, a.sent[|a.sent| - 1]))
  }

  function Back(s: Sys, data: seq<byte>): Sys {
    var b := Sends(s.b, data);
    if b.sent == [] then s.(b := b) else Sys(Receives(s.a, b.sent[|b.sent| - 1]), b)
  }

  /** `a` transmits, `b` processes that datagram, `b` transmits, `a` processes that one. */
  function Trip(s: Sys, there: seq<byte>, back: seq<byte>): Sys {
    Back(There(s, there), back)
  }

  predicate Room(s: Sys, n: nat) {
    s.a.chan.outgoing + n < TWO31 && s.b.chan.outgoing + n < TWO31
  }

  /** What a trip does, for ends that have both sent something before. */
  predicate Tripped(s: Sys, t: Sys) {
    && |t.a.sent| == |s.a.sent| + 1 && |t.b.sent| == |s.b.sent| + 1
    && t.a.chan.incomingAcked == |s.a.sent|
    && t.a.started == (if Starts(s.a.chan) then s.a.started + [s.a.chan.message] else s.a.started)
    && t.a.chan.message == (if Starts(s.a.chan) then [] else s.a.chan.message)
    && Acked(t.a, t.b) == |t.b.accepted| >= |s.b.accepted|
    && if Resend(s.a.chan) || Starts(s.a.chan) then |t.b.accepted| == |t.a.started|
       else t.a.chan.lastReliable == s.a.chan.lastReliable && |t.b.accepted| == |s.b.accepted|
  }

  predicate Went(s: Sys, t: Sys) {
    && |t.a.sent| == |s.a.sent| + 1 && t.a.chan.outgoing == s.a.chan.outgoing + 1
    && t.a.started == (if Starts(s.a.chan) then s.a.started + [s.a.chan.message] else s.a.started)
    && t.a.chan.message == (if Starts(s.a.chan) then [] else s.a.chan.message)
    && t.b.chan.incoming == |s.a.sent| && t.b.sent == s.b.sent && t.b.chan.outgoing == s.b.chan.outgoing
    && |t.b.accepted| >= |s.b.accepted|
    && if Resend(s.a.chan) || Starts(s.a.chan) then |t.b.accepted| == |t.a.started|
       else t.a.chan.lastReliable == s.a.chan.lastReliable && |t.b.accepted| == |s.b.accepted|
  }

  predicate Returned(s: Sys, t: Sys) {
    && |t.b.sent| == |s.b.sent| + 1 && t.b.accepted == s.b.accepted
    && t.b.chan.outgoing == s.b.chan.outgoing + 1
    && |t.a.sent| == |s.a.sent| && t.a.started == s.a.started && t.a.chan.message == s.a.chan.message
    && t.a.chan.lastReliable == s.a.chan.lastReliable && t.a.chan.outgoing == s.a.chan.outgoing
    && t.a.chan.incomingAcked == s.b.chan.incoming && Acked(t.a, t.b) == |s.b.accepted|
  }

  /** What waits at this end, if anything, could be sent. */
  predicate MessageFits(e: End) {
    e.chan.message == [] || Sendable(e.chan, e.chan.message)
  }

  lemma ThereEffect(s: Sys, data: seq<byte>)
    requires Inv(s) && Room(s, 1) && s.a.sent != [] && MessageFits(s.a)
    ensures Inv(There(s, data)) && Went(s, There(s, data))
  {
    hide Sends, Receives, ReadHeading, Acks, Prefix;
    var a := Sends(s.a, data);
    var n := |s.a.sent|;
    SendKeeps(s.a, s.b, data);
    SendsSent(s.a, data);
    SendsMessage(s.a, data);
    DeliverKeeps(s.b, a, n);
    ReceivesGot(s.b, a.sent[n], n);
  }

  lemma SendsMessage(e: End, data: seq<byte>)
    requires !e.chan.overflowed
    ensures Sends(e, data).chan.message == if Starts(e.chan) then [] else e.chan.message
  {
  }

  lemma BackEffect(s: Sys, data: seq<byte>)
    requires Inv(s) && s.b.chan.outgoing + 1 < TWO31 && s.b.sent != [] && MessageFits(s.b)
    ensures Inv(Back(s, data)) && Returned(s, Back(s, data))
  {
    var b := Sends(s.b, data);
    var n := |s.b.sent|;
    SendKeeps(s.b, s.a, data);
    SendsSent(s.b, data);
    DeliverKeeps(s.a, b, n);
    assert Legible(b.sent[n], n, s.a.chan);
  }

  lemma TripEffect(s: Sys, there: seq<byte>, back: seq<byte>, n: nat)
    requires Inv(s) && s.a.sent != [] && s.b.sent != [] && n >= 1 && Room(s, n) && MessageFits(s.a) && MessageFits(s.b)
    ensures var t := Trip(s, there, back);
      && Inv(t) && Tripped(s, t) && Room(t, n - 1) && t.a.sent != [] && t.b.sent != [] && MessageFits(t.a)
      && MessageFits(t.b)
  {
    hide Inv;
    var m := There(s, there);
    MessagesStillFit(s, there, back);
    ThereEffect(s, there);
    BackEffect(m, back);
    TripOf(s, m, Back(m, back));
  }

  /** What a trip does while a block is outstanding and the peer has not sent before: its datagram 0
      is stale wherever it arrives, so that nothing is acknowledged and nothing sent again. */
  predicate FirstTripped(s: Sys, t: Sys) {
    && t.a.started == s.a.started && t.a.chan.reliable == s.a.chan.reliable && t.a.chan.message == s.a.chan.message
    && t.a.chan.incomingAcked == 0 && Acked(t.a, t.b) == 0 < |t.a.started|
    && t.a.chan.outgoing > t.a.chan.lastReliable > 0 && t.b.chan.outgoing == 1
    && |t.b.accepted| == |s.b.accepted|
  }

  lemma FirstTripEffect(s: Sys, there: seq<byte>, back: seq<byte>, n: nat)
    requires Inv(s) && s.a.chan.reliable != [] && s.b.chan.outgoing == 0 && n >= 1 && Room(s, n)
    requires MessageFits(s.a) && MessageFits(s.b)
    ensures var t := Trip(s, there, back);
      && Inv(t) && FirstTripped(s, t) && Room(t, n - 1) && t.a.sent != [] && t.b.sent != []
      && MessageFits(t.a) && MessageFits(t.b)
  {
    hide Inv, There, Back;
    var m := There(s, there);
    BothHaveSent(s);
    SilentPeer(s);
    MessagesStillFit(s, there, back);
    ThereEffect(s, there);
    ThereKeepsUnread(s, there);
    FirstBackEffect(m, back);
  }

  /** A peer that has not sent has acknowledged nothing. */
  lemma SilentPeer(s: Sys)
    requires Inv(s) && s.a.chan.reliable != [] && s.b.chan.outgoing == 0
    ensures s.b.sent == [] && s.a.chan.incoming == 0 && s.a.chan.incomingAcked == 0 && Acked(s.a, s.b) == 0
    ensures |s.a.started| == 1 && s.a.chan.outgoing >= s.a.chan.lastReliable > 0
    ensures !Resend(s.a.chan) && !Starts(s.a.chan)
  {
    hide Wire, Prefix, Carried, Acks;
  }

  lemma ThereKeepsUnread(s: Sys, data: seq<byte>)
    requires Inv(s) && s.a.sent != []
    ensures var a := There(s, data).a;
      && a.chan.incoming == s.a.chan.incoming && a.chan.incomingAcked == s.a.chan.incomingAcked
      && (!Starts(s.a.chan) ==> a.chan.reliable == s.a.chan.reliable)
  {
    hide Receives, Dir;
  }

  /** Datagram 0 reaches an end that has received nothing, and is taken for an old one. */
  lemma FirstBackEffect(s: Sys, data: seq<byte>)
    requires Inv(s) && s.b.chan.outgoing + 1 < TWO31 && s.b.sent == [] && MessageFits(s.b)
    ensures Inv(Back(s, data)) && Back(s, data).a == s.a
    ensures var b := Back(s, data).b;
      |b.sent| == 1 && b.chan.outgoing == s.b.chan.outgoing + 1 && b.accepted == s.b.accepted
  {
    hide Sends, Receives, ReadHeading, Acks, Prefix;
    var b := Sends(s.b, data);
    SendKeeps(s.b, s.a, data);
    SendsSent(s.b, data);
    DeliverKeeps(s.a, b, 0);
    ReceivesGot(s.a, b.sent[0], 0);
  }

  lemma SendStillFits(e: End, data: seq<byte>)
    requires MessageFits(e)
    ensures MessageFits(Sends(e, data))
  {
  }

  lemma ReceiveStillFits(e: End, f: Flight)
    requires MessageFits(e)
    ensures MessageFits(Receives(e, f))
  {
    hide ReadHeading;
  }

  lemma MessagesStillFit(s: Sys, there: seq<byte>, back: seq<byte>)
    requires MessageFits(s.a) && MessageFits(s.b)
    ensures var m := There(s, there); MessageFits(m.a) && MessageFits(m.b)
    ensures var t := Trip(s, there, back); MessageFits(t.a) && MessageFits(t.b)
  {
    hide Sends, Receives, MessageFits;
    var m := There(s, there);
    var a, b := Sends(s.a, there), Sends(m.b, back);
    SendStillFits(s.a, there);
    if a.sent != [] {
      ReceiveStillFits(s.b, a.sent[|a.sent| - 1]);
    }
    SendStillFits(m.b, back);
    if b.sent != [] {
      ReceiveStillFits(m.a, b.sent[|b.sent| - 1]);
    }
  }

  lemma TripOf(s: Sys, m: Sys, t: Sys)
    requires Went(s, m) && Returned(m, t)
    ensures Tripped(s, t)
  {
  }

  lemma LevelMeansEmpty(t: Sys)
    requires Inv(t) && Acked(t.a, t.b) == |t.a.started|
    ensures t.a.chan.reliable == []
  {
  }

  /** Either the trip levels the two ends, or it leaves the block outstanding and untouched. */
  lemma TripLevels(s: Sys, t: Sys)
    requires Inv(s) && Inv(t) && Tripped(s, t)
    ensures Acked(s.a, s.b) <= Acked(t.a, t.b) <= |t.a.started| && |s.a.started| <= |t.a.started|
    ensures Resend(s.a.chan) ==> Acked(t.a, t.b) == |t.a.started|
    ensures Acked(t.a, t.b) == |t.a.started| ==> t.a.chan.reliable == []
    ensures Acked(t.a, t.b) != |t.a.started| ==>
      && t.a.chan.reliable != [] && t.a.chan.lastReliable == s.a.chan.lastReliable && t.a.started == s.a.started
      && (t.a.chan.incomingAcked > t.a.chan.lastReliable ==> Resend(t.a.chan))
  {
    if Acked(t.a, t.b) == |t.a.started| {
      LevelMeansEmpty(t);
    }
  }

  lemma ThreeTripsLevel(s: Sys, t1: Sys, t2: Sys, t3: Sys)
    requires Inv(s) && Inv(t1) && Inv(t2) && Inv(t3)
    requires Tripped(s, t1) && Tripped(t1, t2) && Tripped(t2, t3)
    ensures t1.a.chan.reliable == [] || t2.a.chan.reliable == [] || t3.a.chan.reliable == []
    ensures Acked(t3.a, t3.b) >= |s.a.started|
    ensures s.a.chan.reliable != [] && s.a.chan.message == [] ==> t3.a.chan.reliable == []
  {
    TripLevels(s, t1);
    TripLevels(t1, t2);
    TripLevels(t2, t3);
  }

  lemma BothHaveSent(s: Sys)
    requires Inv(s)
    ensures s.a.chan.reliable != [] ==> s.a.sent != []
    ensures s.a.chan.outgoing >= 1 ==> s.a.sent != []
    ensures s.b.chan.outgoing >= 1 <==> s.b.sent != []
  {
  }

  /** The same system seen from the other end. */
  function Turned(s: Sys): Sys {
    Sys(s.b, s.a)
  }

  /** A state reached by a run whose blocks could all be sent, with one outstanding at `a`, which may
      be the client or the server. */
  ghost predicate Outstanding(qport: u16, maxsize: nat, steps: seq<Step>, s: Sys) {
    && (Run(Init(qport, maxsize), steps, s) || Run(Init(qport, maxsize), steps, Turned(s)))
    && AllFit(s) && MessageFits(s.a) && MessageFits(s.b)
    && s.a.chan.reliable != []
  }

  lemma OutstandingReady(qport: u16, maxsize: nat, steps: seq<Step>, s: Sys)
    requires Outstanding(qport, maxsize, steps, s)
    ensures Inv(s) && s.a.sent != [] && MessageFits(s.a) && MessageFits(s.b) && s.a.chan.reliable != []
    ensures s.b.chan.outgoing >= 1 <==> s.b.sent != []
  {
    hide Inv, AllFit, Run;
    InitInv(qport, maxsize);
    if Run(Init(qport, maxsize), steps, s) {
      RunKeepsInv(Init(qport, maxsize), steps, s);
    } else {
      TurnedFits(s);
      RunKeepsInv(Init(qport, maxsize), steps, Turned(s));
      TurnedInv(s);
    }
    BothHaveSent(s);
  }

  lemma TurnedFits(s: Sys)
    requires AllFit(s)
    ensures AllFit(Turned(s))
  {
  }

  lemma TurnedInv(s: Sys)
    requires Inv(Turned(s))
    ensures Inv(s)
  {
    hide Dir, Fitting;
  }

  /** From every reachable state with a block outstanding, some trip among the first three ends with
      the reliable buffer empty, and after three the block of the start has been acknowledged. */
  lemma Progress(qport: u16, maxsize: nat, steps: seq<Step>, s: Sys, d: seq<seq<byte>>)
    requires Outstanding(qport, maxsize, steps, s) && Room(s, 3) && |d| == 6
    ensures var t1 := Trip(s, d[0], d[1]); var t2 := Trip(t1, d[2], d[3]); var t3 := Trip(t2, d[4], d[5]);
      && (t1.a.chan.reliable == [] || t2.a.chan.reliable == [] || t3.a.chan.reliable == [])
      && Acked(t3.a, t3.b) >= |s.a.started|
      && (s.a.chan.message == [] ==> t3.a.chan.reliable == [])
  {
    hide Outstanding, Inv, Trip, Tripped, FirstTripped, MessageFits, Acked;
    OutstandingReady(qport, maxsize, steps, s);
    var t1 := Trip(s, d[0], d[1]);
    var t2 := Trip(t1, d[2], d[3]);
    if s.b.chan.outgoing == 0 {
      FirstTripEffect(s, d[0], d[1], 3);
    } else {
      TripEffect(s, d[0], d[1], 3);
    }
    TripEffect(t1, d[2], d[3], 2);
    TripEffect(t2, d[4], d[5], 1);
    if s.b.chan.outgoing == 0 {
      LateThreeTripsLevel(s, t1, t2, Trip(t2, d[4], d[5]));
    } else {
      ThreeTripsLevel(s, t1, t2, Trip(t2, d[4], d[5]));
    }
  }

  /** The first trip for nothing, the other two do: the sender has sent since. */
  lemma LateThreeTripsLevel(s: Sys, t1: Sys, t2: Sys, t3: Sys)
    requires Inv(t1) && Inv(t2) && Inv(t3)
    requires s.a.chan.reliable != [] && FirstTripped(s, t1) && Tripped(t1, t2) && Tripped(t2, t3)
    ensures t2.a.chan.reliable == [] || t3.a.chan.reliable == []
    ensures Acked(t3.a, t3.b) >= |s.a.started|
    ensures s.a.chan.message == [] ==> t3.a.chan.reliable == []
  {
    TwoTripsLevel(t1, t2, t3);
    TripLevels(t1, t2);
    TripLevels(t2, t3);
  }

  /** The trips of `Progress` one by one. Only a resend carries the block again. */
  lemma OneTripLevels(s: Sys, t: Sys)
    requires Inv(s) && Inv(t) && Tripped(s, t) && s.a.chan.reliable != []
    ensures Acked(t.a, t.b) >= |s.a.started| <==> Resend(s.a.chan) || |s.b.accepted| == |s.a.started|
  {
    TripLevels(s, t);
  }

  lemma TwoTripsLevel(s: Sys, t: Sys, u: Sys)
    requires Inv(s) && Inv(t) && Inv(u) && Tripped(s, t) && Tripped(t, u) && s.a.chan.reliable != []
    ensures Acked(u.a, u.b) >= |s.a.started|
       <==> s.a.chan.outgoing > s.a.chan.lastReliable || |s.b.accepted| == |s.a.started|
  {
    TripLevels(s, t);
    TripLevels(t, u);
  }

  /** One trip acknowledges the outstanding block exactly when the peer has sent before and the block
      is due for a resend, or has arrived already. */
  lemma OneTripExactly(qport: u16, maxsize: nat, steps: seq<Step>, s: Sys, d: seq<seq<byte>>)
    requires Outstanding(qport, maxsize, steps, s) && Room(s, 1) && |d| == 2
    ensures var t := Trip(s, d[0], d[1]);
      Acked(t.a, t.b) >= |s.a.started|
      <==> s.b.chan.outgoing >= 1 && (Resend(s.a.chan) || |s.b.accepted| == |s.a.started|)
  {
    hide Outstanding, Inv, Trip, Tripped, MessageFits, Acked, Resend;
    OutstandingReady(qport, maxsize, steps, s);
    if s.b.chan.outgoing == 0 {
      FirstTripEffect(s, d[0], d[1], 1);
    } else {
      TripEffect(s, d[0], d[1], 1);
      OneTripLevels(s, Trip(s, d[0], d[1]));
    }
  }

  /** After the trip that is for nothing, one more does only for a block that has arrived. */
  lemma LateTripLevels(s: Sys, t: Sys, u: Sys)
    requires Inv(t) && Inv(u) && s.a.chan.reliable != [] && FirstTripped(s, t) && Tripped(t, u)
    ensures Acked(u.a, u.b) >= |s.a.started| <==> |s.b.accepted| == |s.a.started|
  {
    OneTripLevels(t, u);
  }

  /** Two trips do exactly when the peer has sent before and the sender has sent a datagram since the
      one that carried the block, or the block has arrived already. The sender can tell the first
      from its own counters once it has received anything. */
  lemma TwoTripsExactly(qport: u16, maxsize: nat, steps: seq<Step>, s: Sys, d: seq<seq<byte>>)
    requires Outstanding(qport, maxsize, steps, s) && Room(s, 2) && |d| == 4
    ensures var t := Trip(Trip(s, d[0], d[1]), d[2], d[3]);
      && (Acked(t.a, t.b) >= |s.a.started|
          <==> (s.b.chan.outgoing >= 1 && s.a.chan.outgoing > s.a.chan.lastReliable) || |s.b.accepted| == |s.a.started|)
      && (s.a.chan.incoming > 0 && s.a.chan.outgoing > s.a.chan.lastReliable ==> Acked(t.a, t.b) >= |s.a.started|)
  {
    hide Outstanding, Inv, Trip, Tripped, FirstTripped, MessageFits, Acked;
    OutstandingReady(qport, maxsize, steps, s);
    var t := Trip(s, d[0], d[1]);
    if s.b.chan.outgoing == 0 {
      SilentPeer(s);
      FirstTripEffect(s, d[0], d[1], 2);
    } else {
      TripEffect(s, d[0], d[1], 2);
    }
    TripEffect(t, d[2], d[3], 1);
    if s.b.chan.outgoing == 0 {
      LateTripLevels(s, t, Trip(t, d[2], d[3]));
    } else {
      TwoTripsLevel(s, t, Trip(t, d[2], d[3]));
    }
  }

  /** A state where two trips are not enough: `last_reliable_sequence` is one more than the number of
      the datagram that carried the block, which was lost, and nothing has been sent since. */
  lemma TwoTripsNotEnough(qport: u16, maxsize: nat) returns (steps: seq<Step>, s: Sys)
    requires 1 <= maxsize
    ensures Outstanding(qport, maxsize, steps, s) && s.b.chan.outgoing == 1
    ensures s.a.chan.outgoing == s.a.chan.lastReliable && |s.b.accepted| < |s.a.started|
    ensures var t := Trip(Trip(s, [], []), [], []); Acked(t.a, t.b) < |s.a.started|
  {
    s := Witness(qport, maxsize, Send(false, []));
    steps := [Queue(true, [1]), Send(true, []), Send(false, [])];
    hide Trip, Next, Acked, Outstanding;
    TwoTripsExactly(qport, maxsize, steps, s, [[], [], [], []]);
  }

  /** And one at the start of a connection: the sender has sent since, but the peer has not sent at
      all, and its first datagram will be taken for an old one. */
  lemma SilentPeerNeedsThree(qport: u16, maxsize: nat) returns (steps: seq<Step>, s: Sys)
    requires 1 <= maxsize
    ensures Outstanding(qport, maxsize, steps, s) && s.b.chan.outgoing == 0
    ensures s.a.chan.outgoing > s.a.chan.lastReliable && |s.b.accepted| < |s.a.started|
    ensures var t := Trip(Trip(s, [], []), [], []); Acked(t.a, t.b) < |s.a.started|
  {
    s := Witness(qport, maxsize, Send(true, []));
    steps := [Queue(true, [1]), Send(true, []), Send(true, [])];
    hide Trip, Next, Acked, Outstanding;
    TwoTripsExactly(qport, maxsize, steps, s, [[], [], [], []]);
  }

  /** One block queued and sent at `a`, one empty datagram sent at either end, nothing delivered. */
  lemma Witness(qport: u16, maxsize: nat, last: Step) returns (s: Sys)
    requires maxsize >= 1 && last.Send? && last.data == []
    ensures Outstanding(qport, maxsize, [Queue(true, [1]), Send(true, []), last], s) && Room(s, 3)
    ensures s.a.chan.lastReliable == 1 && |s.a.started| == 1 && s.b.accepted == []
    ensures s.a.chan.outgoing == (if last.atA then 2 else 1) && s.b.chan.outgoing == if last.atA then 0 else 1
  {
    var s0 := Init(qport, maxsize);
    var s1 := Next(s0, Queue(true, [1]));
    var s2 := Next(s1, Send(true, []));
    s := Next(s2, last);
    var steps := [Queue(true, [1]), Send(true, []), last];
    LostState(qport, maxsize, s0, s1, s2, last, s);
    assert steps[1..] == [Send(true, []), last] && steps[2..] == [last];
    assert Run(s2, [last], s);
    assert Run(s1, steps[1..], s);
  }

  lemma LostState(qport: u16, maxsize: nat, s0: Sys, s1: Sys, s2: Sys, last: Step, s: Sys)
    requires maxsize >= 1 && s0 == Init(qport, maxsize) && last.Send? && last.data == []
    requires s1 == Next(s0, Queue(true, [1])) && Enabled(s1, Send(true, [])) && s2 == Next(s1, Send(true, []))
    requires Enabled(s2, last) && s == Next(s2, last)
    ensures AllFit(s) && MessageFits(s.a) && MessageFits(s.b) && s.a.chan.reliable != [] && Room(s, 3)
    ensures s.a.chan.lastReliable == 1 && |s.a.started| == 1 && s.b.accepted == []
    ensures s.a.chan.outgoing == (if last.atA then 2 else 1) && s.b.chan.outgoing == if last.atA then 0 else 1
  {
    hide Header, PutData;
    assert s1.a.chan.message == [1] && Starts(s1.a.chan);
    assert s2.a.started == [[1]] && s2.a.chan.reliable == [1];
  }
}
