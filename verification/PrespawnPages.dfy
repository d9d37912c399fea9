/** The connection data of a map, sent in pages that resume at the index of the last one. */
module PrespawnPages {
  import opened Bytes
  import opened EntityDelta

  const MAX_CLIENTS := 32
  const MAX_ENTITIES := 512
  const MAX_LIGHTSTYLES := 64
  const MAX_STATICSOUNDS := 256
  const MAX_STATICENTITIES := 128
  const BASELINES := MAX_CLIENTS
  const LIGHTSTYLES := BASELINES + MAX_ENTITIES
  const SOUNDS := LIGHTSTYLES + MAX_LIGHTSTYLES
  const STATICS := SOUNDS + MAX_STATICSOUNDS
  const TOTAL := STATICS + MAX_STATICENTITIES
  const LIMIT := 768

  /** One step of a stage: the room asked for, if any is, and the bytes written, if any are. */
  datatype Item = Item(need: Option<nat>, bytes: seq<byte>)

  predicate Fits(it: Item, used: nat) {
    it.need.Some? ==> used + it.need.value <= LIMIT
  }

  /** The loop of a stage from `k` to `hi`: what it writes and where it stops. */
  function Take(items: seq<Item>, k: nat, hi: nat, used: nat): (r: (seq<byte>, nat))
    requires k <= hi <= |items|
    ensures k <= r.1 <= hi
    decreases hi - k
  {
    if k == hi || !Fits(items[k], used) then ([], k)
    else
      var r := Take(items, k + 1, hi, used + |items[k].bytes|);
      (items[k].bytes + r.0, r.1)
  }

  /** The same loop with no limit. */
  function All(items: seq<Item>, k: nat, hi: nat): seq<byte>
    requires k <= hi <= |items|
    decreases hi - k
  {
    if k == hi then [] else items[k].bytes + All(items, k + 1, hi)
  }

  lemma {:induction false} AllSplit(items: seq<Item>, k: nat, mid: nat, hi: nat)
    requires k <= mid <= hi <= |items|
    ensures All(items, k, hi) == All(items, k, mid) + All(items, mid, hi)
    decreases mid - k
  {
    if k < mid {
      AllSplit(items, k + 1, mid, hi);
    }
  }

  lemma {:induction false} TakeIsAll(items: seq<Item>, k: nat, hi: nat, used: nat)
    requires k <= hi <= |items|
    ensures Take(items, k, hi, used).0 == All(items, k, Take(items, k, hi, used).1)
    decreases hi - k
  {
    if k < hi && Fits(items[k], used) {
      TakeIsAll(items, k + 1, hi, used + |items[k].bytes|);
    }
  }

  /** One stage after another is one longer stage. */
  lemma {:induction false} TakeSplit(items: seq<Item>, k: nat, mid: nat, hi: nat, used: nat)
    requires k <= mid <= hi <= |items|
    ensures var r := Take(items, k, mid, used);
            if r.1 < mid then Take(items, k, hi, used) == r
            else
              var s := Take(items, mid, hi, used + |r.0|);
              Take(items, k, hi, used) == (r.0 + s.0, s.1)
    decreases mid - k
  {
    hide Fits, Take;
    TakeUnfold(items, k, mid, used);
    TakeUnfold(items, k, hi, used);
    if k == mid {
      assert [] + Take(items, mid, hi, used).0 == Take(items, mid, hi, used).0;
    } else if Fits(items[k], used) {
      var bytes := items[k].bytes;
      TakeSplit(items, k + 1, mid, hi, used + |bytes|);
      var r := Take(items, k + 1, mid, used + |bytes|);
      if r.1 == mid {
        Assoc(bytes, r.0, Take(items, mid, hi, used + |bytes| + |r.0|).0);
      }
    }
  }

  lemma TakeUnfold(items: seq<Item>, k: nat, hi: nat, used: nat)
    requires k <= hi <= |items|
    ensures Take(items, k, hi, used) ==
            if k == hi || !Fits(items[k], used) then ([], k)
            else
              var r := Take(items, k + 1, hi, used + |items[k].bytes|);
              (items[k].bytes + r.0, r.1)
  {
  }

  /** An item that has no room at `least` has none later either. */
  lemma {:induction false} TakeStops(items: seq<Item>, k: nat, hi: nat, used: nat, stuck: nat, least: nat)
    requires k <= stuck < hi <= |items| && least <= used && !Fits(items[stuck], least)
    ensures Take(items, k, hi, used).1 <= stuck
    decreases hi - k
  {
    if Fits(items[k], used) {
      TakeStops(items, k + 1, hi, used + |items[k].bytes|, stuck, least);
    }
  }

  /**
   * One call of `Prespawn`. A finished userinfo stage returns one more than its length, so a
   * pass that comes through it goes on at the second baseline.
   */
  function Page(items: seq<Item>, k: int, backlog: nat): (r: (seq<byte>, int))
    requires |items| == TOTAL
  {
    if k < 0 || k > TOTAL then ([], k)
    else if k < BASELINES then
      var r := Take(items, k, BASELINES, backlog);
      if r.1 < BASELINES then (r.0, r.1)
      else
        var s := Take(items, BASELINES + 1, TOTAL, backlog + |r.0|);
        (r.0 + s.0, if s.1 == TOTAL then -1 else s.1)
    else
      var s := Take(items, k, TOTAL, backlog);
      (s.0, if s.1 == TOTAL then -1 else s.1)
  }

  /** All that one pass from `k` with no limit writes. */
  function Whole(items: seq<Item>, k: int): seq<byte>
    requires |items| == TOTAL && -1 <= k <= TOTAL
  {
    if k == -1 then [] else if k < BASELINES then All(items, k, BASELINES) + All(items, BASELINES + 1, TOTAL)
      else All(items, k, TOTAL)
  }

  /** A page is the next piece of the unlimited pass, and it stays put exactly when its first item has no room. */
  lemma PageIsNextPiece(items: seq<Item>, k: nat, backlog: nat)
    requires |items| == TOTAL && k <= TOTAL
    ensures var p := Page(items, k, backlog);
            && (p.1 == -1 || k <= p.1 < TOTAL)
            && Whole(items, k) == p.0 + Whole(items, p.1)
            && (p.1 == k <==> k < TOTAL && !Fits(items[k], backlog))
  {
    if k < BASELINES {
      var r := Take(items, k, BASELINES, backlog);
      TakeIsAll(items, k, BASELINES, backlog);
      AllSplit(items, k, r.1, BASELINES);
      if r.1 == BASELINES {
        Remains(items, BASELINES + 1, backlog + |r.0|);
        var s := Take(items, BASELINES + 1, TOTAL, backlog + |r.0|);
        assert r.0 + (s.0 + All(items, s.1, TOTAL)) == (r.0 + s.0) + All(items, s.1, TOTAL);
      }
    } else {
      Remains(items, k, backlog);
    }
  }

  lemma Remains(items: seq<Item>, k: nat, used: nat)
    requires |items| == TOTAL && k <= TOTAL
    ensures var s := Take(items, k, TOTAL, used); All(items, k, TOTAL) == s.0 + All(items, s.1, TOTAL)
  {
    TakeIsAll(items, k, TOTAL, used);
    AllSplit(items, k, Take(items, k, TOTAL, used).1, TOTAL);
  }

  /** Pages from 0 on, each with the backlog it finds, until -1. */
  function Paged(items: seq<Item>, backlogs: seq<nat>): (r: (seq<byte>, int))
    requires |items| == TOTAL
    ensures -1 <= r.1 < TOTAL
  {
    if backlogs == [] then ([], 0)
    else
      var n := |backlogs| - 1;
      var was := Paged(items, backlogs[..n]);
      if was.1 == -1 then was
      else
        PageIsNextPiece(items, was.1, backlogs[n]);
        var p := Page(items, was.1, backlogs[n]);
        (was.0 + p.0, p.1)
  }

  /** However the pages fall, what they sent and what is left make up the unlimited pass. */
  lemma {:induction false} PagedEqualsUnpaged(items: seq<Item>, backlogs: seq<nat>)
    requires |items| == TOTAL
    ensures var r := Paged(items, backlogs); r.0 + Whole(items, r.1) == Whole(items, 0)
    ensures Paged(items, backlogs).1 == -1 ==> Paged(items, backlogs).0 == Whole(items, 0)
  {
    hide Page, Whole;
    if backlogs != [] {
      var n := |backlogs| - 1;
      PagedEqualsUnpaged(items, backlogs[..n]);
      var was := Paged(items, backlogs[..n]);
      if was.1 != -1 {
        PageIsNextPiece(items, was.1, backlogs[n]);
        var p := Page(items, was.1, backlogs[n]);
        assert was.0 + (p.0 + Whole(items, p.1)) == (was.0 + p.0) + Whole(items, p.1);
      }
    }
    assert Whole(items, -1) == [] by {
      NothingLeft(items);
    }
  }

  lemma NothingLeft(items: seq<Item>)
    requires |items| == TOTAL
    ensures Whole(items, -1) == []
  {
  }

  /** Room for the first item makes every page advance. */
  lemma {:induction false} PagesAdvance(items: seq<Item>, backlogs: seq<nat>)
    requires |items| == TOTAL
    requires forall i, k :: 0 <= i < |backlogs| && 0 <= k < TOTAL && k != BASELINES ==> Fits(items[k], backlogs[i])
    ensures Paged(items, backlogs).1 != BASELINES
    ensures Paged(items, backlogs).1 == -1 || Paged(items, backlogs).1 >= |backlogs|
  {
    if backlogs != [] {
      var n := |backlogs| - 1;
      assert forall i :: 0 <= i < n ==> backlogs[..n][i] == backlogs[i];
      PagesAdvance(items, backlogs[..n]);
      var was := Paged(items, backlogs[..n]);
      if was.1 != -1 {
        PageIsNextPiece(items, was.1, backlogs[n]);
      }
    }
  }

  /** With room for every single item the transfer is over after at most 992 pages, complete. */
  lemma PrespawnFinishes(items: seq<Item>, backlogs: seq<nat>)
    requires |items| == TOTAL && |backlogs| >= TOTAL
    requires forall i, k :: 0 <= i < |backlogs| && 0 <= k < TOTAL && k != BASELINES ==> Fits(items[k], backlogs[i])
    ensures Paged(items, backlogs).1 == -1 && Paged(items, backlogs).0 == Whole(items, 0)
  {
    PagesAdvance(items, backlogs);
    PagedEqualsUnpaged(items, backlogs);
  }

  function Steady(backlog: nat, n: nat): seq<nat> {
    seq(n, _ => backlog)
  }

  lemma {:induction false} StaysBehind(items: seq<Item>, backlog: nat, n: nat, stuck: nat)
    requires |items| == TOTAL && stuck < TOTAL && stuck != BASELINES && !Fits(items[stuck], backlog)
    ensures var r := Paged(items, Steady(backlog, n)).1; 0 <= r <= stuck && r != BASELINES
  {
    hide Page, Fits;
    if n > 0 {
      StaysBehind(items, backlog, n - 1, stuck);
      assert Steady(backlog, n)[..n - 1] == Steady(backlog, n - 1);
      PageStaysBehind(items, Paged(items, Steady(backlog, n - 1)).1, backlog, stuck);
    }
  }

  lemma PageStaysBehind(items: seq<Item>, k: nat, backlog: nat, stuck: nat)
    requires |items| == TOTAL && k <= stuck < TOTAL && k != BASELINES && stuck != BASELINES
    requires !Fits(items[stuck], backlog)
    ensures 0 <= Page(items, k, backlog).1 <= stuck && Page(items, k, backlog).1 != BASELINES
  {
    hide Take, Fits;
    if k < BASELINES {
      var r := Take(items, k, BASELINES, backlog);
      if stuck < BASELINES {
        TakeStops(items, k, BASELINES, backlog, stuck, backlog);
      } else {
        TakeStops(items, BASELINES + 1, TOTAL, backlog + |r.0|, stuck, backlog);
      }
    } else {
      TakeStops(items, k, TOTAL, backlog, stuck, backlog);
    }
  }

  /** Under a steady backlog the transfer ends exactly when each item on the way has room by itself. */
  lemma FinishesExactlyWithRoom(items: seq<Item>, backlog: nat)
    requires |items| == TOTAL
    ensures (exists n: nat :: Paged(items, Steady(backlog, n)).1 == -1)
       <==> (forall k :: 0 <= k < TOTAL && k != BASELINES ==> Fits(items[k], backlog))
  {
    if forall k :: 0 <= k < TOTAL && k != BASELINES ==> Fits(items[k], backlog) {
      PagesAdvance(items, Steady(backlog, TOTAL));
    } else {
      var stuck :| 0 <= stuck < TOTAL && stuck != BASELINES && !Fits(items[stuck], backlog);
      forall n: nat ensures Paged(items, Steady(backlog, n)).1 != -1 {
        StaysBehind(items, backlog, n, stuck);
      }
    }
  }

  /** A pass from 0 leaves out the first baseline and nothing else. */
  lemma LeavesOutOne(items: seq<Item>)
    requires |items| == TOTAL
    ensures Whole(items, 0) == All(items, 0, TOTAL) <==> items[BASELINES].bytes == []
  {
    AllSplit(items, 0, BASELINES, TOTAL);
    var a, b := All(items, 0, BASELINES), All(items, BASELINES + 1, TOTAL);
    assert All(items, BASELINES, TOTAL) == items[BASELINES].bytes + b;
    assert |All(items, 0, TOTAL)| == |a| + |items[BASELINES].bytes| + |b|;
    if items[BASELINES].bytes == [] {
      assert items[BASELINES].bytes + b == b;
    }
  }

  // ---- What the stages write ----

  datatype Player = Player(userinfo: seq<byte>, frags: u16, ping: u16, packetloss: byte)
  datatype Sound = Sound(origin: Vec, soundindex: byte, volume: byte, attenuation: byte)

  /** The part of the map the stages send; `spectator` is set when no client or proxy plays. */
  datatype Map = Map(players: seq<Player>, baselines: seq<Entity>, lightstyles: seq<seq<byte>>, sounds: seq<Sound>,
                     statics: seq<Entity>, spawnstatic2: bool, ext: Ext, spectator: bool, title: seq<byte>)

  /** The userinfo of one who only watches, up to the name. */
  const SPECTATOR: seq<byte> := [92, 42, 115, 112, 101, 99, 116, 97, 116, 111, 114, 92, 49, 92, 110, 97, 109, 101, 92]

  lemma SpectatorText()
    ensures SPECTATOR == Ascii("\\*spectator\\1\\name\\")
  {
  }

  predicate ValidMap(m: Map) {
    && |m.players| == MAX_CLIENTS && |m.baselines| == MAX_ENTITIES && |m.lightstyles| == MAX_LIGHTSTYLES
    && |m.sounds| == MAX_STATICSOUNDS && |m.statics| == MAX_STATICENTITIES
    && (forall i :: 0 <= i < MAX_CLIENTS ==> 0 !in m.players[i].userinfo)
    && (forall i :: 0 <= i < MAX_LIGHTSTYLES ==> 0 !in m.lightstyles[i])
    && 0 !in m.title && |m.title| <= 80
  }

  /** svc_updatefrags, svc_updateping and svc_updatepl. */
  function PutTally(i: byte, frags: u16, ping: u16, packetloss: byte): (s: seq<byte>)
    ensures |s| == 11
  {
    [14] + ([i] + (Le16(frags) + ([36] + ([i] + (Le16(ping) + ([53] + ([i] + [packetloss])))))))
  }

  /** svc_updateuserinfo and the tally. */
  function PutPlayer(i: byte, userinfo: seq<byte>, tally: seq<byte>): (s: seq<byte>)
    requires i < MAX_CLIENTS
    ensures |s| == |userinfo| + 7 + |tally|
  {
    [40] + ([i] + (Le32(i + 1) + (userinfo + [0] + tally)))
  }

  function PutSpots(o: Vec, a: Vec, ext: Ext): (s: seq<byte>)
    ensures |s| <= 18
  {
    PutCoord(o.x, ext) + (PutAngle(a.x, ext)
                          + (PutCoord(o.y, ext) + (PutAngle(a.y, ext) + (PutCoord(o.z, ext) + PutAngle(a.z, ext)))))
  }

  function PutState(e: Entity, ext: Ext): (s: seq<byte>)
    ensures |s| <= 22
  {
    hide PutSpots;
    [e.modelindex % 256] + ([e.frame] + ([e.colormap] + ([e.skinnum] + PutSpots(e.origin, e.angles, ext))))
  }

  function PutBaseline(m: Map, i: nat): (s: seq<byte>)
    requires ValidMap(m) && i < MAX_ENTITIES
  {
    var e := m.baselines[i];
    if e.modelindex == 0 then []
    else if m.spawnstatic2 then [66] + PutDelta(i, NULL_ENTITY, e, true, m.ext, [])
    else [22] + (Le16(i) + PutState(e, m.ext))
  }

  function PutLightstyle(m: Map, i: byte): (s: seq<byte>)
    requires ValidMap(m) && i < MAX_LIGHTSTYLES
  {
    [12] + ([i] + (m.lightstyles[i] + [0]))
  }

  function PutSound(m: Map, i: nat): (s: seq<byte>)
    requires ValidMap(m) && i < MAX_STATICSOUNDS
  {
    var x := m.sounds[i];
    if x.soundindex == 0 then []
    else
      [29] + (PutCoord(x.origin.x, m.ext) + (PutCoord(x.origin.y, m.ext) + (PutCoord(x.origin.z, m.ext)
      + ([x.soundindex] + ([x.volume] + [x.attenuation])))))
  }

  function PutStatic(m: Map, i: nat): (s: seq<byte>)
    requires ValidMap(m) && i < MAX_STATICENTITIES
  {
    var e := m.statics[i];
    if e.modelindex == 0 then []
    else if m.spawnstatic2 then [21] + PutDelta(i, NULL_ENTITY, e, true, m.ext, [])
    else [20] + PutState(e, m.ext)
  }

  function PlayerItem(m: Map, thisplayer: int, i: nat): Item
    requires ValidMap(m) && i < MAX_CLIENTS
  {
    var p := m.players[i];
    if i == thisplayer && m.spectator then Item(None, PutPlayer(i, SPECTATOR + m.title, PutTally(i, 9999, 0, 0)))
    else Item(Some(|p.userinfo|), PutPlayer(i, p.userinfo, PutTally(i, p.frags, p.ping, p.packetloss)))
  }

  /** Step `k` of the five stages laid end to end. */
  function ItemAt(m: Map, thisplayer: int, k: nat): Item
    requires ValidMap(m) && k < TOTAL
  {
    if k < BASELINES then PlayerItem(m, thisplayer, k)
    else if k < LIGHTSTYLES then Item(Some(16), PutBaseline(m, k - BASELINES))
    else if k < SOUNDS then Item(Some(|m.lightstyles[k - LIGHTSTYLES]|), PutLightstyle(m, k - LIGHTSTYLES))
    else if k < STATICS then Item(Some(16), PutSound(m, k - SOUNDS))
    else Item(Some(16), PutStatic(m, k - STATICS))
  }

  function Items(m: Map, thisplayer: int): (items: seq<Item>)
    requires ValidMap(m)
    ensures |items| == TOTAL
    ensures forall k :: 0 <= k < TOTAL ==> items[k] == ItemAt(m, thisplayer, k)
  {
    seq(TOTAL, k requires 0 <= k < TOTAL => ItemAt(m, thisplayer, k))
  }

  /**
   * A page gets nowhere exactly when its first item does not fit the 768 bytes: the text of a player
   * or light style, 16 bytes for a baseline, sound or static entity, and nothing for the viewer's own
   * player when that stands for all who watch.
   */
  lemma StallsExactly(m: Map, thisplayer: int, k: nat, backlog: nat)
    requires ValidMap(m) && k < 992
    ensures Page(Items(m, thisplayer), k, backlog).1 == k
       <==> if k < 32 then !(k == thisplayer && m.spectator) && backlog + |m.players[k].userinfo| > 768
            else if k < 544 then backlog + 16 > 768
            else if k < 608 then backlog + |m.lightstyles[k - 544]| > 768
            else backlog + 16 > 768
  {
    hide Page, Whole, PutPlayer, PutTally, PutBaseline, PutLightstyle, PutSound, PutStatic;
    PageIsNextPiece(Items(m, thisplayer), k, backlog);
    assert Items(m, thisplayer)[k] == ItemAt(m, thisplayer, k);
  }

  /** A pass from 0 is the whole of the connection data exactly when entity 0 has no baseline. */
  lemma CompleteExactlyWithoutBaselineZero(m: Map, thisplayer: int)
    requires ValidMap(m)
    ensures var items := Items(m, thisplayer);
      Whole(items, 0) == All(items, 0, TOTAL) <==> m.baselines[0].modelindex == 0
  {
    var items := Items(m, thisplayer);
    assert items[BASELINES] == Item(Some(16), PutBaseline(m, 0));
    LeavesOutOne(items);
  }

  /** A map whose pass is not complete: nothing in it but baselines, that of entity 0 among them. */
  lemma BaselineZeroIsLost(thisplayer: int) returns (m: Map)
    ensures ValidMap(m)
    ensures var items := Items(m, thisplayer); Whole(items, 0) != All(items, 0, TOTAL)
  {
    var e := NULL_ENTITY.(modelindex := 1);
    m := Map(seq(MAX_CLIENTS, _ => Player([], 0, 0, 0)), seq(MAX_ENTITIES, _ => e), seq(MAX_LIGHTSTYLES, _ => []),
             seq(MAX_STATICSOUNDS, _ => Sound(Vec(0, 0, 0), 0, 0, 0)), seq(MAX_STATICENTITIES, _ => NULL_ENTITY),
             false, Ext(false, false, false, false, false, false, false, false), false, []);
    CompleteExactlyWithoutBaselineZero(m, thisplayer);
  }
}
