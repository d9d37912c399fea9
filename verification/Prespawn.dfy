/** `Prespawn` and its five stages over the message being built. */
module Prespawn {
  import opened Bytes
  import opened NetMsg
  import opened EntityDelta
  import opened EntityCodec
  import opened PrespawnPages

  const ROOM := 1024

  /** What the stage that owns `lo` to `hi` writes when the pass is at `g`, and where the pass is then. */
  function Stage(items: seq<Item>, lo: nat, hi: nat, g: int, used: nat): (r: (seq<byte>, int))
    requires lo <= hi <= |items|
  {
    if lo <= g < hi then (Take(items, g, hi, used).0, Take(items, g, hi, used).1) else ([], g)
  }

  lemma StageJoin(items: seq<Item>, lo: nat, mid: nat, hi: nat, g: int, used: nat)
    requires lo <= mid <= hi <= |items|
    ensures var r := Stage(items, lo, mid, g, used);
            var s := Stage(items, mid, hi, r.1, used + |r.0|);
            Stage(items, lo, hi, g, used) == (r.0 + s.0, s.1)
  {
    var r := Stage(items, lo, mid, g, used);
    var s := Stage(items, mid, hi, r.1, used + |r.0|);
    if lo <= g < mid {
      TakeSplit(items, g, mid, hi, used);
      assert r.0 + [] == r.0;
    } else {
      assert [] + s.0 == s.0;
    }
  }

  lemma RestSize(f: Flags, e: Entity, tail: seq<byte>)
    ensures |PutRest(f, e, tail)| <= 15 + |tail|
  {
  }

  lemma LooksSize(f: Flags, e: Entity, tail: seq<byte>)
    ensures |PutLooks(f, e, tail)| <= 9 + |tail|
  {
  }

  lemma PlaceSize(f: Flags, e: Entity, ext: Ext, tail: seq<byte>)
    ensures |PutPlace(f, e, ext, tail)| <= 18 + |tail|
  {
  }

  lemma BasicsSize(f: Flags, e: Entity, tail: seq<byte>)
    ensures |PutBasics(f, e, tail)| <= 6 + |tail|
  {
  }

  lemma HeaderSize(entnum: nat, f: Flags, tail: seq<byte>)
    ensures |PutHeader(entnum, f, tail)| <= 5 + |tail|
  {
  }

  lemma DeltaSize(entnum: nat, from: Entity, to: Entity, ext: Ext)
    ensures |PutDelta(entnum, from, to, true, ext, [])| <= 53
  {
    hide DeltaFlags, PutRest, PutLooks, PutPlace, PutBasics, PutHeader;
    var f := DeltaFlags(entnum, from, to, ext);
    RestSize(f, to, []);
    LooksSize(f, to, PutRest(f, to, []));
    PlaceSize(f, to, ext, PutLooks(f, to, PutRest(f, to, [])));
    BasicsSize(f, to, PutPlace(f, to, ext, PutLooks(f, to, PutRest(f, to, []))));
    HeaderSize(entnum, f, PutBody(f, to, ext, []));
  }

  /** A string in front of what follows it. */
  method EmitString(msg: NetMsg, str: seq<byte>, ghost tail: seq<byte>)
    requires msg.Valid() && 0 !in str && |msg.Contents() + (str + [0] + tail)| <= msg.maxsize
    modifies msg`cursize, msg.data
    ensures msg.Valid() && msg.Contents() + tail == old(msg.Contents()) + (str + [0] + tail)
  {
    msg.WriteString(str);
    assert old(msg.Contents()) + (str + [0] + tail) == (old(msg.Contents()) + (str + [0])) + tail;
  }

  method WriteTally(i: byte, frags: u16, ping: u16, packetloss: byte, msg: NetMsg)
    requires msg.Valid() && msg.cursize + 11 <= msg.maxsize
    modifies msg`cursize, msg.data
    ensures msg.Valid() && msg.Contents() == old(msg.Contents()) + PutTally(i, frags, ping, packetloss)
  {
    ghost var t5 := [53] + ([i] + [packetloss]);
    ghost var t2 := [36] + ([i] + (Le16(ping) + t5));
    EmitByteIf(msg, true, 14, [i] + (Le16(frags) + t2));
    EmitByteIf(msg, true, i, Le16(frags) + t2);
    EmitShortIf(msg, true, frags, t2);
    EmitByteIf(msg, true, 36, [i] + (Le16(ping) + t5));
    EmitByteIf(msg, true, i, Le16(ping) + t5);
    EmitShortIf(msg, true, ping, t5);
    EmitByteIf(msg, true, 53, [i] + [packetloss]);
    EmitByteIf(msg, true, i, [packetloss]);
    msg.WriteByte(packetloss);
  }

  method WritePlayer(i: byte, userinfo: seq<byte>, frags: u16, ping: u16, packetloss: byte, msg: NetMsg)
    requires msg.Valid() && msg.cursize + |userinfo| + 18 <= msg.maxsize && 0 !in userinfo && i < MAX_CLIENTS
    modifies msg`cursize, msg.data
    ensures msg.Valid()
      && msg.Contents() == old(msg.Contents()) + PutPlayer(i, userinfo, PutTally(i, frags, ping, packetloss))
  {
    hide PutTally, Le32;
    ghost var t := PutTally(i, frags, ping, packetloss);
    ghost var t1 := userinfo + [0] + t;
    EmitByteIf(msg, true, 40, [i] + (Le32(i + 1) + t1));
    EmitByteIf(msg, true, i, Le32(i + 1) + t1);
    EmitLongIf(msg, true, i + 1, t1);
    EmitString(msg, userinfo, t);
    WriteTally(i, frags, ping, packetloss, msg);
  }

  method WriteSpots(o: Vec, a: Vec, ext: Ext, msg: NetMsg)
    requires msg.Valid() && msg.cursize + 18 <= msg.maxsize
    modifies msg`cursize, msg.data
    ensures msg.Valid() && msg.Contents() == old(msg.Contents()) + PutSpots(o, a, ext)
  {
    ghost var t := PutAngle(a.z, ext);
    ghost var t5 := PutCoord(o.z, ext) + t;
    ghost var t4 := PutAngle(a.y, ext) + t5;
    ghost var t3 := PutCoord(o.y, ext) + t4;
    ghost var t2 := PutAngle(a.x, ext) + t3;
    assert |PutSpots(o, a, ext)| <= 18 && PutSpots(o, a, ext) == PutCoord(o.x, ext) + t2;
    hide PutCoord, PutAngle, PutSpots;
    EmitCoordIf(msg, true, o.x, ext, t2);
    EmitAngleIf(msg, true, a.x, ext, t3);
    EmitCoordIf(msg, true, o.y, ext, t4);
    EmitAngleIf(msg, true, a.y, ext, t5);
    EmitCoordIf(msg, true, o.z, ext, t);
    assert t + [] == t;
    EmitAngleIf(msg, true, a.z, ext, []);
    assert msg.Contents() + [] == msg.Contents();
  }

  method WriteState(e: Entity, ext: Ext, msg: NetMsg)
    requires msg.Valid() && msg.cursize + 22 <= msg.maxsize
    modifies msg`cursize, msg.data
    ensures msg.Valid() && msg.Contents() == old(msg.Contents()) + PutState(e, ext)
  {
    ghost var t := PutSpots(e.origin, e.angles, ext);
    hide PutSpots;
    EmitByteIf(msg, true, e.modelindex % 256, [e.frame] + ([e.colormap] + ([e.skinnum] + t)));
    EmitByteIf(msg, true, e.frame, [e.colormap] + ([e.skinnum] + t));
    EmitByteIf(msg, true, e.colormap, [e.skinnum] + t);
    EmitByteIf(msg, true, e.skinnum, t);
    WriteSpots(e.origin, e.angles, ext, msg);
  }

  method WriteBaseline(m: Map, i: nat, msg: NetMsg)
    requires ValidMap(m) && i < MAX_ENTITIES && msg.Valid() && msg.cursize + 61 <= msg.maxsize
    modifies msg`cursize, msg.data
    ensures msg.Valid() && msg.Contents() == old(msg.Contents()) + PutBaseline(m, i)
  {
    hide PutDelta, PutState, Le16;
    var e := m.baselines[i];
    if e.modelindex != 0 {
      if m.spawnstatic2 {
        ghost var t := PutDelta(i, NULL_ENTITY, e, true, m.ext, []);
        DeltaSize(i, NULL_ENTITY, e, m.ext);
        EmitByteIf(msg, true, 66, t);
        WriteDelta(i, NULL_ENTITY, e, msg, true, m.ext, []);
        assert msg.Contents() + [] == msg.Contents();
      } else {
        EmitByteIf(msg, true, 22, Le16(i) + PutState(e, m.ext));
        EmitShortIf(msg, true, i, PutState(e, m.ext));
        WriteState(e, m.ext, msg);
      }
    }
  }

  method WriteStatic(m: Map, i: nat, msg: NetMsg)
    requires ValidMap(m) && i < MAX_STATICENTITIES && msg.Valid() && msg.cursize + 61 <= msg.maxsize
    modifies msg`cursize, msg.data
    ensures msg.Valid() && msg.Contents() == old(msg.Contents()) + PutStatic(m, i)
  {
    hide PutDelta, PutState;
    var e := m.statics[i];
    if e.modelindex != 0 {
      if m.spawnstatic2 {
        DeltaSize(i, NULL_ENTITY, e, m.ext);
        EmitByteIf(msg, true, 21, PutDelta(i, NULL_ENTITY, e, true, m.ext, []));
        WriteDelta(i, NULL_ENTITY, e, msg, true, m.ext, []);
        assert msg.Contents() + [] == msg.Contents();
      } else {
        EmitByteIf(msg, true, 20, PutState(e, m.ext));
        WriteState(e, m.ext, msg);
      }
    }
  }

  method WriteSound(m: Map, i: nat, msg: NetMsg)
    requires ValidMap(m) && i < MAX_STATICSOUNDS && msg.Valid() && msg.cursize + 16 <= msg.maxsize
    modifies msg`cursize, msg.data
    ensures msg.Valid() && msg.Contents() == old(msg.Contents()) + PutSound(m, i)
  {
    var x := m.sounds[i];
    if x.soundindex == 0 {
      return;
    }
    ghost var t := [x.soundindex] + ([x.volume] + [x.attenuation]);
    ghost var tz := PutCoord(x.origin.z, m.ext) + t;
    ghost var ty := PutCoord(x.origin.y, m.ext) + tz;
    assert |PutCoord(x.origin.x, m.ext) + ty| <= 15;
    hide PutCoord;
    EmitByteIf(msg, true, 29, PutCoord(x.origin.x, m.ext) + ty);
    EmitCoordIf(msg, true, x.origin.x, m.ext, ty);
    EmitCoordIf(msg, true, x.origin.y, m.ext, tz);
    EmitCoordIf(msg, true, x.origin.z, m.ext, t);
    EmitByteIf(msg, true, x.soundindex, [x.volume] + [x.attenuation]);
    EmitByteIf(msg, true, x.volume, [x.attenuation]);
    msg.WriteByte(x.attenuation);
  }

  method WriteLightstyle(m: Map, i: nat, msg: NetMsg)
    requires ValidMap(m) && i < MAX_LIGHTSTYLES && msg.Valid() && msg.cursize + |m.lightstyles[i]| + 3 <= msg.maxsize
    modifies msg`cursize, msg.data
    ensures msg.Valid() && msg.Contents() == old(msg.Contents()) + PutLightstyle(m, i)
  {
    EmitByteIf(msg, true, 12, [i] + (m.lightstyles[i] + [0]));
    EmitByteIf(msg, true, i, m.lightstyles[i] + [0]);
    msg.WriteString(m.lightstyles[i]);
  }

  /** The step of a loop that has just written item `k`. */
  lemma Wrote(items: seq<Item>, k: nat, hi: nat, was: seq<byte>, now: seq<byte>, backlog: nat)
    requires k < hi <= |items| && Fits(items[k], |was| + backlog) && now == was + items[k].bytes
    ensures was + Take(items, k, hi, |was| + backlog).0 == now + Take(items, k + 1, hi, |now| + backlog).0
    ensures Take(items, k, hi, |was| + backlog).1 == Take(items, k + 1, hi, |now| + backlog).1
  {
  }

  lemma TitleIsText(title: seq<byte>)
    requires 0 !in title
    ensures 0 !in SPECTATOR + title && |SPECTATOR| == 19
  {
  }

  /** One turn of the userinfo loop: false when the page is full. */
  method UserinfoStep(m: Map, cursize: nat, msg: NetMsg, i: nat, thisplayer: int) returns (ok: bool)
    requires ValidMap(m) && i < MAX_CLIENTS && msg.Valid() && msg.maxsize >= ROOM
    requires msg.cursize <= if thisplayer < i then 903 else LIMIT + 18
    modifies msg`cursize, msg.data
    ensures msg.Valid() && msg.cursize <= if thisplayer < i + 1 then 903 else LIMIT + 18
    ensures ok == Fits(PlayerItem(m, thisplayer, i), old(msg.cursize) + cursize)
    ensures msg.Contents() == if ok then old(msg.Contents()) + PlayerItem(m, thisplayer, i).bytes
      else old(msg.Contents())
  {
    hide PutPlayer, PutTally;
    var p := m.players[i];
    ok := true;
    if i == thisplayer && m.spectator {
      TitleIsText(m.title);
      WritePlayer(i, SPECTATOR + m.title, 9999, 0, 0, msg);
    } else {
      if msg.cursize + cursize + |p.userinfo| > LIMIT {
        return false;
      }
      WritePlayer(i, p.userinfo, p.frags, p.ping, p.packetloss, msg);
    }
  }

  method SendCurrentUserinfos(m: Map, cursize: nat, msg: NetMsg, from: int, thisplayer: int) returns (i: int)
    requires ValidMap(m) && msg.Valid() && msg.Contents() == [] && msg.maxsize >= ROOM
    modifies msg`cursize, msg.data
    ensures var r := Stage(Items(m, thisplayer), 0, BASELINES, from, cursize);
            && msg.Valid() && msg.Contents() == r.0
            && i == if 0 <= from < BASELINES && r.1 == BASELINES then BASELINES + 1 else r.1
  {
    hide Take, ItemAt, PlayerItem;
    i := from;
    if i < 0 || i >= MAX_CLIENTS {
      return;
    }
    ghost var items := Items(m, thisplayer);
    while i < MAX_CLIENTS
      invariant 0 <= i <= MAX_CLIENTS && msg.Valid() && msg.cursize <= if thisplayer < i then 903 else LIMIT + 18
      invariant msg.Contents() + Take(items, i, BASELINES, msg.cursize + cursize).0
        == Take(items, from, BASELINES, cursize).0
      invariant Take(items, i, BASELINES, msg.cursize + cursize).1 == Take(items, from, BASELINES, cursize).1
    {
      ghost var was := msg.Contents();
      PlayerAt(m, thisplayer, i);
      var ok := UserinfoStep(m, cursize, msg, i, thisplayer);
      if !ok {
        StopsAt(items, i, BASELINES, |was| + cursize);
        assert was + [] == was;
        return;
      }
      Wrote(items, i, BASELINES, was, msg.Contents(), cursize);
      i := i + 1;
    }
    EndsAt(items, BASELINES, msg.cursize + cursize);
    assert msg.Contents() + [] == msg.Contents();
    i := i + 1;
  }

  lemma EndsAt(items: seq<Item>, hi: nat, used: nat)
    requires hi <= |items|
    ensures Take(items, hi, hi, used) == ([], hi)
  {
  }

  lemma PlayerAt(m: Map, thisplayer: int, k: nat)
    requires ValidMap(m) && k < MAX_CLIENTS
    ensures Items(m, thisplayer)[k] == PlayerItem(m, thisplayer, k)
  {
  }

  lemma StopsAt(items: seq<Item>, k: nat, hi: nat, used: nat)
    requires k < hi <= |items| && !Fits(items[k], used)
    ensures Take(items, k, hi, used) == ([], k)
  {
  }

  method SendCurrentBaselines(m: Map, cursize: nat, msg: NetMsg, maxbuffersize: nat, from: int, ghost thisplayer: int)
    returns (i: int)
    requires ValidMap(m) && msg.Valid() && msg.maxsize >= ROOM && maxbuffersize == LIMIT
    modifies msg`cursize, msg.data
    ensures var r := Stage(Items(m, thisplayer), BASELINES, LIGHTSTYLES, from + BASELINES, old(msg.cursize) + cursize);
            msg.Valid() && msg.Contents() == old(msg.Contents()) + r.0 && i + BASELINES == r.1
  {
    hide Take, ItemAt, PutBaseline;
    i := from;
    if i < 0 || i >= MAX_ENTITIES {
      assert msg.Contents() + [] == msg.Contents();
      return;
    }
    ghost var items, used := Items(m, thisplayer), msg.cursize + cursize;
    while i < MAX_ENTITIES
      invariant 0 <= i <= MAX_ENTITIES && msg.Valid()
      invariant msg.Contents() + Take(items, BASELINES + i, LIGHTSTYLES, msg.cursize + cursize).0
        == old(msg.Contents()) + Take(items, BASELINES + from, LIGHTSTYLES, used).0
      invariant Take(items, BASELINES + i, LIGHTSTYLES, msg.cursize + cursize).1
        == Take(items, BASELINES + from, LIGHTSTYLES, used).1
    {
      ghost var was := msg.Contents();
      BaselineAt(m, thisplayer, i);
      if msg.cursize + cursize + 16 > maxbuffersize {
        StopsAt(items, BASELINES + i, LIGHTSTYLES, |was| + cursize);
        assert was + [] == was;
        return;
      }
      WriteBaseline(m, i, msg);
      Wrote(items, BASELINES + i, LIGHTSTYLES, was, msg.Contents(), cursize);
      i := i + 1;
    }
    EndsAt(items, LIGHTSTYLES, msg.cursize + cursize);
    assert msg.Contents() + [] == msg.Contents();
  }

  lemma BaselineAt(m: Map, thisplayer: int, i: nat)
    requires ValidMap(m) && i < MAX_ENTITIES
    ensures Items(m, thisplayer)[BASELINES + i] == Item(Some(16), PutBaseline(m, i))
  {
  }

  method SendCurrentLightmaps(m: Map, cursize: nat, msg: NetMsg, maxbuffersize: nat, from: int, ghost thisplayer: int)
    returns (i: int)
    requires ValidMap(m) && msg.Valid() && msg.maxsize >= ROOM && maxbuffersize == LIMIT
    modifies msg`cursize, msg.data
    ensures var r := Stage(Items(m, thisplayer), LIGHTSTYLES, SOUNDS, from + LIGHTSTYLES, old(msg.cursize) + cursize);
            msg.Valid() && msg.Contents() == old(msg.Contents()) + r.0 && i + LIGHTSTYLES == r.1
  {
    hide Take, ItemAt, PutLightstyle;
    i := from;
    if i < 0 || i >= MAX_LIGHTSTYLES {
      assert msg.Contents() + [] == msg.Contents();
      return;
    }
    ghost var items, used := Items(m, thisplayer), msg.cursize + cursize;
    while i < MAX_LIGHTSTYLES
      invariant 0 <= i <= MAX_LIGHTSTYLES && msg.Valid()
      invariant msg.Contents() + Take(items, LIGHTSTYLES + i, SOUNDS, msg.cursize + cursize).0
        == old(msg.Contents()) + Take(items, LIGHTSTYLES + from, SOUNDS, used).0
      invariant Take(items, LIGHTSTYLES + i, SOUNDS, msg.cursize + cursize).1
        == Take(items, LIGHTSTYLES + from, SOUNDS, used).1
    {
      ghost var was := msg.Contents();
      LightstyleAt(m, thisplayer, i);
      if msg.cursize + cursize + |m.lightstyles[i]| > maxbuffersize {
        StopsAt(items, LIGHTSTYLES + i, SOUNDS, |was| + cursize);
        assert was + [] == was;
        return;
      }
      WriteLightstyle(m, i, msg);
      Wrote(items, LIGHTSTYLES + i, SOUNDS, was, msg.Contents(), cursize);
      i := i + 1;
    }
    EndsAt(items, SOUNDS, msg.cursize + cursize);
    assert msg.Contents() + [] == msg.Contents();
  }

  lemma LightstyleAt(m: Map, thisplayer: int, i: nat)
    requires ValidMap(m) && i < MAX_LIGHTSTYLES
    ensures Items(m, thisplayer)[LIGHTSTYLES + i] == Item(Some(|m.lightstyles[i]|), PutLightstyle(m, i))
  {
  }

  method SendStaticSounds(m: Map, cursize: nat, msg: NetMsg, maxbuffersize: nat, from: int, ghost thisplayer: int)
    returns (i: int)
    requires ValidMap(m) && msg.Valid() && msg.maxsize >= ROOM && maxbuffersize == LIMIT
    modifies msg`cursize, msg.data
    ensures var r := Stage(Items(m, thisplayer), SOUNDS, STATICS, from + SOUNDS, old(msg.cursize) + cursize);
            msg.Valid() && msg.Contents() == old(msg.Contents()) + r.0 && i + SOUNDS == r.1
  {
    hide Take, ItemAt, PutSound;
    i := from;
    if i < 0 || i >= MAX_STATICSOUNDS {
      assert msg.Contents() + [] == msg.Contents();
      return;
    }
    ghost var items, used := Items(m, thisplayer), msg.cursize + cursize;
    while i < MAX_STATICSOUNDS
      invariant 0 <= i <= MAX_STATICSOUNDS && msg.Valid()
      invariant msg.Contents() + Take(items, SOUNDS + i, STATICS, msg.cursize + cursize).0
        == old(msg.Contents()) + Take(items, SOUNDS + from, STATICS, used).0
      invariant Take(items, SOUNDS + i, STATICS, msg.cursize + cursize).1 == Take(items, SOUNDS + from, STATICS, used).1
    {
      ghost var was := msg.Contents();
      SoundAt(m, thisplayer, i);
      if msg.cursize + cursize + 16 > maxbuffersize {
        StopsAt(items, SOUNDS + i, STATICS, |was| + cursize);
        assert was + [] == was;
        return;
      }
      WriteSound(m, i, msg);
      Wrote(items, SOUNDS + i, STATICS, was, msg.Contents(), cursize);
      i := i + 1;
    }
    EndsAt(items, STATICS, msg.cursize + cursize);
    assert msg.Contents() + [] == msg.Contents();
  }

  lemma SoundAt(m: Map, thisplayer: int, i: nat)
    requires ValidMap(m) && i < MAX_STATICSOUNDS
    ensures Items(m, thisplayer)[SOUNDS + i] == Item(Some(16), PutSound(m, i))
  {
  }

  method SendStaticEntities(m: Map, cursize: nat, msg: NetMsg, maxbuffersize: nat, from: int, ghost thisplayer: int)
    returns (i: int)
    requires ValidMap(m) && msg.Valid() && msg.maxsize >= ROOM && maxbuffersize == LIMIT
    modifies msg`cursize, msg.data
    ensures var r := Stage(Items(m, thisplayer), STATICS, TOTAL, from + STATICS, old(msg.cursize) + cursize);
            msg.Valid() && msg.Contents() == old(msg.Contents()) + r.0 && i + STATICS == r.1
  {
    hide Take, ItemAt, PutStatic;
    i := from;
    if i < 0 || i >= MAX_STATICENTITIES {
      assert msg.Contents() + [] == msg.Contents();
      return;
    }
    ghost var items, used := Items(m, thisplayer), msg.cursize + cursize;
    while i < MAX_STATICENTITIES
      invariant 0 <= i <= MAX_STATICENTITIES && msg.Valid()
      invariant msg.Contents() + Take(items, STATICS + i, TOTAL, msg.cursize + cursize).0
        == old(msg.Contents()) + Take(items, STATICS + from, TOTAL, used).0
      invariant Take(items, STATICS + i, TOTAL, msg.cursize + cursize).1 == Take(items, STATICS + from, TOTAL, used).1
    {
      ghost var was := msg.Contents();
      StaticAt(m, thisplayer, i);
      if msg.cursize + cursize + 16 > maxbuffersize {
        StopsAt(items, STATICS + i, TOTAL, |was| + cursize);
        assert was + [] == was;
        return;
      }
      WriteStatic(m, i, msg);
      Wrote(items, STATICS + i, TOTAL, was, msg.Contents(), cursize);
      i := i + 1;
    }
    EndsAt(items, TOTAL, msg.cursize + cursize);
    assert msg.Contents() + [] == msg.Contents();
  }

  lemma StaticAt(m: Map, thisplayer: int, i: nat)
    requires ValidMap(m) && i < MAX_STATICENTITIES
    ensures Items(m, thisplayer)[STATICS + i] == Item(Some(16), PutStatic(m, i))
  {
  }

  /** A page is the userinfo stage and then the rest as one stage. */
  lemma PageIsStages(items: seq<Item>, first: int, backlog: nat)
    requires |items| == TOTAL
    ensures var u := Stage(items, 0, BASELINES, first, backlog);
            var g := if 0 <= first < BASELINES && u.1 == BASELINES then BASELINES + 1 else u.1;
            var s := Stage(items, BASELINES, TOTAL, g, backlog + |u.0|);
            Page(items, first, backlog) == (u.0 + s.0, if s.1 == TOTAL then -1 else s.1)
  {
    var u := Stage(items, 0, BASELINES, first, backlog);
    var g := if 0 <= first < BASELINES && u.1 == BASELINES then BASELINES + 1 else u.1;
    var s := Stage(items, BASELINES, TOTAL, g, backlog + |u.0|);
    assert [] + s.0 == s.0 && u.0 + [] == u.0;
    if first == TOTAL {
      EndsAt(items, TOTAL, backlog);
    }
  }

  /** Two stages in turn are one: the first wrote up to `was`, the second up to `now`. */
  lemma TwoStages(items: seq<Item>, lo: nat, mid: nat, hi: nat, g: int, backlog: nat, s0: seq<byte>, was: seq<byte>,
                  now: seq<byte>)
    requires lo <= mid <= hi <= |items|
    requires was == s0 + Stage(items, lo, mid, g, |s0| + backlog).0
    requires now == was + Stage(items, mid, hi, Stage(items, lo, mid, g, |s0| + backlog).1, |was| + backlog).0
    ensures now == s0 + Stage(items, lo, hi, g, |s0| + backlog).0
    ensures Stage(items, mid, hi, Stage(items, lo, mid, g, |s0| + backlog).1, |was| + backlog).1
      == Stage(items, lo, hi, g, |s0| + backlog).1
  {
    hide Stage;
    StageJoin(items, lo, mid, hi, g, |s0| + backlog);
  }

  /** The baselines and the light styles: the change of the index, and the place in what follows. */
  method BaselinesAndLightmaps(m: Map, curmsgsize: nat, msg: NetMsg, first: int, ghost thisplayer: int)
    returns (dr: int, bufnum: int)
    requires ValidMap(m) && msg.Valid() && msg.maxsize >= ROOM
    modifies msg`cursize, msg.data
    ensures var r := Stage(Items(m, thisplayer), BASELINES, SOUNDS, first + BASELINES, old(msg.cursize) + curmsgsize);
            && msg.Valid() && msg.Contents() == old(msg.Contents()) + r.0
            && bufnum + SOUNDS == r.1 && dr == r.1 - BASELINES - first
  {
    hide Stage, Items, ItemAt, ValidMap;
    ghost var s0 := msg.Contents();
    bufnum := first;
    var ni := SendCurrentBaselines(m, curmsgsize, msg, LIMIT, bufnum, thisplayer);
    dr := ni - bufnum;
    bufnum := ni;
    bufnum := bufnum - MAX_ENTITIES;
    ghost var s1 := msg.Contents();
    ni := SendCurrentLightmaps(m, curmsgsize, msg, LIMIT, bufnum, thisplayer);
    dr := dr + ni - bufnum;
    bufnum := ni;
    bufnum := bufnum - MAX_LIGHTSTYLES;
    TwoStages(Items(m, thisplayer), BASELINES, LIGHTSTYLES, SOUNDS, first + BASELINES, curmsgsize, s0, s1,
              msg.Contents());
  }

  method StaticSoundsAndEntities(m: Map, curmsgsize: nat, msg: NetMsg, first: int, ghost thisplayer: int)
    returns (dr: int, bufnum: int)
    requires ValidMap(m) && msg.Valid() && msg.maxsize >= ROOM
    modifies msg`cursize, msg.data
    ensures var r := Stage(Items(m, thisplayer), SOUNDS, TOTAL, first + SOUNDS, old(msg.cursize) + curmsgsize);
            && msg.Valid() && msg.Contents() == old(msg.Contents()) + r.0
            && bufnum + TOTAL == r.1 && dr == r.1 - SOUNDS - first
  {
    hide Stage, Items, ItemAt, ValidMap;
    ghost var s0 := msg.Contents();
    bufnum := first;
    var ni := SendStaticSounds(m, curmsgsize, msg, LIMIT, bufnum, thisplayer);
    dr := ni - bufnum;
    bufnum := ni;
    bufnum := bufnum - MAX_STATICSOUNDS;
    ghost var s1 := msg.Contents();
    ni := SendStaticEntities(m, curmsgsize, msg, LIMIT, bufnum, thisplayer);
    dr := dr + ni - bufnum;
    bufnum := ni;
    bufnum := bufnum - MAX_STATICENTITIES;
    TwoStages(Items(m, thisplayer), SOUNDS, STATICS, TOTAL, first + SOUNDS, curmsgsize, s0, s1, msg.Contents());
  }

  /** The next index to ask for, or -1; the message is one page of the pass. */
  method Prespawn(m: Map, curmsgsize: nat, msg: NetMsg, first: int, thisplayer: int) returns (r: int)
    requires ValidMap(m) && msg.Valid() && msg.Contents() == [] && msg.maxsize >= ROOM
    modifies msg`cursize, msg.data
    ensures msg.Valid()
    ensures msg.Contents() == Page(Items(m, thisplayer), first, curmsgsize).0
      && r == Page(Items(m, thisplayer), first, curmsgsize).1
  {
    hide Stage, Page, Items, ItemAt, ValidMap;
    ghost var items := Items(m, thisplayer);
    r := first;
    var bufnum := first;
    var ni := SendCurrentUserinfos(m, curmsgsize, msg, bufnum, thisplayer);
    r := r + ni - bufnum;
    bufnum := ni;
    bufnum := bufnum - MAX_CLIENTS;
    ghost var s0, g := msg.Contents(), ni;
    var dr;
    dr, bufnum := BaselinesAndLightmaps(m, curmsgsize, msg, bufnum, thisplayer);
    r := r + dr;
    ghost var s1 := msg.Contents();
    dr, bufnum := StaticSoundsAndEntities(m, curmsgsize, msg, bufnum, thisplayer);
    r := r + dr;
    TwoStages(items, BASELINES, SOUNDS, TOTAL, g, curmsgsize, s0, s1, msg.Contents());
    PageIsStages(items, first, curmsgsize);
    if bufnum == 0 {
      return -1;
    }
  }
}
