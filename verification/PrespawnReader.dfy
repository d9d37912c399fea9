/** What the next relay makes of the connection data: the readers of `parse.c`, and the map they rebuild. */
module PrespawnReader {
  import opened Bytes
  import opened NetMsg
  import opened EntityDelta
  import PacketEntities
  import opened PrespawnPages

  const USERINFO_ROOM := 1023
  const STYLE_ROOM := 63

  /** The reader's own map; of the sounds and static entities the first `soundCount` and `staticCount` are in use. */
  datatype World = World(players: seq<Player>, baselines: seq<Entity>, lightstyles: seq<seq<byte>>,
                         sounds: seq<Sound>, soundCount: nat, statics: seq<Entity>, staticCount: nat)

  predicate ValidWorld(w: World) {
    && |w.players| == MAX_CLIENTS && |w.baselines| == MAX_ENTITIES && |w.lightstyles| == MAX_LIGHTSTYLES
    && |w.sounds| == MAX_STATICSOUNDS && w.soundCount <= MAX_STATICSOUNDS
    && |w.statics| == MAX_STATICENTITIES && w.staticCount <= MAX_STATICENTITIES
  }

  // ---- The readers ----

  /** `ParseUpdateUserinfo`, past the service byte like the others. */
  function TakeUserinfo(w: World, c: Cursor): (World, Cursor)
    requires ValidWorld(w)
  {
    var p := GetByte(c);
    var id := GetLong(p.1);
    if p.0 < MAX_CLIENTS then
      var s := GetString(id.1, USERINFO_ROOM);
      (w.(players := w.players[p.0 := w.players[p.0].(userinfo := s.0)]), s.1)
    else (w, SkipString(id.1))
  }

  function TakeFrags(w: World, c: Cursor): (World, Cursor)
    requires ValidWorld(w)
  {
    var p := GetByte(c);
    var x := GetShort(p.1);
    (if p.0 < MAX_CLIENTS then w.(players := w.players[p.0 := w.players[p.0].(frags := x.0)]) else w, x.1)
  }

  function TakePing(w: World, c: Cursor): (World, Cursor)
    requires ValidWorld(w)
  {
    var p := GetByte(c);
    var x := GetShort(p.1);
    (if p.0 < MAX_CLIENTS then w.(players := w.players[p.0 := w.players[p.0].(ping := x.0)]) else w, x.1)
  }

  function TakeLoss(w: World, c: Cursor): (World, Cursor)
    requires ValidWorld(w)
  {
    var p := GetByte(c);
    var x := GetByte(p.1);
    var n := p.0 % MAX_CLIENTS;
    (w.(players := w.players[n := w.players[n].(packetloss := x.0)]), x.1)
  }

  function TakeLightstyle(w: World, c: Cursor): (World, Cursor)
    requires ValidWorld(w)
  {
    var p := GetByte(c);
    if p.0 < MAX_LIGHTSTYLES then
      var s := GetString(p.1, STYLE_ROOM);
      (w.(lightstyles := w.lightstyles[p.0 := s.0]), s.1)
    else (w, SkipString(p.1))
  }

  /** `ParseEntityState` over `e`. */
  function GetState(e: Entity, ext: Ext, c: Cursor): (Entity, Cursor) {
    var m := GetByte(c);
    var f := GetByte(m.1);
    var k := GetByte(f.1);
    var s := GetByte(k.1);
    var o1 := GetCoordIf(true, 0, ext, s.1);
    var a1 := GetAngleIf(true, 0, ext, o1.1);
    var o2 := GetCoordIf(true, 0, ext, a1.1);
    var a2 := GetAngleIf(true, 0, ext, o2.1);
    var o3 := GetCoordIf(true, 0, ext, a2.1);
    var a3 := GetAngleIf(true, 0, ext, o3.1);
    (e.(modelindex := m.0, frame := f.0, colormap := k.0, skinnum := s.0,
        origin := Vec(o1.0, o2.0, o3.0), angles := Vec(a1.0, a2.0, a3.0)), a3.1)
  }

  /** A delta against nothing, with its number. */
  function GetWhole(ext: Ext, c: Cursor): (nat, Entity, Cursor) {
    var h := GetHeader(c);
    var b := GetBody(h.0.1, NULL_ENTITY, ext, h.1);
    (h.0.0, b.0, b.1)
  }

  /** `ParseBaseline`; a number too large ends the message. */
  function TakeBaseline(w: World, ext: Ext, c: Cursor, delta: bool): (World, Cursor)
    requires ValidWorld(w)
  {
    if delta then
      var d := GetWhole(ext, c);
      if d.0 >= MAX_ENTITIES then (w, Cursor([], true)) else (w.(baselines := w.baselines[d.0 := d.1]), d.2)
    else
      var n := GetShort(c);
      if n.0 >= MAX_ENTITIES then (w, Cursor([], true))
      else
        var e := GetState(w.baselines[n.0], ext, n.1);
        (w.(baselines := w.baselines[n.0 := e.0]), e.1)
  }

  /** The slot for one more of something there is room for `max` of: the last one, once all are taken. */
  function NextSlot(count: nat, max: nat): (i: nat)
    requires 0 < max && count <= max
    ensures i < max
  {
    if count == max then count - 1 else count
  }

  /** `ParseStaticSound`. */
  function TakeSound(w: World, ext: Ext, c: Cursor): (World, Cursor)
    requires ValidWorld(w)
  {
    var i := NextSlot(w.soundCount, MAX_STATICSOUNDS);
    var x := GetCoordIf(true, 0, ext, c);
    var y := GetCoordIf(true, 0, ext, x.1);
    var z := GetCoordIf(true, 0, ext, y.1);
    var s := GetByte(z.1);
    var v := GetByte(s.1);
    var a := GetByte(v.1);
    (w.(sounds := w.sounds[i := Sound(Vec(x.0, y.0, z.0), s.0, v.0, a.0)], soundCount := i + 1), a.1)
  }

  /** `ParseSpawnStatic`. */
  function TakeStatic(w: World, ext: Ext, c: Cursor, delta: bool): (World, Cursor)
    requires ValidWorld(w)
  {
    var i := NextSlot(w.staticCount, MAX_STATICENTITIES);
    var e := if delta then (GetWhole(ext, c).1, GetWhole(ext, c).2) else GetState(w.statics[i], ext, c);
    (w.(statics := w.statics[i := e.0], staticCount := i + 1), e.1)
  }

  /** The messages of the connection data. */
  predicate Handled(svc: byte, spawnstatic2: bool) {
    || svc == 40 || svc == 14 || svc == 36 || svc == 53 || svc == 12 || svc == 22 || svc == 29 || svc == 20
    || ((svc == 66 || svc == 21) && spawnstatic2)
  }

  /** Such a message is next. */
  predicate Ready(spawnstatic2: bool, c: Cursor) {
    c.rest != [] && Handled(c.rest[0], spawnstatic2)
  }

  /** One message of the connection data. */
  function TakeMessage(w: World, spawnstatic2: bool, ext: Ext, c: Cursor): (r: (World, Cursor))
    requires ValidWorld(w) && Ready(spawnstatic2, c)
    ensures ValidWorld(r.0)
  {
    var svc := GetByte(c);
    if svc.0 == 40 then TakeUserinfo(w, svc.1)
    else if svc.0 == 14 then TakeFrags(w, svc.1)
    else if svc.0 == 36 then TakePing(w, svc.1)
    else if svc.0 == 53 then TakeLoss(w, svc.1)
    else if svc.0 == 12 then TakeLightstyle(w, svc.1)
    else if svc.0 == 22 then TakeBaseline(w, ext, svc.1, false)
    else if svc.0 == 66 then TakeBaseline(w, ext, svc.1, true)
    else if svc.0 == 29 then TakeSound(w, ext, svc.1)
    else if svc.0 == 20 then TakeStatic(w, ext, svc.1, false)
    else TakeStatic(w, ext, svc.1, true)
  }

  /** Some number of messages brings the reader from one map and place to another. */
  ghost predicate Reads(w: World, spawnstatic2: bool, ext: Ext, c: Cursor, n: nat, w': World, c': Cursor)
    decreases n
  {
    && ValidWorld(w)
    && (if n == 0 then w' == w && c' == c
        else Ready(spawnstatic2, c)
             && var r := TakeMessage(w, spawnstatic2, ext, c); Reads(r.0, spawnstatic2, ext, r.1, n - 1, w', c'))
  }

  lemma StateShrinks(e: Entity, ext: Ext, c: Cursor)
    ensures |GetState(e, ext, c).1.rest| <= |c.rest|
  {
    hide GetByte, GetShort, GetLong;
  }

  lemma WholeShrinks(ext: Ext, c: Cursor)
    ensures |GetWhole(ext, c).2.rest| <= |c.rest|
  {
    hide GetBody, Unpack;
    var h := GetHeader(c);
    if c.rest == [] {
      GetLow2(c);
      assert GetShort(c) == (0, Cursor([], true));
    }
    PacketEntities.GetBodyShrinks(h.0.1, NULL_ENTITY, ext, h.1);
  }

  /** Every message has at least its service byte. */
  lemma MessageShrinks(w: World, s2: bool, ext: Ext, c: Cursor)
    requires ValidWorld(w) && Ready(s2, c)
    ensures |TakeMessage(w, s2, ext, c).1.rest| < |c.rest|
  {
    hide GetShort, GetLong, GetWhole, GetState, GetString, SkipString;
    var svc := GetByte(c);
    WholeShrinks(ext, svc.1);
    StateShrinks(w.statics[NextSlot(w.staticCount, MAX_STATICENTITIES)], ext, svc.1);
    var n := GetShort(svc.1);
    if n.0 < MAX_ENTITIES {
      StateShrinks(w.baselines[n.0], ext, n.1);
    }
  }

  /** `ParseMessage`, up to the first message of another kind. */
  function Parsed(w: World, spawnstatic2: bool, ext: Ext, c: Cursor): (w': World)
    requires ValidWorld(w)
    ensures ValidWorld(w')
    decreases |c.rest|
  {
    if !Ready(spawnstatic2, c) then w
    else
      MessageShrinks(w, spawnstatic2, ext, c);
      var r := TakeMessage(w, spawnstatic2, ext, c);
      Parsed(r.0, spawnstatic2, ext, r.1)
  }

  lemma {:induction false} ReadsIsParsed(w: World, s2: bool, ext: Ext, c: Cursor, n: nat, w': World)
    requires Reads(w, s2, ext, c, n, w', Start([]))
    ensures Parsed(w, s2, ext, c) == w'
    decreases n
  {
    hide TakeMessage;
    if n > 0 {
      var r := TakeMessage(w, s2, ext, c);
      ReadsIsParsed(r.0, s2, ext, r.1, n - 1, w');
    }
  }

  lemma {:induction false} ReadsOn(w: World, s2: bool, ext: Ext, c: Cursor, n: nat, w1: World, c1: Cursor, k: nat,
                                   w2: World, c2: Cursor)
    requires Reads(w, s2, ext, c, n, w1, c1) && Reads(w1, s2, ext, c1, k, w2, c2)
    ensures Reads(w, s2, ext, c, n + k, w2, c2)
    decreases n
  {
    hide TakeMessage;
    if n > 0 {
      var r := TakeMessage(w, s2, ext, c);
      ReadsOn(r.0, s2, ext, r.1, n - 1, w1, c1, k, w2, c2);
    }
  }

  // ---- What the items mean, without their bytes ----

  /** The entry of player `i` as it is sent: the viewer's own may say how many are watching. */
  function Shown(m: Map, thisplayer: int, i: nat): Player
    requires ValidMap(m) && i < MAX_CLIENTS
  {
    if i == thisplayer && m.spectator then Player(SPECTATOR + m.title, 9999, 0, 0) else m.players[i]
  }

  /** The looks of a plain entity state; a model number keeps its low byte. */
  function Stated(was: Entity, e: Entity): Entity {
    was.(modelindex := e.modelindex % 256, frame := e.frame, colormap := e.colormap, skinnum := e.skinnum,
         origin := e.origin, angles := e.angles)
  }

  function Known(m: Map, was: Entity, e: Entity): Entity {
    if m.spawnstatic2 then Overlay(m.ext, NULL_ENTITY, e) else Stated(was, e)
  }

  /** The reader's map after item `k` of the five stages laid end to end. */
  function Applied(w: World, m: Map, thisplayer: int, k: nat): (w': World)
    requires ValidWorld(w) && ValidMap(m) && k < TOTAL
    ensures ValidWorld(w')
  {
    if k < BASELINES then w.(players := w.players[k := Shown(m, thisplayer, k)])
    else if k < LIGHTSTYLES then
      var e := m.baselines[k - BASELINES];
      if e.modelindex == 0 then w
      else w.(baselines := w.baselines[k - BASELINES := Known(m, w.baselines[k - BASELINES], e)])
    else if k < SOUNDS then w.(lightstyles := w.lightstyles[k - LIGHTSTYLES := m.lightstyles[k - LIGHTSTYLES]])
    else if k < STATICS then
      var i := NextSlot(w.soundCount, MAX_STATICSOUNDS);
      if m.sounds[k - SOUNDS].soundindex == 0 then w
      else w.(sounds := w.sounds[i := m.sounds[k - SOUNDS]], soundCount := i + 1)
    else
      var i := NextSlot(w.staticCount, MAX_STATICENTITIES);
      var e := m.statics[k - STATICS];
      if e.modelindex == 0 then w
      else w.(statics := w.statics[i := Known(m, w.statics[i], e)], staticCount := i + 1)
  }

  /** Texts that fit the reader's buffers, places that the wire can carry. */
  predicate Carriable(m: Map) {
    && ValidMap(m)
    && (forall i :: 0 <= i < MAX_CLIENTS ==> |m.players[i].userinfo| <= USERINFO_ROOM)
    && (forall i :: 0 <= i < MAX_LIGHTSTYLES ==> |m.lightstyles[i]| <= STYLE_ROOM)
    && (forall i :: 0 <= i < MAX_ENTITIES ==> Quantised(m.baselines[i], m.ext))
    && (forall i :: 0 <= i < MAX_STATICENTITIES ==> Quantised(m.statics[i], m.ext))
    && (forall i :: 0 <= i < MAX_STATICSOUNDS ==> SoundFits(m.sounds[i], m.ext))
  }

  predicate SoundFits(x: Sound, ext: Ext) {
    CoordFits(x.origin.x, ext) && CoordFits(x.origin.y, ext) && CoordFits(x.origin.z, ext)
  }

  // ---- One message at a time ----

  lemma UserinfoReads(w: World, s2: bool, ext: Ext, i: byte, info: seq<byte>, tail: seq<byte>)
    requires ValidWorld(w) && i < MAX_CLIENTS && 0 !in info && |info| <= USERINFO_ROOM
    ensures TakeMessage(w, s2, ext, Start([40] + ([i] + (Le32(i + 1) + (info + [0] + tail)))))
         == (w.(players := w.players[i := w.players[i].(userinfo := info)]), Start(tail))
  {
    hide GetByte, GetLong, GetString, Le32;
    ByteRoundTrip(40, [i] + (Le32(i + 1) + (info + [0] + tail)));
    ByteRoundTrip(i, Le32(i + 1) + (info + [0] + tail));
    LongRoundTrip(i + 1, info + [0] + tail);
    StringRoundTrip(info, tail, USERINFO_ROOM);
  }

  /** The tally: three messages. */
  lemma TallyReads(w: World, s2: bool, ext: Ext, i: byte, frags: u16, ping: u16, loss: byte, tail: seq<byte>)
    requires ValidWorld(w) && i < MAX_CLIENTS
    ensures var w' := w.(players := w.players[i := Player(w.players[i].userinfo, frags, ping, loss)]);
            Reads(w, s2, ext, Start(PutTally(i, frags, ping, loss) + tail), 3, w', Start(tail))
  {
    hide GetByte, GetShort, Le16;
    var t2 := [53] + ([i] + ([loss] + tail));
    var t1 := [36] + ([i] + (Le16(ping) + t2));
    assert PutTally(i, frags, ping, loss) + tail == [14] + ([i] + (Le16(frags) + t1));
    ByteRoundTrip(14, [i] + (Le16(frags) + t1));
    ByteRoundTrip(i, Le16(frags) + t1);
    ShortRoundTrip(frags, t1);
    ByteRoundTrip(36, [i] + (Le16(ping) + t2));
    ByteRoundTrip(i, Le16(ping) + t2);
    ShortRoundTrip(ping, t2);
    ByteRoundTrip(53, [i] + ([loss] + tail));
    ByteRoundTrip(i, [loss] + tail);
    ByteRoundTrip(loss, tail);
    var w1 := w.(players := w.players[i := w.players[i].(frags := frags)]);
    var w2 := w1.(players := w1.players[i := w1.players[i].(ping := ping)]);
    var w3 := w2.(players := w2.players[i := w2.players[i].(packetloss := loss)]);
    assert w3.players == w.players[i := Player(w.players[i].userinfo, frags, ping, loss)];
    assert Reads(w3, s2, ext, Start(tail), 0, w3, Start(tail));
    assert Reads(w2, s2, ext, Start(t2), 1, w3, Start(tail));
    assert Reads(w1, s2, ext, Start(t1), 2, w3, Start(tail));
  }

  lemma PlayerReads(w: World, s2: bool, ext: Ext, i: byte, p: Player, tail: seq<byte>)
    requires ValidWorld(w) && i < MAX_CLIENTS && 0 !in p.userinfo && |p.userinfo| <= USERINFO_ROOM
    ensures var bytes := PutPlayer(i, p.userinfo, PutTally(i, p.frags, p.ping, p.packetloss));
            Reads(w, s2, ext, Start(bytes + tail), 4, w.(players := w.players[i := p]), Start(tail))
  {
    hide TakeMessage, PutTally, Le32;
    var tally := PutTally(i, p.frags, p.ping, p.packetloss);
    var bytes := PutPlayer(i, p.userinfo, tally);
    assert bytes + tail == [40] + ([i] + (Le32(i + 1) + (p.userinfo + [0] + (tally + tail))));
    UserinfoReads(w, s2, ext, i, p.userinfo, tally + tail);
    var w1 := w.(players := w.players[i := w.players[i].(userinfo := p.userinfo)]);
    TallyReads(w1, s2, ext, i, p.frags, p.ping, p.packetloss, tail);
    assert w1.players[i := p] == w.players[i := p];
  }

  lemma LightstyleReads(w: World, s2: bool, ext: Ext, i: byte, style: seq<byte>, tail: seq<byte>)
    requires ValidWorld(w) && i < MAX_LIGHTSTYLES && 0 !in style && |style| <= STYLE_ROOM
    ensures TakeMessage(w, s2, ext, Start([12] + ([i] + (style + [0])) + tail))
         == (w.(lightstyles := w.lightstyles[i := style]), Start(tail))
  {
    hide GetByte, GetString;
    assert [12] + ([i] + (style + [0])) + tail == [12] + ([i] + (style + [0] + tail));
    ByteRoundTrip(12, [i] + (style + [0] + tail));
    ByteRoundTrip(i, style + [0] + tail);
    StringRoundTrip(style, tail, STYLE_ROOM);
  }

  lemma CoordReads(x: int, ext: Ext, tail: seq<byte>)
    requires CoordFits(x, ext)
    ensures GetCoordIf(true, 0, ext, Start(PutCoord(x, ext) + tail)) == (x, Start(tail))
  {
    CoordIf(true, x, 0, ext, tail);
  }

  lemma AngleReads(x: int, ext: Ext, tail: seq<byte>)
    requires AngleFits(x, ext)
    ensures GetAngleIf(true, 0, ext, Start(PutAngle(x, ext) + tail)) == (x, Start(tail))
  {
    AngleIf(true, x, 0, ext, tail);
  }

  lemma SoundReads(w: World, s2: bool, m: Map, i: nat, tail: seq<byte>)
    requires ValidWorld(w) && ValidMap(m) && i < MAX_STATICSOUNDS && SoundFits(m.sounds[i], m.ext)
    requires m.sounds[i].soundindex != 0
    ensures var n := NextSlot(w.soundCount, MAX_STATICSOUNDS);
            TakeMessage(w, s2, m.ext, Start(PutSound(m, i) + tail))
            == (w.(sounds := w.sounds[n := m.sounds[i]], soundCount := n + 1), Start(tail))
  {
    hide GetByte, GetCoordIf, PutCoord;
    var x := m.sounds[i];
    var t3 := [x.soundindex] + ([x.volume] + ([x.attenuation] + tail));
    var t2 := PutCoord(x.origin.z, m.ext) + t3;
    var t1 := PutCoord(x.origin.y, m.ext) + t2;
    assert PutSound(m, i) + tail == [29] + (PutCoord(x.origin.x, m.ext) + t1);
    ByteRoundTrip(29, PutCoord(x.origin.x, m.ext) + t1);
    CoordReads(x.origin.x, m.ext, t1);
    CoordReads(x.origin.y, m.ext, t2);
    CoordReads(x.origin.z, m.ext, t3);
    ByteRoundTrip(x.soundindex, [x.volume] + ([x.attenuation] + tail));
    ByteRoundTrip(x.volume, [x.attenuation] + tail);
    ByteRoundTrip(x.attenuation, tail);
  }

  lemma StateReads(was: Entity, e: Entity, ext: Ext, tail: seq<byte>)
    requires Quantised(e, ext)
    ensures GetState(was, ext, Start(PutState(e, ext) + tail)) == (Stated(was, e), Start(tail))
  {
    hide GetByte, GetCoordIf, GetAngleIf, PutCoord, PutAngle;
    var t6 := PutAngle(e.angles.z, ext) + tail;
    var t5 := PutCoord(e.origin.z, ext) + t6;
    var t4 := PutAngle(e.angles.y, ext) + t5;
    var t3 := PutCoord(e.origin.y, ext) + t4;
    var t2 := PutAngle(e.angles.x, ext) + t3;
    var t1 := PutCoord(e.origin.x, ext) + t2;
    StateBytes(e, ext, tail);
    ByteRoundTrip(e.modelindex % 256, [e.frame] + ([e.colormap] + ([e.skinnum] + t1)));
    ByteRoundTrip(e.frame, [e.colormap] + ([e.skinnum] + t1));
    ByteRoundTrip(e.colormap, [e.skinnum] + t1);
    ByteRoundTrip(e.skinnum, t1);
    CoordReads(e.origin.x, ext, t2);
    AngleReads(e.angles.x, ext, t3);
    CoordReads(e.origin.y, ext, t4);
    AngleReads(e.angles.y, ext, t5);
    CoordReads(e.origin.z, ext, t6);
    AngleReads(e.angles.z, ext, tail);
  }

  lemma StateBytes(e: Entity, ext: Ext, tail: seq<byte>)
    ensures var t4 := PutAngle(e.angles.y, ext) + (PutCoord(e.origin.z, ext) + (PutAngle(e.angles.z, ext) + tail));
            var t1 := PutCoord(e.origin.x, ext) + (PutAngle(e.angles.x, ext) + (PutCoord(e.origin.y, ext) + t4));
            PutState(e, ext) + tail
            == [e.modelindex % 256] + ([e.frame] + ([e.colormap] + ([e.skinnum] + t1)))
  {
    hide PutCoord, PutAngle;
    var o, a := e.origin, e.angles;
    var c1, c2, c3 := PutCoord(o.x, ext), PutCoord(o.y, ext), PutCoord(o.z, ext);
    var a1, a2, a3 := PutAngle(a.x, ext), PutAngle(a.y, ext), PutAngle(a.z, ext);
    assert PutSpots(o, a, ext) + tail == c1 + (a1 + (c2 + (a2 + (c3 + (a3 + tail)))));
  }

  /** A forced delta against nothing reads back, number and all. */
  lemma WholeReads(i: nat, e: Entity, ext: Ext, tail: seq<byte>)
    requires i < 512 && e.modelindex != 0 && Quantised(e, ext)
    ensures GetWhole(ext, Start(PutDelta(i, NULL_ENTITY, e, true, ext, tail)))
         == (i, Overlay(ext, NULL_ENTITY, e), Start(tail))
  {
    hide GetHeader, GetBody, PutDelta;
    ModelShows(e, ext);
    NullAgrees(ext);
    DeltaRoundTrip(i, NULL_ENTITY, e, NULL_ENTITY, true, ext, tail);
  }

  lemma ModelShows(e: Entity, ext: Ext)
    requires e.modelindex != 0
    ensures DeltaFlags(0, NULL_ENTITY, e, ext).mid != NONE
  {
  }

  lemma NullAgrees(ext: Ext)
    ensures Agree(ext, NULL_ENTITY, NULL_ENTITY)
  {
  }

  // ---- What is written in front of nothing, in front of something ----

  lemma IfInFront(b: bool, s: seq<byte>, mid: seq<byte>, tail: seq<byte>)
    ensures PutIf(b, s, mid) + tail == PutIf(b, s, mid + tail)
  {
    if b {
      assert (s + mid) + tail == s + (mid + tail);
    }
  }

  lemma RestInFront(f: Flags, e: Entity, mid: seq<byte>, tail: seq<byte>)
    ensures PutRest(f, e, mid) + tail == PutRest(f, e, mid + tail)
  {
    hide PutIf, PutTag, PutLight;
    var m1 := PutIf(f.Effects16(), [e.effects / 256], mid);
    IfInFront(f.Effects16(), [e.effects / 256], mid, tail);
    IfInFront(f.LightInfo(), PutLight(e.light), m1, tail);
    IfInFront(f.TagInfo(), PutTag(e.tag), PutIf(f.LightInfo(), PutLight(e.light), m1), tail);
  }

  lemma LooksInFront(f: Flags, e: Entity, mid: seq<byte>, tail: seq<byte>)
    ensures PutLooks(f, e, mid) + tail == PutLooks(f, e, mid + tail)
  {
    hide PutIf;
    var m1 := PutIf(f.DpFlags(), [e.dpflags], mid);
    var m2 := PutIf(f.ColourMod(), [e.colormod.r, e.colormod.g, e.colormod.b], m1);
    var m3 := PutIf(f.AbsLight(), [e.abslight], m2);
    var m4 := PutIf(f.DrawFlags(), [e.drawflags], m3);
    var m5 := PutIf(f.Fatness(), [e.fatness], m4);
    IfInFront(f.DpFlags(), [e.dpflags], mid, tail);
    IfInFront(f.ColourMod(), [e.colormod.r, e.colormod.g, e.colormod.b], m1, tail);
    IfInFront(f.AbsLight(), [e.abslight], m2, tail);
    IfInFront(f.DrawFlags(), [e.drawflags], m3, tail);
    IfInFront(f.Fatness(), [e.fatness], m4, tail);
    IfInFront(f.Alpha(), [e.alpha], m5, tail);
    IfInFront(f.Scale(), [e.scale], PutIf(f.Alpha(), [e.alpha], m5), tail);
  }

  lemma PlaceInFront(f: Flags, e: Entity, ext: Ext, mid: seq<byte>, tail: seq<byte>)
    ensures PutPlace(f, e, ext, mid) + tail == PutPlace(f, e, ext, mid + tail)
  {
    hide PutIf, PutCoord, PutAngle;
    var m1 := PutIf(f.Angle3(), PutAngle(e.angles.z, ext), mid);
    var m2 := PutIf(f.Origin3(), PutCoord(e.origin.z, ext), m1);
    var m3 := PutIf(f.Angle2(), PutAngle(e.angles.y, ext), m2);
    var m4 := PutIf(f.Origin2(), PutCoord(e.origin.y, ext), m3);
    IfInFront(f.Angle3(), PutAngle(e.angles.z, ext), mid, tail);
    IfInFront(f.Origin3(), PutCoord(e.origin.z, ext), m1, tail);
    IfInFront(f.Angle2(), PutAngle(e.angles.y, ext), m2, tail);
    IfInFront(f.Origin2(), PutCoord(e.origin.y, ext), m3, tail);
    IfInFront(f.Angle1(), PutAngle(e.angles.x, ext), m4, tail);
    IfInFront(f.Origin1(), PutCoord(e.origin.x, ext), PutIf(f.Angle1(), PutAngle(e.angles.x, ext), m4), tail);
  }

  lemma BasicsInFront(f: Flags, e: Entity, mid: seq<byte>, tail: seq<byte>)
    ensures PutBasics(f, e, mid) + tail == PutBasics(f, e, mid + tail)
  {
    hide PutIf, Le16;
    var m1 := PutIf(f.Effects(), [e.effects % 256], mid);
    var m2 := PutIf(f.Skin(), [e.skinnum], m1);
    var m3 := PutIf(f.Colormap(), [e.colormap], m2);
    var model := if f.Model() then [e.modelindex % 256] else Le16(e.modelindex);
    IfInFront(f.Effects(), [e.effects % 256], mid, tail);
    IfInFront(f.Skin(), [e.skinnum], m1, tail);
    IfInFront(f.Colormap(), [e.colormap], m2, tail);
    IfInFront(f.Frame(), [e.frame], m3, tail);
    IfInFront(f.Model() || f.ModelDbl(), model, PutIf(f.Frame(), [e.frame], m3), tail);
  }

  lemma HeaderInFront(i: nat, f: Flags, mid: seq<byte>, tail: seq<byte>)
    ensures PutHeader(i, f, mid) + tail == PutHeader(i, f, mid + tail)
  {
    hide PutIf, Le16, Pack;
    var m1 := PutIf(f.YetMore(), [Pack(f.ext2)], mid);
    var m2 := PutIf(f.EvenMore(), [Pack(f.ext1)], m1);
    var m3 := PutIf(f.MoreBits(), [Pack(f.low)], m2);
    IfInFront(f.YetMore(), [Pack(f.ext2)], mid, tail);
    IfInFront(f.EvenMore(), [Pack(f.ext1)], m1, tail);
    IfInFront(f.MoreBits(), [Pack(f.low)], m2, tail);
    var word := Le16(i % 512 + Pack(f.mid) / 2 * 512);
    assert (word + m3) + tail == word + (m3 + tail);
  }

  lemma DeltaInFront(i: nat, e: Entity, ext: Ext, tail: seq<byte>)
    ensures PutDelta(i, NULL_ENTITY, e, true, ext, []) + tail == PutDelta(i, NULL_ENTITY, e, true, ext, tail)
  {
    hide DeltaFlags, PutHeader, PutBasics, PutPlace, PutLooks, PutRest;
    var f := DeltaFlags(i, NULL_ENTITY, e, ext);
    var m1 := PutRest(f, e, []);
    var m2 := PutLooks(f, e, m1);
    var m3 := PutPlace(f, e, ext, m2);
    RestInFront(f, e, [], tail);
    assert [] + tail == tail;
    LooksInFront(f, e, m1, tail);
    PlaceInFront(f, e, ext, m2, tail);
    BasicsInFront(f, e, m3, tail);
    HeaderInFront(i, f, PutBasics(f, e, m3), tail);
  }

  // ---- The items, and all of them ----

  lemma ShownReads(w: World, m: Map, thisplayer: int, i: nat, tail: seq<byte>)
    requires ValidWorld(w) && Carriable(m) && i < MAX_CLIENTS
    ensures Reads(w, m.spawnstatic2, m.ext, Start(PlayerItem(m, thisplayer, i).bytes + tail), 4,
                  w.(players := w.players[i := Shown(m, thisplayer, i)]), Start(tail))
  {
    hide TakeMessage, Reads, PutPlayer, PutTally;
    if i == thisplayer && m.spectator {
      assert 0 !in SPECTATOR;
    }
    PlayerReads(w, m.spawnstatic2, m.ext, i, Shown(m, thisplayer, i), tail);
  }

  lemma BaselineReads(w: World, m: Map, i: nat, tail: seq<byte>)
    requires ValidWorld(w) && Carriable(m) && i < MAX_ENTITIES && m.baselines[i].modelindex != 0
    ensures TakeMessage(w, m.spawnstatic2, m.ext, Start(PutBaseline(m, i) + tail))
         == (w.(baselines := w.baselines[i := Known(m, w.baselines[i], m.baselines[i])]), Start(tail))
  {
    hide GetByte, GetShort, GetWhole, GetState, PutState, PutDelta, Overlay, Le16;
    var e := m.baselines[i];
    if m.spawnstatic2 {
      var d := PutDelta(i, NULL_ENTITY, e, true, m.ext, []);
      DeltaInFront(i, e, m.ext, tail);
      assert [66] + d + tail == [66] + (d + tail);
      ByteRoundTrip(66, d + tail);
      WholeReads(i, e, m.ext, tail);
    } else {
      assert [22] + (Le16(i) + PutState(e, m.ext)) + tail == [22] + (Le16(i) + (PutState(e, m.ext) + tail));
      ByteRoundTrip(22, Le16(i) + (PutState(e, m.ext) + tail));
      ShortRoundTrip(i, PutState(e, m.ext) + tail);
      StateReads(w.baselines[i], e, m.ext, tail);
    }
  }

  lemma StaticReads(w: World, m: Map, i: nat, tail: seq<byte>)
    requires ValidWorld(w) && Carriable(m) && i < MAX_STATICENTITIES && m.statics[i].modelindex != 0
    ensures var n := NextSlot(w.staticCount, MAX_STATICENTITIES);
            TakeMessage(w, m.spawnstatic2, m.ext, Start(PutStatic(m, i) + tail))
            == (w.(statics := w.statics[n := Known(m, w.statics[n], m.statics[i])], staticCount := n + 1), Start(tail))
  {
    hide GetByte, GetWhole, GetState, PutState, PutDelta, Overlay;
    var e := m.statics[i];
    var n := NextSlot(w.staticCount, MAX_STATICENTITIES);
    if m.spawnstatic2 {
      var d := PutDelta(i, NULL_ENTITY, e, true, m.ext, []);
      DeltaInFront(i, e, m.ext, tail);
      assert [21] + d + tail == [21] + (d + tail);
      ByteRoundTrip(21, d + tail);
      WholeReads(i, e, m.ext, tail);
    } else {
      assert [20] + PutState(e, m.ext) + tail == [20] + (PutState(e, m.ext) + tail);
      ByteRoundTrip(20, PutState(e, m.ext) + tail);
      StateReads(w.statics[n], e, m.ext, tail);
    }
  }

  lemma ReadsOne(w: World, s2: bool, ext: Ext, c: Cursor)
    requires ValidWorld(w) && Ready(s2, c)
    ensures Reads(w, s2, ext, c, 1, TakeMessage(w, s2, ext, c).0, TakeMessage(w, s2, ext, c).1)
  {
    hide TakeMessage;
    var r := TakeMessage(w, s2, ext, c);
    assert Reads(r.0, s2, ext, r.1, 0, r.0, r.1);
  }

  function Messages(m: Map, thisplayer: int, k: nat): nat
    requires ValidMap(m) && k < TOTAL
  {
    if k < BASELINES then 4 else if ItemAt(m, thisplayer, k).bytes == [] then 0 else 1
  }

  /** Each item, read, changes the reader's map by what it stands for and leaves the bytes behind it. */
  lemma ItemReads(w: World, m: Map, thisplayer: int, k: nat, tail: seq<byte>)
    requires ValidWorld(w) && Carriable(m) && k < TOTAL
    ensures Reads(w, m.spawnstatic2, m.ext, Start(ItemAt(m, thisplayer, k).bytes + tail), Messages(m, thisplayer, k),
                  Applied(w, m, thisplayer, k), Start(tail))
  {
    hide TakeMessage, PutPlayer, PutTally, PutDelta, PutState, PutCoord, Le16, Overlay, Shown, Known;
    var bytes := ItemAt(m, thisplayer, k).bytes;
    var c := Start(bytes + tail);
    if k < BASELINES {
      ShownReads(w, m, thisplayer, k, tail);
    } else if bytes == [] {
      assert bytes + tail == tail;
    } else {
      if k < LIGHTSTYLES {
        BaselineReads(w, m, k - BASELINES, tail);
      } else if k < SOUNDS {
        LightstyleReads(w, m.spawnstatic2, m.ext, k - LIGHTSTYLES, m.lightstyles[k - LIGHTSTYLES], tail);
      } else if k < STATICS {
        SoundReads(w, m.spawnstatic2, m, k - SOUNDS, tail);
      } else {
        StaticReads(w, m, k - STATICS, tail);
      }
      ReadsOne(w, m.spawnstatic2, m.ext, c);
    }
  }

  // ---- The map at the other end of a pass ----

  /** The sounds that exist, in order. */
  function Heard(s: seq<Sound>): (r: seq<Sound>)
    ensures |r| <= |s|
  {
    if s == [] then [] else
      var n := |s| - 1;
      Heard(s[..n]) + if s[n].soundindex == 0 then [] else [s[n]]
  }

  /** The static entities that exist, in order. */
  function Placed(s: seq<Entity>): (r: seq<Entity>)
    ensures |r| <= |s|
  {
    if s == [] then [] else
      var n := |s| - 1;
      Placed(s[..n]) + if s[n].modelindex == 0 then [] else [s[n]]
  }

  /** How many of the `n` steps that start at `from` come before `k`. */
  function Past(k: nat, from: nat, n: nat): (i: nat)
    ensures i <= n
  {
    if k <= from then 0 else if k <= from + n then k - from else n
  }

  ghost predicate PlayersAfter(w0: World, w: World, m: Map, thisplayer: int, k: nat)
    requires ValidWorld(w0) && ValidWorld(w) && ValidMap(m)
  {
    forall i :: 0 <= i < MAX_CLIENTS ==> w.players[i] == if i < k then Shown(m, thisplayer, i) else w0.players[i]
  }

  /** Entity 0 keeps the baseline it had: a pass from 0 leaves its own out. */
  ghost predicate BaselinesAfter(w0: World, w: World, m: Map, k: nat)
    requires ValidWorld(w0) && ValidWorld(w) && ValidMap(m)
  {
    forall i :: 0 <= i < MAX_ENTITIES ==>
                  w.baselines[i] == if 0 < i < Past(k, BASELINES, MAX_ENTITIES) && m.baselines[i].modelindex != 0
                                    then Known(m, w0.baselines[i], m.baselines[i]) else w0.baselines[i]
  }

  ghost predicate LightstylesAfter(w0: World, w: World, m: Map, k: nat)
    requires ValidWorld(w0) && ValidWorld(w) && ValidMap(m)
  {
    forall i :: 0 <= i < MAX_LIGHTSTYLES ==>
                  w.lightstyles[i] == if i < Past(k, LIGHTSTYLES, MAX_LIGHTSTYLES) then m.lightstyles[i]
                                      else w0.lightstyles[i]
  }

  ghost predicate SoundsAfter(w: World, m: Map, k: nat)
    requires ValidWorld(w) && ValidMap(m)
  {
    var heard := Heard(m.sounds[..Past(k, SOUNDS, MAX_STATICSOUNDS)]);
    w.soundCount == |heard| && w.sounds[..w.soundCount] == heard
  }

  ghost predicate StaticsAfter(w0: World, w: World, m: Map, k: nat)
    requires ValidWorld(w0) && ValidWorld(w) && ValidMap(m)
  {
    var placed := Placed(m.statics[..Past(k, STATICS, MAX_STATICENTITIES)]);
    && w.staticCount == |placed|
    && forall i :: 0 <= i < MAX_STATICENTITIES ==>
                     w.statics[i] == if i < |placed| then Known(m, w0.statics[i], placed[i]) else w0.statics[i]
  }

  /** `w` is what the first `k` steps of a pass from 0 have made of `w0`. */
  ghost predicate After(w0: World, w: World, m: Map, thisplayer: int, k: nat) {
    && ValidWorld(w0) && ValidWorld(w) && ValidMap(m)
    && PlayersAfter(w0, w, m, thisplayer, k) && BaselinesAfter(w0, w, m, k) && LightstylesAfter(w0, w, m, k)
    && SoundsAfter(w, m, k) && StaticsAfter(w0, w, m, k)
  }

  lemma AfterNothing(w0: World, m: Map, thisplayer: int)
    requires ValidWorld(w0) && ValidMap(m) && w0.soundCount == 0 && w0.staticCount == 0
    ensures After(w0, w0, m, thisplayer, 0)
  {
  }

  lemma AfterPlayer(w0: World, w: World, m: Map, thisplayer: int, k: nat)
    requires After(w0, w, m, thisplayer, k) && k < BASELINES
    ensures After(w0, Applied(w, m, thisplayer, k), m, thisplayer, k + 1)
  {
    hide Known, Shown;
  }

  lemma AfterBaseline(w0: World, w: World, m: Map, thisplayer: int, k: nat)
    requires After(w0, w, m, thisplayer, k) && BASELINES < k < LIGHTSTYLES
    ensures After(w0, Applied(w, m, thisplayer, k), m, thisplayer, k + 1)
  {
    hide Known, Shown;
  }

  lemma AfterLightstyle(w0: World, w: World, m: Map, thisplayer: int, k: nat)
    requires After(w0, w, m, thisplayer, k) && LIGHTSTYLES <= k < SOUNDS
    ensures After(w0, Applied(w, m, thisplayer, k), m, thisplayer, k + 1)
  {
    hide Known, Shown;
  }

  lemma AfterSound(w0: World, w: World, m: Map, thisplayer: int, k: nat)
    requires After(w0, w, m, thisplayer, k) && SOUNDS <= k < STATICS
    ensures After(w0, Applied(w, m, thisplayer, k), m, thisplayer, k + 1)
  {
    hide Known, Shown;
    var i := k - SOUNDS;
    assert m.sounds[..i + 1][..i] == m.sounds[..i];
  }

  lemma AfterStatic(w0: World, w: World, m: Map, thisplayer: int, k: nat)
    requires After(w0, w, m, thisplayer, k) && STATICS <= k < TOTAL
    ensures After(w0, Applied(w, m, thisplayer, k), m, thisplayer, k + 1)
  {
    hide Known, Shown;
    var i := k - STATICS;
    assert m.statics[..i + 1][..i] == m.statics[..i];
  }

  lemma AfterOne(w0: World, w: World, m: Map, thisplayer: int, k: nat)
    requires After(w0, w, m, thisplayer, k) && k < TOTAL && k != BASELINES
    ensures After(w0, Applied(w, m, thisplayer, k), m, thisplayer, k + 1)
  {
    hide After, Applied;
    if k < BASELINES {
      AfterPlayer(w0, w, m, thisplayer, k);
    } else if k < LIGHTSTYLES {
      AfterBaseline(w0, w, m, thisplayer, k);
    } else if k < SOUNDS {
      AfterLightstyle(w0, w, m, thisplayer, k);
    } else if k < STATICS {
      AfterSound(w0, w, m, thisplayer, k);
    } else {
      AfterStatic(w0, w, m, thisplayer, k);
    }
  }

  lemma AfterLeftOut(w0: World, w: World, m: Map, thisplayer: int)
    requires After(w0, w, m, thisplayer, BASELINES)
    ensures After(w0, w, m, thisplayer, BASELINES + 1)
  {
    hide Known, Shown;
  }

  /** A stretch of the items that does not go over the first baseline. */
  lemma {:induction false} StretchReads(w0: World, w: World, m: Map, thisplayer: int, k: nat, hi: nat, tail: seq<byte>)
    returns (n: nat, w': World)
    requires After(w0, w, m, thisplayer, k) && Carriable(m) && k <= hi <= TOTAL && !(k <= BASELINES < hi)
    ensures Reads(w, m.spawnstatic2, m.ext, Start(All(Items(m, thisplayer), k, hi) + tail), n, w', Start(tail))
    ensures After(w0, w', m, thisplayer, hi)
    decreases hi - k
  {
    hide PlayersAfter, BaselinesAfter, LightstylesAfter, SoundsAfter, StaticsAfter;
    hide Applied, TakeMessage, ItemAt, Messages;
    var items := Items(m, thisplayer);
    var c := Start(All(items, k, hi) + tail);
    if k == hi {
      n, w' := 0, w;
      assert All(items, k, hi) + tail == tail;
    } else {
      var w1 := Applied(w, m, thisplayer, k);
      var more := All(items, k + 1, hi) + tail;
      AfterOne(w0, w, m, thisplayer, k);
      ItemReads(w, m, thisplayer, k, more);
      assert All(items, k, hi) + tail == ItemAt(m, thisplayer, k).bytes + more;
      n, w' := StretchReads(w0, w1, m, thisplayer, k + 1, hi, tail);
      var c1 := Start(more);
      ReadsOn(w, m.spawnstatic2, m.ext, c, Messages(m, thisplayer, k), w1, c1, n, w', Start(tail));
      n := n + Messages(m, thisplayer, k);
    }
  }

  /** A map just begun: no sounds and no static entities yet. */
  predicate Begun(w: World) {
    ValidWorld(w) && w.soundCount == 0 && w.staticCount == 0
  }

  /** Where a pass goes on, once -1 is read as the end. */
  function Place(k: int): int {
    if k == -1 then TOTAL else k
  }

  /** One page, parsed as a message of its own. */
  lemma PageParsed(w0: World, w: World, m: Map, thisplayer: int, k: nat, backlog: nat)
    requires After(w0, w, m, thisplayer, k) && Carriable(m) && k < TOTAL && k != BASELINES
    ensures var p := Page(Items(m, thisplayer), k, backlog);
            && 0 <= Place(p.1) != BASELINES
            && After(w0, Parsed(w, m.spawnstatic2, m.ext, Start(p.0)), m, thisplayer, Place(p.1))
  {
    hide Take, All, TakeMessage, Reads, Quantised, SoundFits, Parsed;
    hide PlayersAfter, BaselinesAfter, LightstylesAfter, SoundsAfter, StaticsAfter;
    var items := Items(m, thisplayer);
    var s2, ext := m.spawnstatic2, m.ext;
    if k < BASELINES {
      var r := Take(items, k, BASELINES, backlog);
      TakeIsAll(items, k, BASELINES, backlog);
      if r.1 < BASELINES {
        FirstStretch(w0, w, m, thisplayer, k, r.1);
      } else {
        var s := Take(items, BASELINES + 1, TOTAL, backlog + |r.0|);
        TakeIsAll(items, BASELINES + 1, TOTAL, backlog + |r.0|);
        TwoStretches(w0, w, m, thisplayer, k, s.1);
      }
    } else {
      TakeIsAll(items, k, TOTAL, backlog);
      FirstStretch(w0, w, m, thisplayer, k, Take(items, k, TOTAL, backlog).1);
    }
  }

  lemma FirstStretch(w0: World, w: World, m: Map, thisplayer: int, k: nat, hi: nat)
    requires After(w0, w, m, thisplayer, k) && Carriable(m) && k <= hi <= TOTAL && !(k <= BASELINES < hi)
    ensures After(w0, Parsed(w, m.spawnstatic2, m.ext, Start(All(Items(m, thisplayer), k, hi))), m, thisplayer, hi)
  {
    hide TakeMessage, Reads, Quantised, SoundFits, Parsed, All;
    hide PlayersAfter, BaselinesAfter, LightstylesAfter, SoundsAfter, StaticsAfter;
    var bytes := All(Items(m, thisplayer), k, hi);
    var n, w' := StretchReads(w0, w, m, thisplayer, k, hi, []);
    assert bytes + [] == bytes;
    ReadsIsParsed(w, m.spawnstatic2, m.ext, Start(bytes), n, w');
  }

  /** Across the first baseline, which is left out. */
  lemma TwoStretches(w0: World, w: World, m: Map, thisplayer: int, k: nat, hi: nat)
    requires After(w0, w, m, thisplayer, k) && Carriable(m) && k < BASELINES < hi <= TOTAL
    ensures var items := Items(m, thisplayer);
            var bytes := All(items, k, BASELINES) + All(items, BASELINES + 1, hi);
            After(w0, Parsed(w, m.spawnstatic2, m.ext, Start(bytes)), m, thisplayer, hi)
  {
    hide TakeMessage, Reads, Quantised, SoundFits, Parsed, All;
    hide PlayersAfter, BaselinesAfter, LightstylesAfter, SoundsAfter, StaticsAfter;
    var items := Items(m, thisplayer);
    var s2, ext := m.spawnstatic2, m.ext;
    var late := All(items, BASELINES + 1, hi);
    var n, w1 := StretchReads(w0, w, m, thisplayer, k, BASELINES, late);
    AfterLeftOut(w0, w1, m, thisplayer);
    var j, w2 := StretchReads(w0, w1, m, thisplayer, BASELINES + 1, hi, []);
    assert late + [] == late;
    var c := Start(All(items, k, BASELINES) + late);
    ReadsOn(w, s2, ext, c, n, w1, Start(late), j, w2, Start([]));
    ReadsIsParsed(w, s2, ext, c, n + j, w2);
  }

  /** What the next relay holds after the pages from 0 on, each parsed as it came. */
  function Fed(w0: World, m: Map, thisplayer: int, backlogs: seq<nat>): (w: World)
    requires ValidWorld(w0) && ValidMap(m)
    ensures ValidWorld(w)
  {
    if backlogs == [] then w0
    else
      var n := |backlogs| - 1;
      var was := Paged(Items(m, thisplayer), backlogs[..n]);
      var w := Fed(w0, m, thisplayer, backlogs[..n]);
      if was.1 == -1 then w
      else Parsed(w, m.spawnstatic2, m.ext, Start(Page(Items(m, thisplayer), was.1, backlogs[n]).0))
  }

  /** After any pages the next relay holds what the part of the map before the index stands for. */
  lemma {:induction false} FedSoFar(w0: World, m: Map, thisplayer: int, backlogs: seq<nat>)
    requires Begun(w0) && Carriable(m)
    ensures var k := Place(Paged(Items(m, thisplayer), backlogs).1);
            k != BASELINES && After(w0, Fed(w0, m, thisplayer, backlogs), m, thisplayer, k)
  {
    hide After, Page, Parsed, Quantised, SoundFits;
    if backlogs == [] {
      AfterNothing(w0, m, thisplayer);
    } else {
      var n := |backlogs| - 1;
      FedSoFar(w0, m, thisplayer, backlogs[..n]);
      var was := Paged(Items(m, thisplayer), backlogs[..n]);
      if was.1 != -1 {
        PageParsed(w0, Fed(w0, m, thisplayer, backlogs[..n]), m, thisplayer, was.1, backlogs[n]);
      }
    }
  }

  lemma AtTheEnd(w0: World, w: World, m: Map, thisplayer: int)
    requires After(w0, w, m, thisplayer, TOTAL)
    ensures forall i :: 0 <= i < MAX_CLIENTS ==> w.players[i] == Shown(m, thisplayer, i)
    ensures w.lightstyles == m.lightstyles
    ensures w.sounds[..w.soundCount] == Heard(m.sounds)
    ensures w.staticCount == |Placed(m.statics)|
    ensures forall i :: 0 <= i < w.staticCount ==> w.statics[i] == Known(m, w0.statics[i], Placed(m.statics)[i])
    ensures w.baselines[0] == w0.baselines[0]
    ensures forall i :: 0 < i < MAX_ENTITIES && m.baselines[i].modelindex != 0 ==>
                          w.baselines[i] == Known(m, w0.baselines[i], m.baselines[i])
  {
    hide Known, Shown;
    assert m.sounds[..MAX_STATICSOUNDS] == m.sounds && m.statics[..MAX_STATICENTITIES] == m.statics;
  }

  /**
   * However its pages fell, a transfer that has ended gives the next relay every player, light style, sound and
   * static entity as they are here, and every baseline but that of entity 0.
   */
  lemma MapArrives(w0: World, m: Map, thisplayer: int, backlogs: seq<nat>)
    requires Begun(w0) && Carriable(m) && Paged(Items(m, thisplayer), backlogs).1 == -1
    ensures var w := Fed(w0, m, thisplayer, backlogs);
            && (forall i :: 0 <= i < MAX_CLIENTS ==> w.players[i] == Shown(m, thisplayer, i))
            && w.lightstyles == m.lightstyles
            && w.sounds[..w.soundCount] == Heard(m.sounds)
            && w.staticCount == |Placed(m.statics)|
            && (forall i :: 0 <= i < w.staticCount ==> w.statics[i] == Known(m, w0.statics[i], Placed(m.statics)[i]))
            && w.baselines[0] == w0.baselines[0]
            && (forall i :: 0 < i < MAX_ENTITIES && m.baselines[i].modelindex != 0 ==>
                                  w.baselines[i] == Known(m, w0.baselines[i], m.baselines[i]))
  {
    hide Known, Shown, After, Paged, Heard, Placed, Quantised, SoundFits, Fed;
    FedSoFar(w0, m, thisplayer, backlogs);
    AtTheEnd(w0, Fed(w0, m, thisplayer, backlogs), m, thisplayer);
  }
}
