/** A whole frame of entities as the difference from an earlier frame: a sorted merge. */
module PacketEntities {
  import opened Bytes
  import opened NetMsg
  import opened EntityDelta

  const U_REMOVE := 0x4000

  datatype Numbered = Numbered(num: nat, ent: Entity)

  /** Baselines, by entity number. */
  type Baselines = nat -> Entity

  function NewNum(to: seq<Numbered>): nat {
    if to == [] then 9999 else to[0].num
  }

  /** `SV_EmitPacketEntities` after its frame header, in front of `tail`. */
  function Emit(from: seq<Numbered>, to: seq<Numbered>, base: Baselines, ext: Ext, tail: seq<byte>): seq<byte>
    requires Listed(from) && Listed(to)
    decreases |from| + |to|
  {
    if from == [] && to == [] then Le16(0) + tail
    else if NewNum(to) == NewNum(from) then
      PutDelta(to[0].num, from[0].ent, to[0].ent, false, ext, Emit(from[1..], to[1..], base, ext, tail))
    else if NewNum(to) < NewNum(from) then
      PutDelta(to[0].num, base(to[0].num), to[0].ent, true, ext, Emit(from, to[1..], base, ext, tail))
    else
      Le16(from[0].num + U_REMOVE) + Emit(from[1..], to, base, ext, tail)
  }

  /** Strictly increasing numbers over 1 to 511. */
  predicate Listed(s: seq<Numbered>) {
    && (forall i :: 0 <= i < |s| ==> 1 <= s[i].num <= 511)
    && (forall i, j :: 0 <= i < j < |s| ==> s[i].num < s[j].num)
  }

  /** `ParsePacketEntities` from the point where a number and flags have been read. */
  function Merge(prev: seq<Numbered>, num: nat, f: Flags, base: Baselines, ext: Ext, c: Cursor): (seq<Numbered>, Cursor)
    decreases if num == 0 then 0 else |c.rest| + 1, |prev|
  {
    if num == 0 then (prev, c)
    else if prev != [] && num > prev[0].num then
      var r := Merge(prev[1..], num, f, base, ext, c);
      ([prev[0]] + r.0, r.1)
    else
      var same := prev != [] && num == prev[0].num;
      var rest := if same then prev[1..] else prev;
      if f.Remove() then
        var h := GetHeader(c);
        Merge(rest, h.0.0, h.0.1, base, ext, h.1)
      else
        var e := GetBody(f, if same then prev[0].ent else base(num), ext, c);
        GetBodyShrinks(f, if same then prev[0].ent else base(num), ext, c);
        var h := GetHeader(e.1);
        var r := Merge(rest, h.0.0, h.0.1, base, ext, h.1);
        ([Numbered(num, e.0)] + r.0, r.1)
  }

  function Parse(prev: seq<Numbered>, base: Baselines, ext: Ext, c: Cursor): (seq<Numbered>, Cursor) {
    var h := GetHeader(c);
    Merge(prev, h.0.0, h.0.1, base, ext, h.1)
  }

  lemma GetBodyShrinks(f: Flags, e: Entity, ext: Ext, c: Cursor)
    ensures |GetBody(f, e, ext, c).1.rest| <= |c.rest|
  {
    var b := GetBasics(f, e, c);
    var p := GetPlace(f, b.0, ext, b.1);
    var l := GetLooks(f, p.0, p.1);
    BasicsShrinks(f, e, c);
    PlaceShrinks(f, b.0, ext, b.1);
    LooksShrinks(f, p.0, p.1);
    RestShrinks(f, l.0, l.1);
  }

  lemma BasicsShrinks(f: Flags, e: Entity, c: Cursor)
    ensures |GetBasics(f, e, c).1.rest| <= |c.rest|
  {
  }

  lemma PlaceShrinks(f: Flags, e: Entity, ext: Ext, c: Cursor)
    ensures |GetPlace(f, e, ext, c).1.rest| <= |c.rest|
  {
  }

  lemma LooksShrinks(f: Flags, e: Entity, c: Cursor)
    ensures |GetLooks(f, e, c).1.rest| <= |c.rest|
  {
  }

  lemma RestShrinks(f: Flags, e: Entity, c: Cursor)
    ensures |GetRest(f, e, c).1.rest| <= |c.rest|
  {
  }

  // ---- The frame the reader ends with ----

  /** What the reader overlays entity `num` on: its old state if it had one, else its baseline. */
  function Ground(prev: seq<Numbered>, base: Baselines, num: nat): Entity {
    if prev == [] then base(num) else if prev[0].num == num then prev[0].ent else Ground(prev[1..], base, num)
  }

  function Rebuilt(prev: seq<Numbered>, base: Baselines, ext: Ext, to: seq<Numbered>): (r: seq<Numbered>)
    ensures |r| == |to|
    ensures forall k :: 0 <= k < |to| ==> r[k].num == to[k].num && Agree(ext, r[k].ent, to[k].ent)
  {
    if to == [] then []
    else
      [Numbered(to[0].num, Overlay(ext, Ground(prev, base, to[0].num), to[0].ent))] + Rebuilt(prev, base, ext, to[1..])
  }

  /** Equal numbers, and states that look the same through the extensions. */
  predicate AgreeAll(ext: Ext, a: seq<Numbered>, b: seq<Numbered>) {
    |a| == |b| && forall k :: 0 <= k < |a| ==> a[k].num == b[k].num && Agree(ext, a[k].ent, b[k].ent)
  }

  predicate AllQuantised(s: seq<Numbered>, ext: Ext) {
    forall k :: 0 <= k < |s| ==> Quantised(s[k].ent, ext)
  }

  predicate Above(s: seq<Numbered>, n: nat) {
    forall k :: 0 <= k < |s| ==> s[k].num > n
  }

  /** The first number on the wire is 0 or past `n`. */
  predicate StartsPast(s: seq<byte>, n: nat) {
    GetHeader(Start(s)).0.0 == 0 || GetHeader(Start(s)).0.0 > n
  }

  lemma DeltaStartsPast(num: nat, from: Entity, to: Entity, force: bool, ext: Ext, tail: seq<byte>, n: nat)
    requires n < num < 2048 && (Writes(num, from, to, force, ext) || StartsPast(tail, n))
    ensures StartsPast(PutDelta(num, from, to, force, ext, tail), n)
  {
    if Writes(num, from, to, force, ext) {
      WrittenNumber(num, from, to, force, ext, tail);
    }
  }

  lemma EndStartsPast(tail: seq<byte>, n: nat)
    ensures StartsPast(Le16(0) + tail, n)
  {
    ShortRoundTrip(0, tail);
  }

  lemma RemoveStartsPast(num: nat, tail: seq<byte>, n: nat)
    requires n < num <= 511
    ensures StartsPast(Le16(num + U_REMOVE) + tail, n)
  {
    RemoveHeader(num, tail);
  }

  lemma {:induction false} FirstNumber(from: seq<Numbered>, to: seq<Numbered>, base: Baselines, ext: Ext,
                                       tail: seq<byte>, n: nat)
    requires Listed(from) && Listed(to) && Above(from, n) && Above(to, n)
    ensures StartsPast(Emit(from, to, base, ext, tail), n)
    decreases |from| + |to|
  {
    hide StartsPast, PutDelta;
    if from == [] && to == [] {
      EndStartsPast(tail, n);
    } else if NewNum(to) == NewNum(from) {
      FirstNumber(from[1..], to[1..], base, ext, tail, n);
      DeltaStartsPast(to[0].num, from[0].ent, to[0].ent, false, ext, Emit(from[1..], to[1..], base, ext, tail), n);
    } else if NewNum(to) < NewNum(from) {
      DeltaStartsPast(to[0].num, base(to[0].num), to[0].ent, true, ext, Emit(from, to[1..], base, ext, tail), n);
    } else {
      RemoveStartsPast(from[0].num, Emit(from[1..], to, base, ext, tail), n);
    }
  }

  const REMOVE_FLAGS := Flags(NONE, NONE.(b6 := true), NONE, NONE)

  lemma RemoveHeader(n: nat, tail: seq<byte>)
    requires 1 <= n <= 511
    ensures GetHeader(Start(Le16(n + U_REMOVE) + tail)) == ((n, REMOVE_FLAGS), Start(tail))
  {
    hide GetHeader, PutHeader, Le16;
    RemoveBytes(n, tail);
    HeaderRoundTrip(n, REMOVE_FLAGS, tail);
  }

  lemma RemoveBytes(n: nat, tail: seq<byte>)
    requires 1 <= n <= 511
    ensures PutHeader(n, REMOVE_FLAGS, tail) == Le16(n + U_REMOVE) + tail
  {
    hide Pack, Le16;
    PackRemove();
  }

  lemma ZeroInFront(bs: seq<bool>)
    ensures Value([false] + bs) == 2 * Value(bs)
  {
    assert ([false] + bs)[1..] == bs;
  }

  lemma PackRemove()
    ensures Pack(NONE.(b6 := true)) == 64
  {
    var e: seq<bool> := [];
    var t := [true] + ([false] + e);
    ZeroInFront(e);
    assert t[1..] == [false] + e && Value(t) == 1;
    ZeroInFront(t);
    ZeroInFront([false] + t);
    ZeroInFront([false] + ([false] + t));
    ZeroInFront([false] + ([false] + ([false] + t)));
    ZeroInFront([false] + ([false] + ([false] + ([false] + t))));
    ZeroInFront([false] + ([false] + ([false] + ([false] + ([false] + t)))));
    assert [false, false, false, false, false, false, true, false] ==
      [false] + ([false] + ([false] + ([false] + ([false] + ([false] + t)))));
  }

  // ---- The round trip ----

  /** A number past the front of `prev`, or none at all, leaves the front in place. */
  lemma Skips(prev: seq<Numbered>, num: nat, f: Flags, base: Baselines, ext: Ext, c: Cursor)
    requires prev != [] && (num == 0 || num > prev[0].num)
    ensures Merge(prev, num, f, base, ext, c) ==
      ([prev[0]] + Merge(prev[1..], num, f, base, ext, c).0, Merge(prev[1..], num, f, base, ext, c).1)
  {
    if num == 0 {
      assert prev == [prev[0]] + prev[1..];
    }
  }

  lemma {:induction false} GroundAbove(prev: seq<Numbered>, base: Baselines, num: nat)
    requires Above(prev, num)
    ensures Ground(prev, base, num) == base(num)
  {
    if prev != [] {
      GroundAbove(prev[1..], base, num);
    }
  }

  /** Dropping the front of `prev` changes nothing for numbers past it. */
  lemma {:induction false} RebuiltTail(prev: seq<Numbered>, base: Baselines, ext: Ext, to: seq<Numbered>)
    requires prev != [] && Above(to, prev[0].num)
    ensures Rebuilt(prev, base, ext, to) == Rebuilt(prev[1..], base, ext, to)
  {
    if to != [] {
      RebuiltTail(prev, base, ext, to[1..]);
    }
  }

  ghost predicate BaseAgree(ext: Ext, a: Baselines, b: Baselines) {
    forall n :: Agree(ext, a(n), b(n))
  }

  /** A delta that was written, for a number the reader holds. */
  lemma ParseChanged(from: Entity, to: Entity, prev: seq<Numbered>, base: Baselines, ext: Ext, t: seq<byte>)
    requires prev != [] && 1 <= prev[0].num <= 511 && Agree(ext, prev[0].ent, from) && Quantised(to, ext)
    requires Writes(prev[0].num, from, to, false, ext)
    ensures Parse(prev, base, ext, Start(PutDelta(prev[0].num, from, to, false, ext, t))) ==
      ([Numbered(prev[0].num, Overlay(ext, prev[0].ent, to))] + Parse(prev[1..], base, ext, Start(t)).0,
       Parse(prev[1..], base, ext, Start(t)).1)
  {
    DeltaRoundTrip(prev[0].num, from, to, prev[0].ent, false, ext, t);
  }

  /** A forced delta, for a number the reader does not hold. */
  lemma ParseAdded(n: nat, from: Entity, to: Entity, prev: seq<Numbered>, base: Baselines, ext: Ext, t: seq<byte>)
    requires 1 <= n <= 511 && (prev != [] ==> n < prev[0].num) && Agree(ext, base(n), from) && Quantised(to, ext)
    ensures Parse(prev, base, ext, Start(PutDelta(n, from, to, true, ext, t))) ==
      ([Numbered(n, Overlay(ext, base(n), to))] + Parse(prev, base, ext, Start(t)).0,
       Parse(prev, base, ext, Start(t)).1)
  {
    DeltaRoundTrip(n, from, to, base(n), true, ext, t);
  }

  /** Nothing written: the reader carries its entity over. */
  lemma ParseUnchanged(prev: seq<Numbered>, base: Baselines, ext: Ext, t: seq<byte>)
    requires prev != [] && StartsPast(t, prev[0].num)
    ensures Parse(prev, base, ext, Start(t)) ==
      ([prev[0]] + Parse(prev[1..], base, ext, Start(t)).0, Parse(prev[1..], base, ext, Start(t)).1)
  {
    var h := GetHeader(Start(t));
    Skips(prev, h.0.0, h.0.1, base, ext, h.1);
  }

  lemma NotWritten(n: nat, from: Entity, to: Entity, e: Entity, ext: Ext, t: seq<byte>)
    requires 0 < n < 2048 && Quantised(to, ext) && Agree(ext, e, from) && !Writes(n, from, to, false, ext)
    ensures PutDelta(n, from, to, false, ext, t) == t && Overlay(ext, e, to) == e
  {
    DeltaRoundTrip(n, from, to, e, false, ext, t);
  }

  /** The entity is in both frames: a delta from the old state, or nothing. */
  lemma ChangedCase(from: seq<Numbered>, to: seq<Numbered>, wbase: Baselines, prev: seq<Numbered>, base: Baselines,
                    ext: Ext, tail: seq<byte>)
    requires from != [] && to != [] && from[0].num == to[0].num && Listed(from) && Listed(to)
    requires AgreeAll(ext, prev, from) && Quantised(to[0].ent, ext)
    ensures var t := Emit(from[1..], to[1..], wbase, ext, tail);
      var r := Parse(prev[1..], base, ext, Start(t));
      Parse(prev, base, ext, Start(Emit(from, to, wbase, ext, tail))) ==
        ([Numbered(to[0].num, Overlay(ext, prev[0].ent, to[0].ent))] + r.0, r.1)
  {
    var n := to[0].num;
    var t := Emit(from[1..], to[1..], wbase, ext, tail);
    if Writes(n, from[0].ent, to[0].ent, false, ext) {
      ParseChanged(from[0].ent, to[0].ent, prev, base, ext, t);
    } else {
      NotWritten(n, from[0].ent, to[0].ent, prev[0].ent, ext, t);
      FirstNumber(from[1..], to[1..], wbase, ext, tail, n);
      ParseUnchanged(prev, base, ext, t);
      assert prev[0] == Numbered(n, prev[0].ent);
    }
  }

  /** The entity is new: a delta from its baseline. */
  lemma AddedCase(from: seq<Numbered>, to: seq<Numbered>, wbase: Baselines, prev: seq<Numbered>, base: Baselines,
                  ext: Ext, tail: seq<byte>)
    requires to != [] && NewNum(to) < NewNum(from) && Listed(from) && Listed(to)
    requires AgreeAll(ext, prev, from) && Quantised(to[0].ent, ext) && Agree(ext, base(to[0].num), wbase(to[0].num))
    ensures var t := Emit(from, to[1..], wbase, ext, tail);
      var r := Parse(prev, base, ext, Start(t));
      Parse(prev, base, ext, Start(Emit(from, to, wbase, ext, tail))) ==
        ([Numbered(to[0].num, Overlay(ext, base(to[0].num), to[0].ent))] + r.0, r.1)
  {
    ParseAdded(to[0].num, wbase(to[0].num), to[0].ent, prev, base, ext, Emit(from, to[1..], wbase, ext, tail));
  }

  /** The entity is gone: its number with the remove flag. */
  lemma RemovedCase(from: seq<Numbered>, to: seq<Numbered>, wbase: Baselines, prev: seq<Numbered>, base: Baselines,
                    ext: Ext, tail: seq<byte>)
    requires from != [] && NewNum(to) > NewNum(from) && Listed(from) && Listed(to)
    requires AgreeAll(ext, prev, from)
    ensures Parse(prev, base, ext, Start(Emit(from, to, wbase, ext, tail)))
         == Parse(prev[1..], base, ext, Start(Emit(from[1..], to, wbase, ext, tail)))
  {
    hide Emit, Parse, Le16;
    EmitRemoved(from, to, wbase, ext, tail);
    ParseRemoved(prev, base, ext, Emit(from[1..], to, wbase, ext, tail));
  }

  lemma EmitRemoved(from: seq<Numbered>, to: seq<Numbered>, base: Baselines, ext: Ext, tail: seq<byte>)
    requires from != [] && NewNum(to) > NewNum(from) && Listed(from) && Listed(to)
    ensures Listed(from[1..])
    ensures Emit(from, to, base, ext, tail) == Le16(from[0].num + U_REMOVE) + Emit(from[1..], to, base, ext, tail)
  {
    hide Le16, PutDelta;
  }

  /** A removal, for a number the reader holds. */
  lemma ParseRemoved(prev: seq<Numbered>, base: Baselines, ext: Ext, t: seq<byte>)
    requires prev != [] && 1 <= prev[0].num <= 511
    ensures Parse(prev, base, ext, Start(Le16(prev[0].num + U_REMOVE) + t)) == Parse(prev[1..], base, ext, Start(t))
  {
    hide Le16, GetHeader, GetBody;
    RemoveHeader(prev[0].num, t);
  }

  lemma RebuiltChanged(prev: seq<Numbered>, base: Baselines, ext: Ext, to: seq<Numbered>)
    requires prev != [] && to != [] && prev[0].num == to[0].num && Listed(to)
    ensures Rebuilt(prev, base, ext, to) ==
      [Numbered(to[0].num, Overlay(ext, prev[0].ent, to[0].ent))] + Rebuilt(prev[1..], base, ext, to[1..])
  {
    RebuiltTail(prev, base, ext, to[1..]);
  }

  lemma RebuiltAdded(prev: seq<Numbered>, base: Baselines, ext: Ext, to: seq<Numbered>)
    requires to != [] && Above(prev, to[0].num)
    ensures Rebuilt(prev, base, ext, to) ==
      [Numbered(to[0].num, Overlay(ext, base(to[0].num), to[0].ent))] + Rebuilt(prev, base, ext, to[1..])
  {
    GroundAbove(prev, base, to[0].num);
  }

  predicate Parses(s: seq<byte>, prev: seq<Numbered>, base: Baselines, ext: Ext, result: seq<Numbered>,
                   tail: seq<byte>) {
    Parse(prev, base, ext, Start(s)) == (result, Start(tail))
  }

  lemma ChangedStep(from: seq<Numbered>, to: seq<Numbered>, wbase: Baselines, prev: seq<Numbered>, base: Baselines,
                    ext: Ext, tail: seq<byte>)
    requires from != [] && to != [] && from[0].num == to[0].num && Listed(from) && Listed(to)
    requires AgreeAll(ext, prev, from) && Quantised(to[0].ent, ext)
    requires Parses(Emit(from[1..], to[1..], wbase, ext, tail), prev[1..], base, ext,
                    Rebuilt(prev[1..], base, ext, to[1..]), tail)
    ensures Parses(Emit(from, to, wbase, ext, tail), prev, base, ext, Rebuilt(prev, base, ext, to), tail)
  {
    ChangedCase(from, to, wbase, prev, base, ext, tail);
    RebuiltChanged(prev, base, ext, to);
  }

  lemma AddedStep(from: seq<Numbered>, to: seq<Numbered>, wbase: Baselines, prev: seq<Numbered>, base: Baselines,
                  ext: Ext, tail: seq<byte>)
    requires to != [] && NewNum(to) < NewNum(from) && Listed(from) && Listed(to)
    requires AgreeAll(ext, prev, from) && Quantised(to[0].ent, ext) && Agree(ext, base(to[0].num), wbase(to[0].num))
    requires Parses(Emit(from, to[1..], wbase, ext, tail), prev, base, ext, Rebuilt(prev, base, ext, to[1..]), tail)
    ensures Parses(Emit(from, to, wbase, ext, tail), prev, base, ext, Rebuilt(prev, base, ext, to), tail)
  {
    AboveNew(prev, from, to, ext);
    hide Emit, Parse, Above;
    AddedCase(from, to, wbase, prev, base, ext, tail);
    RebuiltAdded(prev, base, ext, to);
  }

  lemma AboveNew(prev: seq<Numbered>, from: seq<Numbered>, to: seq<Numbered>, ext: Ext)
    requires to != [] && NewNum(to) < NewNum(from) && Listed(from) && AgreeAll(ext, prev, from)
    ensures Above(prev, to[0].num)
  {
    hide Agree;
  }

  lemma RemovedStep(from: seq<Numbered>, to: seq<Numbered>, wbase: Baselines, prev: seq<Numbered>, base: Baselines,
                    ext: Ext, tail: seq<byte>)
    requires from != [] && NewNum(to) > NewNum(from) && Listed(from) && Listed(to) && AgreeAll(ext, prev, from)
    requires Parses(Emit(from[1..], to, wbase, ext, tail), prev[1..], base, ext, Rebuilt(prev[1..], base, ext, to),
                    tail)
    ensures Parses(Emit(from, to, wbase, ext, tail), prev, base, ext, Rebuilt(prev, base, ext, to), tail)
  {
    RemovedCase(from, to, wbase, prev, base, ext, tail);
    RebuiltTail(prev, base, ext, to);
  }

  /** Parsing what was emitted rebuilds `to`: same numbers in the same order, every visible field from
      `to`, the invisible ones as the reader had them; and it stops exactly at the end. */
  lemma {:induction false} FrameRoundTrip(from: seq<Numbered>, to: seq<Numbered>, wbase: Baselines,
                                          prev: seq<Numbered>, base: Baselines, ext: Ext, tail: seq<byte>)
    requires Listed(from) && Listed(to) && AllQuantised(to, ext)
    requires AgreeAll(ext, prev, from) && BaseAgree(ext, base, wbase)
    ensures Parses(Emit(from, to, wbase, ext, tail), prev, base, ext, Rebuilt(prev, base, ext, to), tail)
    decreases |from| + |to|
  {
    if from == [] && to == [] {
      ShortRoundTrip(0, tail);
    } else if NewNum(to) == NewNum(from) {
      FrameRoundTrip(from[1..], to[1..], wbase, prev[1..], base, ext, tail);
      ChangedStep(from, to, wbase, prev, base, ext, tail);
    } else if NewNum(to) < NewNum(from) {
      FrameRoundTrip(from, to[1..], wbase, prev, base, ext, tail);
      AddedStep(from, to, wbase, prev, base, ext, tail);
    } else {
      FrameRoundTrip(from[1..], to, wbase, prev[1..], base, ext, tail);
      RemovedStep(from, to, wbase, prev, base, ext, tail);
    }
  }

  /** With every extension on, it is `to` itself. */
  lemma {:induction false} ExactWithAllExtensions(prev: seq<Numbered>, base: Baselines, ext: Ext, to: seq<Numbered>)
    requires ext.dpflags && ext.trans && ext.scale && ext.fatness && ext.hexen2 && ext.colourmod && ext.setattachment
    ensures Rebuilt(prev, base, ext, to) == to
  {
    if to != [] {
      ExactWithAllExtensions(prev, base, ext, to[1..]);
      assert to == [to[0]] + to[1..];
    }
  }
}
