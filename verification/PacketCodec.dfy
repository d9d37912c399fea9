/** The loops of `SV_EmitPacketEntities` and `ParsePacketEntities`, and the frames they fill. */
module PacketCodec {
  import opened Bytes
  import opened NetMsg
  import opened EntityDelta
  import opened PacketEntities
  import EntityCodec

  ghost function Zip(nums: array<nat>, ents: array<Entity>, n: nat): (r: seq<Numbered>)
    requires n <= nums.Length == ents.Length
    ensures |r| == n && forall i :: 0 <= i < n ==> r[i] == Numbered(nums[i], ents[i])
    reads nums, ents
  {
    if n == 0 then [] else Zip(nums, ents, n - 1) + [Numbered(nums[n - 1], ents[n - 1])]
  }

  /** `frame_t`: entity states and numbers in two arrays that grow together. */
  class Frame {
    var numents: nat
    var maxents: nat
    var ents: array<Entity>
    var entnums: array<nat>

    ghost predicate Valid()
      reads this
    {
      numents <= maxents && Room()
    }

    ghost predicate Room()
      reads this`maxents, this`ents, this`entnums
    {
      ents.Length == entnums.Length == maxents
    }

    ghost function First(n: nat): seq<Numbered>
      requires Room() && n <= maxents
      reads this`maxents, this`ents, this`entnums, ents, entnums
    {
      Zip(entnums, ents, n)
    }

    ghost function List(): seq<Numbered>
      requires Valid()
      reads this, ents, entnums
    {
      First(numents)
    }

    /** `ExpandFrame`: afterwards there is a slot at `newmax`. */
    method Expand(newmax: nat)
      requires Room()
      modifies this`maxents, this`ents, this`entnums
      ensures Room() && newmax < maxents && old(maxents) <= maxents
      ensures forall n :: 0 <= n <= old(maxents) ==> First(n) == old(First(n))
      ensures (ents == old(ents) && entnums == old(entnums)) || (fresh(ents) && fresh(entnums))
    {
      if newmax < maxents {
        return;
      }
      var size := newmax + 16;
      var newents := new Entity[size](_ => NULL_ENTITY);
      var newnums := new nat[size](_ => 0);
      forall i | 0 <= i < maxents {
        newents[i] := ents[i];
      }
      forall i | 0 <= i < maxents {
        newnums[i] := entnums[i];
      }
      ents, entnums, maxents := newents, newnums, size;
    }

    /** Expand, then fill the slot. */
    method Store(index: nat, num: nat, ent: Entity)
      requires Room() && index <= maxents
      modifies this`maxents, this`ents, this`entnums, ents, entnums
      ensures Room() && index < maxents
      ensures First(index + 1) == old(First(index)) + [Numbered(num, ent)]
      ensures (ents == old(ents) && entnums == old(entnums)) || (fresh(ents) && fresh(entnums))
    {
      Expand(index);
      ghost var before := First(index);
      ents[index] := ent;
      entnums[index] := num;
      assert First(index) == before;
    }
  }

  /** `SV_EmitPacketEntities` after its frame header. */
  method EmitPacketEntities(from: seq<Numbered>, to: seq<Numbered>, base: Baselines, msg: NetMsg, ext: Ext)
    requires Listed(from) && Listed(to)
    requires msg.Valid() && |msg.Contents() + Emit(from, to, base, ext, [])| <= msg.maxsize
    modifies msg`cursize, msg.data
    ensures msg.Valid() && msg.Contents() == old(msg.Contents()) + Emit(from, to, base, ext, [])
  {
    hide Emitted, Emit, Roomy, Listed;
    var newindex, oldindex := 0, 0;
    assert from[0..] == from && to[0..] == to;
    EmittedNothing(msg.Contents(), from, to, base, ext);
    while newindex < |to| || oldindex < |from|
      invariant 0 <= oldindex <= |from| && 0 <= newindex <= |to|
      invariant msg.Valid()
      invariant Emitted(old(msg.Contents()), from, to, msg.Contents(), from[oldindex..], to[newindex..], base, ext)
      decreases |to| - newindex + |from| - oldindex
    {
      ghost var was := msg.Contents();
      ghost var f, t := from[oldindex..], to[newindex..];
      StillRoomy(old(msg.Contents()), from, to, msg, f, t, base, ext);
      FrontBelow(f);
      FrontBelow(t);
      var newnum := if newindex >= |to| then 9999 else to[newindex].num;
      var oldnum := if oldindex >= |from| then 9999 else from[oldindex].num;
      if newnum == oldnum {
        EmitChanged(from[oldindex..], to[newindex..], base, msg, ext);
        oldindex, newindex := oldindex + 1, newindex + 1;
      } else if newnum < oldnum {
        EmitAdded(from[oldindex..], to[newindex..], base, msg, ext);
        newindex := newindex + 1;
      } else {
        EmitRemoved(from[oldindex..], to[newindex..], base, msg, ext);
        oldindex := oldindex + 1;
      }
      EmittedMore(old(msg.Contents()), from, to, was, f, t, msg.Contents(), from[oldindex..], to[newindex..], base,
                  ext);
    }
    StillRoomy(old(msg.Contents()), from, to, msg, from[oldindex..], to[newindex..], base, ext);
    EmittedAll(old(msg.Contents()), from, to, msg.Contents(), from[oldindex..], to[newindex..], base, ext);
    WriteEnd(msg, from[oldindex..], to[newindex..], base, ext);
  }

  lemma EmittedNothing(before: seq<byte>, from: seq<Numbered>, to: seq<Numbered>, base: Baselines, ext: Ext)
    requires Listed(from) && Listed(to)
    ensures Emitted(before, from, to, before, from, to, base, ext)
  {
  }

  lemma EmittedMore(before: seq<byte>, from: seq<Numbered>, to: seq<Numbered>, mid: seq<byte>, f: seq<Numbered>,
                    t: seq<Numbered>, after: seq<byte>, f': seq<Numbered>, t': seq<Numbered>, base: Baselines, ext: Ext)
    requires Emitted(before, from, to, mid, f, t, base, ext) && Emitted(mid, f, t, after, f', t', base, ext)
    ensures Emitted(before, from, to, after, f', t', base, ext)
  {
    hide Emit, Listed;
  }

  lemma EmittedAll(before: seq<byte>, from: seq<Numbered>, to: seq<Numbered>, after: seq<byte>, f: seq<Numbered>,
                   t: seq<Numbered>, base: Baselines, ext: Ext)
    requires Emitted(before, from, to, after, f, t, base, ext)
    ensures Listed(f) && Listed(t) && Listed(from) && Listed(to)
    ensures after + Emit(f, t, base, ext, []) == before + Emit(from, to, base, ext, [])
  {
    hide Emit, Listed;
  }

  lemma FrontBelow(s: seq<Numbered>)
    requires Listed(s)
    ensures s != [] ==> s[0].num <= 511
  {
  }

  lemma StillRoomy(before: seq<byte>, from: seq<Numbered>, to: seq<Numbered>, msg: NetMsg, f: seq<Numbered>,
                   t: seq<Numbered>, base: Baselines, ext: Ext)
    requires msg.Valid() && Emitted(before, from, to, msg.Contents(), f, t, base, ext)
    requires Listed(from) && Listed(to) && |before + Emit(from, to, base, ext, [])| <= msg.maxsize
    ensures Roomy(msg, f, t, base, ext) && Listed(f) && Listed(t)
  {
    hide Emit, Listed;
  }

  /** `Prox_SendInitialEnts` after its message type: every entity, forced, against its baseline. */
  method SendInitialEnts(to: seq<Numbered>, base: Baselines, msg: NetMsg, ext: Ext)
    requires Listed(to) && msg.Valid() && |msg.Contents() + Emit([], to, base, ext, [])| <= msg.maxsize
    modifies msg`cursize, msg.data
    ensures msg.Valid() && msg.Contents() == old(msg.Contents()) + Emit([], to, base, ext, [])
  {
    hide Emitted, Emit, Roomy, Listed;
    ghost var from: seq<Numbered> := [];
    FrontBelow(from);
    EmittedNothing(msg.Contents(), from, to, base, ext);
    assert to[0..] == to;
    for i := 0 to |to|
      invariant msg.Valid() && Emitted(old(msg.Contents()), from, to, msg.Contents(), from, to[i..], base, ext)
    {
      ghost var was := msg.Contents();
      StillRoomy(old(msg.Contents()), from, to, msg, from, to[i..], base, ext);
      FrontBelow(to[i..]);
      EmitAdded([], to[i..], base, msg, ext);
      EmittedMore(old(msg.Contents()), from, to, was, from, to[i..], msg.Contents(), from, to[i + 1..], base, ext);
    }
    StillRoomy(old(msg.Contents()), from, to, msg, from, to[|to|..], base, ext);
    EmittedAll(old(msg.Contents()), from, to, msg.Contents(), from, to[|to|..], base, ext);
    WriteEnd(msg, from, to[|to|..], base, ext);
  }

  method WriteEnd(msg: NetMsg, ghost f: seq<Numbered>, ghost t: seq<Numbered>, base: Baselines, ext: Ext)
    requires f == [] && t == [] && Roomy(msg, f, t, base, ext)
    modifies msg`cursize, msg.data
    ensures msg.Valid() && msg.Contents() == old(msg.Contents()) + Emit(f, t, base, ext, [])
  {
    assert Emit(f, t, base, ext, []) == Le16(0);
    msg.WriteShort(0);
  }

  ghost predicate Emitted(before: seq<byte>, f: seq<Numbered>, t: seq<Numbered>,
                          after: seq<byte>, f': seq<Numbered>, t': seq<Numbered>, base: Baselines, ext: Ext)
  {
    && Listed(f) && Listed(t) && Listed(f') && Listed(t')
    && after + Emit(f', t', base, ext, []) == before + Emit(f, t, base, ext, [])
  }

  ghost predicate Roomy(msg: NetMsg, f: seq<Numbered>, t: seq<Numbered>, base: Baselines, ext: Ext)
    reads msg, msg.data
  {
    Listed(f) && Listed(t) && msg.Valid() && |msg.Contents() + Emit(f, t, base, ext, [])| <= msg.maxsize
  }

  lemma ChangedEmits(f: seq<Numbered>, t: seq<Numbered>, base: Baselines, ext: Ext)
    requires Listed(f) && Listed(t) && f != [] && t != [] && f[0].num == t[0].num
    ensures Listed(f[1..]) && Listed(t[1..])
    ensures Emit(f, t, base, ext, [])
      == PutDelta(t[0].num, f[0].ent, t[0].ent, false, ext, Emit(f[1..], t[1..], base, ext, []))
  {
  }

  lemma AddedEmits(f: seq<Numbered>, t: seq<Numbered>, base: Baselines, ext: Ext)
    requires Listed(f) && Listed(t) && t != [] && t[0].num < NewNum(f)
    ensures Listed(t[1..])
    ensures Emit(f, t, base, ext, [])
      == PutDelta(t[0].num, base(t[0].num), t[0].ent, true, ext, Emit(f, t[1..], base, ext, []))
  {
    hide PutDelta;
  }

  method EmitChanged(f: seq<Numbered>, t: seq<Numbered>, base: Baselines, msg: NetMsg, ext: Ext)
    requires Roomy(msg, f, t, base, ext) && f != [] && t != [] && f[0].num == t[0].num
    modifies msg`cursize, msg.data
    ensures msg.Valid() && Emitted(old(msg.Contents()), f, t, msg.Contents(), f[1..], t[1..], base, ext)
  {
    ChangedEmits(f, t, base, ext);
    hide Emit, PutDelta;
    EntityCodec.WriteDelta(t[0].num, f[0].ent, t[0].ent, msg, false, ext, Emit(f[1..], t[1..], base, ext, []));
  }

  method EmitAdded(f: seq<Numbered>, t: seq<Numbered>, base: Baselines, msg: NetMsg, ext: Ext)
    requires Roomy(msg, f, t, base, ext) && t != [] && t[0].num < NewNum(f)
    modifies msg`cursize, msg.data
    ensures msg.Valid() && Emitted(old(msg.Contents()), f, t, msg.Contents(), f, t[1..], base, ext)
  {
    AddedEmits(f, t, base, ext);
    hide Emit, PutDelta;
    EntityCodec.WriteDelta(t[0].num, base(t[0].num), t[0].ent, msg, true, ext, Emit(f, t[1..], base, ext, []));
  }

  method EmitRemoved(f: seq<Numbered>, t: seq<Numbered>, base: Baselines, msg: NetMsg, ext: Ext)
    requires Roomy(msg, f, t, base, ext) && f != [] && f[0].num < NewNum(t)
    modifies msg`cursize, msg.data
    ensures msg.Valid() && Emitted(old(msg.Contents()), f, t, msg.Contents(), f[1..], t, base, ext)
  {
    PacketEntities.EmitRemoved(f, t, base, ext, []);
    hide Emit, Le16;
    EntityCodec.EmitShortIf(msg, true, f[0].num + U_REMOVE, Emit(f[1..], t, base, ext, []));
  }

  /** The frame a delta refers to, as the reader still has it. */
  ghost predicate Source(prev: Frame?, frame: Frame, was: seq<Numbered>)
    reads prev, frame, if prev == null then {} else {prev.ents, prev.entnums}
  {
    if prev == null then was == []
    else prev.Valid() && prev != frame && prev.ents != frame.ents && prev.entnums != frame.entnums && prev.List() == was
  }

  /** What is stored so far, and what is still to come, make up the whole. */
  ghost predicate Along(done: seq<Numbered>, r: (seq<Numbered>, Cursor), goal: (seq<Numbered>, Cursor)) {
    done + r.0 == goal.0 && r.1 == goal.1
  }

  method CopyOne(prev: Frame, frame: Frame, oldindex: nat, newindex: nat, ghost was: seq<Numbered>)
    requires Source(prev, frame, was) && oldindex < |was| && frame.Room() && newindex <= frame.maxents
    modifies frame`maxents, frame`ents, frame`entnums, frame.ents, frame.entnums
    ensures Source(prev, frame, was) && frame.Room() && newindex < frame.maxents
    ensures frame.First(newindex + 1) == old(frame.First(newindex)) + [was[oldindex]]
    ensures (frame.ents == old(frame.ents) && frame.entnums == old(frame.entnums))
      || (fresh(frame.ents) && fresh(frame.entnums))
  {
    frame.Store(newindex, prev.entnums[oldindex], prev.ents[oldindex]);
  }

  /** Entities below `num` are unchanged: they are copied across. */
  method Propagate(prev: Frame?, frame: Frame, from: nat, at: nat, num: nat, f: Flags, base: Baselines, ext: Ext,
                   ghost was: seq<Numbered>, ghost c: Cursor, ghost goal: (seq<Numbered>, Cursor))
    returns (oldindex: nat, newindex: nat)
    requires Source(prev, frame, was) && from <= |was| && frame.Room() && at <= frame.maxents && num != 0
    requires Along(frame.First(at), Merge(was[from..], num, f, base, ext, c), goal)
    modifies frame`maxents, frame`ents, frame`entnums, frame.ents, frame.entnums
    ensures Source(prev, frame, was) && oldindex <= |was| && frame.Room() && newindex <= frame.maxents
    ensures Along(frame.First(newindex), Merge(was[oldindex..], num, f, base, ext, c), goal)
    ensures oldindex < |was| ==> num <= was[oldindex].num
    ensures (frame.ents == old(frame.ents) && frame.entnums == old(frame.entnums))
      || (fresh(frame.ents) && fresh(frame.entnums))
  {
    hide Merge, GetBody, GetHeader, Zip;
    oldindex, newindex := from, at;
    var oldcount := if prev == null then 0 else prev.numents;
    while oldindex < oldcount && num > prev.entnums[oldindex]
      invariant oldcount == |was| && Source(prev, frame, was) && oldindex <= |was| && frame.Room()
      invariant newindex <= frame.maxents
      invariant Along(frame.First(newindex), Merge(was[oldindex..], num, f, base, ext, c), goal)
      invariant (frame.ents == old(frame.ents) && frame.entnums == old(frame.entnums))
        || (fresh(frame.ents) && fresh(frame.entnums))
    {
      ghost var done := frame.First(newindex);
      Skips(was[oldindex..], num, f, base, ext, c);
      assert was[oldindex..][1..] == was[oldindex + 1..];
      assert done + ([was[oldindex]] + Merge(was[oldindex + 1..], num, f, base, ext, c).0)
          == (done + [was[oldindex]]) + Merge(was[oldindex + 1..], num, f, base, ext, c).0;
      CopyOne(prev, frame, oldindex, newindex, was);
      oldindex, newindex := oldindex + 1, newindex + 1;
    }
  }

  /** The entity whose number was just read, against what is left of the old frame. */
  method TakeEntity(msg: NetMsg, prev: Frame?, frame: Frame, from: nat, at: nat, num: nat, f: Flags, base: Baselines,
                    ext: Ext, ghost was: seq<Numbered>, ghost goal: (seq<Numbered>, Cursor))
    returns (oldindex: nat, newindex: nat)
    requires msg.Valid() && Source(prev, frame, was) && from <= |was| && frame.Room() && at <= frame.maxents && num != 0
    requires from < |was| ==> num <= was[from].num
    requires Along(frame.First(at), Merge(was[from..], num, f, base, ext, msg.Rest()), goal)
    modifies msg`readpos, frame`maxents, frame`ents, frame`entnums, frame.ents, frame.entnums
    ensures msg.Valid() && Source(prev, frame, was) && oldindex <= |was| && frame.Room() && newindex <= frame.maxents
    ensures Along(frame.First(newindex), Parse(was[oldindex..], base, ext, msg.Rest()), goal)
    ensures |msg.Rest().rest| <= |old(msg.Rest()).rest|
    ensures (frame.ents == old(frame.ents) && frame.entnums == old(frame.entnums))
      || (fresh(frame.ents) && fresh(frame.entnums))
  {
    hide Merge, Parse, GetBody, GetHeader, Zip;
    var same := prev != null && from < prev.numents && num == prev.entnums[from];
    oldindex, newindex := if same then from + 1 else from, at;
    if f.Remove() {
      RemovedStep(was, from, num, f, base, ext, msg.Rest(), same);
    } else {
      StoreEntity(msg, prev, frame, from, at, num, f, base, ext, same, was, goal);
      newindex := at + 1;
    }
  }

  method StoreEntity(msg: NetMsg, prev: Frame?, frame: Frame, from: nat, at: nat, num: nat, f: Flags, base: Baselines,
                     ext: Ext, same: bool, ghost was: seq<Numbered>, ghost goal: (seq<Numbered>, Cursor))
    requires msg.Valid() && Source(prev, frame, was) && from <= |was| && frame.Room() && at <= frame.maxents && num != 0
    requires same <==> from < |was| && num == was[from].num
    requires from < |was| ==> num <= was[from].num
    requires !f.Remove() && Along(frame.First(at), Merge(was[from..], num, f, base, ext, msg.Rest()), goal)
    modifies msg`readpos, frame`maxents, frame`ents, frame`entnums, frame.ents, frame.entnums
    ensures msg.Valid() && Source(prev, frame, was) && frame.Room() && at + 1 <= frame.maxents
    ensures Along(frame.First(at + 1), Parse(was[if same then from + 1 else from..], base, ext, msg.Rest()), goal)
    ensures |msg.Rest().rest| <= |old(msg.Rest()).rest|
    ensures (frame.ents == old(frame.ents) && frame.entnums == old(frame.entnums))
      || (fresh(frame.ents) && fresh(frame.entnums))
  {
    hide Merge, Parse, GetBody, GetHeader, Zip;
    ghost var c, done := msg.Rest(), frame.First(at);
    var ground := if same then prev.ents[from] else base(num);
    GetBodyShrinks(f, ground, ext, c);
    StoredStep(was, from, num, f, base, ext, c, same);
    var e := EntityCodec.ParseEntityDelta(msg, ground, f, ext);
    ghost var r := Parse(was[if same then from + 1 else from..], base, ext, msg.Rest());
    assert done + ([Numbered(num, e)] + r.0) == (done + [Numbered(num, e)]) + r.0;
    frame.Store(at, num, e);
  }

  lemma RemovedStep(was: seq<Numbered>, from: nat, num: nat, f: Flags, base: Baselines, ext: Ext, c: Cursor, same: bool)
    requires from <= |was| && num != 0 && f.Remove() && (from < |was| ==> num <= was[from].num)
    requires same <==> from < |was| && num == was[from].num
    ensures Merge(was[from..], num, f, base, ext, c) == Parse(was[if same then from + 1 else from..], base, ext, c)
  {
    hide GetBody, GetHeader;
    if from < |was| {
      assert was[from..][1..] == was[from + 1..];
    }
  }

  lemma StoredStep(was: seq<Numbered>, from: nat, num: nat, f: Flags, base: Baselines, ext: Ext, c: Cursor, same: bool)
    requires from <= |was| && num != 0 && !f.Remove() && (from < |was| ==> num <= was[from].num)
    requires same <==> from < |was| && num == was[from].num
    ensures var e := GetBody(f, if same then was[from].ent else base(num), ext, c);
      var r := Parse(was[if same then from + 1 else from..], base, ext, e.1);
      Merge(was[from..], num, f, base, ext, c) == ([Numbered(num, e.0)] + r.0, r.1)
  {
    hide GetBody, GetHeader;
    if from < |was| {
      assert was[from..][1..] == was[from + 1..];
    }
  }

  lemma ParseIsMerge(prev: seq<Numbered>, base: Baselines, ext: Ext, c: Cursor)
    ensures var h := GetHeader(c);
      && Parse(prev, base, ext, c) == Merge(prev, h.0.0, h.0.1, base, ext, h.1)
      && (h.0.0 == 0 ==> Parse(prev, base, ext, c) == (prev, h.1))
      && (h.0.0 != 0 ==> |h.1.rest| < |c.rest|)
  {
  }

  /** `ParsePacketEntities` once the two frames are chosen: `prev` is none when the message is no delta. */
  method ParsePacketEntities(msg: NetMsg, prev: Frame?, frame: Frame, base: Baselines, ext: Ext,
                             ghost was: seq<Numbered>)
    requires msg.Valid() && frame.Room() && Source(prev, frame, was)
    modifies msg`readpos, frame, frame.ents, frame.entnums
    ensures msg.Valid() && frame.Valid() && Source(prev, frame, was)
    ensures (frame.List(), msg.Rest()) == Parse(was, base, ext, old(msg.Rest()))
  {
    hide Merge, Parse, Zip;
    var newindex := MergeEntities(msg, prev, frame, base, ext, was);
    frame.numents := newindex;
  }

  method MergeEntities(msg: NetMsg, prev: Frame?, frame: Frame, base: Baselines, ext: Ext, ghost was: seq<Numbered>)
    returns (newindex: nat)
    requires msg.Valid() && frame.Room() && Source(prev, frame, was)
    modifies msg`readpos, frame`maxents, frame`ents, frame`entnums, frame.ents, frame.entnums
    ensures msg.Valid() && frame.Room() && newindex <= frame.maxents && Source(prev, frame, was)
    ensures (frame.First(newindex), msg.Rest()) == Parse(was, base, ext, old(msg.Rest()))
    ensures (frame.ents == old(frame.ents) && frame.entnums == old(frame.entnums))
      || (fresh(frame.ents) && fresh(frame.entnums))
  {
    hide Merge, Parse, GetHeader, Zip, Source, Along;
    ghost var goal := Parse(was, base, ext, msg.Rest());
    var oldindex, done;
    oldindex, newindex, done := 0, 0, false;
    AlongAtFirst(frame, was, base, ext, msg.Rest());
    while !done
      invariant msg.Valid() && Source(prev, frame, was) && 0 <= oldindex <= |was| && frame.Room()
      invariant 0 <= newindex <= frame.maxents
      invariant !done ==> Along(frame.First(newindex), Parse(was[oldindex..], base, ext, msg.Rest()), goal)
      invariant done ==> (frame.First(newindex), msg.Rest()) == goal
      invariant (frame.ents == old(frame.ents) && frame.entnums == old(frame.entnums))
        || (fresh(frame.ents) && fresh(frame.entnums))
      decreases !done, |msg.Rest().rest|
    {
      oldindex, newindex, done := MergeNext(msg, prev, frame, oldindex, newindex, base, ext, was, goal);
    }
  }

  lemma AlongAtFirst(frame: Frame, was: seq<Numbered>, base: Baselines, ext: Ext, c: Cursor)
    requires frame.Room()
    ensures Along(frame.First(0), Parse(was[0..], base, ext, c), Parse(was, base, ext, c))
  {
    hide Parse;
    assert was[0..] == was;
  }

  /** One number and what it brings, or the end of the message. */
  method MergeNext(msg: NetMsg, prev: Frame?, frame: Frame, from: nat, at: nat, base: Baselines, ext: Ext,
                   ghost was: seq<Numbered>, ghost goal: (seq<Numbered>, Cursor))
    returns (oldindex: nat, newindex: nat, done: bool)
    requires msg.Valid() && frame.Room() && Source(prev, frame, was) && from <= |was| && at <= frame.maxents
    requires Along(frame.First(at), Parse(was[from..], base, ext, msg.Rest()), goal)
    modifies msg`readpos, frame`maxents, frame`ents, frame`entnums, frame.ents, frame.entnums
    ensures msg.Valid() && Source(prev, frame, was) && oldindex <= |was| && frame.Room() && newindex <= frame.maxents
    ensures !done ==> Along(frame.First(newindex), Parse(was[oldindex..], base, ext, msg.Rest()), goal)
    ensures !done ==> |msg.Rest().rest| < |old(msg.Rest()).rest|
    ensures done ==> (frame.First(newindex), msg.Rest()) == goal
    ensures (frame.ents == old(frame.ents) && frame.entnums == old(frame.entnums))
      || (fresh(frame.ents) && fresh(frame.entnums))
  {
    hide Merge, Parse, GetHeader, Zip, Source;
    ghost var c := msg.Rest();
    var num, f := EntityCodec.ReadEntityNum(msg);
    ParseIsMerge(was[from..], base, ext, c);
    if num == 0 {
      newindex := CopyRest(prev, frame, from, at, was);
      return from, newindex, true;
    }
    oldindex, newindex := Propagate(prev, frame, from, at, num, f, base, ext, was, msg.Rest(), goal);
    oldindex, newindex := TakeEntity(msg, prev, frame, oldindex, newindex, num, f, base, ext, was, goal);
    done := false;
  }

  lemma SourceCount(prev: Frame?, frame: Frame, was: seq<Numbered>)
    requires Source(prev, frame, was)
    ensures (if prev == null then 0 else prev.numents) == |was|
  {
  }

  /** At the end of the message, all old entities that are left. */
  method CopyRest(prev: Frame?, frame: Frame, from: nat, at: nat, ghost was: seq<Numbered>) returns (newindex: nat)
    requires Source(prev, frame, was) && from <= |was| && frame.Room() && at <= frame.maxents
    modifies frame`maxents, frame`ents, frame`entnums, frame.ents, frame.entnums
    ensures Source(prev, frame, was) && frame.Room() && newindex <= frame.maxents
    ensures frame.First(newindex) == old(frame.First(at)) + was[from..]
    ensures (frame.ents == old(frame.ents) && frame.entnums == old(frame.entnums))
      || (fresh(frame.ents) && fresh(frame.entnums))
  {
    hide Zip, Source;
    SourceCount(prev, frame, was);
    newindex := at;
    var oldindex := from;
    var oldcount := if prev == null then 0 else prev.numents;
    while oldindex < oldcount
      invariant oldcount == |was| && Source(prev, frame, was) && from <= oldindex <= |was| && frame.Room()
      invariant newindex <= frame.maxents
      invariant frame.First(newindex) == old(frame.First(at)) + was[from..oldindex]
      invariant (frame.ents == old(frame.ents) && frame.entnums == old(frame.entnums))
        || (fresh(frame.ents) && fresh(frame.entnums))
    {
      Assoc(old(frame.First(at)), was[from..oldindex], [was[oldindex]]);
      assert was[from..oldindex] + [was[oldindex]] == was[from..oldindex + 1];
      CopyOne(prev, frame, oldindex, newindex, was);
      oldindex, newindex := oldindex + 1, newindex + 1;
    }
    assert was[from..|was|] == was[from..];
  }
}
