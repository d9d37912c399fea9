/** `SV_WriteDelta`, `readentitynum` and `ParseEntityDelta` over the byte cursor. */
module EntityCodec {
  import opened Bytes
  import opened NetMsg
  import opened EntityDelta

  method EmitByteIf(msg: NetMsg, b: bool, x: byte, ghost tail: seq<byte>)
    requires msg.Valid() && |msg.Contents() + PutIf(b, [x], tail)| <= msg.maxsize
    modifies msg`cursize, msg.data
    ensures msg.Valid() && msg.Contents() + tail == old(msg.Contents()) + PutIf(b, [x], tail)
  {
    if b {
      msg.WriteByte(x);
      assert old(msg.Contents()) + ([x] + tail) == (old(msg.Contents()) + [x]) + tail;
    }
  }

  method EmitShortIf(msg: NetMsg, b: bool, x: u16, ghost tail: seq<byte>)
    requires msg.Valid() && |msg.Contents() + PutIf(b, Le16(x), tail)| <= msg.maxsize
    modifies msg`cursize, msg.data
    ensures msg.Valid() && msg.Contents() + tail == old(msg.Contents()) + PutIf(b, Le16(x), tail)
  {
    if b {
      msg.WriteShort(x);
      assert old(msg.Contents()) + (Le16(x) + tail) == (old(msg.Contents()) + Le16(x)) + tail;
    }
  }

  method EmitLongIf(msg: NetMsg, b: bool, x: u32, ghost tail: seq<byte>)
    requires msg.Valid() && |msg.Contents() + PutIf(b, Le32(x), tail)| <= msg.maxsize
    modifies msg`cursize, msg.data
    ensures msg.Valid() && msg.Contents() + tail == old(msg.Contents()) + PutIf(b, Le32(x), tail)
  {
    if b {
      msg.WriteLong(x);
      assert old(msg.Contents()) + (Le32(x) + tail) == (old(msg.Contents()) + Le32(x)) + tail;
    }
  }

  method EmitCoordIf(msg: NetMsg, b: bool, x: int, ext: Ext, ghost tail: seq<byte>)
    requires msg.Valid() && |msg.Contents() + PutIf(b, PutCoord(x, ext), tail)| <= msg.maxsize
    modifies msg`cursize, msg.data
    ensures msg.Valid() && msg.Contents() + tail == old(msg.Contents()) + PutIf(b, PutCoord(x, ext), tail)
  {
    if ext.floatcoords {
      EmitLongIf(msg, b, x % TWO32, tail);
    } else {
      EmitShortIf(msg, b, x % TWO16, tail);
    }
  }

  method EmitAngleIf(msg: NetMsg, b: bool, x: int, ext: Ext, ghost tail: seq<byte>)
    requires msg.Valid() && |msg.Contents() + PutIf(b, PutAngle(x, ext), tail)| <= msg.maxsize
    modifies msg`cursize, msg.data
    ensures msg.Valid() && msg.Contents() + tail == old(msg.Contents()) + PutIf(b, PutAngle(x, ext), tail)
  {
    if ext.floatcoords {
      EmitShortIf(msg, b, x % TWO16, tail);
    } else {
      EmitByteIf(msg, b, x % 256, tail);
    }
  }

  method WriteHeader(msg: NetMsg, entnum: nat, f: Flags, ghost tail: seq<byte>)
    requires msg.Valid() && |msg.Contents() + PutHeader(entnum, f, tail)| <= msg.maxsize
    modifies msg`cursize, msg.data
    ensures msg.Valid() && msg.Contents() + tail == old(msg.Contents()) + PutHeader(entnum, f, tail)
  {
    hide Pack, Le16;
    ghost var t2 := PutIf(f.YetMore(), [Pack(f.ext2)], tail);
    ghost var t1 := PutIf(f.EvenMore(), [Pack(f.ext1)], t2);
    EmitShortIf(msg, true, entnum % 512 + Pack(f.mid) / 2 * 512, PutIf(f.MoreBits(), [Pack(f.low)], t1));
    EmitByteIf(msg, f.MoreBits(), Pack(f.low), t1);
    EmitByteIf(msg, f.EvenMore(), Pack(f.ext1), t2);
    EmitByteIf(msg, f.YetMore(), Pack(f.ext2), tail);
  }

  method WriteBasics(msg: NetMsg, f: Flags, e: Entity, ghost tail: seq<byte>)
    requires msg.Valid() && |msg.Contents() + PutBasics(f, e, tail)| <= msg.maxsize
    modifies msg`cursize, msg.data
    ensures msg.Valid() && msg.Contents() + tail == old(msg.Contents()) + PutBasics(f, e, tail)
  {
    ghost var t4 := PutIf(f.Effects(), [e.effects % 256], tail);
    ghost var t3 := PutIf(f.Skin(), [e.skinnum], t4);
    ghost var t2 := PutIf(f.Colormap(), [e.colormap], t3);
    ghost var t1 := PutIf(f.Frame(), [e.frame], t2);
    if f.Model() {
      EmitByteIf(msg, true, e.modelindex % 256, t1);
    } else {
      EmitShortIf(msg, f.ModelDbl(), e.modelindex, t1);
    }
    EmitByteIf(msg, f.Frame(), e.frame, t2);
    EmitByteIf(msg, f.Colormap(), e.colormap, t3);
    EmitByteIf(msg, f.Skin(), e.skinnum, t4);
    EmitByteIf(msg, f.Effects(), e.effects % 256, tail);
  }

  method WritePlace(msg: NetMsg, f: Flags, e: Entity, ext: Ext, ghost tail: seq<byte>)
    requires msg.Valid() && |msg.Contents() + PutPlace(f, e, ext, tail)| <= msg.maxsize
    modifies msg`cursize, msg.data
    ensures msg.Valid() && msg.Contents() + tail == old(msg.Contents()) + PutPlace(f, e, ext, tail)
  {
    ghost var t5 := PutIf(f.Angle3(), PutAngle(e.angles.z, ext), tail);
    ghost var t4 := PutIf(f.Origin3(), PutCoord(e.origin.z, ext), t5);
    ghost var t3 := PutIf(f.Angle2(), PutAngle(e.angles.y, ext), t4);
    ghost var t2 := PutIf(f.Origin2(), PutCoord(e.origin.y, ext), t3);
    ghost var t1 := PutIf(f.Angle1(), PutAngle(e.angles.x, ext), t2);
    EmitCoordIf(msg, f.Origin1(), e.origin.x, ext, t1);
    EmitAngleIf(msg, f.Angle1(), e.angles.x, ext, t2);
    EmitCoordIf(msg, f.Origin2(), e.origin.y, ext, t3);
    EmitAngleIf(msg, f.Angle2(), e.angles.y, ext, t4);
    EmitCoordIf(msg, f.Origin3(), e.origin.z, ext, t5);
    EmitAngleIf(msg, f.Angle3(), e.angles.z, ext, tail);
  }

  method WriteLooks(msg: NetMsg, f: Flags, e: Entity, ghost tail: seq<byte>)
    requires msg.Valid() && |msg.Contents() + PutLooks(f, e, tail)| <= msg.maxsize
    modifies msg`cursize, msg.data
    ensures msg.Valid() && msg.Contents() + tail == old(msg.Contents()) + PutLooks(f, e, tail)
  {
    ghost var t6 := PutIf(f.DpFlags(), [e.dpflags], tail);
    ghost var t5 := PutIf(f.ColourMod(), [e.colormod.r, e.colormod.g, e.colormod.b], t6);
    ghost var t4 := PutIf(f.AbsLight(), [e.abslight], t5);
    WriteFour(msg, f, e, t4);
    EmitByteIf(msg, f.AbsLight(), e.abslight, t5);
    if f.ColourMod() {
      WriteColour(msg, e.colormod, t6);
    }
    EmitByteIf(msg, f.DpFlags(), e.dpflags, tail);
  }

  /** The looks before the light: scale, alpha, fatness and drawing flags. */
  function PutFour(f: Flags, e: Entity, tail: seq<byte>): seq<byte> {
    PutIf(f.Scale(), [e.scale],
    PutIf(f.Alpha(), [e.alpha],
    PutIf(f.Fatness(), [e.fatness],
    PutIf(f.DrawFlags(), [e.drawflags], tail))))
  }

  method WriteFour(msg: NetMsg, f: Flags, e: Entity, ghost t4: seq<byte>)
    requires msg.Valid()
    requires |msg.Contents() + PutFour(f, e, t4)| <= msg.maxsize
    modifies msg`cursize, msg.data
    ensures msg.Valid()
    ensures msg.Contents() + t4 == old(msg.Contents()) + PutFour(f, e, t4)
  {
    ghost var t3 := PutIf(f.DrawFlags(), [e.drawflags], t4);
    ghost var t2 := PutIf(f.Fatness(), [e.fatness], t3);
    EmitByteIf(msg, f.Scale(), e.scale, PutIf(f.Alpha(), [e.alpha], t2));
    EmitByteIf(msg, f.Alpha(), e.alpha, t2);
    EmitByteIf(msg, f.Fatness(), e.fatness, t3);
    EmitByteIf(msg, f.DrawFlags(), e.drawflags, t4);
  }

  method WriteColour(msg: NetMsg, x: Colour, ghost tail: seq<byte>)
    requires msg.Valid() && |msg.Contents() + ([x.r, x.g, x.b] + tail)| <= msg.maxsize
    modifies msg`cursize, msg.data
    ensures msg.Valid() && msg.Contents() + tail == old(msg.Contents()) + ([x.r, x.g, x.b] + tail)
  {
    assert [x.r, x.g, x.b] + tail == [x.r] + ([x.g] + ([x.b] + tail));
    EmitByteIf(msg, true, x.r, [x.g] + ([x.b] + tail));
    EmitByteIf(msg, true, x.g, [x.b] + tail);
    EmitByteIf(msg, true, x.b, tail);
  }

  method WriteTag(msg: NetMsg, x: Tag, ghost tail: seq<byte>)
    requires msg.Valid() && |msg.Contents() + (PutTag(x) + tail)| <= msg.maxsize
    modifies msg`cursize, msg.data
    ensures msg.Valid() && msg.Contents() + tail == old(msg.Contents()) + (PutTag(x) + tail)
  {
    assert PutTag(x) + tail == Le16(x.entity) + (Le16(x.index) + tail);
    EmitShortIf(msg, true, x.entity, Le16(x.index) + tail);
    EmitShortIf(msg, true, x.index, tail);
  }

  method WriteLight(msg: NetMsg, x: Light, ghost tail: seq<byte>)
    requires msg.Valid() && |msg.Contents() + (PutLight(x) + tail)| <= msg.maxsize
    modifies msg`cursize, msg.data
    ensures msg.Valid() && msg.Contents() + tail == old(msg.Contents()) + (PutLight(x) + tail)
  {
    ghost var t4 := [x.style] + ([x.pflags] + tail);
    ghost var t3 := Le16(x.l3) + t4;
    ghost var t2 := Le16(x.l2) + t3;
    ghost var t1 := Le16(x.l1) + t2;
    assert PutLight(x) + tail == Le16(x.l0) + t1;
    EmitShortIf(msg, true, x.l0, t1);
    EmitShortIf(msg, true, x.l1, t2);
    EmitShortIf(msg, true, x.l2, t3);
    EmitShortIf(msg, true, x.l3, t4);
    EmitByteIf(msg, true, x.style, [x.pflags] + tail);
    EmitByteIf(msg, true, x.pflags, tail);
  }

  method WriteRest(msg: NetMsg, f: Flags, e: Entity, ghost tail: seq<byte>)
    requires msg.Valid() && |msg.Contents() + PutRest(f, e, tail)| <= msg.maxsize
    modifies msg`cursize, msg.data
    ensures msg.Valid() && msg.Contents() + tail == old(msg.Contents()) + PutRest(f, e, tail)
  {
    ghost var t2 := PutIf(f.Effects16(), [e.effects / 256], tail);
    if f.TagInfo() {
      WriteTag(msg, e.tag, PutIf(f.LightInfo(), PutLight(e.light), t2));
    }
    if f.LightInfo() {
      WriteLight(msg, e.light, t2);
    }
    EmitByteIf(msg, f.Effects16(), e.effects / 256, tail);
  }

  /** `SV_WriteDelta`; `tail` is whatever the caller goes on to write. */
  method WriteDelta(entnum: nat, from: Entity, to: Entity, msg: NetMsg, force: bool, ext: Ext, ghost tail: seq<byte>)
    requires msg.Valid() && |msg.Contents() + PutDelta(entnum, from, to, force, ext, tail)| <= msg.maxsize
    modifies msg`cursize, msg.data
    ensures msg.Valid() && msg.Contents() + tail == old(msg.Contents()) + PutDelta(entnum, from, to, force, ext, tail)
  {
    if entnum >= 2048 && !force {
      return;
    }
    var f := DeltaFlags(entnum, from, to, ext);
    if f == NO_FLAGS && !force {
      return;
    }
    ghost var t3 := PutRest(f, to, tail);
    ghost var t2 := PutLooks(f, to, t3);
    ghost var t1 := PutPlace(f, to, ext, t2);
    WriteHeader(msg, entnum, f, PutBody(f, to, ext, tail));
    WriteBasics(msg, f, to, t1);
    WritePlace(msg, f, to, ext, t2);
    WriteLooks(msg, f, to, t3);
    WriteRest(msg, f, to, tail);
  }

  method ReadByteIf(msg: NetMsg, b: bool, x: byte) returns (r: byte)
    requires msg.Valid()
    modifies msg`readpos
    ensures msg.Valid() && (r, msg.Rest()) == GetByteIf(b, x, old(msg.Rest()))
  {
    r := x;
    if b {
      r := msg.ReadByte();
    }
  }

  method ReadCoordIf(msg: NetMsg, b: bool, x: int, ext: Ext) returns (r: int)
    requires msg.Valid()
    modifies msg`readpos
    ensures msg.Valid() && (r, msg.Rest()) == GetCoordIf(b, x, ext, old(msg.Rest()))
  {
    r := x;
    if b && ext.floatcoords {
      r := msg.ReadLong();
    } else if b {
      var u := msg.ReadShort();
      r := Signed16(u);
    }
  }

  method ReadAngleIf(msg: NetMsg, b: bool, x: int, ext: Ext) returns (r: int)
    requires msg.Valid()
    modifies msg`readpos
    ensures msg.Valid() && (r, msg.Rest()) == GetAngleIf(b, x, ext, old(msg.Rest()))
  {
    r := x;
    if b && ext.floatcoords {
      r := msg.ReadShort();
    } else if b {
      r := msg.ReadByte();
    }
  }

  /** `readentitynum`. */
  method ReadEntityNum(msg: NetMsg) returns (entnum: nat, f: Flags)
    requires msg.Valid()
    modifies msg`readpos
    ensures msg.Valid() && ((entnum, f), msg.Rest()) == GetHeader(old(msg.Rest()))
  {
    var s: int := msg.ReadShort();
    if s == 0 {
      return 0, NO_FLAGS;
    }
    var mid := Unpack(s / 512 * 2);
    var low := ReadByteIf(msg, mid.b7, 0);
    var ext1 := ReadByteIf(msg, Unpack(low).b7, 0);
    var ext2 := ReadByteIf(msg, Unpack(ext1).b7, 0);
    f := Flags(Unpack(low), mid, Unpack(ext1), Unpack(ext2));
    entnum := s % 512 + (if f.EntityDbl() then 512 else 0) + (if f.EntityDbl2() then 1024 else 0);
  }

  method ReadBasics(msg: NetMsg, f: Flags, e: Entity) returns (r: Entity)
    requires msg.Valid()
    modifies msg`readpos
    ensures msg.Valid() && (r, msg.Rest()) == GetBasics(f, e, old(msg.Rest()))
  {
    r := e;
    if f.Model() {
      var m: int := msg.ReadByte();
      r := r.(modelindex := m + if f.ModelDbl() then 0x100 else 0);
    } else if f.ModelDbl() {
      var m := msg.ReadShort();
      r := r.(modelindex := m);
    }
    var frame := ReadByteIf(msg, f.Frame(), e.frame);
    var colormap := ReadByteIf(msg, f.Colormap(), e.colormap);
    var skin := ReadByteIf(msg, f.Skin(), e.skinnum);
    var effects := ReadByteIf(msg, f.Effects(), e.effects % 256);
    r := r.(frame := frame, colormap := colormap, skinnum := skin, effects := Join(effects, e.effects / 256));
  }

  method ReadPlace(msg: NetMsg, f: Flags, e: Entity, ext: Ext) returns (r: Entity)
    requires msg.Valid()
    modifies msg`readpos
    ensures msg.Valid() && (r, msg.Rest()) == GetPlace(f, e, ext, old(msg.Rest()))
  {
    var o1 := ReadCoordIf(msg, f.Origin1(), e.origin.x, ext);
    var a1 := ReadAngleIf(msg, f.Angle1(), e.angles.x, ext);
    var o2 := ReadCoordIf(msg, f.Origin2(), e.origin.y, ext);
    var a2 := ReadAngleIf(msg, f.Angle2(), e.angles.y, ext);
    var o3 := ReadCoordIf(msg, f.Origin3(), e.origin.z, ext);
    var a3 := ReadAngleIf(msg, f.Angle3(), e.angles.z, ext);
    r := e.(origin := Vec(o1, o2, o3), angles := Vec(a1, a2, a3));
  }

  method ReadColourIf(msg: NetMsg, b: bool, x: Colour) returns (r: Colour)
    requires msg.Valid()
    modifies msg`readpos
    ensures msg.Valid() && (r, msg.Rest()) == GetColourIf(b, x, old(msg.Rest()))
  {
    r := x;
    if b {
      var r0 := msg.ReadByte();
      var g0 := msg.ReadByte();
      var b0 := msg.ReadByte();
      r := Colour(r0, g0, b0);
    }
  }

  method ReadLooks(msg: NetMsg, f: Flags, e: Entity) returns (r: Entity)
    requires msg.Valid()
    modifies msg`readpos
    ensures msg.Valid() && (r, msg.Rest()) == GetLooks(f, e, old(msg.Rest()))
  {
    var scale := ReadByteIf(msg, f.Scale(), e.scale);
    var alpha := ReadByteIf(msg, f.Alpha(), e.alpha);
    var fatness := ReadByteIf(msg, f.Fatness(), e.fatness);
    var drawflags := ReadByteIf(msg, f.DrawFlags(), e.drawflags);
    var abslight := ReadByteIf(msg, f.AbsLight(), e.abslight);
    var colormod := ReadColourIf(msg, f.ColourMod(), e.colormod);
    var dpflags := ReadByteIf(msg, f.DpFlags(), e.dpflags);
    r := e.(scale := scale, alpha := alpha, fatness := fatness, drawflags := drawflags, abslight := abslight,
            colormod := colormod, dpflags := dpflags);
  }

  method ReadTagIf(msg: NetMsg, b: bool, x: Tag) returns (r: Tag)
    requires msg.Valid()
    modifies msg`readpos
    ensures msg.Valid() && (r, msg.Rest()) == GetTagIf(b, x, old(msg.Rest()))
  {
    r := x;
    if b {
      var entity := msg.ReadShort();
      var index: int := msg.ReadShort();
      r := Tag(entity, index % 256);
    }
  }

  method ReadLightIf(msg: NetMsg, b: bool, x: Light) returns (r: Light)
    requires msg.Valid()
    modifies msg`readpos
    ensures msg.Valid() && (r, msg.Rest()) == GetLightIf(b, x, old(msg.Rest()))
  {
    r := x;
    if b {
      var l0 := msg.ReadShort();
      var l1 := msg.ReadShort();
      var l2 := msg.ReadShort();
      var l3 := msg.ReadShort();
      var style := msg.ReadByte();
      var pflags := msg.ReadByte();
      r := Light(l0, l1, l2, l3, style, pflags);
    }
  }

  method ReadRest(msg: NetMsg, f: Flags, e: Entity) returns (r: Entity)
    requires msg.Valid()
    modifies msg`readpos
    ensures msg.Valid() && (r, msg.Rest()) == GetRest(f, e, old(msg.Rest()))
  {
    var tag := ReadTagIf(msg, f.TagInfo(), e.tag);
    var light := ReadLightIf(msg, f.LightInfo(), e.light);
    var effects := ReadByteIf(msg, f.Effects16(), e.effects / 256);
    r := e.(tag := tag, light := light, effects := Join(e.effects % 256, effects));
  }

  /** `ParseEntityDelta`. */
  method ParseEntityDelta(msg: NetMsg, e: Entity, f: Flags, ext: Ext) returns (r: Entity)
    requires msg.Valid()
    modifies msg`readpos
    ensures msg.Valid() && (r, msg.Rest()) == GetBody(f, e, ext, old(msg.Rest()))
  {
    r := ReadBasics(msg, f, e);
    r := ReadPlace(msg, f, r, ext);
    r := ReadLooks(msg, f, r);
    r := ReadRest(msg, f, r);
  }
}
