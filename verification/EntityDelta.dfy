/** One entity as the difference from a state both sides hold. */
module EntityDelta {
  import opened Bytes
  import opened NetMsg

  /** Coordinates and angles in the units the wire carries: eighths, or bit patterns of floats. */
  datatype Vec = Vec(x: int, y: int, z: int)
  datatype Colour = Colour(r: byte, g: byte, b: byte)
  datatype Tag = Tag(entity: u16, index: byte)
  datatype Light = Light(l0: u16, l1: u16, l2: u16, l3: u16, style: byte, pflags: byte)

  datatype Entity = Entity(
    frame: byte, modelindex: u16, colormap: byte, skinnum: byte, origin: Vec, angles: Vec, effects: u16,
    scale: byte, alpha: byte, fatness: byte, drawflags: byte, abslight: byte, colormod: Colour, dpflags: byte,
    tag: Tag, light: Light)

  /** `nullentstate`. */
  const NULL_ENTITY := Entity(0, 0, 0, 0, Vec(0, 0, 0), Vec(0, 0, 0), 0, 0, 0, 0, 0, 0, Colour(0, 0, 0), 0, Tag(0, 0),
                              Light(0, 0, 0, 0, 0, 0))

  /** The PEXT bits the codec looks at. */
  datatype Ext = Ext(dpflags: bool, trans: bool, scale: bool, fatness: bool, hexen2: bool, colourmod: bool,
                     setattachment: bool, floatcoords: bool)

  /** Eight bits, lowest first. */
  datatype Octet = Octet(b0: bool, b1: bool, b2: bool, b3: bool, b4: bool, b5: bool, b6: bool, b7: bool)

  const NONE := Octet(false, false, false, false, false, false, false, false)

  /** The 32 flag bits by their place on the wire; bit 8 of `mid` belongs to the entity number. */
  datatype Flags = Flags(low: Octet, mid: Octet, ext1: Octet, ext2: Octet) {
    predicate Angle1() { low.b0 }
    predicate Angle3() { low.b1 }
    predicate Model() { low.b2 }
    predicate Colormap() { low.b3 }
    predicate Skin() { low.b4 }
    predicate Effects() { low.b5 }
    predicate EvenMore() { low.b7 }
    predicate Origin1() { mid.b1 }
    predicate Origin2() { mid.b2 }
    predicate Origin3() { mid.b3 }
    predicate Angle2() { mid.b4 }
    predicate Frame() { mid.b5 }
    predicate Remove() { mid.b6 }
    predicate MoreBits() { mid.b7 }
    predicate Scale() { ext1.b0 }
    predicate Alpha() { ext1.b1 }
    predicate Fatness() { ext1.b2 }
    predicate ModelDbl() { ext1.b3 }
    predicate EntityDbl() { ext1.b5 }
    predicate EntityDbl2() { ext1.b6 }
    predicate YetMore() { ext1.b7 }
    predicate DrawFlags() { ext2.b0 }
    predicate AbsLight() { ext2.b1 }
    predicate ColourMod() { ext2.b2 }
    predicate DpFlags() { ext2.b3 }
    predicate TagInfo() { ext2.b4 }
    predicate LightInfo() { ext2.b5 }
    predicate Effects16() { ext2.b6 }
  }

  const NO_FLAGS := Flags(NONE, NONE, NONE, NONE)

  function Pack(o: Octet): (x: byte) {
    assert Power2(8) == 256;
    Value([o.b0, o.b1, o.b2, o.b3, o.b4, o.b5, o.b6, o.b7])
  }

  function Unpack(x: byte): Octet {
    var bs := Digits(x, 8);
    Octet(bs[0], bs[1], bs[2], bs[3], bs[4], bs[5], bs[6], bs[7])
  }

  lemma UnpackPack(o: Octet)
    ensures Unpack(Pack(o)) == o
  {
    DigitsOfValue([o.b0, o.b1, o.b2, o.b3, o.b4, o.b5, o.b6, o.b7]);
  }

  // ---- The flags of a delta ----

  function LowFlags(from: Entity, to: Entity, evenMore: bool): Octet {
    Octet(from.angles.x != to.angles.x, from.angles.z != to.angles.z,
          from.modelindex != to.modelindex && to.modelindex <= 0x1ff,
          from.colormap != to.colormap, from.skinnum != to.skinnum,
          from.effects % 256 != to.effects % 256, false, evenMore)
  }

  function MidFlags(from: Entity, to: Entity, moreBits: bool): Octet {
    Octet(false, from.origin.x != to.origin.x, from.origin.y != to.origin.y, from.origin.z != to.origin.z,
          from.angles.y != to.angles.y, from.frame != to.frame, false, moreBits)
  }

  function Ext1Flags(entnum: nat, from: Entity, to: Entity, ext: Ext, yetMore: bool): Octet {
    Octet(from.scale != to.scale && ext.scale, from.alpha != to.alpha && ext.trans,
          from.fatness != to.fatness && ext.fatness,
          from.modelindex != to.modelindex && to.modelindex > 0xff, false,
          512 <= entnum < 1024 || 1536 <= entnum < 2048, 1024 <= entnum < 2048, yetMore)
  }

  function Ext2Flags(from: Entity, to: Entity, ext: Ext): Octet {
    Octet(from.drawflags != to.drawflags && ext.hexen2, from.abslight != to.abslight && ext.hexen2,
          from.colormod != to.colormod && ext.colourmod, from.dpflags != to.dpflags && ext.dpflags,
          from.tag != to.tag && ext.setattachment, from.light != to.light && ext.dpflags,
          from.effects / 256 != to.effects / 256 && ext.dpflags, false)
  }

  function DeltaFlags(entnum: nat, from: Entity, to: Entity, ext: Ext): Flags {
    var ext2 := Ext2Flags(from, to, ext);
    var ext1 := Ext1Flags(entnum, from, to, ext, ext2 != NONE);
    var low := LowFlags(from, to, ext1 != NONE);
    Flags(low, MidFlags(from, to, low != NONE), ext1, ext2)
  }

  // ---- Writing: each part in front of what follows it ----

  function PutIf(b: bool, s: seq<byte>, tail: seq<byte>): seq<byte> {
    if b then s + tail else tail
  }

  function PutCoord(x: int, ext: Ext): seq<byte> {
    if ext.floatcoords then Le32(x % TWO32) else Le16(x % TWO16)
  }

  function PutAngle(x: int, ext: Ext): seq<byte> {
    if ext.floatcoords then Le16(x % TWO16) else [x % 256]
  }

  /** The flag header: two bytes, and up to three more. */
  function PutHeader(entnum: nat, f: Flags, tail: seq<byte>): seq<byte> {
    Le16(entnum % 512 + Pack(f.mid) / 2 * 512)
    + PutIf(f.MoreBits(), [Pack(f.low)], PutIf(f.EvenMore(), [Pack(f.ext1)], PutIf(f.YetMore(), [Pack(f.ext2)], tail)))
  }

  function PutBasics(f: Flags, e: Entity, tail: seq<byte>): seq<byte> {
    PutIf(f.Model() || f.ModelDbl(), if f.Model() then [e.modelindex % 256] else Le16(e.modelindex),
    PutIf(f.Frame(), [e.frame],
    PutIf(f.Colormap(), [e.colormap],
    PutIf(f.Skin(), [e.skinnum],
    PutIf(f.Effects(), [e.effects % 256], tail)))))
  }

  function PutPlace(f: Flags, e: Entity, ext: Ext, tail: seq<byte>): seq<byte> {
    PutIf(f.Origin1(), PutCoord(e.origin.x, ext),
    PutIf(f.Angle1(), PutAngle(e.angles.x, ext),
    PutIf(f.Origin2(), PutCoord(e.origin.y, ext),
    PutIf(f.Angle2(), PutAngle(e.angles.y, ext),
    PutIf(f.Origin3(), PutCoord(e.origin.z, ext),
    PutIf(f.Angle3(), PutAngle(e.angles.z, ext), tail))))))
  }

  function PutLooks(f: Flags, e: Entity, tail: seq<byte>): seq<byte> {
    PutIf(f.Scale(), [e.scale],
    PutIf(f.Alpha(), [e.alpha],
    PutIf(f.Fatness(), [e.fatness],
    PutIf(f.DrawFlags(), [e.drawflags],
    PutIf(f.AbsLight(), [e.abslight],
    PutIf(f.ColourMod(), [e.colormod.r, e.colormod.g, e.colormod.b],
    PutIf(f.DpFlags(), [e.dpflags], tail)))))))
  }

  function PutTag(t: Tag): seq<byte> {
    Le16(t.entity) + Le16(t.index)
  }

  function PutLight(l: Light): seq<byte> {
    Le16(l.l0) + (Le16(l.l1) + (Le16(l.l2) + (Le16(l.l3) + [l.style, l.pflags])))
  }

  function PutRest(f: Flags, e: Entity, tail: seq<byte>): seq<byte> {
    PutIf(f.TagInfo(), PutTag(e.tag),
    PutIf(f.LightInfo(), PutLight(e.light),
    PutIf(f.Effects16(), [e.effects / 256], tail)))
  }

  function PutBody(f: Flags, e: Entity, ext: Ext, tail: seq<byte>): seq<byte> {
    PutBasics(f, e, PutPlace(f, e, ext, PutLooks(f, e, PutRest(f, e, tail))))
  }

  /** `SV_WriteDelta` in front of `tail`. */
  function PutDelta(entnum: nat, from: Entity, to: Entity, force: bool, ext: Ext, tail: seq<byte>): seq<byte> {
    var f := DeltaFlags(entnum, from, to, ext);
    if !force && (entnum >= 2048 || f == NO_FLAGS) then tail
    else PutHeader(entnum, f, PutBody(f, to, ext, tail))
  }

  // ---- Reading ----

  /** The 16-bit word of two bytes. */
  function Join(lo: byte, hi: byte): u16 {
    (lo as int) + 256 * (hi as int)
  }

  function GetByteIf(b: bool, x: byte, c: Cursor): (byte, Cursor) {
    if b then GetByte(c) else (x, c)
  }

  function Signed16(x: u16): int {
    if x < 0x8000 then x else x - TWO16
  }

  function GetCoordIf(b: bool, x: int, ext: Ext, c: Cursor): (int, Cursor) {
    if !b then (x, c)
    else if ext.floatcoords then (GetLong(c).0, GetLong(c).1)
    else (Signed16(GetShort(c).0), GetShort(c).1)
  }

  function GetAngleIf(b: bool, x: int, ext: Ext, c: Cursor): (int, Cursor) {
    if !b then (x, c)
    else if ext.floatcoords then (GetShort(c).0, GetShort(c).1)
    else (GetByte(c).0, GetByte(c).1)
  }

  /** `readentitynum`: the entity number, 0 at the end of the list, and the flags. */
  function GetHeader(c: Cursor): (r: ((nat, Flags), Cursor))
    ensures c.rest != [] ==> |r.1.rest| < |c.rest|
    ensures c.rest == [] ==> r.0.0 == 0
  {
    var s := GetShort(c);
    if s.0 == 0 then ((0, NO_FLAGS), s.1)
    else
      var mid := Unpack(s.0 / 512 * 2);
      var low := if mid.b7 then GetByte(s.1) else (0, s.1);
      var ext1 := if Unpack(low.0).b7 then GetByte(low.1) else (0, low.1);
      var ext2 := if Unpack(ext1.0).b7 then GetByte(ext1.1) else (0, ext1.1);
      var f := Flags(Unpack(low.0), mid, Unpack(ext1.0), Unpack(ext2.0));
      ((s.0 % 512 + (if f.EntityDbl() then 512 else 0) + (if f.EntityDbl2() then 1024 else 0), f), ext2.1)
  }

  function GetModelIf(f: Flags, x: u16, c: Cursor): (u16, Cursor) {
    if f.Model() then (GetByte(c).0 + (if f.ModelDbl() then 0x100 else 0), GetByte(c).1)
    else if f.ModelDbl() then GetShort(c)
    else (x, c)
  }

  function GetBasics(f: Flags, e: Entity, c: Cursor): (Entity, Cursor) {
    var m := GetModelIf(f, e.modelindex, c);
    var fr := GetByteIf(f.Frame(), e.frame, m.1);
    var cm := GetByteIf(f.Colormap(), e.colormap, fr.1);
    var sk := GetByteIf(f.Skin(), e.skinnum, cm.1);
    var ef := GetByteIf(f.Effects(), e.effects % 256, sk.1);
    (e.(modelindex := m.0, frame := fr.0, colormap := cm.0, skinnum := sk.0,
        effects := Join(ef.0, e.effects / 256)), ef.1)
  }

  function GetPlace(f: Flags, e: Entity, ext: Ext, c: Cursor): (Entity, Cursor) {
    var o1 := GetCoordIf(f.Origin1(), e.origin.x, ext, c);
    var a1 := GetAngleIf(f.Angle1(), e.angles.x, ext, o1.1);
    var o2 := GetCoordIf(f.Origin2(), e.origin.y, ext, a1.1);
    var a2 := GetAngleIf(f.Angle2(), e.angles.y, ext, o2.1);
    var o3 := GetCoordIf(f.Origin3(), e.origin.z, ext, a2.1);
    var a3 := GetAngleIf(f.Angle3(), e.angles.z, ext, o3.1);
    (e.(origin := Vec(o1.0, o2.0, o3.0), angles := Vec(a1.0, a2.0, a3.0)), a3.1)
  }

  function GetColourIf(b: bool, x: Colour, c: Cursor): (Colour, Cursor) {
    if !b then (x, c)
    else
      var r := GetByte(c);
      var g := GetByte(r.1);
      (Colour(r.0, g.0, GetByte(g.1).0), GetByte(g.1).1)
  }

  function GetLooks(f: Flags, e: Entity, c: Cursor): (Entity, Cursor) {
    var sc := GetByteIf(f.Scale(), e.scale, c);
    var al := GetByteIf(f.Alpha(), e.alpha, sc.1);
    var fa := GetByteIf(f.Fatness(), e.fatness, al.1);
    var df := GetByteIf(f.DrawFlags(), e.drawflags, fa.1);
    var ab := GetByteIf(f.AbsLight(), e.abslight, df.1);
    var co := GetColourIf(f.ColourMod(), e.colormod, ab.1);
    var dp := GetByteIf(f.DpFlags(), e.dpflags, co.1);
    (e.(scale := sc.0, alpha := al.0, fatness := fa.0, drawflags := df.0, abslight := ab.0,
        colormod := co.0, dpflags := dp.0), dp.1)
  }

  function GetTagIf(b: bool, x: Tag, c: Cursor): (Tag, Cursor) {
    if !b then (x, c)
    else
      var n := GetShort(c);
      (Tag(n.0, GetShort(n.1).0 % 256), GetShort(n.1).1)
  }

  function GetLightIf(b: bool, x: Light, c: Cursor): (Light, Cursor) {
    if !b then (x, c)
    else
      var l0 := GetShort(c);
      var l1 := GetShort(l0.1);
      var l2 := GetShort(l1.1);
      var l3 := GetShort(l2.1);
      var st := GetByte(l3.1);
      (Light(l0.0, l1.0, l2.0, l3.0, st.0, GetByte(st.1).0), GetByte(st.1).1)
  }

  function GetRest(f: Flags, e: Entity, c: Cursor): (Entity, Cursor) {
    var t := GetTagIf(f.TagInfo(), e.tag, c);
    var l := GetLightIf(f.LightInfo(), e.light, t.1);
    var ef := GetByteIf(f.Effects16(), e.effects / 256, l.1);
    (e.(tag := t.0, light := l.0, effects := Join(e.effects % 256, ef.0)), ef.1)
  }

  /** `ParseEntityDelta` against `e`. */
  function GetBody(f: Flags, e: Entity, ext: Ext, c: Cursor): (Entity, Cursor) {
    var b := GetBasics(f, e, c);
    var p := GetPlace(f, b.0, ext, b.1);
    var l := GetLooks(f, p.0, p.1);
    GetRest(f, l.0, l.1)
  }

  // ---- Reading back what was written ----

  predicate CoordFits(x: int, ext: Ext) {
    if ext.floatcoords then 0 <= x < TWO32 else -0x8000 <= x < 0x8000
  }

  predicate AngleFits(x: int, ext: Ext) {
    if ext.floatcoords then 0 <= x < TWO16 else 0 <= x < 256
  }

  /** Coordinates and angles are ones the wire can carry. */
  predicate Quantised(e: Entity, ext: Ext) {
    && CoordFits(e.origin.x, ext) && CoordFits(e.origin.y, ext) && CoordFits(e.origin.z, ext)
    && AngleFits(e.angles.x, ext) && AngleFits(e.angles.y, ext) && AngleFits(e.angles.z, ext)
  }

  lemma ByteIf(b: bool, x: byte, prev: byte, tail: seq<byte>)
    ensures GetByteIf(b, prev, Start(PutIf(b, [x], tail))) == (if b then x else prev, Start(tail))
  {
    ByteRoundTrip(x, tail);
  }

  lemma SignedOfLow16(x: int)
    requires -0x8000 <= x < 0x8000
    ensures Signed16(x % TWO16) == x
  {
  }

  lemma CoordIf(b: bool, x: int, prev: int, ext: Ext, tail: seq<byte>)
    requires CoordFits(x, ext)
    ensures GetCoordIf(b, prev, ext, Start(PutIf(b, PutCoord(x, ext), tail))) == (if b then x else prev, Start(tail))
  {
    if b && ext.floatcoords {
      assert x % TWO32 == x;
      LongRoundTrip(x, tail);
    } else if b {
      SignedOfLow16(x);
      ShortRoundTrip(x % TWO16, tail);
    }
  }

  lemma AngleIf(b: bool, x: int, prev: int, ext: Ext, tail: seq<byte>)
    requires AngleFits(x, ext)
    ensures GetAngleIf(b, prev, ext, Start(PutIf(b, PutAngle(x, ext), tail))) == (if b then x else prev, Start(tail))
  {
    if ext.floatcoords {
      ShortRoundTrip(x, tail);
    } else {
      ByteRoundTrip(x, tail);
    }
  }

  lemma ModelIf(f: Flags, x: u16, prev: u16, tail: seq<byte>)
    requires f.Model() ==> x / 256 == if f.ModelDbl() then 1 else 0
    ensures GetModelIf(f, prev, Start(PutIf(f.Model() || f.ModelDbl(), if f.Model() then [x % 256] else Le16(x), tail)))
         == (if f.Model() || f.ModelDbl() then x else prev, Start(tail))
  {
    if f.Model() {
      ByteRoundTrip(x % 256, tail);
    } else {
      ShortRoundTrip(x, tail);
    }
  }

  lemma ColourIf(b: bool, x: Colour, prev: Colour, tail: seq<byte>)
    ensures GetColourIf(b, prev, Start(PutIf(b, [x.r, x.g, x.b], tail))) == (if b then x else prev, Start(tail))
  {
    assert [x.r, x.g, x.b] + tail == [x.r] + ([x.g] + ([x.b] + tail));
    ByteRoundTrip(x.r, [x.g] + ([x.b] + tail));
    ByteRoundTrip(x.g, [x.b] + tail);
    ByteRoundTrip(x.b, tail);
  }

  lemma TagIf(b: bool, x: Tag, prev: Tag, tail: seq<byte>)
    ensures GetTagIf(b, prev, Start(PutIf(b, PutTag(x), tail))) == (if b then x else prev, Start(tail))
  {
    assert PutTag(x) + tail == Le16(x.entity) + (Le16(x.index) + tail);
    ShortRoundTrip(x.entity, Le16(x.index) + tail);
    ShortRoundTrip(x.index, tail);
  }

  lemma LightIf(b: bool, x: Light, prev: Light, tail: seq<byte>)
    ensures GetLightIf(b, prev, Start(PutIf(b, PutLight(x), tail))) == (if b then x else prev, Start(tail))
  {
    var t4 := [x.style] + ([x.pflags] + tail);
    var t3 := Le16(x.l3) + t4;
    var t2 := Le16(x.l2) + t3;
    var t1 := Le16(x.l1) + t2;
    assert PutLight(x) + tail == Le16(x.l0) + t1;
    ShortRoundTrip(x.l0, t1);
    ShortRoundTrip(x.l1, t2);
    ShortRoundTrip(x.l2, t3);
    ShortRoundTrip(x.l3, t4);
    ByteRoundTrip(x.style, [x.pflags] + tail);
    ByteRoundTrip(x.pflags, tail);
  }

  function Pick<T>(b: bool, x: T, y: T): T {
    if b then x else y
  }

  // `e` with the flagged fields of `to`, part by part.

  function WithBasics(f: Flags, to: Entity, e: Entity): Entity {
    e.(modelindex := Pick(f.Model() || f.ModelDbl(), to.modelindex, e.modelindex),
       frame := Pick(f.Frame(), to.frame, e.frame), colormap := Pick(f.Colormap(), to.colormap, e.colormap),
       skinnum := Pick(f.Skin(), to.skinnum, e.skinnum),
       effects := Join(Pick(f.Effects(), to.effects % 256, e.effects % 256), e.effects / 256))
  }

  function WithPlace(f: Flags, to: Entity, e: Entity): Entity {
    e.(origin := Vec(Pick(f.Origin1(), to.origin.x, e.origin.x), Pick(f.Origin2(), to.origin.y, e.origin.y),
                     Pick(f.Origin3(), to.origin.z, e.origin.z)),
       angles := Vec(Pick(f.Angle1(), to.angles.x, e.angles.x), Pick(f.Angle2(), to.angles.y, e.angles.y),
                     Pick(f.Angle3(), to.angles.z, e.angles.z)))
  }

  function WithLooks(f: Flags, to: Entity, e: Entity): Entity {
    e.(scale := Pick(f.Scale(), to.scale, e.scale), alpha := Pick(f.Alpha(), to.alpha, e.alpha),
       fatness := Pick(f.Fatness(), to.fatness, e.fatness), drawflags := Pick(f.DrawFlags(), to.drawflags, e.drawflags),
       abslight := Pick(f.AbsLight(), to.abslight, e.abslight),
       colormod := Pick(f.ColourMod(), to.colormod, e.colormod),
       dpflags := Pick(f.DpFlags(), to.dpflags, e.dpflags))
  }

  function WithRest(f: Flags, to: Entity, e: Entity): Entity {
    e.(tag := Pick(f.TagInfo(), to.tag, e.tag), light := Pick(f.LightInfo(), to.light, e.light),
       effects := Join(e.effects % 256, Pick(f.Effects16(), to.effects / 256, e.effects / 256)))
  }

  lemma BasicsRoundTrip(f: Flags, to: Entity, e: Entity, tail: seq<byte>)
    requires f.Model() ==> to.modelindex / 256 == if f.ModelDbl() then 1 else 0
    ensures GetBasics(f, e, Start(PutBasics(f, to, tail))) ==
      (WithBasics(f, to, e), Start(tail))
  {
    var t4 := PutIf(f.Effects(), [to.effects % 256], tail);
    var t3 := PutIf(f.Skin(), [to.skinnum], t4);
    var t2 := PutIf(f.Colormap(), [to.colormap], t3);
    var t1 := PutIf(f.Frame(), [to.frame], t2);
    ModelIf(f, to.modelindex, e.modelindex, t1);
    ByteIf(f.Frame(), to.frame, e.frame, t2);
    ByteIf(f.Colormap(), to.colormap, e.colormap, t3);
    ByteIf(f.Skin(), to.skinnum, e.skinnum, t4);
    ByteIf(f.Effects(), to.effects % 256, e.effects % 256, tail);
  }

  lemma PlaceRoundTrip(f: Flags, to: Entity, e: Entity, ext: Ext, tail: seq<byte>)
    requires Quantised(to, ext)
    ensures GetPlace(f, e, ext, Start(PutPlace(f, to, ext, tail))) ==
      (WithPlace(f, to, e), Start(tail))
  {
    var t5 := PutIf(f.Angle3(), PutAngle(to.angles.z, ext), tail);
    var t4 := PutIf(f.Origin3(), PutCoord(to.origin.z, ext), t5);
    var t3 := PutIf(f.Angle2(), PutAngle(to.angles.y, ext), t4);
    var t2 := PutIf(f.Origin2(), PutCoord(to.origin.y, ext), t3);
    var t1 := PutIf(f.Angle1(), PutAngle(to.angles.x, ext), t2);
    CoordIf(f.Origin1(), to.origin.x, e.origin.x, ext, t1);
    AngleIf(f.Angle1(), to.angles.x, e.angles.x, ext, t2);
    CoordIf(f.Origin2(), to.origin.y, e.origin.y, ext, t3);
    AngleIf(f.Angle2(), to.angles.y, e.angles.y, ext, t4);
    CoordIf(f.Origin3(), to.origin.z, e.origin.z, ext, t5);
    AngleIf(f.Angle3(), to.angles.z, e.angles.z, ext, tail);
  }

  lemma LooksRoundTrip(f: Flags, to: Entity, e: Entity, tail: seq<byte>)
    ensures GetLooks(f, e, Start(PutLooks(f, to, tail))) ==
      (WithLooks(f, to, e), Start(tail))
  {
    hide GetByteIf, GetColourIf, PutIf;
    var t6 := PutIf(f.DpFlags(), [to.dpflags], tail);
    var t5 := PutIf(f.ColourMod(), [to.colormod.r, to.colormod.g, to.colormod.b], t6);
    var t4 := PutIf(f.AbsLight(), [to.abslight], t5);
    var t3 := PutIf(f.DrawFlags(), [to.drawflags], t4);
    var t2 := PutIf(f.Fatness(), [to.fatness], t3);
    var t1 := PutIf(f.Alpha(), [to.alpha], t2);
    ByteIf(f.Scale(), to.scale, e.scale, t1);
    ByteIf(f.Alpha(), to.alpha, e.alpha, t2);
    ByteIf(f.Fatness(), to.fatness, e.fatness, t3);
    ByteIf(f.DrawFlags(), to.drawflags, e.drawflags, t4);
    ByteIf(f.AbsLight(), to.abslight, e.abslight, t5);
    ColourIf(f.ColourMod(), to.colormod, e.colormod, t6);
    ByteIf(f.DpFlags(), to.dpflags, e.dpflags, tail);
  }

  lemma RestRoundTrip(f: Flags, to: Entity, e: Entity, tail: seq<byte>)
    ensures GetRest(f, e, Start(PutRest(f, to, tail))) ==
      (WithRest(f, to, e), Start(tail))
  {
    var t2 := PutIf(f.Effects16(), [to.effects / 256], tail);
    TagIf(f.TagInfo(), to.tag, e.tag, PutIf(f.LightInfo(), PutLight(to.light), t2));
    LightIf(f.LightInfo(), to.light, e.light, t2);
    ByteIf(f.Effects16(), to.effects / 256, e.effects / 256, tail);
  }

  // ---- The two sides ----

  /** `to` as far as the extensions let it through, the rest from `e`. */
  function Overlay(ext: Ext, e: Entity, to: Entity): Entity {
    Entity(to.frame, to.modelindex, to.colormap, to.skinnum, to.origin, to.angles,
           Join(to.effects % 256, if ext.dpflags then to.effects / 256 else e.effects / 256),
           if ext.scale then to.scale else e.scale, if ext.trans then to.alpha else e.alpha,
           if ext.fatness then to.fatness else e.fatness,
           if ext.hexen2 then to.drawflags else e.drawflags, if ext.hexen2 then to.abslight else e.abslight,
           if ext.colourmod then to.colormod else e.colormod, if ext.dpflags then to.dpflags else e.dpflags,
           if ext.setattachment then to.tag else e.tag, if ext.dpflags then to.light else e.light)
  }

  /** The two states look the same through the extensions. */
  predicate Agree(ext: Ext, a: Entity, b: Entity) {
    Overlay(ext, a, b) == a
  }

  lemma PickedRoundTrip(f: Flags, to: Entity, e: Entity, ext: Ext, tail: seq<byte>)
    requires Quantised(to, ext)
    requires f.Model() ==> to.modelindex / 256 == if f.ModelDbl() then 1 else 0
    ensures GetBody(f, e, ext, Start(PutBody(f, to, ext, tail))) ==
      (WithRest(f, to, WithLooks(f, to, WithPlace(f, to, WithBasics(f, to, e)))), Start(tail))
  {
    var t3 := PutRest(f, to, tail);
    var t2 := PutLooks(f, to, t3);
    var t1 := PutPlace(f, to, ext, t2);
    var e1 := WithBasics(f, to, e);
    var e2 := WithPlace(f, to, e1);
    BasicsRoundTrip(f, to, e, t1);
    PlaceRoundTrip(f, to, e1, ext, t2);
    LooksRoundTrip(f, to, e2, t3);
    RestRoundTrip(f, to, WithLooks(f, to, e2), tail);
  }

  lemma PickedPlace(entnum: nat, from: Entity, to: Entity, e: Entity, ext: Ext)
    requires Agree(ext, e, from)
    ensures var f := DeltaFlags(entnum, from, to, ext);
      WithPlace(f, to, WithBasics(f, to, e))
      == e.(frame := to.frame, modelindex := to.modelindex, colormap := to.colormap, skinnum := to.skinnum,
            origin := to.origin, angles := to.angles, effects := Join(to.effects % 256, e.effects / 256))
  {
  }

  /** The flags pick exactly the visible differences. */
  lemma PickedIsOverlay(entnum: nat, from: Entity, to: Entity, e: Entity, ext: Ext)
    requires Agree(ext, e, from)
    ensures var f := DeltaFlags(entnum, from, to, ext);
      WithRest(f, to, WithLooks(f, to, WithPlace(f, to, WithBasics(f, to, e)))) == Overlay(ext, e, to)
  {
    hide WithPlace, WithBasics;
    PickedPlace(entnum, from, to, e, ext);
  }

  lemma BodyRoundTrip(entnum: nat, from: Entity, to: Entity, e: Entity, ext: Ext, tail: seq<byte>)
    requires Quantised(to, ext) && Agree(ext, e, from)
    ensures var f := DeltaFlags(entnum, from, to, ext);
      GetBody(f, e, ext, Start(PutBody(f, to, ext, tail))) == (Overlay(ext, e, to), Start(tail))
  {
    PickedRoundTrip(DeltaFlags(entnum, from, to, ext), to, e, ext, tail);
    PickedIsOverlay(entnum, from, to, e, ext);
  }

  predicate Chained(f: Flags) {
    && !f.mid.b0 && (f.MoreBits() <==> f.low != NONE) && (f.EvenMore() <==> f.ext1 != NONE)
    && (f.YetMore() <==> f.ext2 != NONE)
  }

  function NumberOf(entnum: nat, f: Flags): nat {
    entnum % 512 + (if f.EntityDbl() then 512 else 0) + (if f.EntityDbl2() then 1024 else 0)
  }

  lemma PackMid(o: Octet)
    requires !o.b0
    ensures Pack(o) / 2 * 2 == Pack(o)
  {
  }

  lemma PackNone()
    ensures Pack(NONE) == 0
  {
  }

  lemma HeaderRoundTrip(entnum: nat, f: Flags, tail: seq<byte>)
    requires Chained(f) && (entnum % 512 != 0 || f.mid != NONE)
    ensures GetHeader(Start(PutHeader(entnum, f, tail))) == ((NumberOf(entnum, f), f), Start(tail))
  {
    PackNone();
    hide Pack, Unpack, GetShort, Le16;
    var t2 := PutIf(f.YetMore(), [Pack(f.ext2)], tail);
    var t1 := PutIf(f.EvenMore(), [Pack(f.ext1)], t2);
    var t0 := PutIf(f.MoreBits(), [Pack(f.low)], t1);
    var s := entnum % 512 + Pack(f.mid) / 2 * 512;
    PackMid(f.mid);
    UnpackPack(f.mid);
    UnpackPack(f.low);
    UnpackPack(f.ext1);
    UnpackPack(f.ext2);
    UnpackPack(NONE);
    assert s / 512 == Pack(f.mid) / 2 && s % 512 == entnum % 512;
    ShortRoundTrip(s, t0);
    ByteRoundTrip(Pack(f.low), t1);
    ByteRoundTrip(Pack(f.ext1), t2);
    ByteRoundTrip(Pack(f.ext2), tail);
  }

  /** Whether `SV_WriteDelta` writes anything. */
  predicate Writes(entnum: nat, from: Entity, to: Entity, force: bool, ext: Ext) {
    force || (entnum < 2048 && DeltaFlags(entnum, from, to, ext) != NO_FLAGS)
  }

  lemma FlagShape(entnum: nat, from: Entity, to: Entity, ext: Ext)
    ensures var f := DeltaFlags(entnum, from, to, ext);
      && Chained(f) && !f.Remove()
      && (entnum < 2048 ==> NumberOf(entnum, f) == entnum)
      && (512 <= entnum < 2048 ==> f.mid != NONE)
  {
  }

  /** The number and the flags are not both nothing. */
  predicate Headed(entnum: nat, from: Entity, to: Entity, ext: Ext) {
    entnum < 2048 && (entnum == 0 ==> DeltaFlags(0, from, to, ext).mid != NONE)
  }

  lemma DeltaHeader(entnum: nat, from: Entity, to: Entity, ext: Ext, tail: seq<byte>)
    requires Headed(entnum, from, to, ext)
    ensures var f := DeltaFlags(entnum, from, to, ext);
      !f.Remove() && GetHeader(Start(PutHeader(entnum, f, tail))) == ((entnum, f), Start(tail))
  {
    FlagShape(entnum, from, to, ext);
    HeaderRoundTrip(entnum, DeltaFlags(entnum, from, to, ext), tail);
  }

  lemma WrittenNumber(entnum: nat, from: Entity, to: Entity, force: bool, ext: Ext, tail: seq<byte>)
    requires 0 < entnum < 2048 && Writes(entnum, from, to, force, ext)
    ensures GetHeader(Start(PutDelta(entnum, from, to, force, ext, tail))).0.0 == entnum
  {
    DeltaHeader(entnum, from, to, ext, PutBody(DeltaFlags(entnum, from, to, ext), to, ext, tail));
  }

  /** Reading a delta consumes exactly its bytes and gives the number, no remove flag, and `to` as far
      as the extensions let it through; the reader may hold any state that agrees with `from`. When
      nothing was written, the reader's state is already that. */
  lemma DeltaRoundTrip(entnum: nat, from: Entity, to: Entity, e: Entity, force: bool, ext: Ext, tail: seq<byte>)
    requires Headed(entnum, from, to, ext) && Quantised(to, ext) && Agree(ext, e, from)
    ensures var s := PutDelta(entnum, from, to, force, ext, tail);
      if Writes(entnum, from, to, force, ext) then
        var h := GetHeader(Start(s));
        && h.0.0 == entnum && !h.0.1.Remove()
        && GetBody(h.0.1, e, ext, h.1) == (Overlay(ext, e, to), Start(tail))
      else s == tail && Overlay(ext, e, to) == e
  {
    var f := DeltaFlags(entnum, from, to, ext);
    if Writes(entnum, from, to, force, ext) {
      DeltaHeader(entnum, from, to, ext, PutBody(f, to, ext, tail));
      BodyRoundTrip(entnum, from, to, e, ext, tail);
    } else {
      PickedIsOverlay(entnum, from, to, e, ext);
    }
  }

  /** A forced delta carries its number exactly when the number has 11 bits. */
  lemma NumberSurvives(entnum: nat, from: Entity, to: Entity, ext: Ext, tail: seq<byte>)
    ensures GetHeader(Start(PutDelta(entnum, from, to, true, ext, tail))).0.0 == entnum <==> entnum < 2048
  {
    var f := DeltaFlags(entnum, from, to, ext);
    var rest := PutBody(f, to, ext, tail);
    FlagShape(entnum, from, to, ext);
    if entnum % 512 != 0 || f.mid != NONE {
      HeaderRoundTrip(entnum, f, rest);
      assert NumberOf(entnum, f) < 2048;
    } else {
      EmptyHeader(entnum, f, rest);
    }
  }

  lemma EmptyHeader(entnum: nat, f: Flags, tail: seq<byte>)
    requires entnum % 512 == 0 && f.mid == NONE
    ensures GetHeader(Start(PutHeader(entnum, f, tail))).0.0 == 0
  {
    ValueOfFalse(8);
    assert [false, false, false, false, false, false, false, false] == seq(8, _ => false);
    assert Pack(NONE) == 0;
    ShortRoundTrip(0, PutIf(f.MoreBits(), [Pack(f.low)],
                            PutIf(f.EvenMore(), [Pack(f.ext1)], PutIf(f.YetMore(), [Pack(f.ext2)], tail))));
  }

  lemma {:induction false} ValueOfFalse(n: nat)
    ensures Value(seq(n, _ => false)) == 0
  {
    if n > 0 {
      ValueOfFalse(n - 1);
      assert seq(n, _ => false)[1..] == seq(n - 1, _ => false);
    }
  }
}
