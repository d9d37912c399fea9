/** A delta byte by byte: which bit stands for which field, and in what order the fields follow. */
module DeltaLayout {
  import opened Bytes
  import opened NetMsg
  import opened EntityDelta

  function Bit(b: bool, weight: nat): nat {
    if b then weight else 0
  }

  function Weighed(o: Octet): nat {
    Bit(o.b0, 1) + Bit(o.b1, 2) + Bit(o.b2, 4) + Bit(o.b3, 8)
    + Bit(o.b4, 16) + Bit(o.b5, 32) + Bit(o.b6, 64) + Bit(o.b7, 128)
  }

  lemma PackWeighs(o: Octet)
    ensures Pack(o) == Weighed(o) && (o == NONE <==> Weighed(o) == 0)
  {
    hide Value;
    ValueOfEight(o.b0, o.b1, o.b2, o.b3, o.b4, o.b5, o.b6, o.b7);
    NothingWeighed(o);
    hide Bit;
  }

  lemma NothingWeighed(o: Octet)
    ensures o == NONE <==> Weighed(o) == 0
  {
  }

  lemma ValueOfEight(a: bool, b: bool, c: bool, d: bool, e: bool, f: bool, g: bool, h: bool)
    ensures Value([a, b, c, d, e, f, g, h])
         == Bit(a, 1) + Bit(b, 2) + Bit(c, 4) + Bit(d, 8) + Bit(e, 16) + Bit(f, 32) + Bit(g, 64) + Bit(h, 128)
  {
    hide Power2;
    ValueOfFour(a, b, c, d, [e, f, g, h]);
    ValueOfFour(e, f, g, h, []);
    assert [a, b, c, d] + [e, f, g, h] == [a, b, c, d, e, f, g, h];
    assert [e, f, g, h] + [] == [e, f, g, h] && Value([]) == 0;
  }

  lemma ValueOfFour(a: bool, b: bool, c: bool, d: bool, tail: seq<bool>)
    ensures Value([a, b, c, d] + tail) == Bit(a, 1) + Bit(b, 2) + Bit(c, 4) + Bit(d, 8) + 16 * Value(tail)
  {
    hide Value, Power2;
    ValueOfOne(d, tail);
    ValueOfOne(c, [d] + tail);
    ValueOfOne(b, [c] + ([d] + tail));
    ValueOfOne(a, [b] + ([c] + ([d] + tail)));
    assert [a, b, c, d] + tail == [a] + ([b] + ([c] + ([d] + tail)));
  }

  lemma ValueOfOne(b: bool, tail: seq<bool>)
    ensures Value([b] + tail) == Bit(b, 1) + 2 * Value(tail)
  {
    assert ([b] + tail)[1..] == tail;
  }

  /** The word in front: nine bits of the number, and seven flags. */
  lemma WordInFront(entnum: nat, o: Octet)
    requires !o.b0
    ensures Le16(entnum % 512 + Pack(o) / 2 * 512) == [entnum % 256, entnum / 256 % 2 + Weighed(o)]
  {
    hide Pack, Le16;
    PackWeighs(o);
    var half := Bit(o.b1, 1) + Bit(o.b2, 2) + Bit(o.b3, 4) + Bit(o.b4, 8)
                + Bit(o.b5, 16) + Bit(o.b6, 32) + Bit(o.b7, 64);
    assert Weighed(o) == 2 * half;
    hide Weighed, Bit;
    NineAndSeven(entnum, half);
  }

  lemma NineAndSeven(entnum: nat, half: nat)
    requires half < 128
    ensures Le16(entnum % 512 + half * 512) == [entnum % 256, entnum / 256 % 2 + 2 * half]
  {
    hide Le16;
    var q, x := entnum / 512, entnum % 512;
    var h, l := x / 256, x % 256;
    LowDigit(l, h + 2 * half);
    LowDigit(l, 2 * q + h);
    assert x + half * 512 == l + 256 * (h + 2 * half) && entnum == l + 256 * (2 * q + h);
    Le16Bytes(x + half * 512);
  }

  /** The last byte of flags: what differs, and the extensions let through. */
  lemma LastFlags(entnum: nat, from: Entity, to: Entity, ext: Ext)
    ensures Weighed(DeltaFlags(entnum, from, to, ext).ext2) ==
            Bit(from.drawflags != to.drawflags && ext.hexen2, 1) + Bit(from.abslight != to.abslight && ext.hexen2, 2)
            + Bit(from.colormod != to.colormod && ext.colourmod, 4) + Bit(from.dpflags != to.dpflags && ext.dpflags, 8)
            + Bit(from.tag != to.tag && ext.setattachment, 16) + Bit(from.light != to.light && ext.dpflags, 32)
            + Bit(from.effects / 256 != to.effects / 256 && ext.dpflags, 64)
  {
    hide Bit, LowFlags, MidFlags, Ext1Flags;
    NoBit(128);
  }

  /** The third: more of that, the number's two high bits, and whether the last one follows. */
  lemma ThirdFlags(entnum: nat, from: Entity, to: Entity, ext: Ext)
    ensures var f := DeltaFlags(entnum, from, to, ext);
      Weighed(f.ext1) ==
        Bit(from.scale != to.scale && ext.scale, 1) + Bit(from.alpha != to.alpha && ext.trans, 2)
        + Bit(from.fatness != to.fatness && ext.fatness, 4)
        + Bit(from.modelindex != to.modelindex && to.modelindex >= 256, 8)
        + Bit(entnum < 2048 && entnum / 512 % 2 == 1, 32) + Bit(1024 <= entnum < 2048, 64)
        + Bit(Weighed(f.ext2) > 0, 128)
  {
    hide Bit, LowFlags, MidFlags, Ext2Flags;
    NothingWeighed(DeltaFlags(entnum, from, to, ext).ext2);
    assert 512 <= entnum < 1024 || 1536 <= entnum < 2048 <==> entnum < 2048 && entnum / 512 % 2 == 1;
    NoBit(16);
  }

  /** The first. */
  lemma FirstFlags(entnum: nat, from: Entity, to: Entity, ext: Ext)
    ensures var f := DeltaFlags(entnum, from, to, ext);
      Weighed(f.low) ==
        Bit(from.angles.x != to.angles.x, 1) + Bit(from.angles.z != to.angles.z, 2)
        + Bit(from.modelindex != to.modelindex && to.modelindex < 512, 4)
        + Bit(from.colormap != to.colormap, 8) + Bit(from.skinnum != to.skinnum, 16)
        + Bit(from.effects % 256 != to.effects % 256, 32) + Bit(Weighed(f.ext1) > 0, 128)
  {
    hide Bit, MidFlags, Ext1Flags, Ext2Flags;
    NothingWeighed(DeltaFlags(entnum, from, to, ext).ext1);
    NoBit(64);
  }

  /** The second, which shares a word with the number. */
  lemma SecondFlags(entnum: nat, from: Entity, to: Entity, ext: Ext)
    ensures var f := DeltaFlags(entnum, from, to, ext);
      Weighed(f.mid) ==
        Bit(from.origin.x != to.origin.x, 2) + Bit(from.origin.y != to.origin.y, 4)
        + Bit(from.origin.z != to.origin.z, 8) + Bit(from.angles.y != to.angles.y, 16)
        + Bit(from.frame != to.frame, 32) + Bit(Weighed(f.low) > 0, 128)
  {
    hide Bit, LowFlags, Ext1Flags, Ext2Flags;
    NothingWeighed(DeltaFlags(entnum, from, to, ext).low);
    NoBit(1);
    NoBit(64);
  }

  lemma NoBit(weight: nat)
    ensures Bit(false, weight) == 0
  {
  }

  /** The header: the number's nine bits with the second byte of flags, then the others as far as they are needed. */
  lemma HeaderWrittenOut(entnum: nat, from: Entity, to: Entity, ext: Ext, tail: seq<byte>)
    ensures var f := DeltaFlags(entnum, from, to, ext);
      PutHeader(entnum, f, tail) ==
        [entnum % 256, entnum / 256 % 2 + Weighed(f.mid)]
        + PutIf(Weighed(f.low) > 0, [Weighed(f.low)], PutIf(Weighed(f.ext1) > 0, [Weighed(f.ext1)],
          PutIf(Weighed(f.ext2) > 0, [Weighed(f.ext2)], tail)))
  {
    hide Pack, Le16, PutIf, Bit;
    var f := DeltaFlags(entnum, from, to, ext);
    PackWeighs(f.low);
    PackWeighs(f.ext1);
    PackWeighs(f.ext2);
    WordInFront(entnum, f.mid);
  }

  // ---- The fields behind it, in order ----

  lemma BasicsWrittenOut(entnum: nat, from: Entity, to: Entity, ext: Ext, tail: seq<byte>)
    ensures PutBasics(DeltaFlags(entnum, from, to, ext), to, tail) ==
        PutIf(from.modelindex != to.modelindex,
              if to.modelindex < 512 then [to.modelindex % 256] else Le16(to.modelindex),
        PutIf(from.frame != to.frame, [to.frame],
        PutIf(from.colormap != to.colormap, [to.colormap],
        PutIf(from.skinnum != to.skinnum, [to.skinnum],
        PutIf(from.effects % 256 != to.effects % 256, [to.effects % 256], tail)))))
  {
    hide Le16, PutIf, Ext2Flags;
    var f, low := DeltaFlags(entnum, from, to, ext), [to.modelindex % 256];
    var rest := PutIf(f.Frame(), [to.frame], PutIf(f.Colormap(), [to.colormap], PutIf(f.Skin(), [to.skinnum],
                PutIf(f.Effects(), [to.effects % 256], tail))));
    NotPut(low, rest);
    NotPut(Le16(to.modelindex), rest);
  }

  lemma NotPut(s: seq<byte>, tail: seq<byte>)
    ensures PutIf(false, s, tail) == tail
  {
  }

  lemma PlaceWrittenOut(entnum: nat, from: Entity, to: Entity, ext: Ext, tail: seq<byte>)
    ensures var o, p, a, b := from.origin, to.origin, from.angles, to.angles;
      PutPlace(DeltaFlags(entnum, from, to, ext), to, ext, tail) ==
        PutIf(o.x != p.x, PutCoord(p.x, ext), PutIf(a.x != b.x, PutAngle(b.x, ext),
        PutIf(o.y != p.y, PutCoord(p.y, ext), PutIf(a.y != b.y, PutAngle(b.y, ext),
        PutIf(o.z != p.z, PutCoord(p.z, ext), PutIf(a.z != b.z, PutAngle(b.z, ext), tail))))))
  {
    hide PutIf, PutCoord, PutAngle, Ext1Flags, Ext2Flags;
  }

  lemma LooksWrittenOut(entnum: nat, from: Entity, to: Entity, ext: Ext, tail: seq<byte>)
    ensures PutLooks(DeltaFlags(entnum, from, to, ext), to, tail) ==
        PutIf(from.scale != to.scale && ext.scale, [to.scale],
        PutIf(from.alpha != to.alpha && ext.trans, [to.alpha],
        PutIf(from.fatness != to.fatness && ext.fatness, [to.fatness],
        PutIf(from.drawflags != to.drawflags && ext.hexen2, [to.drawflags],
        PutIf(from.abslight != to.abslight && ext.hexen2, [to.abslight],
        PutIf(from.colormod != to.colormod && ext.colourmod, [to.colormod.r, to.colormod.g, to.colormod.b],
        PutIf(from.dpflags != to.dpflags && ext.dpflags, [to.dpflags], tail)))))))
  {
    hide PutIf, LowFlags, MidFlags;
  }

  lemma RestWrittenOut(entnum: nat, from: Entity, to: Entity, ext: Ext, tail: seq<byte>)
    ensures var t, l := to.tag, to.light;
      PutRest(DeltaFlags(entnum, from, to, ext), to, tail) ==
        PutIf(from.tag != to.tag && ext.setattachment, Le16(t.entity) + Le16(t.index),
        PutIf(from.light != to.light && ext.dpflags,
              Le16(l.l0) + (Le16(l.l1) + (Le16(l.l2) + (Le16(l.l3) + [l.style, l.pflags]))),
        PutIf(from.effects / 256 != to.effects / 256 && ext.dpflags, [to.effects / 256], tail)))
  {
    hide PutIf, Le16, LowFlags, MidFlags, Ext1Flags;
  }

  /**
   * A delta is nothing exactly when it is not forced and nothing shows, or the number has more than
   * 11 bits; otherwise the header and the four groups of fields.
   */
  lemma DeltaWrittenOut(entnum: nat, from: Entity, to: Entity, force: bool, ext: Ext, tail: seq<byte>)
    ensures var f := DeltaFlags(entnum, from, to, ext);
      PutDelta(entnum, from, to, force, ext, tail) ==
        if !force && (entnum >= 2048 || Weighed(f.mid) == 0) then tail
        else
          PutHeader(entnum, f, PutBasics(f, to, PutPlace(f, to, ext, PutLooks(f, to, PutRest(f, to, tail)))))
  {
    hide Bit, PutHeader, PutBasics, PutPlace, PutLooks, PutRest;
    var f := DeltaFlags(entnum, from, to, ext);
    NothingWeighed(f.low);
    NothingWeighed(f.mid);
    NothingWeighed(f.ext1);
    NothingWeighed(f.ext2);
  }
}
