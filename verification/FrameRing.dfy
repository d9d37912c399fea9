/** The 64 remembered frames at either end, kept in step by delta messages some of which are lost. */
module FrameRing {
  import opened Bytes
  import opened NetMsg
  import opened EntityDelta
  import opened PacketEntities

  const ENTITY_FRAMES := 64
  const SVC_PACKETENTITIES: byte := 47
  const SVC_DELTAPACKETENTITIES: byte := 48

  type Ring = s: seq<seq<Numbered>> | |s| == ENTITY_FRAMES witness seq(ENTITY_FRAMES, _ => [])

  /** Both ends and what they share: `known` are the slots the receiver has from the sender. */
  datatype Link = Link(sent: Ring, got: Ring, known: set<nat>, wbase: Baselines, base: Baselines, ext: Ext)

  /** A message numbered `n`, against frame `delta` (or none), and whether it arrives. */
  datatype Message = Message(n: nat, delta: Option<byte>, to: seq<Numbered>, arrives: bool)

  function Slot(n: nat): nat {
    n % ENTITY_FRAMES
  }

  /** The sender stores the frame first, then writes it against the frame it refers to. */
  function Stored(s: Ring, m: Message): Ring {
    s[Slot(m.n) := m.to]
  }

  function FrameBefore(r: Ring, delta: Option<byte>): seq<Numbered> {
    if delta == None then [] else r[Slot(delta.value)]
  }

  function WriteMessage(l: Link, m: Message): seq<byte>
    requires Listed(FrameBefore(Stored(l.sent, m), m.delta)) && Listed(m.to)
  {
    (if m.delta == None then [SVC_PACKETENTITIES] else [SVC_DELTAPACKETENTITIES, m.delta.value])
    + Emit(FrameBefore(Stored(l.sent, m), m.delta), m.to, l.wbase, l.ext, [])
  }

  /** What the receiver makes of the message: the frame, and what is left to read. */
  function ReadMessage(l: Link, s: seq<byte>): (seq<Numbered>, Cursor) {
    var svc := GetByte(Start(s));
    if svc.0 == SVC_PACKETENTITIES then Parse([], l.base, l.ext, svc.1)
    else
      var d := GetByte(svc.1);
      Parse(FrameBefore(l.got, Some(d.0)), l.base, l.ext, d.1)
  }

  predicate Sendable(l: Link, m: Message) {
    && Listed(m.to) && AllQuantised(m.to, l.ext)
    && (m.delta != None ==> Slot(m.delta.value) in l.known && Slot(m.delta.value) != Slot(m.n))
  }

  function Next(l: Link, m: Message): Link
    requires Inv(l) && Sendable(l, m)
  {
    var sent := Stored(l.sent, m);
    if m.arrives then
      l.(sent := sent, got := l.got[Slot(m.n) := ReadMessage(l, WriteMessage(l, m)).0], known := l.known + {Slot(m.n)})
    else l.(sent := sent, known := l.known - {Slot(m.n)})
  }

  ghost predicate Inv(l: Link) {
    && (forall k :: 0 <= k < ENTITY_FRAMES ==> Listed(l.sent[k]))
    && (forall k :: k in l.known ==> k < ENTITY_FRAMES && AgreeAll(l.ext, l.got[k], l.sent[k]))
    && BaseAgree(l.ext, l.base, l.wbase)
  }

  /** A message against a known frame is read to its last byte and gives the receiver the sender's
      frame, number for number and field for visible field. */
  lemma MessageRoundTrip(l: Link, m: Message)
    requires Inv(l) && Sendable(l, m)
    ensures ReadMessage(l, WriteMessage(l, m)) == (Rebuilt(FrameBefore(l.got, m.delta), l.base, l.ext, m.to), Start([]))
    ensures AgreeAll(l.ext, ReadMessage(l, WriteMessage(l, m)).0, m.to)
  {
    hide Parse, Emit;
    var from := FrameBefore(Stored(l.sent, m), m.delta);
    var bytes := Emit(from, m.to, l.wbase, l.ext, []);
    FrameRoundTrip(from, m.to, l.wbase, FrameBefore(l.got, m.delta), l.base, l.ext, []);
    assert Parses(bytes, FrameBefore(l.got, m.delta), l.base, l.ext,
                  Rebuilt(FrameBefore(l.got, m.delta), l.base, l.ext, m.to), []);
    if m.delta == None {
      ByteRoundTrip(SVC_PACKETENTITIES, bytes);
    } else {
      assert WriteMessage(l, m) == [SVC_DELTAPACKETENTITIES] + ([m.delta.value] + bytes);
      ByteRoundTrip(SVC_DELTAPACKETENTITIES, [m.delta.value] + bytes);
      ByteRoundTrip(m.delta.value, bytes);
    }
  }

  lemma StepKeepsInv(l: Link, m: Message)
    requires Inv(l) && Sendable(l, m)
    ensures Inv(Next(l, m))
  {
    hide ReadMessage, WriteMessage;
    MessageRoundTrip(l, m);
  }

  /**
   * One message, slot by slot: the sender has the new frame in slot `n` modulo 64; the receiver has it,
   * as it looks, exactly when the message arrived, and then knows it; no other slot is touched or forgotten.
   */
  lemma StepExactly(l: Link, m: Message)
    requires Inv(l) && Sendable(l, m)
    ensures var t := Next(l, m);
      && (forall k :: 0 <= k < 64 ==> t.sent[k] == if k == m.n % 64 then m.to else l.sent[k])
      && (forall k :: 0 <= k < 64 && (k != m.n % 64 || !m.arrives) ==> t.got[k] == l.got[k])
      && (forall k :: k in t.known <==> if k == m.n % 64 then m.arrives else k in l.known)
      && (m.arrives ==> AgreeAll(l.ext, t.got[m.n % 64], m.to))
  {
    hide ReadMessage, WriteMessage, AgreeAll;
    MessageRoundTrip(l, m);
  }

  /** A run in which every delta refers to a frame the receiver is known to have. */
  ghost predicate Run(l: Link, ms: seq<Message>, t: Link)
    requires Inv(l)
    decreases |ms|
  {
    if ms == [] then t == l
    else Sendable(l, ms[0]) && (StepKeepsInv(l, ms[0]); Run(Next(l, ms[0]), ms[1..], t))
  }

  /** After any run, lossy as it may be, every known slot holds the sender's frame. */
  lemma {:induction false} KnownSlotsAgree(l: Link, ms: seq<Message>, t: Link)
    requires Inv(l) && Run(l, ms, t)
    ensures forall k :: k in t.known ==> k < ENTITY_FRAMES && AgreeAll(t.ext, t.got[k], t.sent[k])
    decreases |ms|
  {
    if ms != [] {
      StepKeepsInv(l, ms[0]);
      KnownSlotsAgree(Next(l, ms[0]), ms[1..], t);
    }
  }

  lemma {:induction false} EmitSame(s: seq<Numbered>, base: Baselines, ext: Ext, tail: seq<byte>)
    requires Listed(s)
    ensures Emit(s, s, base, ext, tail) == Le16(0) + tail
  {
    hide PutDelta, Le16;
    if s != [] {
      EmitSame(s[1..], base, ext, tail);
      SameWritesNothing(s[0].num, s[0].ent, ext, Le16(0) + tail);
    }
  }

  lemma SameWritesNothing(n: nat, e: Entity, ext: Ext, tail: seq<byte>)
    requires n < 512
    ensures PutDelta(n, e, e, false, ext, tail) == tail
  {
  }

  /** Looking the same is symmetric and transitive, so what one frame agrees with the other does. */
  lemma AgreeAllSame(ext: Ext, a: seq<Numbered>, b: seq<Numbered>, c: seq<Numbered>)
    requires AgreeAll(ext, a, b)
    ensures AgreeAll(ext, a, c) <==> AgreeAll(ext, b, c)
  {
    hide Agree;
    if |a| == |c| {
      forall k | 0 <= k < |a| ensures Agree(ext, a[k].ent, c[k].ent) <==> Agree(ext, b[k].ent, c[k].ent) {
        AgreeSame(ext, a[k].ent, b[k].ent, c[k].ent);
      }
    }
  }

  lemma AgreeSame(ext: Ext, a: Entity, b: Entity, c: Entity)
    requires Agree(ext, a, b)
    ensures Agree(ext, a, c) <==> Agree(ext, b, c)
  {
    SameLow(ext, a, b);
    SameLow(ext, a, c);
    SameLow(ext, b, c);
  }

  /** What agreeing says of the field that is sent in two halves. */
  lemma SameLow(ext: Ext, a: Entity, b: Entity)
    ensures Overlay(ext, a, b).effects == a.effects
       <==> a.effects % 256 == b.effects % 256 && (ext.dpflags ==> a.effects == b.effects)
  {
  }

  /**
   * A delta whose frame shares the slot of the new one compares that frame with itself: the
   * message is empty and the receiver keeps what it had in the slot. The sender can tell
   * beforehand: of a slot the receiver is known to have, the two ends agree exactly when the
   * frame it is about to overwrite there looks like the new one.
   */
  lemma SelfDeltaKeepsOldSlot(l: Link, m: Message)
    requires Inv(l) && Listed(m.to) && m.delta.Some? && Slot(m.delta.value) == Slot(m.n)
    ensures Listed(FrameBefore(Stored(l.sent, m), m.delta))
    ensures ReadMessage(l, WriteMessage(l, m)) == (l.got[Slot(m.n)], Start([]))
    ensures Slot(m.n) in l.known ==>
      (AgreeAll(l.ext, ReadMessage(l, WriteMessage(l, m)).0, m.to) <==> AgreeAll(l.ext, l.sent[Slot(m.n)], m.to))
  {
    hide Emit, AgreeAll;
    assert FrameBefore(Stored(l.sent, m), m.delta) == m.to;
    EmitSame(m.to, l.wbase, l.ext, []);
    var bytes := Le16(0) + [];
    assert WriteMessage(l, m) == [SVC_DELTAPACKETENTITIES] + ([m.delta.value] + bytes);
    ByteRoundTrip(SVC_DELTAPACKETENTITIES, [m.delta.value] + bytes);
    ByteRoundTrip(m.delta.value, bytes);
    ParseNothing(l.got[Slot(m.n)], l.base, l.ext);
    if Slot(m.n) in l.known {
      AgreeAllSame(l.ext, l.got[Slot(m.n)], l.sent[Slot(m.n)], m.to);
    }
  }

  /** A frame the wire can carry, against nothing or against a slot the receiver is known to have. */
  predicate Refers(l: Link, m: Message) {
    Listed(m.to) && AllQuantised(m.to, l.ext) && (m.delta != None ==> Slot(m.delta.value) in l.known)
  }

  /** The receiver rebuilds the sender's frame. */
  ghost predicate Delivers(l: Link, m: Message)
    requires Inv(l) && Refers(l, m)
  {
    AgreeAll(l.ext, ReadMessage(l, WriteMessage(l, m)).0, m.to)
  }

  /** The round trip succeeds exactly when the delta does not share the new frame's slot, or the
      frame there looked the same already. */
  lemma DeliversExactly(l: Link, m: Message)
    requires Inv(l) && Refers(l, m)
    ensures Delivers(l, m)
       <==> m.delta == None || Slot(m.delta.value) != Slot(m.n) || AgreeAll(l.ext, l.sent[Slot(m.n)], m.to)
  {
    hide WriteMessage, ReadMessage, AgreeAll;
    if m.delta == None || Slot(m.delta.value) != Slot(m.n) {
      MessageRoundTrip(l, m);
    } else {
      SelfDeltaKeepsOldSlot(l, m);
    }
  }

  /** What a sender has to check: a delta is good for every new frame exactly when the slots differ. */
  lemma SafeDeltaExactly(l: Link, n: nat, delta: byte, arrives: bool)
    requires Inv(l) && Slot(delta) in l.known
    ensures (forall to :: Refers(l, Message(n, Some(delta), to, arrives)) ==>
               Delivers(l, Message(n, Some(delta), to, arrives)))
       <==> Slot(delta) != Slot(n)
  {
    hide Delivers, Quantised, Inv;
    if Slot(delta) != Slot(n) {
      forall to | Refers(l, Message(n, Some(delta), to, arrives))
        ensures Delivers(l, Message(n, Some(delta), to, arrives)) {
        DeliversExactly(l, Message(n, Some(delta), to, arrives));
      }
    } else {
      var to := if l.sent[Slot(n)] == [] then [Numbered(1, NULL_ENTITY)] else [];
      NullQuantised(l.ext);
      assert Refers(l, Message(n, Some(delta), to, arrives));
      DeliversExactly(l, Message(n, Some(delta), to, arrives));
      assert !Delivers(l, Message(n, Some(delta), to, arrives));
    }
  }

  lemma NullQuantised(ext: Ext)
    ensures Quantised(NULL_ENTITY, ext)
  {
  }

  lemma ParseNothing(prev: seq<Numbered>, base: Baselines, ext: Ext)
    ensures Parse(prev, base, ext, Start(Le16(0) + [])) == (prev, Start([]))
  {
    ShortRoundTrip(0, []);
    hide GetShort, Le16, GetBody;
  }
}
