/** The packets of an MVD stream as they are laid out, against the readers that find their way by lengths. */
module MvdFormat {
  import opened Bytes
  import opened StreamForward

  const BODY_LIMIT := 8192

  /** `kind` is the whole second byte: the type in its low three bits, a player or a flag above them. */
  datatype Mvd =
    | Set(time: byte, kind: byte, outgoing: u32, incoming: u32)
    | Multiple(time: byte, kind: byte, mask: u32, body: seq<byte>)
    | Other(time: byte, kind: byte, body: seq<byte>)

  /** dem_set is 2, dem_multiple 3; every other type has the plain form. */
  predicate Proper(p: Mvd) {
    match p
    case Set(_, kind, _, _) => kind % 8 == 2
    case Multiple(_, kind, _, body) => kind % 8 == 3 && |body| <= BODY_LIMIT
    case Other(_, kind, body) => kind % 8 != 2 && kind % 8 != 3 && |body| <= BODY_LIMIT
  }

  function Laid(p: Mvd): seq<byte>
    requires Proper(p)
  {
    match p
    case Set(time, kind, outgoing, incoming) => [time, kind] + (Le32(outgoing) + Le32(incoming))
    case Multiple(time, kind, mask, body) => [time, kind] + (Le32(mask) + (Le32(|body|) + body))
    case Other(time, kind, body) => [time, kind] + (Le32(|body|) + body)
  }

  predicate AllProper(ps: seq<Mvd>) {
    forall i :: 0 <= i < |ps| ==> Proper(ps[i])
  }

  function Pieces(ps: seq<Mvd>): (ss: seq<seq<byte>>)
    requires AllProper(ps)
  {
    seq(|ps|, i requires 0 <= i < |ps| => Laid(ps[i]))
  }

  /** A packet broken off before its end, which may be nothing at all. */
  ghost predicate Unfinished(rest: seq<byte>) {
    exists p :: Proper(p) && rest < Laid(p)
  }

  /** The length word at the place where the layout has it. */
  lemma LengthThere(s: seq<byte>, front: seq<byte>, n: nat, behind: seq<byte>)
    requires n <= BODY_LIMIT && s == front + (Le32(n) + behind)
    ensures LengthWord(s, |front|) == n
  {
    assert s[|front|..|front| + 4] == Le32(n);
    LowValueOfLowBytes(n, 4);
  }

  /** The reader measures a packet by its layout, whatever follows. */
  lemma Measured(p: Mvd, rest: seq<byte>)
    requires Proper(p)
    ensures var s := Laid(p) + rest;
      Whole(s) && PacketSize(s) == |Laid(p)| && s[..|Laid(p)|] == Laid(p) && s[|Laid(p)|..] == rest
  {
    hide Laid, Whole, PacketSize;
    Slices(Laid(p), rest);
    match p
    case Set(time, kind, outgoing, incoming) => SetMeasured(p, rest);
    case Multiple(time, kind, mask, body) => MultipleMeasured(p, rest);
    case Other(time, kind, body) => OtherMeasured(p, rest);
  }

  lemma SetMeasured(p: Mvd, rest: seq<byte>)
    requires Proper(p) && p.Set?
    ensures Whole(Laid(p) + rest) && PacketSize(Laid(p) + rest) == |Laid(p)|
  {
    hide Le32, LengthWord;
    assert (Laid(p) + rest)[1] == p.kind;
  }

  lemma MultipleMeasured(p: Mvd, rest: seq<byte>)
    requires Proper(p) && p.Multiple?
    ensures Whole(Laid(p) + rest) && PacketSize(Laid(p) + rest) == |Laid(p)|
  {
    hide Le32, LengthWord;
    var s, front := Laid(p) + rest, [p.time, p.kind] + Le32(p.mask);
    assert s == front + (Le32(|p.body|) + (p.body + rest)) && s[1] == p.kind;
    LengthThere(s, front, |p.body|, p.body + rest);
  }

  lemma OtherMeasured(p: Mvd, rest: seq<byte>)
    requires Proper(p) && p.Other?
    ensures Whole(Laid(p) + rest) && PacketSize(Laid(p) + rest) == |Laid(p)|
  {
    hide Le32, LengthWord;
    var s := Laid(p) + rest;
    assert s == [p.time, p.kind] + (Le32(|p.body|) + (p.body + rest)) && s[1] == p.kind;
    LengthThere(s, [p.time, p.kind], |p.body|, p.body + rest);
  }

  /** What is broken off is waited for, and nothing about it is wrong. */
  lemma UnfinishedWaits(rest: seq<byte>)
    requires Unfinished(rest)
    ensures !Whole(rest) && WellFormed(rest)
  {
    var p :| Proper(p) && rest < Laid(p);
    Measured(p, []);
    assert Laid(p) + [] == Laid(p);
    if HasHeader(rest) {
      var more := Laid(p)[|rest|..];
      assert rest + more == Laid(p);
      HeaderStable(rest, more);
    }
  }

  /**
   * For any packets laid out one after another, with a broken-off one behind them, the readers see
   * just those packets and all of their bytes.
   */
  lemma {:induction false} PacketsAreThose(ps: seq<Mvd>, rest: seq<byte>)
    requires AllProper(ps) && Unfinished(rest)
    ensures var s := Joined(Pieces(ps), rest);
      && Packets(s) == Pieces(ps) && WellFormed(s)
      && Available(s) == |s| - |rest| && s[Available(s)..] == rest
    decreases |ps|
  {
    UnfinishedWaits(rest);
    if ps == [] {
      assert rest[0..] == rest;
    } else {
      var s, t := Joined(Pieces(ps), rest), Joined(Pieces(ps[1..]), rest);
      assert Pieces(ps)[1..] == Pieces(ps[1..]);
      assert s == Laid(ps[0]) + t;
      PacketsAreThose(ps[1..], rest);
      Measured(ps[0], t);
      assert Pieces(ps) == [Laid(ps[0])] + Pieces(ps[1..]);
      hide Laid, Whole, PacketSize;
      var k := |Laid(ps[0])|;
      assert s[k..] == t && s[k + Available(t)..] == t[Available(t)..];
    }
  }

  lemma {:induction false} OneMore(ps: seq<Mvd>, p: Mvd)
    requires AllProper(ps) && Proper(p)
    ensures AllProper(ps + [p]) && Joined(Pieces(ps + [p]), []) == Joined(Pieces(ps), []) + Laid(p)
    decreases |ps|
  {
    hide Laid;
    if ps == [] {
      assert ps + [p] == [p] && Pieces([p]) == [Laid(p)] && [Laid(p)][1..] == [];
      assert Laid(p) + [] == [] + Laid(p);
    } else {
      assert (ps + [p])[1..] == ps[1..] + [p];
      assert Pieces(ps + [p])[1..] == Pieces((ps + [p])[1..]) && Pieces(ps)[1..] == Pieces(ps[1..]);
      OneMore(ps[1..], p);
      Assoc(Laid(ps[0]), Joined(Pieces(ps[1..]), []), Laid(p));
    }
  }

  /** With nothing broken off, the stream is those packets and no more. */
  lemma NothingBehind(ps: seq<Mvd>)
    requires AllProper(ps)
    ensures var s := Joined(Pieces(ps), []);
      Packets(s) == Pieces(ps) && WellFormed(s) && Available(s) == |s|
  {
    hide Packets, WellFormed, Available, Joined;
    var p := Other(0, 0, []);
    assert [] < Laid(p);
    PacketsAreThose(ps, []);
  }

  function Joined(ss: seq<seq<byte>>, rest: seq<byte>): seq<byte> {
    if ss == [] then rest else ss[0] + Joined(ss[1..], rest)
  }
}
