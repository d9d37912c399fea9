/** Infostrings: backslash-separated keys and values in one bounded C string. */
module InfoString {
  import opened Bytes

  const SLASH: byte := 92
  const QUOTE: byte := 34
  const MAX_INFO_KEY := 64
  const KEYROOM := 1024

  datatype Pair = Pair(key: seq<byte>, value: seq<byte>)

  /** How many characters come before the next backslash or the end. */
  function Span(s: seq<byte>): (n: nat)
    ensures n <= |s| && SLASH !in s[..n] && (n < |s| ==> s[n] == SLASH)
  {
    if s == [] || s[0] == SLASH then 0
    else
      assert s[..1 + Span(s[1..])] == [s[0]] + s[1..][..Span(s[1..])];
      1 + Span(s[1..])
  }

  function Lead(s: seq<byte>): nat {
    if s != [] && s[0] == SLASH then 1 else 0
  }

  /** A piece of `n` characters does not go into a buffer of `room` bytes: one too many for comfort. */
  predicate TooLong(n: nat, room: nat) {
    n > 0 && n + 2 >= room
  }

  /** `Info_ValueForKey` past the leading backslash. */
  function Scan(s: seq<byte>, key: seq<byte>, room: nat): seq<byte>
    decreases |s|
  {
    var k := Span(s);
    if TooLong(k, KEYROOM) || k == |s| then []
    else
      var v := Span(s[k + 1..]);
      if TooLong(v, room) then []
      else if s[..k] == key then s[k + 1..][..v]
      else if k + 1 + v == |s| then []
      else Scan(s[k + 2 + v..], key, room)
  }

  function ValueOf(s: seq<byte>, key: seq<byte>, room: nat): seq<byte> {
    Scan(s[Lead(s)..], key, room)
  }

  /** Where the key of the first pair ends. */
  function KeyEnd(s: seq<byte>): (n: nat)
    ensures Lead(s) <= n <= |s|
  {
    Lead(s) + Span(s[Lead(s)..])
  }

  function PairEnd(s: seq<byte>): (n: nat)
    requires KeyEnd(s) < |s|
    ensures KeyEnd(s) < n <= |s|
  {
    KeyEnd(s) + 1 + Span(s[KeyEnd(s) + 1..])
  }

  /** `Info_RemoveKey` from the place where a pair starts. */
  function Cut(s: seq<byte>, key: seq<byte>): (r: seq<byte>)
    ensures |r| <= |s|
    decreases |s|
  {
    if KeyEnd(s) == |s| then s
    else if s[Lead(s)..KeyEnd(s)] == key then s[PairEnd(s)..]
    else if PairEnd(s) == |s| then s
    else s[..PairEnd(s)] + Cut(s[PairEnd(s)..], key)
  }

  function Removed(s: seq<byte>, key: seq<byte>): (r: seq<byte>)
    ensures |r| <= |s|
  {
    if SLASH in key then s else Cut(s, key)
  }

  predicate Settable(key: seq<byte>, value: seq<byte>) {
    SLASH !in key && SLASH !in value && QUOTE !in key && QUOTE !in value && |key| < MAX_INFO_KEY
    && |value| < MAX_INFO_KEY
  }

  /** Characters up to 13 are dropped on the way in. */
  function Printable(s: seq<byte>): (r: seq<byte>)
    ensures |r| <= |s|
  {
    if s == [] then [] else (if s[0] > 13 then [s[0]] else []) + Printable(s[1..])
  }

  function Entry(key: seq<byte>, value: seq<byte>): seq<byte> {
    [SLASH] + key + [SLASH] + value
  }

  /** `Info_SetValueForStarKey`. */
  function SetIn(s: seq<byte>, key: seq<byte>, value: seq<byte>, maxsize: nat): seq<byte> {
    var was := ValueOf(s, key, KEYROOM);
    if !Settable(key, value) || (was != [] && |value| - |was| + |s| + 1 > maxsize) then s
    else
      var t := Removed(s, key);
      if value == [] || |Entry(key, value)| + |t| + 1 > maxsize then t else t + Printable(Entry(key, value))
  }

  // ---- Well-formed strings are maps ----

  function Render(ps: seq<Pair>): (s: seq<byte>)
    ensures ps != [] ==> s != [] && s[0] == SLASH
  {
    if ps == [] then [] else Entry(ps[0].key, ps[0].value) + Render(ps[1..])
  }

  predicate Sound(p: Pair) {
    SLASH !in p.key && SLASH !in p.value
  }

  predicate AllSound(ps: seq<Pair>) {
    forall i :: 0 <= i < |ps| ==> Sound(ps[i])
  }

  predicate WellFormed(ps: seq<Pair>) {
    && AllSound(ps)
    && (forall i, j :: 0 <= i < j < |ps| ==> ps[i].key != ps[j].key)
  }

  /** The map a list of pairs stands for, absent keys reading as the empty string. */
  function Lookup(ps: seq<Pair>, key: seq<byte>): seq<byte> {
    if ps == [] then [] else if ps[0].key == key then ps[0].value else Lookup(ps[1..], key)
  }

  /** Every piece up to the value of `key`, or all of them without it, goes into its buffer. */
  predicate Readable(ps: seq<Pair>, key: seq<byte>, room: nat) {
    ps == [] || (!TooLong(|ps[0].key|, KEYROOM) && !TooLong(|ps[0].value|, room)
                 && (ps[0].key == key || Readable(ps[1..], key, room)))
  }

  function Without(ps: seq<Pair>, key: seq<byte>): (r: seq<Pair>)
    ensures |r| <= |ps|
  {
    if ps == [] then [] else if ps[0].key == key then ps[1..] else [ps[0]] + Without(ps[1..], key)
  }

  lemma {:induction false} SpanStops(a: seq<byte>, b: seq<byte>)
    requires SLASH !in a && (b == [] || b[0] == SLASH)
    ensures Span(a + b) == |a|
  {
    if a == [] {
      assert a + b == b;
    } else {
      assert (a + b)[1..] == a[1..] + b;
      SpanStops(a[1..], b);
    }
  }

  /** The pieces of a rendered string, as the scanners see them. */
  lemma FirstPair(p: Pair, tail: seq<byte>)
    requires Sound(p) && (tail == [] || tail[0] == SLASH)
    ensures var s := Entry(p.key, p.value) + tail;
            var t := s[1..];
            && Lead(s) == 1 && Span(t) == |p.key| < |t| && t[..|p.key|] == p.key
            && Span(t[|p.key| + 1..]) == |p.value| && t[|p.key| + 1..][..|p.value|] == p.value
            && s[|p.key| + |p.value| + 2..] == tail && |s| == |p.key| + |p.value| + 2 + |tail|
            && s[..|p.key| + |p.value| + 2] == Entry(p.key, p.value)
  {
    hide Entry, Span;
    EntryShape(p, tail);
    var s := Entry(p.key, p.value) + tail;
    var v := p.value + tail;
    var t := p.key + ([SLASH] + v);
    assert s[1..] == t;
    Slices(p.key, [SLASH] + v);
    assert t[|p.key| + 1..] == v;
    Slices(p.value, tail);
    Slices(Entry(p.key, p.value), tail);
    SpanStops(p.key, [SLASH] + v);
    SpanStops(p.value, tail);
  }

  lemma EntryShape(p: Pair, tail: seq<byte>)
    ensures Entry(p.key, p.value) + tail == [SLASH] + (p.key + ([SLASH] + (p.value + tail)))
    ensures |Entry(p.key, p.value)| == |p.key| + |p.value| + 2
  {
  }

  lemma ScanPair(p: Pair, tail: seq<byte>, key: seq<byte>, room: nat)
    requires Sound(p) && (tail == [] || tail[0] == SLASH)
    ensures Scan((Entry(p.key, p.value) + tail)[1..], key, room)
         == if TooLong(|p.key|, KEYROOM) || TooLong(|p.value|, room) then []
            else if p.key == key then p.value
            else if tail == [] then [] else Scan(tail[1..], key, room)
  {
    hide Entry, Span, Scan, TooLong;
    FirstPair(p, tail);
    var t := (Entry(p.key, p.value) + tail)[1..];
    ScanStep(t, |p.key|, |p.value|, key, room);
    if tail != [] {
      assert t[|p.key| + 1 + |p.value|..] == tail;
      assert t[|p.key| + 2 + |p.value|..] == tail[1..];
    }
  }

  lemma ScanStep(t: seq<byte>, k: nat, v: nat, key: seq<byte>, room: nat)
    requires Span(t) == k < |t| && Span(t[k + 1..]) == v
    ensures Scan(t, key, room)
         == if TooLong(k, KEYROOM) || TooLong(v, room) then []
            else if t[..k] == key then t[k + 1..][..v]
            else if k + 1 + v == |t| then [] else Scan(t[k + 2 + v..], key, room)
  {
    hide Span, TooLong;
    if TooLong(k, KEYROOM) || TooLong(v, room) || t[..k] == key {
    } else if k + 1 + v == |t| {
    } else {
      assert Scan(t, key, room) == Scan(t[k + 2 + v..], key, room);
    }
  }

  /** What a lookup finds, exactly: the value, or nothing once a piece too long is in the way. */
  lemma {:induction false} ValueOfRender(ps: seq<Pair>, key: seq<byte>, room: nat)
    requires AllSound(ps)
    ensures ValueOf(Render(ps), key, room) == if Readable(ps, key, room) then Lookup(ps, key) else []
  {
    if ps != [] {
      ScanPair(ps[0], Render(ps[1..]), key, room);
      hide Scan, TooLong;
      ValueOfRender(ps[1..], key, room);
      if ps[1..] == [] {
        EmptyScan(key, room);
      }
    } else {
      EmptyScan(key, room);
    }
  }

  lemma EmptyScan(key: seq<byte>, room: nat)
    ensures Scan([], key, room) == []
  {
  }

  lemma PairEndOf(p: Pair, tail: seq<byte>)
    requires Sound(p) && (tail == [] || tail[0] == SLASH)
    ensures var s := Entry(p.key, p.value) + tail;
            && Lead(s) == 1 && KeyEnd(s) == |p.key| + 1 < |s| && s[1..KeyEnd(s)] == p.key
            && PairEnd(s) == |p.key| + |p.value| + 2 && s[..PairEnd(s)] == Entry(p.key, p.value)
            && s[PairEnd(s)..] == tail
  {
    FirstPair(p, tail);
    var s := Entry(p.key, p.value) + tail;
    assert s[1..][..|p.key|] == s[1..|p.key| + 1] && s[1..][|p.key| + 1..] == s[|p.key| + 2..];
  }

  lemma {:induction false} CutRender(ps: seq<Pair>, key: seq<byte>)
    requires AllSound(ps)
    ensures Cut(Render(ps), key) == Render(Without(ps, key))
  {
    if ps != [] {
      var p, tail := ps[0], Render(ps[1..]);
      PairEndOf(p, tail);
      if p.key != key {
        CutRender(ps[1..], key);
        assert ([p] + Without(ps[1..], key))[1..] == Without(ps[1..], key);
        if ps[1..] == [] {
          assert Entry(p.key, p.value) + [] == Entry(p.key, p.value);
        }
      }
    }
  }

  lemma {:induction false} RenderAppend(ps: seq<Pair>, p: Pair)
    ensures Render(ps + [p]) == Render(ps) + Entry(p.key, p.value)
  {
    if ps == [] {
      assert ps + [p] == [p] && [p][1..] == [];
    } else {
      assert (ps + [p])[1..] == ps[1..] + [p];
      RenderAppend(ps[1..], p);
    }
  }

  lemma {:induction false} LookupAppend(ps: seq<Pair>, p: Pair, k: seq<byte>)
    ensures Lookup(ps + [p], k) == if k == p.key && k !in Keys(ps) then p.value else Lookup(ps, k)
  {
    if ps == [] {
      assert ps + [p] == [p] && [p][1..] == [];
      assert Lookup([p][1..], k) == [];
    } else {
      assert (ps + [p])[1..] == ps[1..] + [p];
      KeyInFrontOrBehind(ps, k);
      LookupAppend(ps[1..], p, k);
    }
  }

  lemma KeyInFrontOrBehind(ps: seq<Pair>, k: seq<byte>)
    requires ps != []
    ensures k in Keys(ps) <==> ps[0].key == k || k in Keys(ps[1..])
  {
    if k in Keys(ps) {
      var i :| 0 <= i < |ps| && ps[i].key == k;
      if i > 0 {
        assert ps[1..][i - 1].key == k;
      }
    }
    if k in Keys(ps[1..]) {
      var i :| 0 <= i < |ps[1..]| && ps[1..][i].key == k;
      assert ps[i + 1].key == k;
    }
  }

  function Keys(ps: seq<Pair>): set<seq<byte>> {
    set i | 0 <= i < |ps| :: ps[i].key
  }

  /** Removing a key takes that binding away and no other. */
  lemma {:induction false} WithoutIs(ps: seq<Pair>, key: seq<byte>)
    requires WellFormed(ps)
    ensures WellFormed(Without(ps, key)) && Keys(Without(ps, key)) == Keys(ps) - {key}
    ensures forall k :: Lookup(Without(ps, key), k) == if k == key then [] else Lookup(ps, k)
    ensures |Render(Without(ps, key))| == |Render(ps)| - if key in Keys(ps) then |key| + |Lookup(ps, key)| + 2 else 0
  {
    if ps != [] {
      KeysCons(ps);
      if ps[0].key == key {
        forall k ensures Lookup(ps[1..], k) == if k == key then [] else Lookup(ps, k) {
          if k == key {
            NotFound(ps[1..], key);
          }
        }
      } else {
        WithoutIs(ps[1..], key);
        ConsKeys(ps[0], Without(ps[1..], key));
        assert ([ps[0]] + Without(ps[1..], key))[1..] == Without(ps[1..], key);
      }
    }
  }

  lemma ConsKeys(p: Pair, ps: seq<Pair>)
    requires Sound(p) && WellFormed(ps) && p.key !in Keys(ps)
    ensures WellFormed([p] + ps) && Keys([p] + ps) == {p.key} + Keys(ps)
  {
    var r := [p] + ps;
    assert forall i :: 1 <= i < |r| ==> r[i] == ps[i - 1];
    forall i | 1 <= i < |r| ensures r[i].key in Keys(ps) && r[i].key != p.key {
      assert ps[i - 1].key in Keys(ps);
    }
    forall k | k in {p.key} + Keys(ps) ensures k in Keys(r) {
      if k == p.key {
        assert r[0].key == k;
      } else {
        var i :| 0 <= i < |ps| && ps[i].key == k;
        assert r[i + 1].key == k;
      }
    }
  }

  lemma KeysCons(ps: seq<Pair>)
    requires WellFormed(ps) && ps != []
    ensures WellFormed(ps[1..]) && Keys(ps) == {ps[0].key} + Keys(ps[1..]) && ps[0].key !in Keys(ps[1..])
  {
    assert forall i :: 0 <= i < |ps[1..]| ==> ps[1..][i] == ps[i + 1];
    forall k | k in Keys(ps) ensures k in {ps[0].key} + Keys(ps[1..]) {
      var i :| 0 <= i < |ps| && ps[i].key == k;
      if i > 0 {
        assert ps[1..][i - 1].key == k;
      }
    }
  }

  lemma {:induction false} NotFound(ps: seq<Pair>, key: seq<byte>)
    requires key !in Keys(ps)
    ensures Lookup(ps, key) == []
  {
    if ps != [] {
      assert ps[0].key in Keys(ps);
      assert forall k :: k in Keys(ps[1..]) ==> k in Keys(ps) by {
        forall k | k in Keys(ps[1..]) ensures k in Keys(ps) {
          var i :| 0 <= i < |ps[1..]| && ps[1..][i].key == k;
          assert ps[i + 1].key == k;
        }
      }
      NotFound(ps[1..], key);
    }
  }

  lemma {:induction false} PrintableKeeps(s: seq<byte>, c: byte)
    requires c !in s
    ensures c !in Printable(s)
  {
    if s != [] {
      PrintableKeeps(s[1..], c);
    }
  }

  lemma {:induction false} PrintableAppend(a: seq<byte>, b: seq<byte>)
    ensures Printable(a + b) == Printable(a) + Printable(b)
  {
    if a == [] {
      assert a + b == b;
    } else {
      assert (a + b)[1..] == a[1..] + b;
      PrintableAppend(a[1..], b);
    }
  }

  lemma {:induction false} PrintablePlain(s: seq<byte>)
    ensures Plain(Printable(s)) && (Plain(s) ==> Printable(s) == s)
  {
    if s != [] {
      PrintablePlain(s[1..]);
      assert s == [s[0]] + s[1..];
    }
  }

  lemma PrintableEntry(key: seq<byte>, value: seq<byte>)
    ensures Printable(Entry(key, value)) == Entry(Printable(key), Printable(value))
  {
    hide Printable;
    PrintableAppend([SLASH] + key + [SLASH], value);
    PrintableAppend([SLASH] + key, [SLASH]);
    PrintableAppend([SLASH], key);
    PrintablePlain([SLASH]);
  }

  /** Nothing but characters above 13. */
  predicate Plain(s: seq<byte>) {
    forall i :: 0 <= i < |s| ==> s[i] > 13
  }

  /** There is room for the string with the new value in place of the old one. */
  predicate Accepted(ps: seq<Pair>, key: seq<byte>, value: seq<byte>, maxsize: nat) {
    Settable(key, value) && |Render(Without(ps, key))| + (if value == [] then 0 else |Entry(key, value)|) + 1 <= maxsize
  }

  /**
   * A set is accepted exactly when neither string has a backslash or a quote in it or 64 characters,
   * and the text with the new pair in place of the old one leaves room for the terminator.
   */
  lemma AcceptedExactly(ps: seq<Pair>, key: seq<byte>, value: seq<byte>, maxsize: nat)
    requires WellFormed(ps)
    ensures var gone := if key in Keys(ps) then |key| + |Lookup(ps, key)| + 2 else 0;
            var added := if value == [] then 0 else |key| + |value| + 2;
      Accepted(ps, key, value, maxsize)
      <==> 92 !in key && 34 !in key && 92 !in value && 34 !in value && |key| < 64 && |value| < 64
           && |Render(ps)| - gone + added < maxsize
  {
    hide Render, Without, WellFormed;
    WithoutIs(ps, key);
    EntryShape(Pair(key, value), []);
  }

  /** A value comes back into a buffer of `room` bytes exactly when it leaves two of them, or is empty. */
  lemma AloneReadsBack(p: Pair, room: nat)
    requires Sound(p) && |p.key| + 2 < 1024
    ensures ValueOf(Entry(p.key, p.value), p.key, room) == p.value <==> p.value == [] || |p.value| + 2 < room
  {
    hide Scan;
    ScanPair(p, [], p.key, room);
    assert Entry(p.key, p.value) + [] == Entry(p.key, p.value);
    assert Lead(Entry(p.key, p.value)) == 1;
  }

  /** Characters up to 13, newline and carriage return among them, are dropped, and no others. */
  lemma PrintableOne(c: byte)
    ensures Printable([c]) == if c <= 13 then [] else [c]
  {
    assert [c][1..] == [];
    EmptyPrints();
  }

  /** What an accepted set appends: key and value both less their control characters. */
  function Appended(key: seq<byte>, value: seq<byte>): Pair {
    Pair(Printable(key), Printable(value))
  }

  /** The pairs after a set. */
  function SetPairs(ps: seq<Pair>, key: seq<byte>, value: seq<byte>, maxsize: nat): seq<Pair> {
    if !Settable(key, value) || (Lookup(ps, key) != [] && !Accepted(ps, key, value, maxsize)) then ps
    else if value == [] || !Accepted(ps, key, value, maxsize) then Without(ps, key)
    else Without(ps, key) + [Appended(key, value)]
  }

  /** The map after a set, `k` being looked up and `was` what was found before. */
  function Updated(ps: seq<Pair>, key: seq<byte>, value: seq<byte>, maxsize: nat, k: seq<byte>,
                   was: seq<byte>): seq<byte> {
    var name := Printable(key);
    if !Accepted(ps, key, value, maxsize) then was
    else if value != [] && k == name && (k == key || k !in Keys(ps)) then Printable(value)
    else if k == key then [] else was
  }

  /** A set appends under a name that another pair has already. */
  predicate Shadowed(ps: seq<Pair>, key: seq<byte>, value: seq<byte>, maxsize: nat) {
    Accepted(ps, key, value, maxsize) && value != [] && !Plain(key) && Printable(key) in Keys(ps)
  }

  /**
   * A set that fits takes the old value of its key away and gives the new one, less its control
   * characters, to the key less its own, unless a pair of that name is there already and hides
   * it; one that does not fit changes no lookup at all. No other lookup is touched, the string
   * stays within its bound, and keys stay unique except in that one case.
   */
  lemma SetIsMapUpdate(ps: seq<Pair>, key: seq<byte>, value: seq<byte>, maxsize: nat)
    requires WellFormed(ps) && |Render(ps)| + 1 <= maxsize
    ensures var r := SetPairs(ps, key, value, maxsize);
            && AllSound(r) && |Render(r)| + 1 <= maxsize
            && (WellFormed(r) <==> !Shadowed(ps, key, value, maxsize))
            && forall k :: Lookup(r, k) == Updated(ps, key, value, maxsize, k, Lookup(ps, k))
  {
    WithoutIs(ps, key);
    var t, p := Without(ps, key), Appended(key, value);
    if Settable(key, value) && Accepted(ps, key, value, maxsize) && value != [] {
      PrintableKeeps(key, SLASH);
      PrintableKeeps(value, SLASH);
      PrintablePlain(key);
      RenderAppend(t, p);
      UniqueAppend(t, p);
      hide WellFormed, Printable, Plain, Render;
      forall k ensures Lookup(t + [p], k) == Updated(ps, key, value, maxsize, k, Lookup(ps, k)) {
        LookupAppend(t, p, k);
      }
    }
  }

  lemma UniqueAppend(t: seq<Pair>, p: Pair)
    requires WellFormed(t) && Sound(p)
    ensures AllSound(t + [p]) && (WellFormed(t + [p]) <==> p.key !in Keys(t))
  {
    var r := t + [p];
    if p.key in Keys(t) {
      var i :| 0 <= i < |t| && t[i].key == p.key;
      assert r[i].key == r[|t|].key;
    } else {
      assert forall i :: 0 <= i < |t| ==> r[i] == t[i] && t[i].key in Keys(t);
    }
  }

  lemma {:induction false} PartsFit(ps: seq<Pair>, key: seq<byte>, room: nat)
    requires |Render(ps)| + 1 <= room <= KEYROOM
    ensures Readable(ps, key, room)
  {
    if ps != [] {
      PartsFit(ps[1..], key, room);
    }
  }

  /** On a well-formed string the code does to the text what the set does to the pairs. */
  lemma SetRenders(ps: seq<Pair>, key: seq<byte>, value: seq<byte>, maxsize: nat)
    requires WellFormed(ps) && |Render(ps)| + 1 <= maxsize <= KEYROOM
    ensures SetIn(Render(ps), key, value, maxsize) == Render(SetPairs(ps, key, value, maxsize))
  {
    hide ValueOf, Cut, Readable, Printable;
    PartsFit(ps, key, KEYROOM);
    ValueOfRender(ps, key, KEYROOM);
    CutRender(ps, key);
    WithoutIs(ps, key);
    hide WellFormed;
    if Lookup(ps, key) != [] && key !in Keys(ps) {
      NotFound(ps, key);
    }
    if Settable(key, value) && value != [] {
      RenderAppend(Without(ps, key), Appended(key, value));
      PrintableEntry(key, value);
    }
  }

  /**
   * A lookup in the text after a set. For a key without control characters: the new value less
   * its own under that key if the set was accepted, and what was there before in every other
   * case. A key with some is filtered too, so that its value goes to another key, or to none.
   */
  lemma SetThenLookup(ps: seq<Pair>, key: seq<byte>, value: seq<byte>, maxsize: nat, k: seq<byte>)
    requires WellFormed(ps) && |Render(ps)| + 1 <= maxsize <= KEYROOM
    ensures var was := ValueOf(Render(ps), k, KEYROOM);
            && ValueOf(SetIn(Render(ps), key, value, maxsize), k, KEYROOM) == Updated(ps, key, value, maxsize, k, was)
            && (Plain(key) ==> Updated(ps, key, value, maxsize, k, was)
                               == if Accepted(ps, key, value, maxsize) && k == key then Printable(value) else was)
  {
    var r := SetPairs(ps, key, value, maxsize);
    PrintablePlain(key);
    EmptyPrints();
    hide ValueOf, SetIn, SetPairs, Readable, Accepted, Printable, Plain;
    SetRenders(ps, key, value, maxsize);
    SetIsMapUpdate(ps, key, value, maxsize);
    PartsFit(ps, k, KEYROOM);
    PartsFit(r, k, KEYROOM);
    ValueOfRender(ps, k, KEYROOM);
    ValueOfRender(r, k, KEYROOM);
  }

  lemma EmptyPrints()
    ensures Printable([]) == []
  {
  }

  /**
   * The key just set reads back as the value given exactly when the set was accepted and neither
   * has control characters, or the value is empty, or it was refused and the key had that value
   * already.
   */
  lemma GivenBackExactly(ps: seq<Pair>, key: seq<byte>, value: seq<byte>, maxsize: nat)
    requires WellFormed(ps) && |Render(ps)| + 1 <= maxsize <= KEYROOM
    ensures ValueOf(SetIn(Render(ps), key, value, maxsize), key, KEYROOM) == value
       <==> if Accepted(ps, key, value, maxsize) then value == [] || (Plain(key) && Plain(value))
            else Lookup(ps, key) == value
  {
    PrintablePlain(key);
    PrintablePlain(value);
    hide WellFormed, ValueOf, SetIn, Readable, Accepted, Printable;
    SetThenLookup(ps, key, value, maxsize, key);
    PartsFit(ps, key, KEYROOM);
    FoundRender(ps, key);
  }

  lemma FoundRender(ps: seq<Pair>, key: seq<byte>)
    requires WellFormed(ps) && Readable(ps, key, KEYROOM)
    ensures ValueOf(Render(ps), key, KEYROOM) == Lookup(ps, key)
  {
    hide ValueOf, Readable;
    ValueOfRender(ps, key, KEYROOM);
  }

  /** The text still stands for a map, each key in it once, exactly when the name appended is new. */
  lemma StaysUniqueExactly(ps: seq<Pair>, key: seq<byte>, value: seq<byte>, maxsize: nat)
    requires WellFormed(ps) && |Render(ps)| + 1 <= maxsize <= KEYROOM
    ensures var r := SetPairs(ps, key, value, maxsize);
            SetIn(Render(ps), key, value, maxsize) == Render(r)
            && (WellFormed(r) <==> !Shadowed(ps, key, value, maxsize))
  {
    hide WellFormed, SetIn, SetPairs, Shadowed;
    SetRenders(ps, key, value, maxsize);
    SetIsMapUpdate(ps, key, value, maxsize);
  }

  /** The key "a" with a control character behind it loses "v", and a second "a" can come to stand behind the first. */
  lemma FilteredKeyLosesValue()
    ensures var key := [97, 1];
            && Accepted([], key, [118], 100) && Plain([118])
            && ValueOf(SetIn(Render([]), key, [118], 100), key, KEYROOM) != [118]
            && Shadowed([Pair([97], [120])], key, [118], 100)
  {
    var key: seq<byte>, p := [97, 1], Pair([97], [120]);
    assert Render([]) == [] && !Plain(key) by { assert key[1] == 1; }
    assert Printable([1]) == [] by { assert [1][1..] == []; EmptyPrints(); }
    assert Printable(key) == [97] by { assert key[1..] == [1]; }
    assert Without([p], key) == [p] by { assert [p][1..] == [] && [p] + Without([], key) == [p]; }
    assert Render([p]) == Entry([97], [120]) by {
      assert [p][1..] == [] && Entry([97], [120]) + [] == Entry([97], [120]);
    }
    assert [97] in Keys([p]) by { assert [p][0].key == [97]; }
    GivenBackExactly([], key, [118], 100);
  }

  // ---- The same, in the buffer that holds the string ----

  /** The C string `s` is what the array holds. */
  ghost predicate Holds(a: array<byte>, s: seq<byte>)
    reads a
  {
    |s| < a.Length && a[..|s|] == s && a[|s|] == 0 && 0 !in s
  }

  lemma SpanMore(s: seq<byte>, i: nat)
    requires i <= |s|
    ensures Span(s[i..]) == if i == |s| || s[i] == SLASH then 0 else 1 + Span(s[i + 1..])
  {
    if i < |s| {
      assert s[i..][1..] == s[i + 1..];
    }
  }

  /** The characters up to the next backslash or the end; `full` when they are too many. */
  method ReadPiece(a: array<byte>, ghost s: seq<byte>, i: nat, room: nat) returns (j: nat, piece: seq<byte>, full: bool)
    requires Holds(a, s) && i <= |s|
    ensures full == TooLong(Span(s[i..]), room)
    ensures !full ==> j == i + Span(s[i..]) <= |s| && piece == s[i..j]
  {
    j, piece, full := i, [], false;
    SpanMore(s, i);
    while a[j] != SLASH && a[j] != 0
      invariant i <= j <= |s| && piece == s[i..j]
      invariant Span(s[i..]) == j - i + Span(s[j..])
      invariant !TooLong(j - i, room)
      invariant Span(s[j..]) == if j == |s| || s[j] == SLASH then 0 else 1 + Span(s[j + 1..])
      decreases |s| - j
    {
      piece := piece + [a[j]];
      j := j + 1;
      SpanMore(s, j);
      if |piece| + 2 >= room {
        return j, piece, true;
      }
    }
  }

  /** One turn of the search, in terms of places in the whole string. */
  lemma ScanAt(s: seq<byte>, i: nat, key: seq<byte>, room: nat)
    requires i <= |s|
    ensures var j := i + Span(s[i..]);
            Scan(s[i..], key, room) ==
            if TooLong(j - i, KEYROOM) || j == |s| then []
            else
              var k := j + 1 + Span(s[j + 1..]);
              if TooLong(k - j - 1, room) then []
              else if s[i..j] == key then s[j + 1..k]
              else if k == |s| then [] else Scan(s[k + 1..], key, room)
  {
    hide Span, TooLong, Scan;
    var t, j := s[i..], i + Span(s[i..]);
    if j == |s| {
      NoPair(t, key, room);
    } else {
      var k := j + 1 + Span(s[j + 1..]);
      assert t[j - i + 1..] == s[j + 1..];
      ScanStep(t, j - i, k - j - 1, key, room);
      assert s[j + 1..][..k - j - 1] == s[j + 1..k] && t[..j - i] == s[i..j];
      if k < |s| {
        assert t[j - i + 2 + (k - j - 1)..] == s[k + 1..];
      }
    }
  }

  lemma NoPair(t: seq<byte>, key: seq<byte>, room: nat)
    requires TooLong(Span(t), KEYROOM) || Span(t) == |t|
    ensures Scan(t, key, room) == []
  {
  }

  method ValueForKey(a: array<byte>, ghost s: seq<byte>, key: seq<byte>, buffersize: nat) returns (r: seq<byte>)
    requires Holds(a, s)
    ensures r == ValueOf(s, key, buffersize)
  {
    hide Scan, Span, TooLong;
    var i := if a[0] == SLASH then 1 else 0;
    while true
      invariant 0 <= i <= |s| && Scan(s[i..], key, buffersize) == ValueOf(s, key, buffersize)
      decreases |s| - i
    {
      ScanAt(s, i, key, buffersize);
      var j, pkey, full := ReadPiece(a, s, i, KEYROOM);
      if full || a[j] == 0 {
        return [];
      }
      var k, value, full' := ReadPiece(a, s, j + 1, buffersize);
      if full' {
        return [];
      }
      if key == pkey {
        return value;
      }
      if a[k] == 0 {
        return [];
      }
      i := k + 1;
    }
  }

  /** The rest of the string from `end` moved down to `start`. */
  method CloseGap(a: array<byte>, ghost s: seq<byte>, start: nat, end: nat)
    requires Holds(a, s) && start <= end <= |s|
    modifies a
    ensures Holds(a, s[..start] + s[end..])
  {
    var to, from := start, end;
    ghost var done := s[..start];
    while a[from] != 0
      invariant start <= to <= from <= |s| && to == |done| && a[..to] == done
      invariant done + s[from..] == s[..start] + s[end..]
      invariant forall k :: from <= k < |s| ==> a[k] == s[k]
      invariant a[|s|] == 0
      decreases |s| - from
    {
      TakeOne(done, s, from);
      Push(a, to, a[from]);
      done := done + [s[from]];
      to, from := to + 1, from + 1;
    }
    assert s[|s|..] == [] && done + [] == done;
    a[to] := 0;
    assert a[..to] == done;
  }

  lemma PairAt(s: seq<byte>, start: nat, i: nat)
    requires start <= i <= |s| && i == start + Lead(s[start..])
    ensures var t, j := s[start..], i + Span(s[i..]);
            && KeyEnd(t) == j - start && t[Lead(t)..j - start] == s[i..j]
            && (j < |s| ==>
              var k := j + 1 + Span(s[j + 1..]);
              PairEnd(t) == k - start && t[k - start..] == s[k..] && t[..k - start] == s[start..k])
  {
    hide Lead, Span;
    var t, j := s[start..], i + Span(s[i..]);
    assert t[Lead(t)..] == s[i..];
    if j < |s| {
      assert t[j - start + 1..] == s[j + 1..];
    }
  }

  /** One turn of the removal, in terms of places in the whole string. */
  lemma CutTo(s: seq<byte>, start: nat, i: nat, j: nat, k: nat, key: seq<byte>)
    requires start <= i <= j <= |s| && i == start + Lead(s[start..]) && j == i + Span(s[i..])
    requires j < |s| ==> k == j + 1 + Span(s[j + 1..])
    ensures j == |s| ==> Cut(s[start..], key) == s[start..]
    ensures j < |s| ==> j < k <= |s|
    ensures j < |s| && s[i..j] == key ==> Cut(s[start..], key) == s[k..]
    ensures j < |s| && s[i..j] != key ==>
      Cut(s[start..], key) == if k == |s| then s[start..] else s[start..k] + Cut(s[k..], key)
  {
    hide Lead, Span, KeyEnd, PairEnd, Cut;
    var t := s[start..];
    PairAt(s, start, i);
    if j < |s| {
      CutPair(t, key, s[i..j], s[start..k], s[k..]);
    } else {
      CutUnfold(t, key);
    }
  }

  lemma CutPair(t: seq<byte>, key: seq<byte>, piece: seq<byte>, pair: seq<byte>, rest: seq<byte>)
    requires KeyEnd(t) < |t| && t[Lead(t)..KeyEnd(t)] == piece && t[..PairEnd(t)] == pair && t[PairEnd(t)..] == rest
    ensures Cut(t, key) == if piece == key then rest else if rest == [] then t else pair + Cut(rest, key)
  {
    hide KeyEnd, PairEnd, Lead, Cut;
    CutUnfold(t, key);
  }

  lemma CutUnfold(t: seq<byte>, key: seq<byte>)
    ensures Cut(t, key) ==
            if KeyEnd(t) == |t| then t
            else if t[Lead(t)..KeyEnd(t)] == key then t[PairEnd(t)..]
            else if PairEnd(t) == |t| then t
            else t[..PairEnd(t)] + Cut(t[PairEnd(t)..], key)
  {
    hide KeyEnd, PairEnd, Lead;
  }

  lemma CutGoesOn(s: seq<byte>, start: nat, k: nat, key: seq<byte>)
    requires start <= k <= |s| && Cut(s, key) == s[..start] + Cut(s[start..], key)
    requires Cut(s[start..], key) == s[start..k] + Cut(s[k..], key)
    ensures Cut(s, key) == s[..k] + Cut(s[k..], key)
  {
    hide Cut;
    assert s[..start] + (s[start..k] + Cut(s[k..], key)) == s[..k] + Cut(s[k..], key);
  }

  /** Every piece goes into the local copies, which are not checked. */
  ghost predicate CopiesFit(s: seq<byte>) {
    forall i :: 0 <= i <= |s| ==> Span(s[i..]) < KEYROOM
  }

  method RemoveKey(a: array<byte>, ghost s: seq<byte>, key: seq<byte>)
    requires Holds(a, s) && CopiesFit(s)
    modifies a
    ensures Holds(a, Removed(s, key))
  {
    if SLASH in key {
      return;
    }
    hide Cut, Span, Holds, Lead;
    var start := 0;
    CutStarts(s, key);
    while true
      invariant 0 <= start <= |s| && Holds(a, s) && Cut(s, key) == s[..start] + Cut(s[start..], key)
      decreases |s| - start
    {
      CutEnds(s, start, key);
      var j, k, found := ReadPair(a, s, start, key);
      if a[j] == 0 {
        return;
      }
      if found {
        CloseGap(a, s, start, k);
        return;
      }
      if a[k] == 0 {
        return;
      }
      CutGoesOn(s, start, k, key);
      start := k;
    }
  }

  lemma CutStarts(s: seq<byte>, key: seq<byte>)
    ensures Cut(s, key) == s[..0] + Cut(s[0..], key)
  {
    hide Cut;
    assert s[0..] == s && s[..0] + Cut(s, key) == Cut(s, key);
  }

  lemma CutEnds(s: seq<byte>, start: nat, key: seq<byte>)
    requires start <= |s| && Cut(s, key) == s[..start] + Cut(s[start..], key)
    ensures Cut(s[start..], key) == s[start..] ==> Cut(s, key) == s
  {
    hide Cut;
    assert s[..start] + s[start..] == s;
  }

  lemma LeadAt(s: seq<byte>, start: nat)
    requires start <= |s|
    ensures Lead(s[start..]) == if start < |s| && s[start] == SLASH then 1 else 0
  {
  }

  /** The key that starts at `start` and ends at `j` and its value up to `k`, read into the local copies. */
  method ReadPair(a: array<byte>, ghost s: seq<byte>, start: nat, key: seq<byte>) returns (j: nat, k: nat, found: bool)
    requires Holds(a, s) && CopiesFit(s) && start <= |s|
    ensures j <= |s| < a.Length && (a[j] == 0 <==> j == |s|) && (j == |s| ==> Cut(s[start..], key) == s[start..])
    ensures j < |s| ==>
      && start <= j < k <= |s| && (a[k] == 0 <==> k == |s|)
      && Cut(s[start..], key) ==
         if found then s[k..] else if k == |s| then s[start..] else s[start..k] + Cut(s[k..], key)
  {
    hide Cut, Span, Lead, CopiesFit, TooLong, Holds;
    LeadAt(s, start);
    EndsAt(a, s, start);
    var i := if a[start] == SLASH then start + 1 else start;
    FitsAt(s, i);
    var pkey, value, full;
    j, pkey, full := ReadPiece(a, s, i, KEYROOM + 2);
    k, found := j, false;
    EndsAt(a, s, j);
    if a[j] != 0 {
      FitsAt(s, j + 1);
      k, value, full := ReadPiece(a, s, j + 1, KEYROOM + 2);
      found := key == pkey;
      EndsAt(a, s, k);
    }
    CutTo(s, start, i, j, k, key);
  }

  lemma FitsAt(s: seq<byte>, i: nat)
    requires CopiesFit(s) && i <= |s|
    ensures !TooLong(Span(s[i..]), KEYROOM + 2)
  {
    hide Span;
  }

  lemma EndsAt(a: array<byte>, s: seq<byte>, i: nat)
    requires Holds(a, s) && i <= |s|
    ensures |s| < a.Length && (a[i] == 0 <==> i == |s|) && (i < |s| ==> a[i] == s[i])
  {
    if i < |s| {
      assert a[i] == a[..|s|][i];
    }
  }

  method StrLen(a: array<byte>, ghost s: seq<byte>) returns (n: nat)
    requires Holds(a, s)
    ensures n == |s| < a.Length && a[..n] == s
  {
    n := 0;
    while a[n] != 0
      invariant n <= |s|
      decreases |s| - n
    {
      assert a[n] == s[n];
      n := n + 1;
    }
  }

  lemma PrintableStep(v: seq<byte>, i: nat, done: seq<byte>)
    requires i < |v|
    ensures done + Printable(v[i..]) == (if v[i] > 13 then done + [v[i]] else done) + Printable(v[i + 1..])
  {
    PrintableFirst(v, i);
    hide Printable;
    Assoc(done, if v[i] > 13 then [v[i]] else [], Printable(v[i + 1..]));
    assert done + [] == done;
  }

  lemma PrintableEnds(v: seq<byte>, done: seq<byte>)
    ensures done + Printable(v[|v|..]) == done
    ensures v[0..] == v
  {
    assert v[|v|..] == [] && Printable([]) == [] && done + [] == done;
  }

  lemma PrintableFirst(v: seq<byte>, i: nat)
    requires i < |v|
    ensures Printable(v[i..]) == (if v[i] > 13 then [v[i]] else []) + Printable(v[i + 1..])
  {
    var t := v[i..];
    assert t[0] == v[i] && t[1..] == v[i + 1..];
  }

  lemma NoZero(s: seq<byte>, p: seq<byte>)
    requires 0 !in s && Plain(p)
    ensures 0 !in s + p
  {
  }

  /** What passes the filter goes on the end. */
  method AppendPrintable(a: array<byte>, ghost s: seq<byte>, v: seq<byte>)
    requires Holds(a, s) && |s| + |v| + 1 <= a.Length
    modifies a
    ensures Holds(a, s + Printable(v))
  {
    PrintablePlain(v);
    NoZero(s, Printable(v));
    hide Printable, Plain, Holds;
    var n := StrLen(a, s);
    ghost var done := s;
    var i := 0;
    PrintableEnds(v, done);
    while i < |v|
      invariant 0 <= i <= |v| && n == |done| <= |s| + i && a[..n] == done
      invariant done + Printable(v[i..]) == s + Printable(v)
    {
      PrintableStep(v, i, done);
      n := Keep(a, done, n, v[i]);
      done := if v[i] > 13 then done + [v[i]] else done;
      i := i + 1;
    }
    PrintableEnds(v, done);
    Terminate(a, done, n);
  }

  method Keep(a: array<byte>, ghost done: seq<byte>, n: nat, c: byte) returns (n': nat)
    requires n == |done| < a.Length && a[..n] == done
    modifies a
    ensures var done' := if c > 13 then done + [c] else done; n' == |done'| <= a.Length && a[..n'] == done'
  {
    n' := n;
    if c > 13 {
      Push(a, n, c);
      n' := n + 1;
    }
  }

  method Terminate(a: array<byte>, ghost s: seq<byte>, n: nat)
    requires n == |s| < a.Length && a[..n] == s && 0 !in s
    modifies a
    ensures Holds(a, s)
  {
    a[n] := 0;
    assert a[..n] == s;
  }

  method Push(a: array<byte>, n: nat, c: byte)
    requires n < a.Length
    modifies a
    ensures a[..n + 1] == old(a[..n]) + [c]
    ensures forall k :: n < k < a.Length ==> a[k] == old(a[k])
  {
    a[n] := c;
  }

  method SetValueForStarKey(a: array<byte>, ghost s: seq<byte>, key: seq<byte>, value: seq<byte>, maxsize: nat)
    requires Holds(a, s) && CopiesFit(s) && maxsize <= a.Length
    modifies a
    ensures Holds(a, SetIn(s, key, value, maxsize))
  {
    if SLASH in key || SLASH in value || QUOTE in key || QUOTE in value {
      return;
    }
    if |key| >= MAX_INFO_KEY || |value| >= MAX_INFO_KEY {
      return;
    }
    var v := ValueForKey(a, s, key, KEYROOM);
    var n := StrLen(a, s);
    if v != [] && |value| - |v| + n + 1 > maxsize {
      return;
    }
    RemoveKey(a, s, key);
    ghost var t := Removed(s, key);
    if value == [] {
      return;
    }
    var newv := Entry(key, value);
    n := StrLen(a, t);
    if |newv| + n + 1 > maxsize {
      return;
    }
    AppendPrintable(a, t, newv);
  }
}
