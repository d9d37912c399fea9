/** Model and sound lists sent a page at a time: `SendList` and `ParseList`. */
module ListTransfer {
  import opened Bytes
  import opened NetMsg

  const MAX_LIST := 256
  const NAMEROOM := 63
  const PAGELIMIT := 768

  type Name = seq<byte>

  /** An array of `MAX_LIST` names as the C strings of `filename_t` hold them. */
  predicate Names(list: seq<Name>) {
    |list| == MAX_LIST && forall k :: 0 <= k < MAX_LIST ==> IsName(list[k])
  }

  predicate IsName(s: Name) {
    |s| <= NAMEROOM && 0 !in s
  }

  /**
   * The names from `i` on that fit a page of which `used` bytes are taken, the closing bytes,
   * and the index returned.
   */
  function Page(list: seq<Name>, i: nat, used: nat): (r: (seq<byte>, int))
    requires Names(list) && i > 0
    decreases MAX_LIST - i
  {
    if i >= MAX_LIST then ([0, i % 256], i)
    else if list[i] == [] then ([0, 0], -1)
    else if used + |list[i]| + 1 > PAGELIMIT then (list[i] + [0] + [0, i - 1], i - 1)
    else
      var r := Page(list, i + 1, used + |list[i]| + 1);
      (list[i] + [0] + r.0, r.1)
  }

  /** The names and the closing byte read into a list from place `i` on. */
  function ReadNames(mine: seq<Name>, i: nat, c: Cursor): (r: (seq<Name>, byte, Cursor))
    requires |mine| == MAX_LIST
    ensures |r.0| == MAX_LIST
    decreases MAX_LIST - i
  {
    if i >= MAX_LIST then (mine, GetByte(c).0, GetByte(c).1)
    else
      var s := GetString(c, NAMEROOM);
      if s.0 == [] then (mine[i := []], GetByte(s.1).0, GetByte(s.1).1)
      else ReadNames(mine[i := s.0], i + 1, s.1)
  }

  /** `e` is the first empty entry after `i`: where the list ends for a reader at `i`. */
  predicate EndsAt(list: seq<Name>, i: nat, e: nat)
    requires Names(list)
  {
    i <= e < MAX_LIST && list[e] == [] && forall k :: i <= k < e ==> list[k] != []
  }

  /** The list read so far, `list` below `upto`, a blank at `upto`, and what was there before elsewhere. */
  predicate Filled(was: seq<Name>, now: seq<Name>, list: seq<Name>, from: nat, upto: nat) {
    && |was| == |now| == |list| == MAX_LIST && from <= upto < MAX_LIST
    && (forall k :: from <= k < upto ==> now[k] == list[k])
    && now[upto] == []
    && (forall k :: 0 <= k < MAX_LIST && !(from <= k <= upto) ==> now[k] == was[k])
  }

  lemma FilledStep(was: seq<Name>, now: seq<Name>, list: seq<Name>, i: nat, upto: nat)
    requires i < |was| && i < |list| && Filled(was[i := list[i]], now, list, i + 1, upto)
    ensures Filled(was, now, list, i, upto)
  {
  }

  /**
   * One page. Cut short, it carries the names up to and including the one after the index it
   * returns, the reader leaves a blank behind them, and both sides hold that index; otherwise
   * it ends the list and the reader sees 0.
   */
  lemma {:induction false} PageArrives(list: seq<Name>, mine: seq<Name>, i: nat, used: nat, e: nat, rest: seq<byte>)
    requires Names(list) && |mine| == MAX_LIST && i > 0 && EndsAt(list, i, e)
    ensures var p := Page(list, i, used);
            var r := ReadNames(mine, i, Start(p.0 + rest));
            && r.2 == Start(rest)
            && (p.1 == -1 ==> r.1 == 0 && Filled(mine, r.0, list, i, e))
            && (p.1 != -1 ==> i <= p.1 + 1 < e && r.1 == p.1 && Filled(mine, r.0, list, i, p.1 + 2))
    decreases MAX_LIST - i
  {
    var p := Page(list, i, used);
    if list[i] == [] {
      assert p.0 + rest == [] + [0] + ([0] + rest);
      StringRoundTrip([], [0] + rest, NAMEROOM);
      ByteRoundTrip(0, rest);
    } else {
      CutOrGoOn(list, mine, i, used, e, rest);
    }
  }

  lemma {:induction false} CutOrGoOn(list: seq<Name>, mine: seq<Name>, i: nat, used: nat, e: nat, rest: seq<byte>)
    requires Names(list) && |mine| == MAX_LIST && i > 0 && EndsAt(list, i, e) && list[i] != []
    ensures var p := Page(list, i, used);
            var r := ReadNames(mine, i, Start(p.0 + rest));
            && r.2 == Start(rest)
            && (p.1 == -1 ==> r.1 == 0 && Filled(mine, r.0, list, i, e))
            && (p.1 != -1 ==> i <= p.1 + 1 < e && r.1 == p.1 && Filled(mine, r.0, list, i, p.1 + 2))
    decreases MAX_LIST - i, 0
  {
    hide GetString, GetByte, Start;
    var p := Page(list, i, used);
    var mine' := mine[i := list[i]];
    if used + |list[i]| + 1 > PAGELIMIT {
      assert p.0 + rest == list[i] + [0] + ([0, i - 1] + rest);
      StringRoundTrip(list[i], [0, i - 1] + rest, NAMEROOM);
      assert [0, i - 1] + rest == [] + [0] + ([i - 1] + rest);
      StringRoundTrip([], [i - 1] + rest, NAMEROOM);
      ByteRoundTrip(i - 1, rest);
      assert ReadNames(mine', i + 1, Start([0, i - 1] + rest)) == (mine'[i + 1 := []], i - 1, Start(rest));
    } else {
      var q := Page(list, i + 1, used + |list[i]| + 1);
      assert p.0 + rest == list[i] + [0] + (q.0 + rest);
      StringRoundTrip(list[i], q.0 + rest, NAMEROOM);
      PageArrives(list, mine', i + 1, used + |list[i]| + 1, e, rest);
      FilledStep(mine, ReadNames(mine', i + 1, Start(q.0 + rest)).0, list, i, if q.1 == -1 then e else q.1 + 2);
    }
  }

  /** A page that starts two bytes in cannot be cut at its first name: names are short. */
  lemma {:induction false} PageAdvances(list: seq<Name>, i: nat, used: nat)
    requires Names(list) && i > 0
    ensures Page(list, i, used).1 == -1 || Page(list, i, used).1 >= i - 1
    ensures used <= PAGELIMIT - 64 ==> Page(list, i, used).1 == -1 || Page(list, i, used).1 >= i
    decreases MAX_LIST - i
  {
    if i < MAX_LIST && list[i] != [] && used + |list[i]| + 1 <= PAGELIMIT {
      PageAdvances(list, i + 1, used + |list[i]| + 1);
    }
  }

  /** A page is cut exactly behind the name that takes it past 768 bytes, closing bytes not counted. */
  lemma {:induction false} CutExactly(list: seq<Name>, i: nat, used: nat)
    requires Names(list) && i > 0 && used <= 768
    ensures var p := Page(list, i, used);
            var total := used + |p.0| - 2;
            if 0 <= p.1 < 255 then total > 768 && total - |list[p.1 + 1]| - 1 <= 768
            else
              && total <= 768
              && p.1 == if exists k :: i <= k < 256 && list[k] == [] then -1 else if i > 256 then i else 256
    decreases MAX_LIST - i
  {
    if i < MAX_LIST && list[i] != [] && used + |list[i]| + 1 <= PAGELIMIT {
      CutExactly(list, i + 1, used + |list[i]| + 1);
    }
  }

  /** The page sent for `first`: the service byte, `first` as a byte, and the names after it. */
  function ListMessage(list: seq<Name>, svc: byte, first: nat): (r: (seq<byte>, int))
    requires Names(list)
  {
    var p := Page(list, first + 1, 2);
    ([svc, first % 256] + p.0, p.1)
  }

  /** The index the sender gives after `n` pages, from 0 on and until -1. */
  function Asked(list: seq<Name>, n: nat): (first: int)
    requires Names(list)
    ensures first >= -1
  {
    if n == 0 then 0
    else if Asked(list, n - 1) == -1 then -1
    else
      PageAdvances(list, Asked(list, n - 1) + 1, 2);
      ListMessage(list, 0, Asked(list, n - 1)).1
  }

  /** Without an empty entry no page ever ends the list. */
  lemma {:induction false} PageWithoutEnd(list: seq<Name>, i: nat, used: nat)
    requires Names(list) && i > 0 && forall k :: i <= k < MAX_LIST ==> list[k] != []
    ensures Page(list, i, used).1 != -1
    decreases MAX_LIST - i
  {
    if i < MAX_LIST && used + |list[i]| + 1 <= PAGELIMIT {
      PageWithoutEnd(list, i + 1, used + |list[i]| + 1);
    }
  }

  lemma {:induction false} NeverEnds(list: seq<Name>, n: nat)
    requires Names(list) && forall k :: 1 <= k < MAX_LIST ==> list[k] != []
    ensures Asked(list, n) != -1
  {
    if n > 0 {
      NeverEnds(list, n - 1);
      PageWithoutEnd(list, Asked(list, n - 1) + 1, 2);
    }
  }

  function FirstBlank(list: seq<Name>, i: nat): (e: nat)
    requires Names(list) && exists k :: i <= k < MAX_LIST && list[k] == []
    ensures EndsAt(list, i, e)
    decreases MAX_LIST - i
  {
    assert i < MAX_LIST;
    if list[i] == [] then i else FirstBlank(list, i + 1)
  }

  /** What `ParseList` makes of the bytes after the service byte; `big` when the index is a short. */
  function Parsed(mine: seq<Name>, c: Cursor, big: bool): (r: (seq<Name>, byte, Cursor))
    requires |mine| == MAX_LIST
    ensures |r.0| == MAX_LIST
  {
    var from: int := if big then GetShort(c).0 else GetByte(c).0;
    ReadNames(mine, from + 1, if big then GetShort(c).1 else GetByte(c).1)
  }

  function Received(mine: seq<Name>, c: Cursor): (r: (seq<Name>, byte, Cursor))
    requires |mine| == MAX_LIST
    ensures |r.0| == MAX_LIST
  {
    Parsed(mine, c, false)
  }

  /** What the reader holds after `n` pages. */
  function Held(list: seq<Name>, mine: seq<Name>, n: nat): (r: seq<Name>)
    requires Names(list) && |mine| == MAX_LIST
    ensures |r| == MAX_LIST
  {
    if n == 0 then mine
    else if Asked(list, n - 1) == -1 then Held(list, mine, n - 1)
    else Received(Held(list, mine, n - 1), Start(ListMessage(list, 0, Asked(list, n - 1)).0[1..])).0
  }

  /** What both ends know when the agreed index is `first`. */
  predicate Synced(list: seq<Name>, mine: seq<Name>, now: seq<Name>, first: int, e: nat)
    requires Names(list)
  {
    && 1 <= e < MAX_LIST && first + 1 <= e
    && if first == -1 then Filled(mine, now, list, 1, e)
       else if first == 0 then now == mine
       else first > 0 && first + 1 < e && Filled(mine, now, list, 1, first + 2)
  }

  /** One page and its answer: the reader holds the index the sender returned, or 0 at the end. */
  lemma NextPage(list: seq<Name>, mine: seq<Name>, now: seq<Name>, svc: byte, first: nat, e: nat)
    requires Names(list) && |mine| == |now| == MAX_LIST && EndsAt(list, 1, e) && Synced(list, mine, now, first, e)
    ensures var p := ListMessage(list, svc, first);
            var r := Received(now, Start(p.0[1..]));
            && Synced(list, mine, r.0, p.1, e) && (p.1 == -1 || p.1 > first)
            && r.1 == (if p.1 == -1 then 0 else p.1) && r.2 == Start([])
  {
    hide Page, ReadNames, Filled, GetByte;
    var p := Page(list, first + 1, 2);
    PageArrives(list, now, first + 1, 2, e, []);
    assert p.0 + [] == p.0 && ListMessage(list, svc, first).0[1..] == [first] + p.0;
    ByteRoundTrip(first, p.0);
    PageAdvances(list, first + 1, 2);
    Extend(mine, now, ReadNames(now, first + 1, Start(p.0)).0, list, first, if p.1 == -1 then e else p.1 + 2);
  }

  /**
   * After every page the reader has the list up to the name after the agreed index, re-sent
   * next, and a temporary blank; once the sender is done it has it all.
   */
  lemma {:induction false} PagesAgree(list: seq<Name>, mine: seq<Name>, n: nat, e: nat)
    requires Names(list) && |mine| == MAX_LIST && EndsAt(list, 1, e)
    ensures Synced(list, mine, Held(list, mine, n), Asked(list, n), e)
    ensures Asked(list, n) == -1 || Asked(list, n) >= n
  {
    hide ListMessage, Received;
    if n > 0 {
      PagesAgree(list, mine, n - 1, e);
      if Asked(list, n - 1) != -1 {
        NextPage(list, mine, Held(list, mine, n - 1), 0, Asked(list, n - 1), e);
      }
    }
  }

  lemma Extend(was: seq<Name>, now: seq<Name>, next: seq<Name>, list: seq<Name>, first: nat, upto: nat)
    requires |was| == |now| == MAX_LIST && |list| == MAX_LIST && first + 1 <= upto
    requires if first == 0 then now == was else first + 2 <= upto && Filled(was, now, list, 1, first + 2)
    requires Filled(now, next, list, first + 1, upto)
    ensures Filled(was, next, list, 1, upto)
  {
  }

  /** Every page moves on, so at most 256 of them are needed. */
  lemma ListArrives(list: seq<Name>, mine: seq<Name>)
    requires Names(list) && |mine| == MAX_LIST && exists k :: 1 <= k < MAX_LIST && list[k] == []
    ensures Asked(list, MAX_LIST) == -1
    ensures Filled(mine, Held(list, mine, MAX_LIST), list, 1, FirstBlank(list, 1))
  {
    PagesAgree(list, mine, MAX_LIST, FirstBlank(list, 1));
  }

  // ---- The loop the reader drives ----

  /** A reader that asks for what the closing byte says until that is 0, after `n` pages. */
  datatype Reader = Reader(first: byte, done: bool, list: seq<Name>)

  function Reads(list: seq<Name>, mine: seq<Name>, n: nat): (r: Reader)
    requires Names(list) && |mine| == MAX_LIST
    ensures |r.list| == MAX_LIST
  {
    if n == 0 then Reader(0, false, mine)
    else
      var was := Reads(list, mine, n - 1);
      if was.done then was
      else
        var r := Received(was.list, Start(ListMessage(list, 0, was.first).0[1..]));
        Reader(r.1, r.1 == 0, r.0)
  }

  /** The list below 256 as it is, and what was there before elsewhere. */
  predicate Full(was: seq<Name>, now: seq<Name>, list: seq<Name>, from: nat) {
    && |was| == |now| == |list| == MAX_LIST && from <= MAX_LIST
    && (forall k :: from <= k < MAX_LIST ==> now[k] == list[k])
    && (forall k :: 0 <= k < from ==> now[k] == was[k])
  }

  lemma FullStep(was: seq<Name>, now: seq<Name>, list: seq<Name>, i: nat)
    requires i < |was| && i < |list| && Full(was[i := list[i]], now, list, i + 1)
    ensures Full(was, now, list, i)
  {
  }

  lemma FullExtend(was: seq<Name>, now: seq<Name>, next: seq<Name>, list: seq<Name>, first: nat)
    requires |was| == |now| == MAX_LIST && |list| == MAX_LIST
    requires if first == 0 then now == was else Filled(was, now, list, 1, first + 2)
    requires Full(now, next, list, first + 1)
    ensures Full(was, next, list, 1)
  {
  }

  /** Without a blank in sight: the page is cut where the reader still leaves one, or the reader has
      gone to the end, takes the blank for the closing byte, and leaves the closing byte unread. */
  lemma {:induction false} PageRunsOn(list: seq<Name>, mine: seq<Name>, i: nat, used: nat)
    requires Names(list) && |mine| == MAX_LIST && 0 < i <= MAX_LIST && forall k :: i <= k < MAX_LIST ==> list[k] != []
    ensures var p := Page(list, i, used);
            var r := ReadNames(mine, i, Start(p.0));
            if p.1 + 2 < MAX_LIST then
              i <= p.1 + 1 && r.1 == p.1 && r.2 == Start([]) && Filled(mine, r.0, list, i, p.1 + 2)
            else r.1 == 0 && |r.2.rest| == 1 && !r.2.overrun && Full(mine, r.0, list, i)
    decreases MAX_LIST - i
  {
    hide GetByte;
    var p := Page(list, i, used);
    if i == MAX_LIST {
      ByteRoundTrip(0, [i % 256]);
      assert p.0 == [0] + [i % 256];
    } else {
      var mine' := mine[i := list[i]];
      if used + |list[i]| + 1 > PAGELIMIT {
        assert p.0 == list[i] + [0] + [0, i - 1];
        StringRoundTrip(list[i], [0, i - 1], NAMEROOM);
        CutAtName(mine', i + 1, i - 1);
      } else {
        var q := Page(list, i + 1, used + |list[i]| + 1);
        StringRoundTrip(list[i], q.0, NAMEROOM);
        PageRunsOn(list, mine', i + 1, used + |list[i]| + 1);
        var now := ReadNames(mine', i + 1, Start(q.0)).0;
        if q.1 + 2 < MAX_LIST {
          FilledStep(mine, now, list, i, q.1 + 2);
        } else {
          FullStep(mine, now, list, i);
        }
      }
    }
  }

  /** What the reader does with the two bytes that close a page cut before place `i`. */
  lemma CutAtName(mine: seq<Name>, i: nat, b: byte)
    requires |mine| == MAX_LIST && i <= MAX_LIST
    ensures ReadNames(mine, i, Start([0, b]))
         == if i < MAX_LIST then (mine[i := []], b, Start([])) else (mine, 0, Start([b]))
  {
    assert [0, b] == [0] + [b] && [b] == [b] + [];
    ByteRoundTrip(0, [b]);
    ByteRoundTrip(b, []);
    assert [] + [0] + [b] == [0, b];
    StringRoundTrip([], [b], NAMEROOM);
  }

  /** With a blank the reader's loop is the sender's. */
  lemma {:induction false} ReadsIsHeld(list: seq<Name>, mine: seq<Name>, n: nat, e: nat)
    requires Names(list) && |mine| == MAX_LIST && EndsAt(list, 1, e)
    ensures var r, first := Reads(list, mine, n), Asked(list, n);
            r.list == Held(list, mine, n) && (r.done <==> first == -1) && r.first == if first == -1 then 0 else first
  {
    hide ListMessage, Received, EndsAt, Names;
    if n > 0 {
      ReadsIsHeld(list, mine, n - 1, e);
      if Asked(list, n - 1) != -1 {
        PagesAgree(list, mine, n - 1, e);
        NextPage(list, mine, Held(list, mine, n - 1), 0, Asked(list, n - 1), e);
      }
    }
  }

  /** Without one it goes on to the end of the array. */
  lemma {:induction false} ReadsToTheEnd(list: seq<Name>, mine: seq<Name>, n: nat)
    requires Names(list) && |mine| == MAX_LIST && forall k :: 1 <= k < MAX_LIST ==> list[k] != []
    ensures var r := Reads(list, mine, n);
            if r.done then Full(mine, r.list, list, 1)
            else
              && r.first >= n
              && if r.first == 0 then r.list == mine
                 else r.first + 2 < MAX_LIST && Filled(mine, r.list, list, 1, r.first + 2)
  {
    hide Page, ReadNames, Filled, Full, GetByte;
    if n > 0 {
      ReadsToTheEnd(list, mine, n - 1);
      var was := Reads(list, mine, n - 1);
      if !was.done {
        var first: nat := was.first;
        var p := Page(list, first + 1, 2);
        assert ListMessage(list, 0, first).0[1..] == [first] + p.0;
        ByteRoundTrip(first, p.0);
        PageRunsOn(list, was.list, first + 1, 2);
        PageAdvances(list, first + 1, 2);
        PageWithoutEnd(list, first + 1, 2);
        var now := ReadNames(was.list, first + 1, Start(p.0)).0;
        if p.1 + 2 < MAX_LIST {
          Extend(mine, was.list, now, list, first, p.1 + 2);
        } else {
          FullExtend(mine, was.list, now, list, first);
        }
      }
    }
  }

  /** A reader that goes by the closing byte always stops, with the list up to its first blank or
      with all of it. */
  lemma ReaderStops(list: seq<Name>, mine: seq<Name>)
    requires Names(list) && |mine| == MAX_LIST
    ensures var r := Reads(list, mine, MAX_LIST);
            && r.done
            && if exists k :: 1 <= k < MAX_LIST && list[k] == [] then Filled(mine, r.list, list, 1, FirstBlank(list, 1))
               else Full(mine, r.list, list, 1)
  {
    hide Reads, Filled, Full;
    if exists k :: 1 <= k < MAX_LIST && list[k] == [] {
      ReadsIsHeld(list, mine, MAX_LIST, FirstBlank(list, 1));
      ListArrives(list, mine);
    } else {
      ReadsToTheEnd(list, mine, MAX_LIST);
    }
  }

  /** The sender's own loop comes to an end exactly when there is a blank before index 256. */
  lemma EndsExactlyWithBlank(list: seq<Name>)
    requires Names(list)
    ensures (exists n: nat :: Asked(list, n) == -1) <==> (exists k :: 1 <= k < MAX_LIST && list[k] == [])
  {
    if exists k :: 1 <= k < MAX_LIST && list[k] == [] {
      ListArrives(list, list);
    } else {
      forall n: nat ensures Asked(list, n) != -1 {
        NeverEnds(list, n);
      }
    }
  }

  method CloseList(i: nat, msg: NetMsg)
    requires msg.Valid() && msg.cursize + 2 <= msg.maxsize
    modifies msg`cursize, msg.data
    ensures msg.Valid() && msg.Contents() == old(msg.Contents()) + [0, i % 256]
  {
    msg.WriteByte(0);
    msg.WriteByte(i % 256);
  }

  method SendList(first: nat, list: seq<Name>, svc: byte, msg: NetMsg) returns (i: int)
    requires Names(list) && msg.Valid() && msg.Contents() == [] && msg.maxsize >= PAGELIMIT + NAMEROOM + 4
    modifies msg`cursize, msg.data
    ensures msg.Valid() && msg.Contents() == ListMessage(list, svc, first).0 && i == ListMessage(list, svc, first).1
  {
    msg.WriteByte(svc);
    msg.WriteByte(first % 256);
    assert msg.Contents() == [svc, first % 256];
    i := SendNames(first + 1, list, msg);
  }

  method SendNames(from: nat, list: seq<Name>, msg: NetMsg) returns (i: int)
    requires Names(list) && from > 0 && msg.Valid() && msg.cursize <= PAGELIMIT
    requires msg.maxsize >= PAGELIMIT + NAMEROOM + 4
    modifies msg`cursize, msg.data
    ensures msg.Valid() && i == Page(list, from, old(msg.cursize)).1
    ensures msg.Contents() == old(msg.Contents()) + Page(list, from, old(msg.cursize)).0
  {
    i := from;
    while i < MAX_LIST
      invariant from <= i && msg.Valid() && msg.cursize <= PAGELIMIT
      invariant msg.Contents() + Page(list, i, msg.cursize).0
        == old(msg.Contents()) + Page(list, from, old(msg.cursize)).0
      invariant Page(list, i, msg.cursize).1 == Page(list, from, old(msg.cursize)).1
      decreases MAX_LIST - i
    {
      ghost var was := msg.Contents();
      msg.WriteString(list[i]);
      assert msg.Contents() == was + (list[i] + [0]);
      if list[i] == [] {
        msg.WriteByte(0);
        assert msg.Contents() == was + [0, 0];
        return -1;
      }
      if msg.cursize > PAGELIMIT {
        i := i - 1;
        CloseList(i, msg);
        assert msg.Contents() == was + (list[i + 1] + [0] + [0, i]);
        return;
      }
      assert msg.Contents() + Page(list, i + 1, msg.cursize).0
        == was + (list[i] + [0] + Page(list, i + 1, msg.cursize).0);
      i := i + 1;
    }
    CloseList(i, msg);
  }

  /** `list` is the reader's own array; the result is the byte that closes the page. */
  method ParseList(m: NetMsg, list: array<Name>, big: bool) returns (r: byte)
    requires m.Valid() && list.Length == MAX_LIST && m.data as object != list
    modifies m`readpos, list
    ensures m.Valid()
    ensures (list[..], r, m.Rest()) == Parsed(old(list[..]), old(m.Rest()), big)
  {
    hide GetString, GetByte, GetShort;
    var first: int;
    if big {
      first := m.ReadShort();
    } else {
      first := m.ReadByte();
    }
    first := first + 1;
    while first < MAX_LIST
      invariant 0 <= first && m.Valid() && m.data as object != list
      invariant ReadNames(list[..], first, m.Rest()) == Parsed(old(list[..]), old(m.Rest()), big)
      decreases MAX_LIST - first
    {
      var s := m.ReadString(NAMEROOM);
      ghost var was := list[..];
      list[first] := s;
      assert list[..] == was[first := s];
      if s == [] {
        r := m.ReadByte();
        return;
      }
      first := first + 1;
    }
    r := m.ReadByte();
  }
}
