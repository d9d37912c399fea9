/** Union-find with path compression: the forest always stands for the partition of the united pairs. */
module UnionFind {

  datatype UfVal<+T> = UfVal(rank: int, next: int, val: T)

  /** `height` grows along every link, so that no chain of links is endless. */
  predicate Ordered<T>(u: seq<UfVal<T>>, height: seq<nat>, top: nat) {
    && |height| == |u|
    && (forall i :: 0 <= i < |u| ==> height[i] <= top)
    && (forall i :: 0 <= i < |u| ==> -1 <= u[i].next < |u|)
    && (forall i :: 0 <= i < |u| && u[i].next >= 0 ==> height[i] < height[u[i].next])
  }

  /** The representative of the class of `k`. */
  function Root<T>(u: seq<UfVal<T>>, height: seq<nat>, top: nat, k: nat): (r: nat)
    requires Ordered(u, height, top) && k < |u|
    ensures r < |u| && u[r].next < 0 && height[k] <= height[r]
    decreases top - height[k]
  {
    if u[k].next < 0 then k else Root(u, height, top, u[k].next)
  }

  predicate SameValues<T(==)>(u: seq<UfVal<T>>, v: seq<UfVal<T>>) {
    |u| == |v| && forall i :: 0 <= i < |u| ==> v[i].rank == u[i].rank && v[i].val == u[i].val
  }

  /** `v` is `u` with its values, and fresh elements of value `noval` after them. */
  predicate Extends<T(==)>(u: seq<UfVal<T>>, v: seq<UfVal<T>>, noval: T) {
    |u| <= |v| && forall i :: 0 <= i < |v| ==> v[i].val == if i < |u| then u[i].val else noval
  }

  predicate KeptValues<T(==)>(u: seq<UfVal<T>>, v: seq<UfVal<T>>) {
    |u| == |v| && forall i :: 0 <= i < |u| ==> v[i].val == u[i].val
  }

  lemma StillExtends<T>(u: seq<UfVal<T>>, mid: seq<UfVal<T>>, v: seq<UfVal<T>>, noval: T)
    requires Extends(u, mid, noval) && KeptValues(mid, v)
    ensures Extends(u, v, noval) && |v| == |mid|
  {
  }

  /** Pointing an element straight at its representative moves no element to another class. */
  lemma {:induction false} CompressKeepsRoot<T>(u: seq<UfVal<T>>, height: seq<nat>, top: nat, k: nat, i: nat)
    requires Ordered(u, height, top) && k < |u| && u[k].next >= 0 && i < |u|
    ensures var v := u[k := u[k].(next := Root(u, height, top, k))];
      Ordered(v, height, top) && Root(v, height, top, i) == Root(u, height, top, i)
    decreases top - height[i]
  {
    var v := u[k := u[k].(next := Root(u, height, top, k))];
    assert height[k] < height[Root(u, height, top, k)];
    assert Ordered(v, height, top);
    if i != k && u[i].next >= 0 {
      CompressKeepsRoot(u, height, top, k, u[i].next);
    }
  }

  function Max(a: nat, b: nat): nat {
    if a < b then b else a
  }

  /** Hanging root `c` under root `p` merges their two classes and leaves the others alone. */
  lemma {:induction false} LinkJoins<T>(u: seq<UfVal<T>>, height: seq<nat>, top: nat, c: nat, p: nat, v: seq<UfVal<T>>,
                                        i: nat)
    requires Ordered(u, height, top) && c < |u| && p < |u| && c != p && u[c].next < 0 && u[p].next < 0 && i < |u|
    requires |v| == |u| && v[c].next == p && forall j :: 0 <= j < |u| && j != c ==> v[j].next == u[j].next
    ensures var h, t := height[p := Max(height[p], height[c] + 1)], Max(top, height[c] + 1);
      && Ordered(v, h, t)
      && Root(v, h, t, i) == if Root(u, height, top, i) == c then p else Root(u, height, top, i)
    decreases top - height[i]
  {
    var h, t := height[p := Max(height[p], height[c] + 1)], Max(top, height[c] + 1);
    assert Ordered(v, h, t);
    if i == c {
      assert Root(v, h, t, p) == p;
    } else if u[i].next >= 0 {
      LinkJoins(u, height, top, c, p, v, u[i].next);
    }
  }

  /** A fresh element is its own class. */
  lemma {:induction false} GrowKeepsRoot<T>(u: seq<UfVal<T>>, height: seq<nat>, top: nat, x: UfVal<T>, i: nat)
    requires Ordered(u, height, top) && x.next == -1 && i <= |u|
    ensures Ordered(u + [x], height + [0], top)
    ensures Root(u + [x], height + [0], top, i) == if i < |u| then Root(u, height, top, i) else i
    decreases if i < |u| then top - height[i] else 0
  {
    assert Ordered(u + [x], height + [0], top);
    if i < |u| && u[i].next >= 0 {
      GrowKeepsRoot(u, height, top, x, u[i].next);
    }
  }

  // ---- The partition, independently of any forest ----

  predicate Step(pairs: seq<(nat, nat)>, a: nat, b: nat) {
    (a, b) in pairs || (b, a) in pairs
  }

  predicate IsPath(pairs: seq<(nat, nat)>, p: seq<nat>) {
    p != [] && forall i :: 0 <= i < |p| - 1 ==> Step(pairs, p[i], p[i + 1])
  }

  /** The reflexive, symmetric and transitive closure of the pairs. */
  ghost predicate Linked(pairs: seq<(nat, nat)>, a: nat, b: nat) {
    exists p :: IsPath(pairs, p) && p[0] == a && p[|p| - 1] == b
  }

  lemma LinkedReflexive(pairs: seq<(nat, nat)>, a: nat)
    ensures Linked(pairs, a, a)
  {
    assert IsPath(pairs, [a]) && [a][0] == a && [a][|[a]| - 1] == a;
  }

  lemma LinkedTransitive(pairs: seq<(nat, nat)>, a: nat, b: nat, c: nat)
    requires Linked(pairs, a, b) && Linked(pairs, b, c)
    ensures Linked(pairs, a, c)
  {
    var p :| IsPath(pairs, p) && p[0] == a && p[|p| - 1] == b;
    var q :| IsPath(pairs, q) && q[0] == b && q[|q| - 1] == c;
    var r := p + q[1..];
    forall i | 0 <= i < |r| - 1 ensures Step(pairs, r[i], r[i + 1]) {
      if i >= |p| - 1 {
        assert r[i] == q[i - (|p| - 1)] && r[i + 1] == q[i + 1 - (|p| - 1)];
      }
    }
    assert IsPath(pairs, r) && r[0] == a && r[|r| - 1] == c;
  }

  lemma LinkedSymmetric(pairs: seq<(nat, nat)>, a: nat, b: nat)
    requires Linked(pairs, a, b)
    ensures Linked(pairs, b, a)
  {
    var p :| IsPath(pairs, p) && p[0] == a && p[|p| - 1] == b;
    var r := seq(|p|, i requires 0 <= i < |p| => p[|p| - 1 - i]);
    forall i | 0 <= i < |r| - 1 ensures Step(pairs, r[i], r[i + 1]) {
      var j := |p| - 2 - i;
      assert Step(pairs, p[j], p[j + 1]);
    }
    assert IsPath(pairs, r) && r[0] == b && r[|r| - 1] == a;
  }

  lemma LinkedMore(pairs: seq<(nat, nat)>, x: (nat, nat), a: nat, b: nat)
    requires Linked(pairs, a, b)
    ensures Linked(pairs + [x], a, b)
  {
    var p :| IsPath(pairs, p) && p[0] == a && p[|p| - 1] == b;
    forall i | 0 <= i < |p| - 1 ensures Step(pairs + [x], p[i], p[i + 1]) {
      assert Step(pairs, p[i], p[i + 1]);
    }
    assert IsPath(pairs + [x], p);
  }

  lemma LinkedNew(pairs: seq<(nat, nat)>, x: nat, y: nat)
    ensures Linked(pairs + [(x, y)], x, y) && Linked(pairs + [(x, y)], y, x)
  {
    var all := pairs + [(x, y)];
    assert (x, y) in all;
    assert IsPath(all, [x, y]) && [x, y][0] == x && [x, y][|[x, y]| - 1] == y;
    assert IsPath(all, [y, x]) && [y, x][0] == y && [y, x][|[y, x]| - 1] == x;
  }

  /** Two elements have the same representative only if the pairs link them, and the pairs agree. */
  ghost predicate Represents<T>(u: seq<UfVal<T>>, height: seq<nat>, top: nat, pairs: seq<(nat, nat)>) {
    && Ordered(u, height, top)
    && (forall p :: p in pairs ==> p.0 < |u| && p.1 < |u| && Root(u, height, top, p.0) == Root(u, height, top, p.1))
    && (forall a, b :: 0 <= a < |u| && 0 <= b < |u| && Root(u, height, top, a) == Root(u, height, top, b) ==>
          Linked(pairs, a, b))
  }

  lemma {:induction false} PathKeepsRoot<T>(u: seq<UfVal<T>>, height: seq<nat>, top: nat, pairs: seq<(nat, nat)>,
                                            p: seq<nat>)
    requires Represents(u, height, top, pairs) && IsPath(pairs, p) && p[0] < |u|
    ensures p[|p| - 1] < |u| && Root(u, height, top, p[0]) == Root(u, height, top, p[|p| - 1])
    decreases |p|
  {
    if |p| > 1 {
      assert Step(pairs, p[0], p[1]);
      assert IsPath(pairs, p[1..]) by {
        forall i | 0 <= i < |p[1..]| - 1 ensures Step(pairs, p[1..][i], p[1..][i + 1]) {
          assert Step(pairs, p[i + 1], p[i + 2]);
        }
      }
      PathKeepsRoot(u, height, top, pairs, p[1..]);
    }
  }

  /** The classes are exactly those of the closure of the united pairs. */
  lemma PartitionIsClosure<T>(u: seq<UfVal<T>>, height: seq<nat>, top: nat, pairs: seq<(nat, nat)>, a: nat, b: nat)
    requires Represents(u, height, top, pairs) && a < |u| && b < |u|
    ensures Root(u, height, top, a) == Root(u, height, top, b) <==> Linked(pairs, a, b)
  {
    if Linked(pairs, a, b) {
      var p :| IsPath(pairs, p) && p[0] == a && p[|p| - 1] == b;
      PathKeepsRoot(u, height, top, pairs, p);
    }
  }

  /** In `v` the class of root `c` has gone over to root `p`. */
  ghost predicate Joined<T>(u: seq<UfVal<T>>, height: seq<nat>, top: nat, v: seq<UfVal<T>>, h: seq<nat>, t: nat,
                            c: nat, p: nat) {
    && Ordered(u, height, top) && Ordered(v, h, t) && |v| == |u|
    && forall i :: 0 <= i < |u| ==>
        Root(v, h, t, i) == if Root(u, height, top, i) == c then p else Root(u, height, top, i)
  }

  lemma JoinLinks<T>(u: seq<UfVal<T>>, height: seq<nat>, top: nat, pairs: seq<(nat, nat)>, x: nat, y: nat, a: nat,
                     b: nat)
    requires Represents(u, height, top, pairs) && x < |u| && y < |u| && a < |u| && b < |u|
    requires var rx, ry, ra, rb :=
      Root(u, height, top, x), Root(u, height, top, y), Root(u, height, top, a), Root(u, height, top, b);
      ra == rb || (ra == rx && rb == ry) || (ra == ry && rb == rx)
    ensures Linked(pairs + [(x, y)], a, b)
  {
    hide Linked;
    var all, e := pairs + [(x, y)], (x, y);
    var ra, rb := Root(u, height, top, a), Root(u, height, top, b);
    LinkedNew(pairs, x, y);
    if ra == rb {
      LinkedMore(pairs, e, a, b);
    } else if ra == Root(u, height, top, x) {
      LinkedMore(pairs, e, a, x);
      LinkedMore(pairs, e, y, b);
      LinkedTransitive(all, a, x, y);
      LinkedTransitive(all, a, y, b);
    } else {
      LinkedMore(pairs, e, a, y);
      LinkedMore(pairs, e, x, b);
      LinkedTransitive(all, a, y, x);
      LinkedTransitive(all, a, x, b);
    }
  }

  lemma JoinRepresents<T>(u: seq<UfVal<T>>, height: seq<nat>, top: nat, pairs: seq<(nat, nat)>,
                          v: seq<UfVal<T>>, h: seq<nat>, t: nat, x: nat, y: nat, c: nat, p: nat)
    requires Represents(u, height, top, pairs) && x < |u| && y < |u| && Joined(u, height, top, v, h, t, c, p)
    requires var rx, ry := Root(u, height, top, x), Root(u, height, top, y);
      (c == rx && p == ry) || (c == ry && p == rx)
    ensures Represents(v, h, t, pairs + [(x, y)])
  {
    hide Linked, Ordered;
    forall a, b | 0 <= a < |u| && 0 <= b < |u| && Root(v, h, t, a) == Root(v, h, t, b)
      ensures Linked(pairs + [(x, y)], a, b) {
      JoinLinks(u, height, top, pairs, x, y, a, b);
    }
  }

  lemma AlreadyRepresents<T>(u: seq<UfVal<T>>, height: seq<nat>, top: nat, pairs: seq<(nat, nat)>, x: nat, y: nat)
    requires Represents(u, height, top, pairs) && x < |u| && y < |u|
    requires Root(u, height, top, x) == Root(u, height, top, y)
    ensures Represents(u, height, top, pairs + [(x, y)])
  {
    hide Linked, Ordered;
    forall a, b | 0 <= a < |u| && 0 <= b < |u| && Root(u, height, top, a) == Root(u, height, top, b)
      ensures Linked(pairs + [(x, y)], a, b) {
      LinkedMore(pairs, (x, y), a, b);
    }
  }

  lemma GrowRepresents<T>(u: seq<UfVal<T>>, height: seq<nat>, top: nat, pairs: seq<(nat, nat)>, x: UfVal<T>)
    requires Represents(u, height, top, pairs) && x.next == -1
    ensures Represents(u + [x], height + [0], top, pairs)
  {
    var v, h := u + [x], height + [0];
    GrowKeepsRoot(u, height, top, x, |u|);
    forall i | 0 <= i <= |u| ensures Root(v, h, top, i) == if i < |u| then Root(u, height, top, i) else i {
      GrowKeepsRoot(u, height, top, x, i);
    }
    LinkedReflexive(pairs, |u|);
  }

  class UnionFind<T(==)> {
    var ufvals: seq<UfVal<T>>
    ghost var height: seq<nat>
    ghost var top: nat
    ghost var pairs: seq<(nat, nat)>

    ghost predicate Valid()
      reads this
    {
      Represents(ufvals, height, top, pairs)
    }

    ghost function ClassOf(k: nat): (r: nat)
      requires Valid() && k < |ufvals|
      reads this
      ensures r < |ufvals|
    {
      Root(ufvals, height, top, k)
    }

    constructor ()
      ensures Valid() && ufvals == [] && pairs == []
    {
      ufvals, height, top, pairs := [], [], 0, [];
    }

    /** The value kept at the representative, set to `initval` if it still was `noval`; every member of
        the class has that value from then on, and no other class changes. */
    method Find(index: nat, noval: T, initval: T) returns (r: T)
      requires Valid()
      modifies this`ufvals
      ensures Valid() && |ufvals| == old(|ufvals|)
      ensures index >= |ufvals| ==> r == initval && ufvals == old(ufvals)
      ensures forall j :: 0 <= j < |ufvals| ==> ClassOf(j) == old(ClassOf(j))
      ensures index < |ufvals| ==>
        var was := old(ufvals[ClassOf(index)].val);
        r == (if was == noval then initval else was)
      ensures forall j :: 0 <= j < |ufvals| ==>
        ufvals[ClassOf(j)].val
        == if index < |ufvals| && ClassOf(j) == ClassOf(index) then r else old(ufvals[ClassOf(j)].val)
    {
      if index >= |ufvals| {
        return initval;
      }
      var k := index;
      while ufvals[k].next >= 0
        invariant 0 <= k < |ufvals| && ClassOf(k) == ClassOf(index)
        decreases top - height[k]
      {
        k := ufvals[k].next;
      }
      if ufvals[k].val == noval {
        ghost var u := ufvals;
        ufvals := ufvals[k := ufvals[k].(val := initval)];
        forall j | 0 <= j < |u|
          ensures Ordered(ufvals, height, top) && Root(ufvals, height, top, j) == Root(u, height, top, j) {
          RootIgnoresValues(u, ufvals, height, top, j);
        }
      }
      r := ufvals[k].val;
    }

    method CompressFind(k: nat) returns (r: nat)
      requires Valid() && k < |ufvals|
      modifies this`ufvals
      ensures Valid() && SameValues(old(ufvals), ufvals) && r == old(ClassOf(k)) && r < |ufvals|
      ensures forall j :: 0 <= j < |ufvals| ==> ClassOf(j) == old(ClassOf(j))
      ensures forall j :: 0 <= j < |ufvals| && height[j] < height[k] ==> ufvals[j] == old(ufvals[j])
      ensures k == r || ufvals[k].next == r
      ensures forall j :: 0 <= j < |ufvals| ==> ufvals[j].next == old(ufvals[j].next) || ufvals[j].next == r
      decreases top - height[k]
    {
      if ufvals[k].next < 0 {
        return k;
      }
      r := CompressFind(ufvals[k].next);
      ghost var u := ufvals;
      ufvals := ufvals[k := ufvals[k].(next := r)];
      forall j | 0 <= j < |u|
        ensures Ordered(ufvals, height, top) && Root(ufvals, height, top, j) == Root(u, height, top, j) {
        CompressKeepsRoot(u, height, top, k, j);
      }
    }

    method Grow(k: nat, noval: T)
      requires Valid()
      modifies this
      ensures Valid() && pairs == old(pairs) && |ufvals| == Max(old(|ufvals|), k + 1)
      ensures Extends(old(ufvals), ufvals, noval)
    {
      while |ufvals| <= k
        invariant Valid() && pairs == old(pairs) && old(|ufvals|) <= |ufvals| <= Max(old(|ufvals|), k + 1)
        invariant Extends(old(ufvals), ufvals, noval)
      {
        GrowRepresents(ufvals, height, top, pairs, UfVal(0, -1, noval));
        ufvals, height := ufvals + [UfVal(0, -1, noval)], height + [0];
      }
    }

    /** Root `c` goes under root `p`. */
    method Link(c: nat, p: nat)
      requires Ordered(ufvals, height, top) && c < |ufvals| && p < |ufvals| && c != p && ufvals[c].next < 0
      requires ufvals[p].next < 0
      modifies this`ufvals, this`height, this`top
      ensures Joined(old(ufvals), old(height), old(top), ufvals, height, top, c, p)
      ensures ufvals == old(ufvals)[c := old(ufvals)[c].(next := p)]
    {
      hide Root;
      ghost var u, h, t := ufvals, height, top;
      ufvals := ufvals[c := ufvals[c].(next := p)];
      height, top := height[p := Max(height[p], height[c] + 1)], Max(top, height[c] + 1);
      LinkJoins(u, h, t, c, p, ufvals, c);
      forall i | 0 <= i < |u|
        ensures Root(ufvals, height, top, i) == if Root(u, h, t, i) == c then p else Root(u, h, t, i) {
        LinkJoins(u, h, t, c, p, ufvals, i);
      }
    }

    /** Union by rank. The rank that grows on a tie is that of the root just attached. */
    method Attach(rx: nat, ry: nat) returns (ghost c: nat, ghost p: nat)
      requires Ordered(ufvals, height, top) && rx < |ufvals| && ry < |ufvals| && rx != ry && ufvals[rx].next < 0
      requires ufvals[ry].next < 0
      modifies this`ufvals, this`height, this`top
      ensures if old(ufvals[rx].rank) < old(ufvals[ry].rank) then c == rx && p == ry else c == ry && p == rx
      ensures Joined(old(ufvals), old(height), old(top), ufvals, height, top, c, p)
      ensures var tie := if old(ufvals[rx].rank) == old(ufvals[ry].rank) then 1 else 0;
        ufvals == old(ufvals)[c := UfVal(old(ufvals[c].rank) + tie, p, old(ufvals[c].val))]
    {
      if ufvals[rx].rank < ufvals[ry].rank {
        c, p := rx, ry;
        Link(rx, ry);
      } else {
        c, p := ry, rx;
        var tie := ufvals[rx].rank == ufvals[ry].rank;
        Link(ry, rx);
        if tie {
          BumpRank(ry);
        }
      }
    }

    method BumpRank(k: nat)
      requires Ordered(ufvals, height, top) && k < |ufvals|
      modifies this`ufvals
      ensures Ordered(ufvals, height, top)
        && ufvals == old(ufvals)[k := old(ufvals)[k].(rank := old(ufvals)[k].rank + 1)]
      ensures forall i :: 0 <= i < |ufvals| ==> Root(ufvals, height, top, i) == old(Root(ufvals, height, top, i))
    {
      ghost var u := ufvals;
      ufvals := ufvals[k := ufvals[k].(rank := ufvals[k].rank + 1)];
      RootIgnoresValues(u, ufvals, height, top, k);
      forall i | 0 <= i < |u| ensures Root(ufvals, height, top, i) == Root(u, height, top, i) {
        RootIgnoresValues(u, ufvals, height, top, i);
      }
    }

    /** Afterwards the pair is one of those the partition closes over; no value has changed. */
    method Unite(x: nat, y: nat, noval: T)
      requires Valid()
      modifies this
      ensures Valid() && pairs == old(pairs) + [(x, y)] && |ufvals| == Max(old(|ufvals|), Max(x, y) + 1)
      ensures Extends(old(ufvals), ufvals, noval)
    {
      Grow(Max(x, y), noval);
      ghost var grown := ufvals;
      hide Represents, Ordered, Root, Extends;
      var rx := CompressFind(x);
      var ry := CompressFind(y);
      ghost var found := ufvals;
      StillExtends(old(ufvals), grown, found, noval);
      Join(rx, ry, x, y);
      StillExtends(old(ufvals), found, ufvals, noval);
      pairs := pairs + [(x, y)];
    }

    /** The representatives of the two, made one. */
    method Join(rx: nat, ry: nat, ghost x: nat, ghost y: nat)
      requires Valid() && x < |ufvals| && y < |ufvals| && rx == ClassOf(x) && ry == ClassOf(y)
      modifies this`ufvals, this`height, this`top
      ensures Represents(ufvals, height, top, pairs + [(x, y)]) && KeptValues(old(ufvals), ufvals)
    {
      ghost var u, h, t := ufvals, height, top;
      hide Ordered, Root;
      if rx == ry {
        AlreadyRepresents(u, h, t, pairs, x, y);
      } else {
        ghost var c, p := Attach(rx, ry);
        JoinRepresents(u, h, t, pairs, ufvals, height, top, x, y, c, p);
      }
    }
  }

  lemma {:induction false} RootIgnoresValues<T>(u: seq<UfVal<T>>, v: seq<UfVal<T>>, height: seq<nat>, top: nat, k: nat)
    requires Ordered(u, height, top) && |v| == |u| && k < |u| && forall i :: 0 <= i < |u| ==> v[i].next == u[i].next
    ensures Ordered(v, height, top) && Root(v, height, top, k) == Root(u, height, top, k)
    decreases top - height[k]
  {
    if u[k].next >= 0 {
      RootIgnoresValues(u, v, height, top, u[k].next);
    }
  }
}
