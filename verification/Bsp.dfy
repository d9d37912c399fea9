/** Visibility culling over a BSP tree, with coordinates as reals. */
module Bsp {
  import opened Bytes

  datatype Point = Point(x: real, y: real, z: real)

  /** A plane and the children in front of it and behind it; a negative child c is leaf -1-c. */
  datatype Node = Node(normal: Point, dist: real, front: int, back: int)

  const MAX_PVS := 4096

  function Dot(a: Point, b: Point): real {
    a.x * b.x + a.y * b.y + a.z * b.z
  }

  function Minus(a: Point, b: Point): Point {
    Point(a.x - b.x, a.y - b.y, a.z - b.z)
  }

  function Height(n: Node, p: Point): real {
    Dot(n.normal, p) - n.dist
  }

  /** `rank` bounds the depth below a node: the tree has no cycle. */
  predicate Child(nodes: seq<Node>, rank: seq<nat>, c: int, bound: nat)
    requires |rank| == |nodes|
  {
    -0x8000 <= c < |nodes| && (c >= 0 ==> rank[c] < bound)
  }

  predicate Acyclic(nodes: seq<Node>, rank: seq<nat>) {
    && |rank| == |nodes|
    && forall i :: 0 <= i < |nodes| ==>
         Child(nodes, rank, nodes[i].front, rank[i]) && Child(nodes, rank, nodes[i].back, rank[i])
  }

  predicate Unit(nodes: seq<Node>) {
    forall i :: 0 <= i < |nodes| ==> Dot(nodes[i].normal, nodes[i].normal) == 1.0
  }

  predicate Start(nodes: seq<Node>, c: int) {
    -0x8000 <= c < |nodes|
  }

  function Depth(rank: seq<nat>, c: int): nat
    requires c < |rank|
  {
    if c < 0 then 0 else rank[c] + 1
  }

  /** The leaf a point lies in. */
  function Leaf(nodes: seq<Node>, rank: seq<nat>, c: int, p: Point): (l: nat)
    requires Acyclic(nodes, rank) && Start(nodes, c)
    ensures l < 0x8000
    decreases Depth(rank, c)
  {
    if c < 0 then -1 - c
    else if Height(nodes[c], p) <= 0.0 then Leaf(nodes, rank, nodes[c].back, p)
    else Leaf(nodes, rank, nodes[c].front, p)
  }

  /** The leaves other than leaf 0 that a sphere reaches, less one each, front subtrees first. */
  function Reached(nodes: seq<Node>, rank: seq<nat>, c: int, pos: Point, radius: real): (ls: seq<nat>)
    requires Acyclic(nodes, rank) && Start(nodes, c)
    ensures forall l :: l in ls ==> l < 0x7fff
    decreases Depth(rank, c)
  {
    if c < 0 then if c == -1 then [] else [-2 - c]
    else if Height(nodes[c], pos) < -radius then Reached(nodes, rank, nodes[c].back, pos, radius)
    else if Height(nodes[c], pos) > radius then Reached(nodes, rank, nodes[c].front, pos, radius)
    else Reached(nodes, rank, nodes[c].front, pos, radius) + Reached(nodes, rank, nodes[c].back, pos, radius)
  }

  // ---- The same as paths down the tree, with the planes written out ----

  /** How far along the normal of a plane a point is. */
  function Along(n: Node, p: Point): real {
    n.normal.x * p.x + n.normal.y * p.y + n.normal.z * p.z
  }

  /** The child a point takes: in front of a plane the front one, on it or behind it the other. */
  function PointStep(n: Node, p: Point): int {
    if Along(n, p) > n.dist then n.front else n.back
  }

  ghost predicate PointPath(nodes: seq<Node>, p: Point, path: seq<int>) {
    && path != []
    && forall i :: 0 <= i < |path| - 1 ==> 0 <= path[i] < |nodes| && path[i + 1] == PointStep(nodes[path[i]], p)
  }

  lemma LeafStep(nodes: seq<Node>, rank: seq<nat>, c: int, p: Point)
    requires Acyclic(nodes, rank) && 0 <= c < |nodes|
    ensures var next := PointStep(nodes[c], p);
      Start(nodes, next) && Depth(rank, next) < Depth(rank, c) && Leaf(nodes, rank, c, p) == Leaf(nodes, rank, next, p)
  {
    hide Height, Along;
    HeightIs(nodes[c], p);
  }

  lemma HeightIs(n: Node, p: Point)
    ensures Height(n, p) == Along(n, p) - n.dist
  {
  }

  ghost predicate LeadsTo(path: seq<int>, c: int, d: int) {
    path != [] && path[0] == c && path[|path| - 1] == d
  }

  /** A point lies in leaf `l` exactly when its path ends there. */
  lemma LeafExactly(nodes: seq<Node>, rank: seq<nat>, c: int, p: Point, l: nat)
    requires Acyclic(nodes, rank) && Start(nodes, c)
    ensures Leaf(nodes, rank, c, p) == l <==> exists path :: PointPath(nodes, p, path) && LeadsTo(path, c, -1 - l)
  {
    var there := PathOfPoint(nodes, rank, c, p);
    forall path | PointPath(nodes, p, path) && LeadsTo(path, c, -1 - l) ensures Leaf(nodes, rank, c, p) == l {
      PathEndsInLeaf(nodes, rank, c, p, path, l);
    }
  }

  lemma {:induction false} PathOfPoint(nodes: seq<Node>, rank: seq<nat>, c: int, p: Point) returns (path: seq<int>)
    requires Acyclic(nodes, rank) && Start(nodes, c)
    ensures PointPath(nodes, p, path) && LeadsTo(path, c, -1 - Leaf(nodes, rank, c, p))
    decreases Depth(rank, c)
  {
    if c < 0 {
      path := [c];
    } else {
      LeafStep(nodes, rank, c, p);
      hide PointStep, Acyclic, Height;
      var rest := PathOfPoint(nodes, rank, PointStep(nodes[c], p), p);
      path := [c] + rest;
      assert forall i :: 1 <= i < |path| ==> path[i] == rest[i - 1];
    }
  }

  lemma {:induction false} PathEndsInLeaf(nodes: seq<Node>, rank: seq<nat>, c: int, p: Point, path: seq<int>, l: nat)
    requires Acyclic(nodes, rank) && Start(nodes, c) && PointPath(nodes, p, path) && LeadsTo(path, c, -1 - l)
    ensures Leaf(nodes, rank, c, p) == l
    decreases |path|
  {
    if |path| > 1 {
      var rest := path[1..];
      assert forall i :: 0 <= i < |rest| ==> rest[i] == path[i + 1];
      LeafStep(nodes, rank, c, p);
      hide PointStep, Acyclic, Leaf;
      PathEndsInLeaf(nodes, rank, path[1], p, rest, l);
    }
  }

  /** The children a sphere takes: the front one unless it is all behind the plane, the other unless
      it is all in front of it. */
  predicate SphereStep(n: Node, pos: Point, radius: real, c: int) {
    || (c == n.front && Along(n, pos) - n.dist >= -radius)
    || (c == n.back && (Along(n, pos) - n.dist < -radius || Along(n, pos) - n.dist <= radius))
  }

  ghost predicate SpherePath(nodes: seq<Node>, pos: Point, radius: real, path: seq<int>) {
    && path != []
    && forall i :: 0 <= i < |path| - 1 ==>
         0 <= path[i] < |nodes| && SphereStep(nodes[path[i]], pos, radius, path[i + 1])
  }

  /** Leaf `l + 1` is listed exactly when some path of the sphere ends there. */
  lemma ReachedExactly(nodes: seq<Node>, rank: seq<nat>, c: int, pos: Point, radius: real, l: nat)
    requires Acyclic(nodes, rank) && Start(nodes, c)
    ensures l in Reached(nodes, rank, c, pos, radius)
       <==> exists path :: SpherePath(nodes, pos, radius, path) && LeadsTo(path, c, -2 - l)
  {
    if l in Reached(nodes, rank, c, pos, radius) {
      var there := PathOfSphere(nodes, rank, c, pos, radius, l);
    }
    forall path | SpherePath(nodes, pos, radius, path) && LeadsTo(path, c, -2 - l)
      ensures l in Reached(nodes, rank, c, pos, radius)
    {
      PathIsReached(nodes, rank, c, pos, radius, path, l);
    }
  }

  lemma {:induction false} PathOfSphere(nodes: seq<Node>, rank: seq<nat>, c: int, pos: Point, radius: real, l: nat)
    returns (path: seq<int>)
    requires Acyclic(nodes, rank) && Start(nodes, c) && l in Reached(nodes, rank, c, pos, radius)
    ensures SpherePath(nodes, pos, radius, path) && LeadsTo(path, c, -2 - l)
    decreases Depth(rank, c)
  {
    if c < 0 {
      path := [c];
    } else {
      var n := nodes[c];
      hide Height, Along;
      HeightIs(n, pos);
      var next := if SphereStep(n, pos, radius, n.front) && l in Reached(nodes, rank, n.front, pos, radius)
                  then n.front else n.back;
      var rest := PathOfSphere(nodes, rank, next, pos, radius, l);
      path := [c] + rest;
      assert forall i :: 1 <= i < |path| ==> path[i] == rest[i - 1];
    }
  }

  lemma {:induction false} PathIsReached(nodes: seq<Node>, rank: seq<nat>, c: int, pos: Point, radius: real,
                                         path: seq<int>, l: nat)
    requires Acyclic(nodes, rank) && Start(nodes, c) && SpherePath(nodes, pos, radius, path) && LeadsTo(path, c, -2 - l)
    ensures l in Reached(nodes, rank, c, pos, radius)
    decreases |path|
  {
    hide Height, Along;
    if |path| > 1 {
      var rest := path[1..];
      assert forall i :: 0 <= i < |rest| ==> rest[i] == path[i + 1];
      HeightIs(nodes[c], pos);
      PathIsReached(nodes, rank, path[1], pos, radius, rest, l);
    }
  }

  predicate InSphere(p: Point, pos: Point, radius: real) {
    radius >= 0.0 && Dot(Minus(p, pos), Minus(p, pos)) <= radius * radius
  }

  // ---- Conservative: no leaf of a point in the sphere is missed ----

  lemma SquareNonNegative(a: real)
    ensures a * a >= 0.0
  {
  }

  /** Lagrange's identity, and with it the Cauchy-Schwarz inequality in three dimensions. */
  lemma CauchySchwarz(a: Point, b: Point)
    ensures Dot(a, b) * Dot(a, b) <= Dot(a, a) * Dot(b, b)
  {
    var p, q, r := a.x * b.x, a.y * b.y, a.z * b.z;
    SumTimesSum(a.x * a.x, a.y * a.y, a.z * a.z, b.x * b.x, b.y * b.y, b.z * b.z);
    SumTimesSum(p, q, r, p, q, r);
    ProductSquared(a.x, b.x);
    ProductSquared(a.y, b.y);
    ProductSquared(a.z, b.z);
    CrossTerm(a.x, a.y, b.x, b.y);
    CrossTerm(a.y, a.z, b.y, b.z);
    CrossTerm(a.x, a.z, b.x, b.z);
  }

  lemma SumTimesSum(x1: real, x2: real, x3: real, y1: real, y2: real, y3: real)
    ensures (x1 + x2 + x3) * (y1 + y2 + y3)
         == x1 * y1 + x2 * y2 + x3 * y3 + (x1 * y2 + x2 * y1) + (x2 * y3 + x3 * y2) + (x1 * y3 + x3 * y1)
  {
  }

  lemma ProductSquared(x: real, y: real)
    ensures (x * x) * (y * y) == (x * y) * (x * y)
  {
  }

  /** What is left of one pair of coordinates is a square. */
  lemma CrossTerm(x: real, y: real, z: real, w: real)
    ensures (x * z) * (y * w) + (y * w) * (x * z) <= (x * x) * (w * w) + (y * y) * (z * z)
  {
    var s, t := x * w, y * z;
    SquareNonNegative(s - t);
    assert (s - t) * (s - t) == s * s - 2.0 * (s * t) + t * t;
    ProductSquared(x, w);
    ProductSquared(y, z);
    assert (x * z) * (y * w) == s * t;
  }

  lemma ProductPositive(a: real, b: real)
    requires a > 0.0 && b > 0.0
    ensures a * b > 0.0
  {
  }

  lemma SquareBound(a: real, r: real)
    requires r >= 0.0 && a * a <= r * r
    ensures -r <= a <= r
  {
    assert (-a) * (-a) == a * a;
    if a > r {
      SquareGrows(a, r);
    } else if a < -r {
      SquareGrows(-a, r);
    }
  }

  lemma SquareGrows(a: real, r: real)
    requires a > r >= 0.0
    ensures a * a > r * r
  {
    ProductPositive(a - r, a + r);
    assert (a - r) * (a + r) == a * a - r * r;
  }

  /** A point of the sphere is at most the radius away from the centre along a unit normal. */
  lemma HeightWithin(n: Node, p: Point, pos: Point, radius: real)
    requires Dot(n.normal, n.normal) == 1.0 && InSphere(p, pos, radius)
    ensures Height(n, pos) - radius <= Height(n, p) <= Height(n, pos) + radius
  {
    var d := Minus(p, pos);
    CauchySchwarz(n.normal, d);
    SquareBound(Dot(n.normal, d), radius);
    assert Dot(n.normal, p) == Dot(n.normal, pos) + Dot(n.normal, d);
  }

  lemma {:induction false} ReachesLeafOfPoint(nodes: seq<Node>, rank: seq<nat>, c: int, pos: Point, radius: real,
                                              p: Point)
    requires Acyclic(nodes, rank) && Unit(nodes) && Start(nodes, c) && InSphere(p, pos, radius)
    ensures var l := Leaf(nodes, rank, c, p); l != 0 ==> l - 1 in Reached(nodes, rank, c, pos, radius)
    decreases Depth(rank, c)
  {
    if c >= 0 {
      HeightWithin(nodes[c], p, pos, radius);
      ReachesLeafOfPoint(nodes, rank, nodes[c].front, pos, radius, p);
      ReachesLeafOfPoint(nodes, rank, nodes[c].back, pos, radius, p);
    }
  }

  // ---- The visibility row ----

  function Monus(a: nat, b: nat): nat {
    if a < b then 0 else a - b
  }

  /** `s` holds enough runs for `n` bytes. */
  predicate Covers(s: seq<byte>, n: nat)
    decreases |s|
  {
    n == 0 || (s != [] && if s[0] != 0 then Covers(s[1..], n - 1) else |s| >= 2 && Covers(s[2..], Monus(n, s[1])))
  }

  /** The row a run-length stream stands for, up to the run that completes byte `n`. */
  function Expand(s: seq<byte>, n: nat): (r: seq<byte>)
    requires Covers(s, n)
    ensures |r| >= n
    decreases |s|
  {
    if n == 0 then []
    else if s[0] != 0 then [s[0]] + Expand(s[1..], n - 1)
    else Zeros(s[1]) + Expand(s[2..], Monus(n, s[1]))
  }

  /** Leading zeros of a row, as many as one count can hold. */
  function Run(row: seq<byte>): (k: nat)
    ensures k <= |row| && k <= 255
    ensures forall i :: 0 <= i < k ==> row[i] == 0
    ensures row != [] && row[0] == 0 ==> k > 0
  {
    RunUpTo(row, 255)
  }

  function RunUpTo(row: seq<byte>, max: nat): (k: nat)
    ensures k <= |row| && k <= max
    ensures forall i :: 0 <= i < k ==> row[i] == 0
    ensures row != [] && row[0] == 0 && max > 0 ==> k > 0
    decreases max, row
  {
    if row == [] || row[0] != 0 || max == 0 then 0 else 1 + RunUpTo(row[1..], max - 1)
  }

  /** The compressed form a map compiler stores: a zero byte stands before the count of zeros. */
  function Compress(row: seq<byte>): seq<byte>
    decreases |row|
  {
    if row == [] then []
    else if row[0] != 0 then [row[0]] + Compress(row[1..])
    else [0, Run(row)] + Compress(row[Run(row)..])
  }

  lemma ExpandByte(b: byte, s: seq<byte>, n: nat)
    requires b != 0 && n > 0 && Covers(s, n - 1)
    ensures Covers([b] + s, n) && Expand([b] + s, n) == [b] + Expand(s, n - 1)
  {
    assert ([b] + s)[1..] == s;
  }

  lemma ExpandNothing(s: seq<byte>)
    ensures Covers(s, 0) && Expand(s, 0) == []
  {
  }

  lemma ExpandRun(k: byte, s: seq<byte>, n: nat)
    requires n > 0 && Covers(s, Monus(n, k))
    ensures Covers([0, k] + s, n) && Expand([0, k] + s, n) == Zeros(k) + Expand(s, Monus(n, k))
  {
    assert ([0, k] + s)[2..] == s;
  }

  /** One run, in terms of places in the stream. */
  lemma ExpandAt(s: seq<byte>, i: nat, n: nat)
    requires i <= |s| && n > 0 && Covers(s[i..], n)
    ensures i < |s|
    ensures s[i] != 0 ==> Covers(s[i + 1..], n - 1) && Expand(s[i..], n) == [s[i]] + Expand(s[i + 1..], n - 1)
    ensures s[i] == 0 ==> i + 1 < |s| && Covers(s[i + 2..], Monus(n, s[i + 1]))
    ensures s[i] == 0 ==> Expand(s[i..], n) == Zeros(s[i + 1]) + Expand(s[i + 2..], Monus(n, s[i + 1]))
  {
    hide Zeros;
    var t := s[i..];
    assert t[1..] == s[i + 1..];
    if |t| >= 2 {
      assert t[2..] == s[i + 2..];
    }
  }

  lemma {:induction false} ExpandCompress(row: seq<byte>, rest: seq<byte>)
    ensures Covers(Compress(row) + rest, |row|) && Expand(Compress(row) + rest, |row|) == row
    decreases |row|
  {
    hide Expand, Covers, Compress, Run;
    CompressStep(row);
    if row == [] {
      ExpandNothing(Compress(row) + rest);
    } else if row[0] != 0 {
      ExpandCompress(row[1..], rest);
      ExpandByte(row[0], Compress(row[1..]) + rest, |row|);
      Assoc([row[0]], Compress(row[1..]), rest);
    } else {
      var k := Run(row);
      ExpandCompress(row[k..], rest);
      ExpandRun(k, Compress(row[k..]) + rest, |row|);
      Assoc([0, k], Compress(row[k..]), rest);
    }
  }

  lemma CompressStep(row: seq<byte>)
    ensures row != [] && row[0] != 0 ==> Compress(row) == [row[0]] + Compress(row[1..]) && row == [row[0]] + row[1..]
    ensures row != [] && row[0] == 0 ==>
      Run(row) > 0 && Compress(row) == [0, Run(row)] + Compress(row[Run(row)..])
      && row == Zeros(Run(row)) + row[Run(row)..]
  {
    hide Run, Zeros;
    if row != [] && row[0] != 0 {
      assert row == [row[0]] + row[1..];
    } else if row != [] {
      ZerosInFront(row, Run(row));
    }
  }

  lemma ZerosInFront(row: seq<byte>, k: nat)
    requires k <= |row| && forall i :: 0 <= i < k ==> row[i] == 0
    ensures row == Zeros(k) + row[k..]
  {
  }

  predicate Bit(x: nat, k: nat) {
    if k == 0 then x % 2 == 1 else Bit(x / 2, k - 1)
  }

  /** Bit `k` of a byte is the one of weight `2^k`. */
  lemma {:induction false} BitAt(x: nat, k: nat)
    ensures Power2(k) > 0 && (Bit(x, k) <==> x / Power2(k) % 2 == 1)
  {
    if k > 0 {
      BitAt(x / 2, k - 1);
      HalfThenDivide(x, Power2(k - 1));
    }
  }

  lemma PowersPositive(k: nat)
    ensures Power2(k) > 0
  {
    BitAt(0, k);
  }

  predicate LeafBit(row: seq<byte>, l: nat) {
    l / 8 < |row| && Bit(row[l / 8], l % 8)
  }

  /** `BSP_Visible`: some listed leaf is set in the row, or the list was given up. */
  predicate Visible(row: seq<byte>, leafcount: int, list: seq<nat>)
    requires leafcount <= |list|
  {
    leafcount < 0 || exists i :: 0 <= i < leafcount && LeafBit(row, list[i])
  }

  /** What `BSP_SphereLeafNums` returns, and the list it leaves. */
  function Count(ls: seq<nat>, maxleafs: nat): int {
    if |ls| > maxleafs then -1 else |ls|
  }

  /** An entity is drawn whenever some point of its sphere lies in a leaf that the viewer's row has. */
  lemma SeenIfAnyPointIs(nodes: seq<Node>, rank: seq<nat>, pos: Point, radius: real, p: Point, maxleafs: nat,
                         row: seq<byte>)
    requires Acyclic(nodes, rank) && Unit(nodes) && nodes != [] && InSphere(p, pos, radius) && |row| == MAX_PVS
    requires Leaf(nodes, rank, 0, p) != 0 && LeafBit(row, Leaf(nodes, rank, 0, p) - 1)
    ensures var ls := Reached(nodes, rank, 0, pos, radius); Visible(row, Count(ls, maxleafs), ls)
  {
    ReachesLeafOfPoint(nodes, rank, 0, pos, radius, p);
  }

  /** A list that was not given up shows something exactly when one of its leaves has its bit: the one
      of weight `2^(l % 8)` in byte `l / 8`. */
  lemma VisibleExactly(row: seq<byte>, list: seq<nat>, leafcount: nat)
    requires leafcount <= |list| && |row| == MAX_PVS && forall i :: 0 <= i < leafcount ==> list[i] < 8 * MAX_PVS
    ensures forall k: nat :: Power2(k) > 0
    ensures Visible(row, leafcount, list)
       <==> exists i :: 0 <= i < leafcount && row[list[i] / 8] / Power2(list[i] % 8) % 2 == 1
  {
    forall k: nat ensures Power2(k) > 0 {
      PowersPositive(k);
    }
    forall i | 0 <= i < leafcount
      ensures LeafBit(row, list[i]) <==> row[list[i] / 8] / Power2(list[i] % 8) % 2 == 1
    {
      BitAt(row[list[i] / 8], list[i] % 8);
    }
  }

  lemma ReachedBelow(nodes: seq<Node>, rank: seq<nat>, c: int, pos: Point, radius: real)
    requires Acyclic(nodes, rank) && 0 <= c < |nodes|
    ensures var f := Reached(nodes, rank, nodes[c].front, pos, radius);
            var b := Reached(nodes, rank, nodes[c].back, pos, radius);
      Reached(nodes, rank, c, pos, radius) ==
        if Height(nodes[c], pos) < -radius then b else if Height(nodes[c], pos) > radius then f else f + b
  {
  }

  lemma ChildrenBelow(nodes: seq<Node>, rank: seq<nat>, c: int)
    requires Acyclic(nodes, rank) && 0 <= c < |nodes|
    ensures Start(nodes, nodes[c].front) && Depth(rank, nodes[c].front) < Depth(rank, c)
    ensures Start(nodes, nodes[c].back) && Depth(rank, nodes[c].back) < Depth(rank, c)
  {
  }

  lemma ReachedLeaf(nodes: seq<Node>, rank: seq<nat>, c: int, pos: Point, radius: real)
    requires Acyclic(nodes, rank) && -0x8000 <= c < 0
    ensures Reached(nodes, rank, c, pos, radius) == if c == -1 then [] else [-2 - c]
  {
  }

  /** Nothing outside `lo..hi` has changed. */
  ghost predicate Kept(was: seq<nat>, now: seq<nat>, lo: nat, hi: nat) {
    |was| == |now| && lo <= hi <= |now| && now[..lo] == was[..lo] && now[hi..] == was[hi..]
  }

  lemma KeptItself(s: seq<nat>, lo: nat, hi: nat)
    requires lo <= hi <= |s|
    ensures Kept(s, s, lo, hi)
  {
  }

  lemma NothingYet(list: array<nat>, at: nat, all: seq<nat>)
    requires at <= list.Length
    ensures list[at..at] == [] && [] + all == all
  {
  }

  /** What is listed, the front and the back: the back goes behind the front, or there is too much already. */
  lemma CountOnward(done: seq<nat>, front: seq<nat>, back: seq<nat>, all: seq<nat>, maxleafs: nat)
    requires done + (front + back) == all && |done| <= maxleafs
    ensures (done + front) + back == all
    ensures Count(front, maxleafs - |done|) == -1 ==> Count(all, maxleafs) == -1
    ensures Count(front, maxleafs - |done|) != -1
      ==> Count(front, maxleafs - |done|) == |front| && |done + front| <= maxleafs
  {
    Assoc(done, front, back);
  }

  lemma KeptTwice(a: seq<nat>, b: seq<nat>, c: seq<nat>, lo: nat, hi: nat)
    requires Kept(a, b, lo, hi) && Kept(b, c, lo, hi)
    ensures Kept(a, c, lo, hi)
  {
  }

  lemma KeptWider(was: seq<nat>, now: seq<nat>, lo: nat, mid: nat, hi: nat)
    requires Kept(was, now, mid, hi) && lo <= mid
    ensures Kept(was, now, lo, hi) && now[lo..mid] == was[lo..mid]
  {
    assert now[..lo] == now[..mid][..lo] && was[..lo] == was[..mid][..lo];
    assert now[lo..mid] == now[..mid][lo..] && was[lo..mid] == was[..mid][lo..];
  }

  class Model {
    const nodes: seq<Node>
    ghost const rank: seq<nat>
    const pvs: seq<Option<seq<byte>>>
    const pvsbytecount: nat
    const decpvs: array<byte>

    ghost predicate Valid() {
      && |rank| == |nodes| && Acyclic(nodes, rank) && nodes != []
      && decpvs.Length == MAX_PVS && pvsbytecount <= MAX_PVS
    }

    constructor (nodes: seq<Node>, ghost rank: seq<nat>, pvs: seq<Option<seq<byte>>>, pvsbytecount: nat)
      requires Acyclic(nodes, rank) && nodes != [] && pvsbytecount <= MAX_PVS
      ensures Valid() && this.nodes == nodes && this.rank == rank && this.pvs == pvs
    {
      this.nodes, this.rank, this.pvs, this.pvsbytecount := nodes, rank, pvs, pvsbytecount;
      decpvs := new byte[MAX_PVS];
    }

    /** `BSP_SphereLeafNums_r`: fills `list` from `at` on. */
    method SphereLeafNumsFrom(first: int, maxleafs: nat, list: array<nat>, at: nat, pos: Point, radius: real)
      returns (n: int)
      requires Valid() && Start(nodes, first) && at + maxleafs <= list.Length
      modifies list
      ensures n == Count(Reached(nodes, rank, first, pos, radius), maxleafs)
      ensures n == -1 <==> |Reached(nodes, rank, first, pos, radius)| > maxleafs
      ensures n >= 0 ==> list[at..at + n] == Reached(nodes, rank, first, pos, radius)
      ensures Kept(old(list[..]), list[..], at, at + maxleafs)
      decreases Depth(rank, first), 0
    {
      ghost var start, done, all: seq<nat> := list[..], [], Reached(nodes, rank, first, pos, radius);
      KeptItself(start, at, at + maxleafs);
      NothingYet(list, at, all);
      hide Reached, Height, Acyclic, Depth, Kept;
      var numleafs := 0;
      var rn := first;
      while rn >= 0
        invariant Start(nodes, rn) && Depth(rank, rn) <= Depth(rank, first) && numleafs == |done| <= maxleafs
        invariant list[at..at + numleafs] == done && done + Reached(nodes, rank, rn, pos, radius) == all
        invariant Kept(start, list[..], at, at + maxleafs)
        decreases Depth(rank, rn)
      {
        var dot := Height(nodes[rn], pos);
        ReachedBelow(nodes, rank, rn, pos, radius);
        ChildrenBelow(nodes, rank, rn);
        if dot < -radius {
          rn := nodes[rn].back;
        } else if dot > radius {
          rn := nodes[rn].front;
        } else {
          ghost var front := Reached(nodes, rank, nodes[rn].front, pos, radius);
          ghost var back := Reached(nodes, rank, nodes[rn].back, pos, radius);
          var sub := InFront(nodes[rn].front, maxleafs, numleafs, list, at, pos, radius, done, start);
          CountOnward(done, front, back, all, maxleafs);
          if sub < 0 {
            return -1;
          }
          numleafs := numleafs + sub;
          done := done + front;
          rn := nodes[rn].back;
        }
      }
      ReachedLeaf(nodes, rank, rn, pos, radius);
      n := OwnLeaf(rn, maxleafs, numleafs, list, at, done, start);
    }

    /** The recursive half: a subtree behind what is listed already. */
    method InFront(child: int, maxleafs: nat, numleafs: nat, list: array<nat>, at: nat, pos: Point, radius: real,
                   ghost done: seq<nat>, ghost start: seq<nat>) returns (sub: int)
      requires Valid() && Start(nodes, child) && at + maxleafs <= list.Length && numleafs == |done| <= maxleafs
      requires list[at..at + numleafs] == done && Kept(start, list[..], at, at + maxleafs)
      modifies list
      ensures sub == Count(Reached(nodes, rank, child, pos, radius), maxleafs - numleafs)
      ensures sub >= 0 ==> list[at..at + numleafs + sub] == done + Reached(nodes, rank, child, pos, radius)
      ensures Kept(start, list[..], at, at + maxleafs)
      decreases Depth(rank, child), 1
    {
      hide Reached, Acyclic, Depth, Kept;
      ghost var was := list[..];
      sub := SphereLeafNumsFrom(child, maxleafs - numleafs, list, at + numleafs, pos, radius);
      KeptWider(was, list[..], at, at + numleafs, at + maxleafs);
      KeptTwice(start, was, list[..], at, at + maxleafs);
      assert was[at..at + numleafs] == done;
      if sub >= 0 {
        assert list[at..at + numleafs + sub] == list[at..at + numleafs] + list[at + numleafs..at + numleafs + sub];
      }
    }

    /** The leaf at the bottom: none for leaf 0, -1 when the list is full. */
    method OwnLeaf(rn: int, maxleafs: nat, numleafs: nat, list: array<nat>, at: nat,
                   ghost done: seq<nat>, ghost start: seq<nat>) returns (n: int)
      requires rn < 0 && at + maxleafs <= list.Length && numleafs == |done| <= maxleafs
      requires list[at..at + numleafs] == done && Kept(start, list[..], at, at + maxleafs)
      modifies list
      ensures var all := done + if rn == -1 then [] else [-2 - rn];
              n == Count(all, maxleafs) && (n >= 0 ==> list[at..at + n] == all)
      ensures Kept(start, list[..], at, at + maxleafs)
    {
      var leaf := -1 - rn;
      if leaf <= 0 {
        assert done + [] == done;
        return numleafs;
      }
      if maxleafs <= numleafs {
        return -1;
      }
      list[at + numleafs] := leaf - 1;
      n := numleafs + 1;
    }

    method LeafNum(p: Point) returns (l: nat)
      requires Valid()
      ensures l == Leaf(nodes, rank, 0, p)
    {
      var rn := 0;
      while rn >= 0
        invariant Start(nodes, rn) && Leaf(nodes, rank, rn, p) == Leaf(nodes, rank, 0, p)
        decreases Depth(rank, rn)
      {
        if Height(nodes[rn], p) <= 0.0 {
          rn := nodes[rn].back;
        } else {
          rn := nodes[rn].front;
        }
      }
      l := -1 - rn;
    }

    method IsVisible(leafcount: int, list: array<nat>) returns (r: bool)
      requires Valid() && leafcount <= list.Length && forall i :: 0 <= i < leafcount ==> list[i] < 8 * MAX_PVS
      ensures r == Visible(decpvs[..], leafcount, list[..])
    {
      if leafcount < 0 {
        return true;
      }
      for i := 0 to leafcount
        invariant forall k :: 0 <= k < i ==> !LeafBit(decpvs[..], list[k])
      {
        if Bit(decpvs[list[i] / 8], list[i] % 8) {
          assert LeafBit(decpvs[..], list[i]);
          return true;
        }
      }
      r := false;
    }

    /** `DecompressVis` into the model's own row; what a last run writes too much stays in the buffer. */
    method DecompressVis(s: seq<byte>, bytecount: nat)
      requires Valid() && Covers(s, bytecount) && |Expand(s, bytecount)| <= decpvs.Length
      modifies decpvs
      ensures decpvs[..|Expand(s, bytecount)|] == Expand(s, bytecount)
    {
      hide Expand, Covers, Zeros;
      var i, out := 0, 0;
      ghost var row := Expand(s, bytecount);
      assert s[0..] == s;
      while out < bytecount
        invariant 0 <= i <= |s| && 0 <= out <= |row| && Covers(s[i..], Monus(bytecount, out))
        invariant row == decpvs[..out] + Expand(s[i..], Monus(bytecount, out))
        decreases |s| - i
      {
        ghost var n := Monus(bytecount, out);
        ExpandAt(s, i, n);
        var c := s[i];
        if c == 0 {
          var zeros := s[i + 1];
          Assoc(decpvs[..out], Zeros(zeros), Expand(s[i + 2..], Monus(n, zeros)));
          WriteZeros(zeros, out);
          i := i + 2;
          out := out + zeros;
        } else {
          Assoc(decpvs[..out], [c], Expand(s[i + 1..], n - 1));
          decpvs[out] := c;
          assert decpvs[..out + 1] == decpvs[..out] + [c];
          i, out := i + 1, out + 1;
        }
      }
      ExpandNothing(s[i..]);
    }

    /** Four at a time while more than four are left, then singly. */
    method WriteZeros(count: nat, at: nat)
      requires at + count <= decpvs.Length
      modifies decpvs
      ensures decpvs[..at + count] == old(decpvs[..at]) + Zeros(count)
    {
      var c, out := count, at;
      while c > 4
        invariant c >= 0 && out + c == at + count && out >= at
        invariant decpvs[..at] == old(decpvs[..at])
        invariant forall k :: at <= k < out ==> decpvs[k] == 0
      {
        decpvs[out], decpvs[out + 1], decpvs[out + 2], decpvs[out + 3] := 0, 0, 0, 0;
        out, c := out + 4, c - 4;
      }
      while c > 0
        invariant c >= 0 && out + c == at + count && out >= at
        invariant decpvs[..at] == old(decpvs[..at])
        invariant forall k :: at <= k < out ==> decpvs[k] == 0
      {
        decpvs[out] := 0;
        out, c := out + 1, c - 1;
      }
    }

    /** `BSP_SetupForPosition`: afterwards the row is the one of the leaf the viewer is in. */
    method SetupForPosition(p: Point)
      requires Valid()
      requires var l := Leaf(nodes, rank, 0, p);
        && l < |pvs| && pvs[l].Some? && Covers(pvs[l].value, pvsbytecount)
        && |Expand(pvs[l].value, pvsbytecount)| <= decpvs.Length
      modifies decpvs
      ensures decpvs[..pvsbytecount] == Expand(pvs[Leaf(nodes, rank, 0, p)].value, pvsbytecount)[..pvsbytecount]
    {
      var leafnum := LeafNum(p);
      DecompressVis(pvs[leafnum].value, pvsbytecount);
    }
  }
}
