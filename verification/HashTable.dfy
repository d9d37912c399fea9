/** The pooled hash table: chains threaded through a pool of nodes that grows 64 at a time. */
module HashTable {
  import opened Bytes

  const CHUNKSIZE := 64

  /** A node of the pool; `next` is the place of another node, or -1. */
  datatype Node<K, T> = Node(key: K, data: T, next: int)

  /**
   * The table together with the lists its links spell out: one chain per bucket and the
   * unused list. `owner` names the list each node is on, -1 for the unused one.
   */
  datatype Shape<K, T> = Shape(table: seq<int>, nodes: seq<Node<K, T>>, unused: int,
                               chains: seq<seq<nat>>, free: seq<nat>, owner: seq<int>)

  /** Place `i` of a list, or the null link past its end. */
  function At(ids: seq<nat>, i: nat): int {
    if i < |ids| then ids[i] else -1
  }

  /** The nodes of `ids`, in order, are what following the links from `head` visits. */
  predicate Follows<K, T>(nodes: seq<Node<K, T>>, head: int, ids: seq<nat>) {
    && (forall i :: 0 <= i < |ids| ==> ids[i] < |nodes|)
    && head == At(ids, 0)
    && (forall i :: 0 <= i < |ids| ==> nodes[ids[i]].next == At(ids, i + 1))
  }

  predicate Distinct(ids: seq<nat>) {
    forall i, j :: 0 <= i < j < |ids| ==> ids[i] != ids[j]
  }

  /** Every id of the list belongs to `who`. */
  predicate Owned(owner: seq<int>, ids: seq<nat>, who: int) {
    forall i :: 0 <= i < |ids| ==> ids[i] < |owner| && owner[ids[i]] == who
  }

  /** A list held together: its links, its owner, no node twice. */
  ghost predicate Strung<K, T>(s: Shape<K, T>, head: int, ids: seq<nat>, who: int) {
    Follows(s.nodes, head, ids) && Owned(s.owner, ids, who) && Distinct(ids)
  }

  /** The links agree with the lists, and no node is on two of them. */
  ghost predicate Linked<K, T>(s: Shape<K, T>) {
    && |s.table| == |s.chains| > 0 && |s.owner| == |s.nodes|
    && (forall b :: 0 <= b < |s.table| ==> Strung(s, s.table[b], s.chains[b], b))
    && Strung(s, s.unused, s.free, -1)
  }

  function Bucket<K>(hash: K -> nat, key: K, size: nat): (b: nat)
    requires size > 0
    ensures b < size
  {
    hash(key) % size
  }

  ghost predicate Binds<K, T>(m: map<K, T>, n: Node<K, T>) {
    n.key in m && m[n.key] == n.data
  }

  /** The chain of bucket `b` holds bindings of the map under keys that hash to `b`, each once. */
  ghost predicate Filed<K, T>(nodes: seq<Node<K, T>>, ids: seq<nat>, hash: K -> nat, size: nat, m: map<K, T>, b: nat)
    requires size > 0
  {
    && (forall i :: 0 <= i < |ids| ==>
          ids[i] < |nodes| && Bucket(hash, nodes[ids[i]].key, size) == b && Binds(m, nodes[ids[i]]))
    && (forall i, j :: 0 <= i < j < |ids| ==> nodes[ids[i]].key != nodes[ids[j]].key)
  }

  ghost predicate Present<K, T>(nodes: seq<Node<K, T>>, ids: seq<nat>, k: K) {
    exists i :: 0 <= i < |ids| && ids[i] < |nodes| && nodes[ids[i]].key == k
  }

  ghost predicate Reset<K, T>(nodes: seq<Node<K, T>>, ids: seq<nat>, noData: T) {
    forall i :: 0 <= i < |ids| ==> ids[i] < |nodes| && nodes[ids[i]].data == noData
  }

  /** The chains hold exactly the bindings of `m`; every unused node has been reset. */
  ghost predicate Represents<K, T>(s: Shape<K, T>, hash: K -> nat, m: map<K, T>, noData: T) {
    && Linked(s)
    && (forall b :: 0 <= b < |s.chains| ==> Filed(s.nodes, s.chains[b], hash, |s.table|, m, b))
    && (forall k :: k in m ==> Present(s.nodes, s.chains[Bucket(hash, k, |s.table|)], k))
    && Reset(s.nodes, s.free, noData)
  }

  /** A key occurs at one place of the whole table at most, and only when it is bound. */
  lemma EachKeyLivesOnce<K, T>(s: Shape<K, T>, hash: K -> nat, m: map<K, T>, noData: T, b: nat, i: nat, c: nat, j: nat)
    requires Represents(s, hash, m, noData)
    requires b < |s.chains| && i < |s.chains[b]| && c < |s.chains| && j < |s.chains[c]|
    requires s.chains[b][i] < |s.nodes| && s.chains[c][j] < |s.nodes|
    requires s.nodes[s.chains[b][i]].key == s.nodes[s.chains[c][j]].key
    ensures b == c && i == j && s.nodes[s.chains[b][i]].key in m
  {
    hide Linked;
    assert Filed(s.nodes, s.chains[b], hash, |s.table|, m, b) && Filed(s.nodes, s.chains[c], hash, |s.table|, m, c);
  }

  /** What a walk down the chain at the key's hash relies on. */
  lemma ChainOf<K, T>(s: Shape<K, T>, hash: K -> nat, m: map<K, T>, noData: T, h: nat)
    requires Represents(s, hash, m, noData) && h < |s.table|
    ensures Linked(s) && |s.chains| == |s.table| && Follows(s.nodes, s.table[h], s.chains[h])
    ensures forall i :: 0 <= i < |s.chains[h]| ==> Binds(m, s.nodes[s.chains[h][i]])
  {
    hide Present, Reset, Distinct, Owned;
    assert Strung(s, s.table[h], s.chains[h], h) && Filed(s.nodes, s.chains[h], hash, |s.table|, m, h);
  }

  lemma NotOnChain<K, T>(s: Shape<K, T>, hash: K -> nat, m: map<K, T>, noData: T, key: K)
    requires Represents(s, hash, m, noData)
    requires var ids := s.chains[Bucket(hash, key, |s.table|)];
      forall i :: 0 <= i < |ids| && ids[i] < |s.nodes| ==> s.nodes[ids[i]].key != key
    ensures key !in m
  {
    hide Strung, Filed, Reset;
    assert key in m ==> Present(s.nodes, s.chains[Bucket(hash, key, |s.table|)], key);
  }

  lemma FirstFree<K, T>(s: Shape<K, T>, hash: K -> nat, m: map<K, T>, noData: T)
    requires Represents(s, hash, m, noData)
    ensures Linked(s) && |s.chains| == |s.table| > 0 && |s.owner| == |s.nodes| && (s.unused < 0 <==> s.free == [])
    ensures s.free != [] ==> s.unused == s.free[0] < |s.nodes| && s.nodes[s.unused].data == noData
  {
    hide Filed, Present, Distinct;
  }

  lemma Chained<K, T>(s: Shape<K, T>, b: nat)
    requires Linked(s) && b < |s.table|
    ensures |s.chains| == |s.table| && |s.owner| == |s.nodes| && Strung(s, s.table[b], s.chains[b], b)
      && Strung(s, s.unused, s.free, -1)
  {
    hide Strung;
  }

  lemma OnChain<K, T>(s: Shape<K, T>, hash: K -> nat, m: map<K, T>, noData: T, h: nat, at: nat)
    requires Represents(s, hash, m, noData) && h < |s.table| && h < |s.chains| && at < |s.chains[h]|
    ensures Linked(s) && s.chains[h][at] < |s.nodes| && s.owner[s.chains[h][at]] == h
      && Binds(m, s.nodes[s.chains[h][at]])
    ensures at > 0 ==> s.chains[h][at - 1] < |s.nodes| && s.chains[h][at - 1] != s.chains[h][at]
    ensures at == 0 ==> s.table[h] == s.chains[h][0]
  {
    hide Present, Reset, Binds, Bucket;
    assert Strung(s, s.table[h], s.chains[h], h) && Filed(s.nodes, s.chains[h], hash, |s.table|, m, h);
  }

  lemma FiledAt<K, T>(s: Shape<K, T>, hash: K -> nat, m: map<K, T>, noData: T, b: nat)
    requires Represents(s, hash, m, noData) && b < |s.table|
    ensures Linked(s) && |s.chains| == |s.table| && Filed(s.nodes, s.chains[b], hash, |s.table|, m, b)
  {
    hide Strung, Filed, Present, Reset;
  }

  lemma PresentAt<K, T>(s: Shape<K, T>, hash: K -> nat, m: map<K, T>, noData: T, k: K)
    requires Represents(s, hash, m, noData) && k in m
    ensures Linked(s) && Present(s.nodes, s.chains[Bucket(hash, k, |s.table|)], k)
  {
    hide Strung, Filed, Present, Reset;
  }

  /** The first node of a list, and the link from the node at one place to the next. */
  lemma FollowsOn<K, T>(nodes: seq<Node<K, T>>, head: int, ids: seq<nat>, at: nat)
    requires Follows(nodes, head, ids)
    ensures head == At(ids, 0)
    ensures at < |ids| ==> ids[at] < |nodes| && nodes[ids[at]].next == At(ids, at + 1)
  {
  }

  /** Lists keep together when nothing on them is touched. */
  lemma Beside<K, T>(s: Shape<K, T>, s': Shape<K, T>, head: int, ids: seq<nat>, who: int)
    requires Strung(s, head, ids, who) && |s.owner| == |s.nodes| <= |s'.nodes| == |s'.owner|
    requires forall i :: 0 <= i < |s.nodes| && s.owner[i] == who ==>
        s'.owner[i] == who && s'.nodes[i].next == s.nodes[i].next
    ensures Strung(s', head, ids, who)
  {
  }

  lemma BesideKeys<K, T>(s: Shape<K, T>, t: Shape<K, T>, b: nat, hash: K -> nat, m: map<K, T>, m': map<K, T>)
    requires b < |s.chains| == |t.chains| && t.chains[b] == s.chains[b] && |s.table| == |t.table| > 0
    requires |s.owner| == |s.nodes| <= |t.nodes| && Owned(s.owner, s.chains[b], b)
    requires Filed(s.nodes, s.chains[b], hash, |s.table|, m, b)
    requires forall i :: 0 <= i < |s.nodes| && s.owner[i] == b ==>
        t.nodes[i].key == s.nodes[i].key && t.nodes[i].data == s.nodes[i].data
    requires forall k :: k in m && Bucket(hash, k, |s.table|) == b ==> k in m' && m'[k] == m[k]
    ensures Filed(t.nodes, t.chains[b], hash, |t.table|, m', b)
  {
  }

  /** The first unused node is put at the head of the chain of `h`. */
  ghost function Pushed<K, T>(s: Shape<K, T>, key: K, h: nat): Shape<K, T>
    requires Linked(s) && s.free != [] && h < |s.table|
  {
    var c := s.free[0];
    Shape(s.table[h := c], s.nodes[c := Node(key, s.nodes[c].data, s.table[h])], s.nodes[c].next,
          s.chains[h := [c] + s.chains[h]], s.free[1..], s.owner[c := h])
  }

  lemma Consed<K, T>(t: Shape<K, T>, c: nat, head: int, ids: seq<nat>, who: int)
    requires Strung(t, head, ids, who) && c < |t.nodes| && c < |t.owner|
    requires t.nodes[c].next == head && t.owner[c] == who && c !in ids
    ensures Strung(t, c, [c] + ids, who)
  {
    var r := [c] + ids;
    assert forall i :: 0 < i < |r| ==> r[i] == ids[i - 1];
    forall i | 0 <= i < |r| ensures r[i] < |t.nodes| && t.owner[r[i]] == who && t.nodes[r[i]].next == At(r, i + 1) {
      if i > 0 {
        assert t.nodes[ids[i - 1]].next == At(ids, i);
      }
    }
    assert Distinct(r);
  }

  lemma Tailed<K, T>(s: Shape<K, T>, t: Shape<K, T>, ids: seq<nat>, who: int)
    requires ids != [] && Strung(s, ids[0], ids, who) && |s.nodes| == |s.owner| == |t.nodes| == |t.owner|
    requires forall i :: 0 <= i < |s.nodes| && i != ids[0] && s.owner[i] == who ==>
        t.owner[i] == who && t.nodes[i].next == s.nodes[i].next
    ensures Strung(t, s.nodes[ids[0]].next, ids[1..], who)
  {
  }

  lemma PushKeepsLinks<K, T>(s: Shape<K, T>, key: K, h: nat)
    requires Linked(s) && s.free != [] && h < |s.table|
    ensures Linked(Pushed(s, key, h))
  {
    var t, c := Pushed(s, key, h), s.free[0];
    assert s.owner[c] == -1 && s.unused == c;
    hide Follows, Distinct;
    forall b | 0 <= b < |s.table| ensures Strung(t, t.table[b], t.chains[b], b) {
      Beside(s, t, s.table[b], s.chains[b], b);
      if b == h {
        Consed(t, c, s.table[b], s.chains[b], b);
      }
    }
    Tailed(s, t, s.free, -1);
  }

  lemma ConsFiled<K, T>(nodes: seq<Node<K, T>>, nodes': seq<Node<K, T>>, c: nat, ids: seq<nat>, hash: K -> nat,
                        size: nat, m: map<K, T>, b: nat)
    requires size > 0 && Filed(nodes, ids, hash, size, m, b) && |nodes'| == |nodes| && c < |nodes|
    requires forall i :: 0 <= i < |nodes| && i != c ==> nodes'[i] == nodes[i]
    requires c !in ids && Bucket(hash, nodes'[c].key, size) == b && nodes'[c].key !in m
    ensures Filed(nodes', [c] + ids, hash, size, m[nodes'[c].key := nodes'[c].data], b)
  {
  }

  lemma PushFiles<K, T>(s: Shape<K, T>, hash: K -> nat, m: map<K, T>, noData: T, key: K, h: nat, b: nat)
    requires Represents(s, hash, m, noData) && s.free != [] && h == Bucket(hash, key, |s.table|) && key !in m
    requires b < |s.chains|
    ensures var t := Pushed(s, key, h); Filed(t.nodes, t.chains[b], hash, |s.table|, m[key := noData], b)
  {
    hide Linked, Represents, Filed, Follows, Distinct;
    FirstFree(s, hash, m, noData);
    Chained(s, b);
    FiledAt(s, hash, m, noData, b);
    var t, c := Pushed(s, key, h), s.free[0];
    if b == h {
      ConsFiled(s.nodes, t.nodes, c, s.chains[b], hash, |s.table|, m, b);
    } else {
      BesideKeys(s, t, b, hash, m, m[key := noData]);
    }
  }

  lemma ConsPresent<K, T>(nodes: seq<Node<K, T>>, nodes': seq<Node<K, T>>, c: nat, ids: seq<nat>, k: K)
    requires Present(nodes, ids, k) && |nodes'| == |nodes| && c !in ids
    requires forall i :: 0 <= i < |nodes| && i != c ==> nodes'[i] == nodes[i]
    ensures Present(nodes', ids, k) && Present(nodes', [c] + ids, k)
  {
    var i :| 0 <= i < |ids| && ids[i] < |nodes| && nodes[ids[i]].key == k;
    assert nodes'[ids[i]].key == k;
    assert ([c] + ids)[i + 1] == ids[i];
  }

  lemma PushShows<K, T>(s: Shape<K, T>, hash: K -> nat, m: map<K, T>, noData: T, key: K, h: nat, k: K)
    requires Represents(s, hash, m, noData) && s.free != [] && h == Bucket(hash, key, |s.table|)
    requires k in m[key := noData] && key !in m
    ensures var t := Pushed(s, key, h); Present(t.nodes, t.chains[Bucket(hash, k, |s.table|)], k)
  {
    hide Linked, Represents, Follows, Distinct;
    FirstFree(s, hash, m, noData);
    var t, b, c := Pushed(s, key, h), Bucket(hash, k, |s.table|), s.free[0];
    if k == key {
      assert t.nodes[t.chains[h][0]].key == key;
    } else {
      PresentAt(s, hash, m, noData, k);
      Chained(s, b);
      ConsPresent(s.nodes, t.nodes, c, s.chains[b], k);
    }
  }

  /** `insert` binds a new key and touches no other binding. */
  lemma PushBinds<K, T>(s: Shape<K, T>, hash: K -> nat, m: map<K, T>, noData: T, key: K, h: nat)
    requires Represents(s, hash, m, noData) && s.free != [] && h == Bucket(hash, key, |s.table|) && key !in m
    ensures Represents(Pushed(s, key, h), hash, m[key := noData], noData)
  {
    hide Strung, Filed, Present;
    PushKeepsLinks(s, key, h);
    var t, m' := Pushed(s, key, h), m[key := noData];
    forall b | 0 <= b < |t.chains| ensures Filed(t.nodes, t.chains[b], hash, |t.table|, m', b) {
      PushFiles(s, hash, m, noData, key, h, b);
    }
    forall k | k in m' ensures Present(t.nodes, t.chains[Bucket(hash, k, |t.table|)], k) {
      PushShows(s, hash, m, noData, key, h, k);
    }
    PushResets(s, hash, m, noData, key, h);
  }

  lemma PushResets<K, T>(s: Shape<K, T>, hash: K -> nat, m: map<K, T>, noData: T, key: K, h: nat)
    requires Represents(s, hash, m, noData) && s.free != [] && h < |s.table|
    ensures Reset(Pushed(s, key, h).nodes, s.free[1..], noData)
  {
    hide Filed, Present;
    assert Distinct(s.free);
    forall i | 0 <= i < |s.free[1..]| ensures s.free[1..][i] == s.free[i + 1] != s.free[0] {
    }
  }

  /** The links with the node at place `at` of the chain of `h` taken out of it. */
  ghost function Relinked<K, T>(s: Shape<K, T>, h: nat, at: nat): (r: seq<Node<K, T>>)
    requires Linked(s) && h < |s.table| && at < |s.chains[h]|
    ensures |r| == |s.nodes|
  {
    var ids := s.chains[h];
    assert Strung(s, s.table[h], ids, h);
    if at == 0 then s.nodes else s.nodes[ids[at - 1] := s.nodes[ids[at - 1]].(next := s.nodes[ids[at]].next)]
  }

  /** The node at place `at` of the chain of `h` is taken out, reset and put on the unused list. */
  ghost function Unlinked<K, T>(s: Shape<K, T>, h: nat, at: nat, noKey: K, noData: T): Shape<K, T>
    requires Linked(s) && h < |s.table| && at < |s.chains[h]|
  {
    var ids := s.chains[h];
    assert Strung(s, s.table[h], ids, h);
    Shape(if at == 0 then s.table[h := s.nodes[ids[0]].next] else s.table,
          Relinked(s, h, at)[ids[at] := Node(noKey, noData, s.unused)], ids[at],
          s.chains[h := Cut(ids, at)], [ids[at]] + s.free, s.owner[ids[at] := -1])
  }

  /** The shape after a removal, as the assignments leave it. */
  lemma UnlinkedIs<K, T>(s: Shape<K, T>, h: nat, at: nat, noKey: K, noData: T)
    requires Linked(s) && h < |s.table| && at < |s.chains[h]| && s.chains[h][at] < |s.nodes|
    requires at > 0 ==> s.chains[h][at - 1] < |s.nodes|
    ensures var c, t := s.chains[h][at], Unlinked(s, h, at, noKey, noData);
      var next, reset := s.nodes[c].next, Node(noKey, noData, s.unused);
      && t.table == (if at == 0 then s.table[h := next] else s.table)
      && t.nodes == (if at == 0 then s.nodes
                     else s.nodes[s.chains[h][at - 1] := s.nodes[s.chains[h][at - 1]].(next := next)])[c := reset]
      && t.unused == c && |t.free| == |s.free| + 1 && |t.nodes| == |s.nodes|
  {
    hide Strung, Cut;
  }

  lemma OneLess<K, T>(m: map<K, T>, k: K)
    requires k in m
    ensures |m - {k}| == |m| - 1
  {
    assert m == (m - {k})[k := m[k]];
  }

  function Cut(ids: seq<nat>, at: nat): (rest: seq<nat>)
    requires at < |ids|
    ensures |rest| == |ids| - 1
    ensures forall i :: 0 <= i < |rest| ==> rest[i] == ids[if i < at then i else i + 1]
  {
    ids[..at] + ids[at + 1..]
  }

  lemma CutOut<K, T>(s: Shape<K, T>, t: Shape<K, T>, head: int, ids: seq<nat>, at: nat, who: int)
    requires Strung(s, head, ids, who) && 0 < at < |ids| && |s.nodes| == |s.owner| == |t.nodes| == |t.owner|
    requires t.nodes[ids[at - 1]].next == s.nodes[ids[at]].next
    requires forall i :: 0 <= i < |s.nodes| && s.owner[i] == who && i != ids[at] ==> t.owner[i] == who
    requires forall i :: 0 <= i < |s.nodes| && s.owner[i] == who && i != ids[at] && i != ids[at - 1] ==>
        t.nodes[i].next == s.nodes[i].next
    ensures Strung(t, head, Cut(ids, at), who)
  {
    var rest := Cut(ids, at);
    forall i | 0 <= i < |rest|
      ensures rest[i] < |t.nodes| && t.owner[rest[i]] == who && t.nodes[rest[i]].next == At(rest, i + 1)
    {
      CutOutAt(s, t, head, ids, at, who, i);
    }
    assert head == ids[0] == rest[0];
    assert Distinct(rest) by {
      CutDistinct(ids, at);
    }
  }

  lemma CutDistinct(ids: seq<nat>, at: nat)
    requires at < |ids| && Distinct(ids)
    ensures Distinct(Cut(ids, at))
  {
  }

  lemma CutOutAt<K, T>(s: Shape<K, T>, t: Shape<K, T>, head: int, ids: seq<nat>, at: nat, who: int, i: nat)
    requires Strung(s, head, ids, who) && 0 < at < |ids| && |s.nodes| == |s.owner| == |t.nodes| == |t.owner|
    requires t.nodes[ids[at - 1]].next == s.nodes[ids[at]].next
    requires forall i :: 0 <= i < |s.nodes| && s.owner[i] == who && i != ids[at] ==> t.owner[i] == who
    requires forall i :: 0 <= i < |s.nodes| && s.owner[i] == who && i != ids[at] && i != ids[at - 1] ==>
        t.nodes[i].next == s.nodes[i].next
    requires i < |Cut(ids, at)|
    ensures var rest := Cut(ids, at);
      rest[i] < |t.nodes| && t.owner[rest[i]] == who && t.nodes[rest[i]].next == At(rest, i + 1)
  {
    hide Strung, Cut;
    var rest, j := Cut(ids, at), if i < at then i else i + 1;
    OnList(s, head, ids, who, j, at);
    OnList(s, head, ids, who, at, j);
    if j == at - 1 {
      assert At(rest, i + 1) == At(ids, at + 1);
    } else {
      OnList(s, head, ids, who, j, at - 1);
      assert At(rest, i + 1) == At(ids, j + 1);
    }
  }

  lemma OnList<K, T>(s: Shape<K, T>, head: int, ids: seq<nat>, who: int, j: nat, k: nat)
    requires Strung(s, head, ids, who) && j < |ids| && k < |ids| && j != k && |s.nodes| == |s.owner|
    ensures ids[j] < |s.nodes| && s.owner[ids[j]] == who && s.nodes[ids[j]].next == At(ids, j + 1) && ids[j] != ids[k]
  {
  }

  lemma UnlinkKeepsLinks<K, T>(s: Shape<K, T>, h: nat, at: nat, noKey: K, noData: T)
    requires Linked(s) && h < |s.table| && at < |s.chains[h]|
    ensures Linked(Unlinked(s, h, at, noKey, noData))
  {
    var t, ids := Unlinked(s, h, at, noKey, noData), s.chains[h];
    OwnPlace(s, h, at);
    forall b | 0 <= b < |s.table| ensures Strung(t, t.table[b], t.chains[b], b) {
      UnlinkStrings(s, h, at, noKey, noData, b);
    }
    hide Strung, Relinked;
    Chained(s, h);
    UnlinkFrees(s, h, at, noKey, noData);
  }

  /** The node to be taken out and the one before it belong to the chain and are not unused. */
  lemma OwnPlace<K, T>(s: Shape<K, T>, h: nat, at: nat)
    requires Linked(s) && h < |s.table| && at < |s.chains[h]|
    ensures var ids := s.chains[h];
      && ids[at] < |s.nodes| && s.table[h] == ids[0] && s.owner[ids[at]] == h && ids[at] !in s.free
      && (at > 0 ==> ids[at - 1] < |s.nodes| && ids[at - 1] != ids[at] && s.owner[ids[at - 1]] == h)
  {
    assert Strung(s, s.table[h], s.chains[h], h);
  }

  lemma UnlinkStrings<K, T>(s: Shape<K, T>, h: nat, at: nat, noKey: K, noData: T, b: nat)
    requires Linked(s) && h < |s.table| && at < |s.chains[h]| && b < |s.table|
    ensures var t := Unlinked(s, h, at, noKey, noData); Strung(t, t.table[b], t.chains[b], b)
  {
    var t, ids := Unlinked(s, h, at, noKey, noData), s.chains[h];
    OwnPlace(s, h, at);
    Chained(s, b);
    hide Linked, Strung;
    if b != h {
      Beside(s, t, s.table[b], s.chains[b], b);
    } else if at == 0 {
      Tailed(s, t, ids, h);
      assert t.chains[h] == ids[1..];
    } else {
      CutOut(s, t, s.table[h], ids, at, h);
    }
  }

  lemma UnlinkFrees<K, T>(s: Shape<K, T>, h: nat, at: nat, noKey: K, noData: T)
    requires Linked(s) && h < |s.table| && at < |s.chains[h]|
    ensures var t := Unlinked(s, h, at, noKey, noData); Strung(t, t.unused, t.free, -1)
  {
    var t, c := Unlinked(s, h, at, noKey, noData), s.chains[h][at];
    OwnPlace(s, h, at);
    Chained(s, h);
    hide Linked, Strung;
    Beside(s, t, s.unused, s.free, -1);
    Consed(t, c, s.unused, s.free, -1);
  }

  lemma CutFiled<K, T>(nodes: seq<Node<K, T>>, nodes': seq<Node<K, T>>, ids: seq<nat>, at: nat, hash: K -> nat,
                       size: nat, m: map<K, T>, b: nat)
    requires size > 0 && at < |ids| && Filed(nodes, ids, hash, size, m, b) && |nodes'| == |nodes|
    requires forall i :: 0 <= i < |nodes| && i != ids[at] ==>
        nodes'[i].key == nodes[i].key && nodes'[i].data == nodes[i].data
    requires Distinct(ids)
    ensures Filed(nodes', Cut(ids, at), hash, size, m - {nodes[ids[at]].key}, b)
  {
  }

  lemma UnlinkFiles<K, T>(s: Shape<K, T>, hash: K -> nat, m: map<K, T>, noData: T, h: nat, at: nat, noKey: K, b: nat)
    requires Represents(s, hash, m, noData) && h < |s.table| && at < |s.chains[h]| && s.chains[h][at] < |s.nodes|
    requires b < |s.chains|
    ensures var t := Unlinked(s, h, at, noKey, noData);
      Filed(t.nodes, t.chains[b], hash, |s.table|, m - {s.nodes[s.chains[h][at]].key}, b)
  {
    hide Linked, Represents, Filed, Follows, Distinct, Owned;
    FirstFree(s, hash, m, noData);
    OnChain(s, hash, m, noData, h, at);
    FiledAt(s, hash, m, noData, b);
    FiledAt(s, hash, m, noData, h);
    Chained(s, b);
    var t, key := Unlinked(s, h, at, noKey, noData), s.nodes[s.chains[h][at]].key;
    if b == h {
      CutFiled(s.nodes, t.nodes, s.chains[h], at, hash, |s.table|, m, b);
    } else {
      BucketOf(s, hash, m, h, at);
      BesideKeys(s, t, b, hash, m, m - {key});
    }
  }

  lemma BucketOf<K, T>(s: Shape<K, T>, hash: K -> nat, m: map<K, T>, h: nat, at: nat)
    requires h < |s.table| && h < |s.chains| && at < |s.chains[h]| && Filed(s.nodes, s.chains[h], hash, |s.table|, m, h)
    ensures Bucket(hash, s.nodes[s.chains[h][at]].key, |s.table|) == h
  {
  }

  lemma CutPresent<K, T>(nodes: seq<Node<K, T>>, nodes': seq<Node<K, T>>, ids: seq<nat>, at: nat, k: K)
    requires Present(nodes, ids, k) && |nodes'| == |nodes| && at < |ids| && ids[at] < |nodes| && nodes[ids[at]].key != k
    requires forall i :: 0 <= i < |nodes| && i != ids[at] ==> nodes'[i].key == nodes[i].key
    ensures Present(nodes', Cut(ids, at), k)
  {
    var i :| 0 <= i < |ids| && ids[i] < |nodes| && nodes[ids[i]].key == k;
    var j := if i > at then i - 1 else i;
    assert Cut(ids, at)[j] == ids[i];
  }

  lemma StillPresent<K, T>(nodes: seq<Node<K, T>>, nodes': seq<Node<K, T>>, ids: seq<nat>, c: nat, k: K)
    requires Present(nodes, ids, k) && |nodes'| == |nodes| && c < |nodes| && (nodes[c].key != k || nodes'[c].key == k)
    requires forall i :: 0 <= i < |nodes| && i != c ==> nodes'[i].key == nodes[i].key
    ensures Present(nodes', ids, k)
  {
    var i :| 0 <= i < |ids| && ids[i] < |nodes| && nodes[ids[i]].key == k;
    assert nodes'[ids[i]].key == k;
  }

  lemma UnlinkShows<K, T>(s: Shape<K, T>, hash: K -> nat, m: map<K, T>, noData: T, h: nat, at: nat, noKey: K, k: K)
    requires Represents(s, hash, m, noData) && h < |s.table| && at < |s.chains[h]| && s.chains[h][at] < |s.nodes|
    requires k in m && k != s.nodes[s.chains[h][at]].key
    ensures var t := Unlinked(s, h, at, noKey, noData); Present(t.nodes, t.chains[Bucket(hash, k, |s.table|)], k)
  {
    hide Linked, Represents, Present, Bucket;
    FirstFree(s, hash, m, noData);
    OnChain(s, hash, m, noData, h, at);
    PresentAt(s, hash, m, noData, k);
    var t, b := Unlinked(s, h, at, noKey, noData), Bucket(hash, k, |s.table|);
    if b == h {
      CutPresent(s.nodes, t.nodes, s.chains[h], at, k);
    } else {
      StillPresent(s.nodes, t.nodes, s.chains[b], s.chains[h][at], k);
    }
  }

  /** `remove` drops one binding and touches no other. */
  lemma UnlinkUnbinds<K, T>(s: Shape<K, T>, hash: K -> nat, m: map<K, T>, h: nat, at: nat, noKey: K, noData: T)
    requires Represents(s, hash, m, noData) && h < |s.table| && at < |s.chains[h]| && s.chains[h][at] < |s.nodes|
    ensures Represents(Unlinked(s, h, at, noKey, noData), hash, m - {s.nodes[s.chains[h][at]].key}, noData)
  {
    hide Strung, Filed, Present;
    UnlinkKeepsLinks(s, h, at, noKey, noData);
    var t := Unlinked(s, h, at, noKey, noData);
    var m' := m - {s.nodes[s.chains[h][at]].key};
    forall b | 0 <= b < |t.chains| ensures Filed(t.nodes, t.chains[b], hash, |t.table|, m', b) {
      UnlinkFiles(s, hash, m, noData, h, at, noKey, b);
    }
    forall k | k in m' ensures Present(t.nodes, t.chains[Bucket(hash, k, |t.table|)], k) {
      UnlinkShows(s, hash, m, noData, h, at, noKey, k);
    }
  }

  /** A chunk of reset nodes, strung together, the last one on to `unused`. */
  function Chunk<K, T>(base: nat, unused: int, noKey: K, noData: T): (c: seq<Node<K, T>>)
    ensures |c| == CHUNKSIZE
  {
    seq(CHUNKSIZE, i requires 0 <= i < CHUNKSIZE =>
      Node(noKey, noData, if i + 1 < CHUNKSIZE then base + i + 1 else unused))
  }

  ghost function Grown<K, T>(s: Shape<K, T>, noKey: K, noData: T): Shape<K, T> {
    var base := |s.nodes|;
    Shape(s.table, s.nodes + Chunk(base, s.unused, noKey, noData), base, s.chains,
          seq(CHUNKSIZE, i requires 0 <= i < CHUNKSIZE => base + i), s.owner + seq(CHUNKSIZE, _ => -1))
  }

  lemma GrownFree<K, T>(s: Shape<K, T>, noKey: K, noData: T)
    requires |s.owner| == |s.nodes| && s.unused == -1
    ensures var t := Grown(s, noKey, noData); Strung(t, t.unused, t.free, -1) && Reset(t.nodes, t.free, noData)
  {
    var t := Grown(s, noKey, noData);
    forall i | 0 <= i < |t.free|
      ensures t.free[i] < |t.nodes| && t.owner[t.free[i]] == -1
        && t.nodes[t.free[i]] == Node(noKey, noData, At(t.free, i + 1))
    {
    }
  }

  lemma GrownChain<K, T>(s: Shape<K, T>, hash: K -> nat, m: map<K, T>, noKey: K, noData: T, b: nat)
    requires Represents(s, hash, m, noData) && b < |s.table|
    ensures var t := Grown(s, noKey, noData);
            b < |t.chains| && Strung(t, t.table[b], t.chains[b], b)
            && Filed(t.nodes, t.chains[b], hash, |t.table|, m, b)
  {
    hide Linked, Represents, Follows, Distinct, Filed, Chunk, Reset;
    var t := Grown(s, noKey, noData);
    FiledAt(s, hash, m, noData, b);
    Chained(s, b);
    Beside(s, t, s.table[b], s.chains[b], b);
    BesideKeys(s, t, b, hash, m, m);
  }

  lemma GrowKeeps<K, T>(s: Shape<K, T>, hash: K -> nat, m: map<K, T>, noKey: K, noData: T)
    requires Represents(s, hash, m, noData) && s.unused < 0
    ensures Represents(Grown(s, noKey, noData), hash, m, noData)
  {
    FirstFree(s, hash, m, noData);
    hide Strung, Filed, Present, Reset, Chunk;
    var t := Grown(s, noKey, noData);
    UnusedIsNull(s);
    GrownFree(s, noKey, noData);
    forall b | 0 <= b < |s.table|
      ensures Strung(t, t.table[b], t.chains[b], b) && Filed(t.nodes, t.chains[b], hash, |t.table|, m, b)
    {
      GrownChain(s, hash, m, noKey, noData, b);
    }
    forall k | k in m ensures Present(t.nodes, t.chains[Bucket(hash, k, |t.table|)], k) {
      MorePresent(s.nodes, t.nodes, s.chains[Bucket(hash, k, |t.table|)], k);
    }
  }

  lemma UnusedIsNull<K, T>(s: Shape<K, T>)
    requires Linked(s) && s.unused < 0
    ensures s.unused == -1
  {
    hide Distinct, Owned;
    assert Strung(s, s.unused, s.free, -1);
  }

  lemma MorePresent<K, T>(nodes: seq<Node<K, T>>, nodes': seq<Node<K, T>>, ids: seq<nat>, k: K)
    requires Present(nodes, ids, k) && nodes <= nodes'
    ensures Present(nodes', ids, k)
  {
    var i :| 0 <= i < |ids| && ids[i] < |nodes| && nodes[ids[i]].key == k;
    assert nodes'[ids[i]].key == k;
  }

  /** The data of the node at place `at` of the chain of `h` assigned through a reference. */
  ghost function Stored<K, T>(s: Shape<K, T>, c: nat, data: T): Shape<K, T>
    requires c < |s.nodes|
  {
    s.(nodes := s.nodes[c := s.nodes[c].(data := data)])
  }

  lemma StoreFiles<K, T>(nodes: seq<Node<K, T>>, ids: seq<nat>, at: nat, hash: K -> nat, size: nat, m: map<K, T>,
                         b: nat, data: T)
    requires size > 0 && at < |ids| && Filed(nodes, ids, hash, size, m, b) && Distinct(ids)
    ensures Filed(nodes[ids[at] := nodes[ids[at]].(data := data)], ids, hash, size, m[nodes[ids[at]].key := data], b)
  {
  }

  lemma StoreBinds<K, T>(s: Shape<K, T>, hash: K -> nat, m: map<K, T>, noData: T, h: nat, at: nat, data: T)
    requires Represents(s, hash, m, noData) && h < |s.table| && at < |s.chains[h]| && s.chains[h][at] < |s.nodes|
    ensures var c := s.chains[h][at]; Represents(Stored(s, c, data), hash, m[s.nodes[c].key := data], noData)
  {
    hide Filed, Strung, Present, Reset;
    var c := s.chains[h][at];
    var t, m' := Stored(s, c, data), m[s.nodes[c].key := data];
    OnChain(s, hash, m, noData, h, at);
    FiledAt(s, hash, m, noData, h);
    BucketOf(s, hash, m, h, at);
    forall b | 0 <= b < |s.table|
      ensures Strung(t, t.table[b], t.chains[b], b) && Filed(t.nodes, t.chains[b], hash, |t.table|, m', b)
    {
      StoreKeeps(s, hash, m, noData, h, at, data, b);
    }
    Beside(s, t, s.unused, s.free, -1);
    forall k | k in m' ensures Present(t.nodes, t.chains[Bucket(hash, k, |t.table|)], k) {
      StillPresent(s.nodes, t.nodes, s.chains[Bucket(hash, k, |t.table|)], c, k);
    }
    StoreResets(s, hash, m, noData, h, at, data);
  }

  lemma StoreResets<K, T>(s: Shape<K, T>, hash: K -> nat, m: map<K, T>, noData: T, h: nat, at: nat, data: T)
    requires Represents(s, hash, m, noData) && h < |s.table| && at < |s.chains[h]| && s.chains[h][at] < |s.nodes|
    ensures Reset(Stored(s, s.chains[h][at], data).nodes, s.free, noData)
  {
    hide Filed, Present, Follows, Distinct, Linked;
    FirstFree(s, hash, m, noData);
    OnChain(s, hash, m, noData, h, at);
    Chained(s, h);
  }

  lemma StoreKeeps<K, T>(s: Shape<K, T>, hash: K -> nat, m: map<K, T>, noData: T, h: nat, at: nat, data: T, b: nat)
    requires Represents(s, hash, m, noData) && h < |s.table| && at < |s.chains[h]| && s.chains[h][at] < |s.nodes|
    requires b < |s.table|
    ensures var c := s.chains[h][at];
            var t := Stored(s, c, data);
            Strung(t, t.table[b], t.chains[b], b)
            && Filed(t.nodes, t.chains[b], hash, |t.table|, m[s.nodes[c].key := data], b)
  {
    hide Represents, Linked, Filed, Follows, Distinct, Owned;
    FirstFree(s, hash, m, noData);
    var c := s.chains[h][at];
    var t := Stored(s, c, data);
    OnChain(s, hash, m, noData, h, at);
    FiledAt(s, hash, m, noData, b);
    FiledAt(s, hash, m, noData, h);
    BucketOf(s, hash, m, h, at);
    Chained(s, b);
    Beside(s, t, s.table[b], s.chains[b], b);
    if b == h {
      StoreFiles(s.nodes, s.chains[h], at, hash, |s.table|, m, b, data);
    } else {
      BesideKeys(s, t, b, hash, m, m[s.nodes[c].key := data]);
    }
  }

  lemma EmptyRepresents<K, T>(s: Shape<K, T>, hash: K -> nat, noData: T)
    requires |s.table| == |s.chains| > 0 && |s.nodes| == |s.owner| && s.unused == -1 && s.free == []
    requires forall b :: 0 <= b < |s.table| ==> s.table[b] == -1 && s.chains[b] == []
    ensures Represents(s, hash, map[], noData)
  {
  }

  class HashTable<K(==), T> {
    const hash: K -> nat
    const noKey: K
    const noData: T

    var numelems: nat
    var table: seq<int>
    var chunks: nat
    var nodes: seq<Node<K, T>>
    var unused: int

    ghost var chains: seq<seq<nat>>
    ghost var free: seq<nat>
    ghost var owner: seq<int>
    ghost var model: map<K, T>

    ghost function Now(): Shape<K, T>
      reads this
    {
      Shape(table, nodes, unused, chains, free, owner)
    }

    ghost predicate Valid()
      reads this
    {
      && Represents(Now(), hash, model, noData)
      && |model| == numelems && |nodes| == CHUNKSIZE * chunks == numelems + |free|
    }

    constructor (size: nat, hash: K -> nat, noKey: K, noData: T)
      requires size > 0
      ensures Valid() && model == map[] && chunks == 0 && |table| == size && this.hash == hash && this.noKey == noKey
        && this.noData == noData
    {
      this.hash, this.noKey, this.noData := hash, noKey, noData;
      numelems, chunks, nodes, unused := 0, 0, [], -1;
      table := seq(size, _ => -1);
      chains := seq(size, _ => []);
      free, owner, model := [], [], map[];
    }

    /** Where the key is, or -1; `at` is its place in its chain. */
    method Search(key: K) returns (c: int, h: nat, ghost at: nat)
      requires Valid()
      ensures h == Bucket(hash, key, |table|)
      ensures c >= 0 <==> key in model
      ensures c >= 0 ==> at < |chains[h]| && c == chains[h][at] && c < |nodes|
      ensures c >= 0 ==> nodes[c].key == key && nodes[c].data == model[key]
    {
      hide Represents, Linked;
      FirstFree(Now(), hash, model, noData);
      h := Bucket(hash, key, |table|);
      ChainOf(Now(), hash, model, noData, h);
      c, at := table[h], 0;
      while c >= 0
        invariant at <= |chains[h]|
        invariant c == At(chains[h], at)
        invariant forall i :: 0 <= i < at ==> nodes[chains[h][i]].key != key
        decreases |chains[h]| - at
      {
        if nodes[c].key == key {
          return;
        }
        c, at := nodes[c].next, at + 1;
      }
      NotOnChain(Now(), hash, model, noData, key);
    }

    /** `access(key)`: the data, or nothing. */
    method Access(key: K) returns (r: Option<T>)
      requires Valid()
      ensures r == if key in model then Some(model[key]) else None
    {
      var c, h, at := Search(key);
      r := if c >= 0 then Some(nodes[c].data) else None;
    }

    /** `find(key, notfound)`. */
    method Find(key: K, notfound: T) returns (r: T)
      requires Valid()
      ensures r == if key in model then model[key] else notfound
    {
      var c, h, at := Search(key);
      r := if c >= 0 then nodes[c].data else notfound;
    }

    /** A fresh chunk, all of it unused. */
    method AddChunk()
      requires Valid() && unused < 0
      modifies this`chunks, this`nodes, this`unused, this`free, this`owner
      ensures Valid() && Now() == Grown(old(Now()), noKey, noData) && free != [] && chunks == old(chunks) + 1
    {
      hide Represents, Linked;
      FirstFree(Now(), hash, model, noData);
      GrowKeeps(Now(), hash, model, noKey, noData);
      ghost var t := Grown(Now(), noKey, noData);
      var base := |nodes|;
      nodes := nodes + Chunk(base, unused, noKey, noData);
      chunks := chunks + 1;
      unused := base;
      free, owner := t.free, t.owner;
    }

    /** `insert`: the node taken for a key that has none, put first in its chain. */
    method Insert(key: K, h: nat) returns (c: nat)
      requires Valid() && |table| > 0 && h == Bucket(hash, key, |table|) && key !in model
      modifies this
      ensures Valid() && model == old(model)[key := noData]
      ensures |table| == old(|table|) && h < |chains| && chains[h] != [] && c == chains[h][0] && c < |nodes|
        && nodes[c].key == key && nodes[c].data == noData
      ensures chunks == old(chunks) + if old(unused) < 0 then 1 else 0
    {
      hide Represents, Linked, Chunk;
      FirstFree(Now(), hash, model, noData);
      if unused < 0 {
        AddChunk();
      }
      c := TakeUnused(key, h);
    }

    method TakeUnused(key: K, h: nat) returns (c: nat)
      requires Valid() && |table| > 0 && h == Bucket(hash, key, |table|) && key !in model && free != []
      modifies this
      ensures Valid() && model == old(model)[key := noData] && chunks == old(chunks)
      ensures |table| == old(|table|) && h < |chains| && chains[h] != [] && c == chains[h][0] && c < |nodes|
        && nodes[c].key == key && nodes[c].data == noData
    {
      hide Represents, Linked;
      FirstFree(Now(), hash, model, noData);
      PushBinds(Now(), hash, model, noData, key, h);
      ghost var t := Pushed(Now(), key, h);
      c := unused;
      unused := nodes[c].next;
      nodes := nodes[c := nodes[c].(key := key)];
      nodes := nodes[c := nodes[c].(next := table[h])];
      table := table[h := c];
      numelems := numelems + 1;
      chains, free, owner := t.chains, t.free, t.owner;
      model := model[key := noData];
      assert nodes == t.nodes;
    }

    /** `access(key, data)`: the data already there, or the given data once stored. */
    method AccessOr(key: K, data: T) returns (r: T)
      requires Valid()
      modifies this
      ensures Valid() && key in model && r == model[key]
      ensures model == if key in old(model) then old(model) else old(model)[key := data]
    {
      hide Represents, Linked;
      FirstFree(Now(), hash, model, noData);
      var c, h, at := Search(key);
      if c >= 0 {
        return nodes[c].data;
      }
      c := Insert(key, h);
      Store(c, h, 0, data);
      r := data;
    }

    method Store(c: nat, h: nat, ghost at: nat, data: T)
      requires Valid() && h < |table| && h < |chains| && at < |chains[h]| && c == chains[h][at] < |nodes|
      modifies this`nodes, this`model
      ensures Valid() && old(nodes[c].key) in old(model) && model == old(model)[old(nodes[c].key) := data]
    {
      hide Represents, Linked;
      ChainOf(Now(), hash, model, noData, h);
      StoreBinds(Now(), hash, model, noData, h, at, data);
      model := model[nodes[c].key := data];
      nodes := nodes[c := nodes[c].(data := data)];
    }

    /** `operator[]`: the node of the key, made with default data when there was none. */
    method Index(key: K) returns (c: nat)
      requires Valid()
      modifies this
      ensures Valid() && c < |nodes| && nodes[c].key == key && key in model && nodes[c].data == model[key]
      ensures model == if key in old(model) then old(model) else old(model)[key := noData]
    {
      hide Represents, Linked;
      FirstFree(Now(), hash, model, noData);
      var found, h, at := Search(key);
      if found >= 0 {
        return found;
      }
      c := Insert(key, h);
    }

    /** `remove`: true when there was something to remove. */
    method Remove(key: K) returns (removed: bool)
      requires Valid()
      modifies this
      ensures Valid() && removed == (key in old(model)) && model == old(model) - {key} && chunks == old(chunks)
    {
      hide Represents, Linked, Follows;
      FirstFree(Now(), hash, model, noData);
      var h := Bucket(hash, key, |table|);
      ChainOf(Now(), hash, model, noData, h);
      FollowsOn(nodes, table[h], chains[h], 0);
      var prev, c := -1, table[h];
      ghost var at := 0;
      while c >= 0
        invariant unchanged(this) && at <= |chains[h]|
        invariant c == At(chains[h], at)
        invariant prev == if at == 0 then -1 else chains[h][at - 1]
        invariant forall i :: 0 <= i < at ==> chains[h][i] < |nodes| && nodes[chains[h][i]].key != key
        decreases |chains[h]| - at
      {
        FollowsOn(nodes, table[h], chains[h], at);
        if nodes[c].key == key {
          Unlink(h, prev, c, at);
          return true;
        }
        prev, c, at := c, nodes[c].next, at + 1;
      }
      NotOnChain(Now(), hash, model, noData, key);
      removed := false;
    }

    method Unlink(h: nat, prev: int, c: nat, ghost at: nat)
      requires Valid() && h < |table| && h < |chains| && at < |chains[h]| && c == chains[h][at] < |nodes|
      requires prev == if at == 0 then -1 else chains[h][at - 1]
      modifies this
      ensures Valid() && old(nodes[c].key) in old(model) && model == old(model) - {old(nodes[c].key)}
        && chunks == old(chunks)
    {
      hide Represents, Linked, Unlinked;
      FirstFree(Now(), hash, model, noData);
      OnChain(Now(), hash, model, noData, h, at);
      UnlinkUnbinds(Now(), hash, model, h, at, noKey, noData);
      UnlinkedIs(Now(), h, at, noKey, noData);
      OneLess(model, nodes[c].key);
      ghost var key := nodes[c].key;
      TakeOut(h, prev, c, at);
      numelems := numelems - 1;
      model := model - {key};
    }

    /** The node leaves its chain and goes, reset, to the head of the unused list. */
    method TakeOut(h: nat, prev: int, c: nat, ghost at: nat)
      requires Linked(Now()) && h < |table| == |chains| && at < |chains[h]| && c == chains[h][at] < |nodes|
      requires at > 0 ==> chains[h][at - 1] < |nodes|
      requires prev == if at == 0 then -1 else chains[h][at - 1]
      modifies this`table, this`nodes, this`unused, this`chains, this`free, this`owner
      ensures Now() == Unlinked(old(Now()), h, at, noKey, noData)
    {
      hide Linked, Unlinked;
      UnlinkedIs(Now(), h, at, noKey, noData);
      ghost var t := Unlinked(Now(), h, at, noKey, noData);
      var next := nodes[c].next;
      if prev < 0 {
        table := table[h := next];
      } else {
        nodes := nodes[prev := nodes[prev].(next := next)];
      }
      nodes := nodes[c := Node(noKey, noData, unused)];
      unused := c;
      chains, free, owner := t.chains, t.free, t.owner;
    }

    method ClearHeads()
      modifies this`table
      ensures |table| == old(|table|) && forall b :: 0 <= b < |table| ==> table[b] == -1
    {
      var i := 0;
      while i < |table|
        invariant 0 <= i <= |table| == old(|table|)
        invariant forall b :: 0 <= b < i ==> table[b] == -1
      {
        table := table[i := -1];
        i := i + 1;
      }
    }

    /** `clear`: an empty table keeps its chunks, a filled one gives them back. */
    method Clear()
      requires Valid()
      modifies this
      ensures Valid() && model == map[] && |table| == old(|table|)
        && chunks == if old(numelems) == 0 then old(chunks) else 0
    {
      hide Represents, Linked;
      FirstFree(Now(), hash, model, noData);
      if numelems == 0 {
        return;
      }
      ClearHeads();
      numelems, unused, chunks, nodes := 0, -1, 0, [];
      chains := seq(|table|, i => []);
      free, owner, model := [], [], map[];
      EmptyRepresents(Now(), hash, noData);
    }
  }
}
