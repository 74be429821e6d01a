/**
 Exact nearest neighbours inside one leaf. Three implementations compute the distances through
 a full Gram matrix, through Gram matrices of row blocks, or pair by pair; all of them push a
 row's distances in index order into its `RowTopK` and emit a DIRECT and a MIRROR edge for each
 listed neighbour.
 */
module LeafKnn {
  import opened Basics
  import opened TopK
  import opened AdsSpec
  import opened AdsLeaf

  // ----- distances from Gram matrices -------------------------------------------------------------------

  function Dot(x: Vec, y: Vec, n: nat): real
    requires n <= |x| && n <= |y|
  {
    if n == 0 then 0.0 else Dot(x, y, n - 1) + x[n - 1] * y[n - 1]
  }

  /** The norm identity: |x|^2 + |y|^2 - 2 x.y is the sum of squared differences. */
  lemma {:induction false} NormIdentity(x: Vec, y: Vec, n: nat)
    requires n <= |x| && n <= |y|
    ensures Dot(x, x, n) + Dot(y, y, n) - 2.0 * Dot(x, y, n) == Partial(x, y, n)
    ensures Partial(x, y, n) >= 0.0
  {
    if n > 0 {
      NormIdentity(x, y, n - 1);
      var a, b := x[n - 1], y[n - 1];
      assert Sq(a - b) == a * a + b * b - 2.0 * (a * b);
    }
  }

  /** `norm_i + norm_j - 2 gram`, clamped at zero. */
  function FromGram(normI: real, normJ: real, gram: real): real {
    var d := normI + normJ - 2.0 * gram;
    if d < 0.0 then 0.0 else d
  }

  lemma GramDistance(rows: seq<Vec>, dim: nat, i: nat, j: nat)
    requires IsMatrix(rows, dim) && i < |rows| && j < |rows|
    ensures FromGram(Dot(rows[i], rows[i], dim), Dot(rows[j], rows[j], dim), Dot(rows[i], rows[j], dim))
            == Distances(rows[i], rows)[j]
  {
    NormIdentity(rows[i], rows[j], dim);
  }

  // ----- RowTopK is the front of a stable sort -----------------------------------------------------------

  function StableSort(es: seq<Entry>): (r: seq<Entry>)
    ensures |r| == |es|
  {
    if es == [] then [] else Insert(StableSort(es[..|es| - 1]), es[|es| - 1])
  }

  function OfferAll(k: nat, es: seq<Entry>): (r: seq<Entry>)
    ensures |r| <= k
  {
    if es == [] then [] else Offer(OfferAll(k, es[..|es| - 1]), k, es[|es| - 1])
  }

  /** The entries at one distance, in their order. */
  function AtDist(es: seq<Entry>, d: real): seq<Entry> {
    if es == [] then []
    else AtDist(es[..|es| - 1], d) + if es[|es| - 1].dist == d then [es[|es| - 1]] else []
  }

  lemma {:induction false} AtDistConcat(a: seq<Entry>, b: seq<Entry>, d: real)
    ensures AtDist(a + b, d) == AtDist(a, d) + AtDist(b, d)
  {
    if b == [] {
      assert a + b == a;
    } else {
      assert (a + b)[..|a + b| - 1] == a + b[..|b| - 1];
      AtDistConcat(a, b[..|b| - 1], d);
    }
  }

  lemma {:induction false} AtDistNone(es: seq<Entry>, d: real)
    requires forall i :: 0 <= i < |es| ==> es[i].dist != d
    ensures AtDist(es, d) == []
  {
    if es != [] {
      AtDistNone(es[..|es| - 1], d);
    }
  }

  lemma InsertStable(s: seq<Entry>, e: Entry, d: real)
    ensures AtDist(Insert(s, e), d) == AtDist(s, d) + if e.dist == d then [e] else []
  {
    var p := InsertSplit(s, e);
    InsertAt(s, e, p);
    var a, b := s[..p], s[p..];
    assert s == a + b;
    if e.dist == d {
      AtDistNone(b, d);
    }
    hide *;
    AtDistConcat(a + [e], b, d);
    AtDistConcat(a, [e], d);
    AtDistConcat(a, b, d);
    AtDistOne(e, d);
    StableShuffle(AtDist(a, d), AtDist([e], d), AtDist(b, d));
  }

  lemma StableShuffle(a: seq<Entry>, m: seq<Entry>, b: seq<Entry>)
    requires m == [] || b == []
    ensures a + m + b == a + b + m
  {
    if m == [] {
      assert a + m == a && a + b + m == a + b;
    } else {
      assert a + m + b == a + m && a + b == a;
    }
  }

  lemma AtDistOne(e: Entry, d: real)
    ensures AtDist([e], d) == if e.dist == d then [e] else []
  {
    assert [e][..0] == [];
  }

  lemma InsertMultiset(s: seq<Entry>, e: Entry)
    ensures multiset(Insert(s, e)) == multiset(s) + multiset{e}
  {
    var p := InsertSplit(s, e);
    InsertAt(s, e, p);
    hide Insert, Inserted;
    assert s[..p] + s[p..] == s;
  }

  /** A stable sort: sorted, the same entries, and entries at equal distance keep their order. */
  lemma {:induction false} StableSorts(es: seq<Entry>)
    ensures Sorted(StableSort(es)) && multiset(StableSort(es)) == multiset(es)
    ensures forall d :: AtDist(StableSort(es), d) == AtDist(es, d)
  {
    if es != [] {
      var front, e := es[..|es| - 1], es[|es| - 1];
      StableSorts(front);
      InsertSorted(StableSort(front), e);
      InsertMultiset(StableSort(front), e);
      assert es == front + [e];
      hide Sorted, Insert;
      forall d
        ensures AtDist(StableSort(es), d) == AtDist(es, d)
      {
        InsertStable(StableSort(front), e, d);
      }
    }
  }

  /** One more entry: what insertion does to the first k of a longer sorted list is `Offer`. */
  lemma OfferFront(s: seq<Entry>, k: nat, e: Entry)
    requires Sorted(s)
    ensures Offer(s[..MinNat(k, |s|)], k, e) == Insert(s, e)[..MinNat(k, |s| + 1)]
  {
    if |s| < k {
      assert s[..|s|] == s;
      assert Insert(s, e)[..|s| + 1] == Insert(s, e);
    } else if 0 < k {
      OfferFull(s, k, e);
    }
  }

  lemma OfferFull(s: seq<Entry>, k: nat, e: Entry)
    requires Sorted(s) && 0 < k <= |s|
    ensures Offer(s[..k], k, e) == Insert(s, e)[..k]
  {
    var p := InsertSplit(s, e);
    InsertAt(s, e, p);
    hide Insert, Inserted;
    if k < p {
      assert s[k - 1].dist <= s[p - 1].dist;
    }
    if e.dist < s[k - 1].dist {
      var t := s[..k][..k - 1];
      InsertAt(t, e, p);
      CutInside(s, p, k, e);
    } else {
      CutBefore(s, p, k, e);
    }
  }

  lemma CutInside(s: seq<Entry>, p: nat, k: nat, e: Entry)
    requires p < k <= |s|
    ensures var t := s[..k][..k - 1];
            t[..p] + [e] + t[p..] == (s[..p] + [e] + s[p..])[..k]
  {
  }

  lemma CutBefore(s: seq<Entry>, p: nat, k: nat, e: Entry)
    requires k <= p <= |s|
    ensures (s[..p] + [e] + s[p..])[..k] == s[..k]
  {
  }

  /** Pushing entries one by one keeps exactly the first k of their stable sort. */
  lemma {:induction false} OfferAllFront(k: nat, es: seq<Entry>)
    ensures OfferAll(k, es) == StableSort(es)[..MinNat(k, |es|)]
  {
    if es != [] {
      var front, e := es[..|es| - 1], es[|es| - 1];
      OfferAllFront(k, front);
      StableSorts(front);
      hide Sorted, Insert, Offer;
      OfferFront(StableSort(front), k, e);
    }
  }

  // ----- a row's neighbours --------------------------------------------------------------------------------

  /** The first n candidates other than row i, in index order. */
  function Others(d: seq<real>, i: nat, n: nat): seq<Entry>
    requires n <= |d|
  {
    if n == 0 then []
    else Others(d, i, n - 1) + if n - 1 == i then [] else [Entry(d[n - 1], n - 1)]
  }

  function RowOf(d: seq<real>, i: nat, k: nat): seq<Entry> {
    OfferAll(k, Others(d, i, |d|))
  }

  lemma {:induction false} OthersAt(d: seq<real>, i: nat, n: nat)
    requires n <= |d|
    ensures |Others(d, i, n)| == (if i < n then n - 1 else n)
    ensures forall a :: 0 <= a < |Others(d, i, n)| ==>
              var e := Others(d, i, n)[a]; e.idx < n && e.idx != i && e.dist == d[e.idx]
    ensures forall c: nat :: c < n && c != i ==> Entry(d[c], c) in Others(d, i, n)
  {
    if n > 0 {
      OthersAt(d, i, n - 1);
    }
  }

  lemma StableBelow(es: seq<Entry>, bound: nat)
    requires forall a :: 0 <= a < |es| ==> es[a].idx < bound
    ensures forall a :: 0 <= a < |StableSort(es)| ==> StableSort(es)[a].idx < bound
  {
    StableSorts(es);
    hide *;
    var r := StableSort(es);
    forall a | 0 <= a < |r|
      ensures r[a].idx < bound
    {
      assert r[a] in multiset(es);
    }
  }

  lemma {:induction false} OthersChain(d: seq<real>, i: nat, n: nat)
    requires n <= |d|
    ensures Chain(StableSort(Others(d, i, n)))
  {
    if n > 0 {
      OthersChain(d, i, n - 1);
      if n - 1 != i {
        var es, e := Others(d, i, n - 1), Entry(d[n - 1], n - 1);
        assert Others(d, i, n) == es + [e];
        OthersAt(d, i, n - 1);
        hide *;
        StableBelow(es, n - 1);
        ChainInsert(StableSort(es), e);
        StableNext(es, e);
      } else {
        assert Others(d, i, n) == Others(d, i, n - 1);
      }
    }
  }

  lemma StableNext(es: seq<Entry>, e: Entry)
    ensures StableSort(es + [e]) == Insert(StableSort(es), e)
  {
    assert (es + [e])[..|es|] == es;
  }

  /** `s` lists the k first rows other than `i` in the order (distance, index). */
  ghost predicate NearestOthers(s: seq<Entry>, k: nat, i: nat, d: seq<real>) {
    && |s| == MinNat(k, if i < |d| then |d| - 1 else |d|)
    && Chain(s)
    && (forall a :: 0 <= a < |s| ==> s[a].idx < |d| && s[a].idx != i && s[a].dist == d[s[a].idx])
    && (forall c: nat :: c < |d| && c != i && Entry(d[c], c) !in s ==> AfterAll(s, Entry(d[c], c)))
  }

  ghost predicate AfterAll(s: seq<Entry>, e: Entry) {
    forall a :: 0 <= a < |s| ==> Before(s[a], e)
  }

  lemma FrontFirst(all: seq<Entry>, m: nat, e: Entry)
    requires Chain(all) && m <= |all| && e in all && e !in all[..m]
    ensures AfterAll(all[..m], e)
  {
    assert all == all[..m] + all[m..];
    var b :| 0 <= b < |all[m..]| && all[m..][b] == e;
    assert all[m + b] == e;
  }

  lemma SameMembers(a: seq<Entry>, b: seq<Entry>, e: Entry)
    requires multiset(a) == multiset(b)
    ensures e in a <==> e in b
  {
    assert e in multiset(a) <==> e in multiset(b);
  }

  /** A row's list is exactly its k nearest other rows, ties by index. */
  lemma RowNearest(d: seq<real>, i: nat, k: nat)
    ensures NearestOthers(RowOf(d, i, k), k, i, d)
  {
    var es := Others(d, i, |d|);
    var all, s := StableSort(es), RowOf(d, i, k);
    OfferAllFront(k, es);
    OthersAt(d, i, |d|);
    OthersChain(d, i, |d|);
    StableSorts(es);
    var m := MinNat(k, |es|);
    assert s == all[..m];
    assert Chain(s);
    hide *;
    RowEntries(d, i, es, all, m);
    RowRest(d, i, es, all, m);
    IsNearest(d, i, k, s, m);
  }

  lemma RowEntries(d: seq<real>, i: nat, es: seq<Entry>, all: seq<Entry>, m: nat)
    requires multiset(all) == multiset(es) && m <= |all|
    requires forall a :: 0 <= a < |es| ==> var e := es[a]; e.idx < |d| && e.idx != i && e.dist == d[e.idx]
    ensures forall a :: 0 <= a < m ==> all[..m][a].idx < |d| && all[..m][a].idx != i && all[..m][a].dist == d[all[..m][a].idx]
  {
    forall a | 0 <= a < m
      ensures all[a].idx < |d| && all[a].idx != i && all[a].dist == d[all[a].idx]
    {
      SameMembers(all, es, all[a]);
    }
  }

  lemma RowRest(d: seq<real>, i: nat, es: seq<Entry>, all: seq<Entry>, m: nat)
    requires multiset(all) == multiset(es) && Chain(all) && m <= |all|
    requires forall c: nat :: c < |d| && c != i ==> Entry(d[c], c) in es
    ensures forall c: nat :: c < |d| && c != i && Entry(d[c], c) !in all[..m] ==> AfterAll(all[..m], Entry(d[c], c))
  {
    hide Chain, AfterAll;
    forall c: nat | c < |d| && c != i && Entry(d[c], c) !in all[..m]
      ensures AfterAll(all[..m], Entry(d[c], c))
    {
      SameMembers(all, es, Entry(d[c], c));
      FrontFirst(all, m, Entry(d[c], c));
    }
  }

  lemma IsNearest(d: seq<real>, i: nat, k: nat, s: seq<Entry>, m: nat)
    requires |s| == m == MinNat(k, if i < |d| then |d| - 1 else |d|) && Chain(s)
    requires forall a :: 0 <= a < m ==> s[a].idx < |d| && s[a].idx != i && s[a].dist == d[s[a].idx]
    requires forall c: nat :: c < |d| && c != i && Entry(d[c], c) !in s ==> AfterAll(s, Entry(d[c], c))
    ensures NearestOthers(s, k, i, d)
  {
  }

  lemma ExactOffer(d: seq<real>, i: nat, k: nat, n: nat)
    requires 0 < n <= |d| && i != n - 1
    ensures !HasIdx(BruteForce(d, i, k, n - 1), n - 1)
  {
    hide Best;
    BruteForceBest(d, i, k, n - 1);
    Unlisted(BruteForce(d, i, k, n - 1), k, UpTo(n - 1) - {i}, d, n - 1);
  }

  lemma Unlisted(s: seq<Entry>, k: nat, seen: set<nat>, d: seq<real>, c: nat)
    requires Best(s, k, seen, d, true) && c !in seen
    ensures !HasIdx(s, c)
  {
  }

  lemma {:induction false} OthersBruteForce(d: seq<real>, i: nat, k: nat, n: nat)
    requires n <= |d|
    ensures OfferAll(k, Others(d, i, n)) == BruteForce(d, i, k, n)
  {
    hide Offer;
    if n > 0 {
      OthersBruteForce(d, i, k, n - 1);
      if n - 1 != i {
        ExactOffer(d, i, k, n);
        var es, e := Others(d, i, n - 1), Entry(d[n - 1], n - 1);
        assert (es + [e])[..|es|] == es;
      } else {
        assert Others(d, i, n) == Others(d, i, n - 1);
      }
    }
  }

  /** The exact leaf paths compute the brute-force scan that the sampling kernels are measured against. */
  lemma RowIsBruteForce(d: seq<real>, i: nat, k: nat)
    ensures RowOf(d, i, k) == BruteForce(d, i, k, |d|)
  {
    OthersBruteForce(d, i, k, |d|);
  }

  // ----- edges -----------------------------------------------------------------------------------------------

  datatype Edge = Edge(p: nat, c: nat, hash: nat, dist: real, rank: nat, mirror: bool)

  /** The leaf's global ids, and the hash of an ordered pair of its rows. */
  datatype Leaf = Leaf(ids: seq<nat>, hash: (nat, nat) -> nat)

  function Rank(r: nat): nat {
    MinNat(r + 1, 255)
  }

  function Direct(leaf: Leaf, i: nat, e: Entry, r: nat): Edge
    requires i < |leaf.ids| && e.idx < |leaf.ids|
  {
    Edge(leaf.ids[i], leaf.ids[e.idx], leaf.hash(i, e.idx), e.dist, Rank(r), false)
  }

  function Mirror(leaf: Leaf, i: nat, e: Entry, r: nat): Edge
    requires i < |leaf.ids| && e.idx < |leaf.ids|
  {
    Edge(leaf.ids[e.idx], leaf.ids[i], leaf.hash(e.idx, i), e.dist, Rank(r), true)
  }

  ghost predicate Within(leaf: Leaf, top: seq<Entry>) {
    forall a :: 0 <= a < |top| ==> top[a].idx < |leaf.ids|
  }

  ghost function RowEdges(leaf: Leaf, i: nat, top: seq<Entry>, r: nat): (edges: seq<Edge>)
    requires i < |leaf.ids| && Within(leaf, top) && r <= |top|
    ensures |edges| == 2 * r
  {
    if r == 0 then []
    else RowEdges(leaf, i, top, r - 1) + [Direct(leaf, i, top[r - 1], r - 1), Mirror(leaf, i, top[r - 1], r - 1)]
  }

  ghost predicate AllWithin(leaf: Leaf, tops: seq<seq<Entry>>) {
    |tops| == |leaf.ids| && forall i :: 0 <= i < |tops| ==> Within(leaf, tops[i])
  }

  ghost function Edges(leaf: Leaf, tops: seq<seq<Entry>>, lo: nat, hi: nat): seq<Edge>
    requires AllWithin(leaf, tops) && lo <= hi <= |tops|
  {
    if lo == hi then [] else Edges(leaf, tops, lo, hi - 1) + RowEdges(leaf, hi - 1, tops[hi - 1], |tops[hi - 1]|)
  }

  lemma {:induction false} EdgesJoin(leaf: Leaf, tops: seq<seq<Entry>>, lo: nat, mid: nat, hi: nat)
    requires AllWithin(leaf, tops) && lo <= mid <= hi <= |tops|
    ensures Edges(leaf, tops, lo, hi) == Edges(leaf, tops, lo, mid) + Edges(leaf, tops, mid, hi)
    decreases hi
  {
    if mid < hi {
      EdgesJoin(leaf, tops, lo, mid, hi - 1);
    } else {
      assert Edges(leaf, tops, mid, hi) == [];
    }
  }

  /** The DIRECT edge from row i to its neighbour e, then the MIRROR edge with ends and hash arguments swapped. */
  ghost predicate LinkAt(leaf: Leaf, edges: seq<Edge>, at: nat, i: nat, e: Entry, rank: nat) {
    && i < |leaf.ids| && e.idx < |leaf.ids| && at + 1 < |edges|
    && edges[at] == Edge(leaf.ids[i], leaf.ids[e.idx], leaf.hash(i, e.idx), e.dist, rank, false)
    && edges[at + 1] == Edge(leaf.ids[e.idx], leaf.ids[i], leaf.hash(e.idx, i), e.dist, rank, true)
  }

  lemma LinkInFront(leaf: Leaf, edges: seq<Edge>, more: seq<Edge>, at: nat, i: nat, e: Entry, rank: nat)
    requires LinkAt(leaf, edges, at, i, e, rank)
    ensures LinkAt(leaf, edges + more, at, i, e, rank)
  {
  }

  lemma LinkBehind(leaf: Leaf, front: seq<Edge>, edges: seq<Edge>, at: nat, i: nat, e: Entry, rank: nat)
    requires LinkAt(leaf, edges, at, i, e, rank)
    ensures LinkAt(leaf, front + edges, |front| + at, i, e, rank)
  {
    assert (front + edges)[|front| + at + 1] == edges[at + 1];
  }

  /** Edges come in pairs: the m-th neighbour's DIRECT edge and its MIRROR, of rank m + 1, at most 255. */
  lemma {:induction false} RowPairs(leaf: Leaf, i: nat, top: seq<Entry>, r: nat, m: nat)
    requires i < |leaf.ids| && Within(leaf, top) && m < r <= |top|
    ensures LinkAt(leaf, RowEdges(leaf, i, top, r), 2 * m, i, top[m], if m + 1 < 255 then m + 1 else 255)
  {
    if m < r - 1 {
      RowPairs(leaf, i, top, r - 1, m);
    }
  }

  // ----- the leaf's result -------------------------------------------------------------------------------------

  /** `params.leaf_knn` capped at the number of other rows. */
  function LeafKnnK(knn: nat, n: nat): (k: nat)
    ensures 0 < n ==> k == if knn < n - 1 then knn else n - 1
    ensures n == 0 ==> k == 0
  {
    MinNat(knn, if n == 0 then 0 else n - 1)
  }

  function RowTops(rows: seq<Vec>, dim: nat, k: nat): (tops: seq<seq<Entry>>)
    requires IsMatrix(rows, dim)
    ensures |tops| == |rows|
    ensures forall i :: 0 <= i < |rows| ==> tops[i] == RowOf(Distances(rows[i], rows), i, k)
  {
    seq(|rows|, i requires 0 <= i < |rows| => RowOf(Distances(rows[i], rows), i, k))
  }

  lemma TopsWithin(leaf: Leaf, rows: seq<Vec>, dim: nat, k: nat)
    requires IsMatrix(rows, dim) && |leaf.ids| == |rows|
    ensures AllWithin(leaf, RowTops(rows, dim, k))
  {
    forall i | 0 <= i < |rows|
      ensures Within(leaf, RowTops(rows, dim, k)[i])
    {
      RowNearest(Distances(rows[i], rows), i, k);
    }
  }

  /** The edges every path has to emit, in this order. */
  ghost function LeafEdges(leaf: Leaf, rows: seq<Vec>, dim: nat, k: nat): seq<Edge>
    requires IsMatrix(rows, dim) && |leaf.ids| == |rows|
  {
    TopsWithin(leaf, rows, dim, k);
    Edges(leaf, RowTops(rows, dim, k), 0, |rows|)
  }

  /** With k entries in every row, row i's edges start at 2ik. */
  lemma {:induction false} EdgesAt(leaf: Leaf, tops: seq<seq<Entry>>, k: nat, hi: nat, i: nat, m: nat)
    requires AllWithin(leaf, tops) && i < hi <= |tops| && m < k && (forall a :: 0 <= a < |tops| ==> |tops[a]| == k)
    ensures LinkAt(leaf, Edges(leaf, tops, 0, hi), 2 * (i * k) + 2 * m, i, tops[i][m], if m + 1 < 255 then m + 1 else 255)
    decreases hi
  {
    hide *;
    EdgesStep(leaf, tops, hi);
    var rank, front, row := if m + 1 < 255 then m + 1 else 255, Edges(leaf, tops, 0, hi - 1), RowEdges(leaf, hi - 1, tops[hi - 1], k);
    if i < hi - 1 {
      EdgesAt(leaf, tops, k, hi - 1, i, m);
      LinkInFront(leaf, front, row, 2 * (i * k) + 2 * m, i, tops[i][m], rank);
    } else {
      EdgesLength(leaf, tops, k, hi - 1);
      RowPairs(leaf, i, tops[i], k, m);
      LinkBehind(leaf, front, row, 2 * m, i, tops[i][m], rank);
    }
  }

  lemma {:induction false} EdgesLength(leaf: Leaf, tops: seq<seq<Entry>>, k: nat, hi: nat)
    requires AllWithin(leaf, tops) && hi <= |tops| && (forall a :: 0 <= a < |tops| ==> |tops[a]| == k)
    ensures |Edges(leaf, tops, 0, hi)| == 2 * (hi * k)
  {
    if hi > 0 {
      EdgesLength(leaf, tops, k, hi - 1);
      EdgesStep(leaf, tops, hi);
      hide *;
      assert hi * k == (hi - 1) * k + k;
    }
  }

  lemma EdgesStep(leaf: Leaf, tops: seq<seq<Entry>>, hi: nat)
    requires AllWithin(leaf, tops) && 0 < hi <= |tops|
    ensures |tops| == |leaf.ids| && Within(leaf, tops[hi - 1])
    ensures Edges(leaf, tops, 0, hi) == Edges(leaf, tops, 0, hi - 1) + RowEdges(leaf, hi - 1, tops[hi - 1], |tops[hi - 1]|)
  {
  }

  lemma TopsCount(rows: seq<Vec>, dim: nat, knn: nat)
    requires IsMatrix(rows, dim)
    ensures forall i :: 0 <= i < |rows| ==> |RowTops(rows, dim, LeafKnnK(knn, |rows|))[i]| == if knn < |rows| - 1 then knn else |rows| - 1
  {
    var k := LeafKnnK(knn, |rows|);
    forall i | 0 <= i < |rows|
      ensures |RowTops(rows, dim, k)[i]| == k
    {
      RowNearest(Distances(rows[i], rows), i, k);
    }
  }

  /** Each of a leaf's n rows has 2 min(knn, n - 1) edges. */
  lemma LeafEdgeCount(leaf: Leaf, rows: seq<Vec>, dim: nat, knn: nat)
    requires IsMatrix(rows, dim) && |leaf.ids| == |rows|
    ensures |LeafEdges(leaf, rows, dim, LeafKnnK(knn, |rows|))| == 2 * (|rows| * if knn < |rows| - 1 then knn else |rows| - 1)
  {
    if |rows| > 0 {
      var k := LeafKnnK(knn, |rows|);
      TopsCount(rows, dim, knn);
      TopsWithin(leaf, rows, dim, k);
      EdgesLength(leaf, RowTops(rows, dim, k), k, |rows|);
    }
  }

  /**
   The edges of a leaf, field by field: at place 2(ik + m) stands row i's link to its m-th nearest
   other row, at the pair's true distance.
   */
  lemma LeafEdgeAt(leaf: Leaf, rows: seq<Vec>, dim: nat, knn: nat, k: nat, row: seq<Entry>, i: nat, m: nat, at: nat)
    requires IsMatrix(rows, dim) && |leaf.ids| == |rows| && i < |rows|
    requires k == (if knn < |rows| - 1 then knn else |rows| - 1) && m < k && row == RowTops(rows, dim, k)[i] && at == 2 * (i * k) + 2 * m
    ensures |row| == k && LinkAt(leaf, LeafEdges(leaf, rows, dim, LeafKnnK(knn, |rows|)), at, i, row[m], if m + 1 < 255 then m + 1 else 255)
    ensures NearestOthers(row, k, i, Distances(rows[i], rows))
  {
    hide RowOf, Edges, LinkAt, AllWithin, Chain, AfterAll;
    var tops: seq<seq<Entry>> := RowTops(rows, dim, k);
    RowNearest(Distances(rows[i], rows), i, k);
    assert LeafKnnK(knn, |rows|) == k;
    TopsCount(rows, dim, knn);
    TopsWithin(leaf, rows, dim, k);
    EdgesAt(leaf, tops, k, |rows|, i, m);
  }

  lemma {:induction false} NoEdges(leaf: Leaf, tops: seq<seq<Entry>>, hi: nat)
    requires AllWithin(leaf, tops) && hi <= |tops| && forall i :: 0 <= i < |tops| ==> tops[i] == []
    ensures Edges(leaf, tops, 0, hi) == []
  {
    if hi > 0 {
      NoEdges(leaf, tops, hi - 1);
    }
  }

  /** With no neighbour to list there is no edge, so the early returns lose nothing. */
  lemma NoNeighbours(leaf: Leaf, rows: seq<Vec>, dim: nat)
    requires IsMatrix(rows, dim) && |leaf.ids| == |rows|
    ensures LeafEdges(leaf, rows, dim, 0) == []
  {
    hide Edges, AllWithin;
    TopsWithin(leaf, rows, dim, 0);
    NoEdges(leaf, RowTops(rows, dim, 0), |rows|);
  }
}
