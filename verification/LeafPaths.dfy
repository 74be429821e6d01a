/**
 The three implementations of the exact leaf neighbours, each proved to emit `LeafEdges`.
 */
module LeafPaths {
  import opened Basics
  import opened Sorting
  import opened TopK
  import opened AdsSpec
  import opened LeafKnn

  // ----- matrices -----------------------------------------------------------------------------------------

  ghost predicate IsNorms(norms: array<real>, rows: seq<Vec>, dim: nat)
    requires IsMatrix(rows, dim)
    reads norms
  {
    norms.Length == |rows| && forall i :: 0 <= i < |rows| ==> norms[i] == Dot(rows[i], rows[i], dim)
  }

  /** `g` holds the products of rows `lo ..` with all rows. */
  ghost predicate IsGram(g: array2<real>, rows: seq<Vec>, dim: nat, lo: nat)
    requires IsMatrix(rows, dim)
    reads g
  {
    && lo + g.Length0 <= |rows| && g.Length1 == |rows|
    && forall b, j :: 0 <= b < g.Length0 && 0 <= j < |rows| ==> g[b, j] == Dot(rows[lo + b], rows[j], dim)
  }

  method Norms(rows: seq<Vec>, dim: nat) returns (norms: array<real>)
    requires IsMatrix(rows, dim)
    ensures fresh(norms) && IsNorms(norms, rows, dim)
  {
    norms := new real[|rows|];
    for i := 0 to |rows|
      invariant forall j :: 0 <= j < i ==> norms[j] == Dot(rows[j], rows[j], dim)
    {
      norms[i] := Dot(rows[i], rows[i], dim);
    }
  }

  /** The product of a block of rows with the transposed matrix. */
  method Gram(rows: seq<Vec>, dim: nat, lo: nat, hi: nat) returns (g: array2<real>)
    requires IsMatrix(rows, dim) && lo <= hi <= |rows|
    ensures fresh(g) && g.Length0 == hi - lo && IsGram(g, rows, dim, lo)
  {
    g := new real[hi - lo, |rows|];
    for b := 0 to hi - lo
      invariant forall a, j :: 0 <= a < b && 0 <= j < |rows| ==> g[a, j] == Dot(rows[lo + a], rows[j], dim)
    {
      for j := 0 to |rows|
        invariant forall a, i :: 0 <= a < b && 0 <= i < |rows| ==> g[a, i] == Dot(rows[lo + a], rows[i], dim)
        invariant forall i :: 0 <= i < j ==> g[b, i] == Dot(rows[lo + b], rows[i], dim)
      {
        g[b, j] := Dot(rows[lo + b], rows[j], dim);
      }
    }
  }

  /** Row `i` of the matrix holds the row's distances, except perhaps to itself. */
  ghost predicate HoldsRow(m: array2<real>, rows: seq<Vec>, dim: nat, i: nat)
    requires IsMatrix(rows, dim)
    reads m
  {
    && i < m.Length0 == m.Length1 == |rows|
    && forall j :: 0 <= j < |rows| && j != i ==> m[i, j] == Distances(rows[i], rows)[j]
  }

  /** Turns a full Gram matrix into distances in place. */
  method ToDistances(m: array2<real>, norms: array<real>, rows: seq<Vec>, dim: nat)
    requires IsMatrix(rows, dim) && IsNorms(norms, rows, dim)
    requires m.Length0 == |rows| && IsGram(m, rows, dim, 0)
    modifies m
    ensures forall i :: 0 <= i < |rows| ==> HoldsRow(m, rows, dim, i)
  {
    hide Dot, Distances, FromGram;
    var n := |rows|;
    for i := 0 to n
      invariant forall a, b :: 0 <= a < i && 0 <= b < n ==> m[a, b] == Distances(rows[a], rows)[b]
      invariant forall a, b :: i <= a < n && 0 <= b < n ==> m[a, b] == Dot(rows[a], rows[b], dim)
    {
      for j := 0 to n
        invariant forall a, b :: 0 <= a < i && 0 <= b < n ==> m[a, b] == Distances(rows[a], rows)[b]
        invariant forall b :: 0 <= b < j ==> m[i, b] == Distances(rows[i], rows)[b]
        invariant forall b :: j <= b < n ==> m[i, b] == Dot(rows[i], rows[b], dim)
        invariant forall a, b :: i < a < n && 0 <= b < n ==> m[a, b] == Dot(rows[a], rows[b], dim)
      {
        GramDistance(rows, dim, i, j);
        m[i, j] := FromGram(norms[i], norms[j], m[i, j]);
      }
    }
  }

  lemma Symmetric(rows: seq<Vec>, dim: nat, i: nat, j: nat)
    requires IsMatrix(rows, dim) && i < |rows| && j < |rows|
    ensures Distances(rows[i], rows)[j] == Distances(rows[j], rows)[i]
  {
    PartialSym(rows[i], rows[j], dim);
  }

  /** Fills the matrix pair by pair, each distance at both places. */
  method PairMatrix(rows: seq<Vec>, dim: nat) returns (m: array2<real>)
    requires IsMatrix(rows, dim)
    ensures fresh(m) && forall i :: 0 <= i < |rows| ==> HoldsRow(m, rows, dim, i)
  {
    hide Distances;
    var n := |rows|;
    m := new real[n, n];
    for i := 0 to n
      invariant forall a, b :: 0 <= a < n && 0 <= b < n && a != b && (a < i || b < i) ==> m[a, b] == Distances(rows[a], rows)[b]
    {
      for j := i + 1 to n
        invariant forall a, b :: 0 <= a < n && 0 <= b < n && a != b && (a < i || b < i) ==> m[a, b] == Distances(rows[a], rows)[b]
        invariant forall b :: i < b < j ==> m[i, b] == Distances(rows[i], rows)[b] && m[b, i] == Distances(rows[b], rows)[i]
      {
        Symmetric(rows, dim, i, j);
        m[i, j] := Distances(rows[i], rows)[j];
        m[j, i] := Distances(rows[i], rows)[j];
      }
    }
  }

  // ----- one row -------------------------------------------------------------------------------------------

  lemma OthersNext(d: seq<real>, i: nat, k: nat, j: nat)
    requires j < |d|
    ensures j == i ==> OfferAll(k, Others(d, i, j + 1)) == OfferAll(k, Others(d, i, j))
    ensures j != i ==> OfferAll(k, Others(d, i, j + 1)) == Offer(OfferAll(k, Others(d, i, j)), k, Entry(d[j], j))
  {
    var es := Others(d, i, j);
    if j == i {
      assert Others(d, i, j + 1) == es;
    } else {
      assert (es + [Entry(d[j], j)])[..|es|] == es;
    }
  }

  /** Pushes one matrix row. */
  method PushMatrixRow(m: array2<real>, rows: seq<Vec>, dim: nat, i: nat, k: nat) returns (top: seq<Entry>)
    requires IsMatrix(rows, dim) && i < |rows| && k <= CAPACITY && HoldsRow(m, rows, dim, i)
    ensures top == RowOf(Distances(rows[i], rows), i, k)
  {
    hide Offer, OfferAll, Others;
    ghost var d := Distances(rows[i], rows);
    var topk := new RowTopK();
    NoPush(d, i, k);
    for j := 0 to |rows|
      invariant topk.Valid() && fresh(topk) && fresh(topk.buf) && topk.Contents() == OfferAll(k, Others(d, i, j))
    {
      OthersNext(d, i, k, j);
      if j != i {
        topk.Push(k, j, m[i, j]);
      }
    }
    top := topk.buf[..topk.len];
  }

  lemma NoPush(d: seq<real>, i: nat, k: nat)
    ensures OfferAll(k, Others(d, i, 0)) == []
  {
  }

  /** Pushes the distances of row `lo + b` computed from a Gram block. */
  method PushGramRow(g: array2<real>, norms: array<real>, rows: seq<Vec>, dim: nat, lo: nat, b: nat, k: nat) returns (top: seq<Entry>)
    requires IsMatrix(rows, dim) && IsNorms(norms, rows, dim) && IsGram(g, rows, dim, lo) && b < g.Length0 && k <= CAPACITY
    ensures top == RowOf(Distances(rows[lo + b], rows), lo + b, k)
  {
    hide Offer, OfferAll, Others, Dot, FromGram;
    var i := lo + b;
    ghost var d := Distances(rows[i], rows);
    var topk := new RowTopK();
    NoPush(d, i, k);
    for j := 0 to |rows|
      invariant topk.Valid() && fresh(topk) && fresh(topk.buf) && topk.Contents() == OfferAll(k, Others(d, i, j))
    {
      OthersNext(d, i, k, j);
      if i != j {
        GramDistance(rows, dim, i, j);
        topk.Push(k, j, FromGram(norms[i], norms[j], g[b, j]));
      }
    }
    top := topk.buf[..topk.len];
  }

  /** Pushes distances computed one pair at a time. */
  method PushPairRow(rows: seq<Vec>, dim: nat, i: nat, k: nat) returns (top: seq<Entry>)
    requires IsMatrix(rows, dim) && i < |rows| && k <= CAPACITY
    ensures top == RowOf(Distances(rows[i], rows), i, k)
  {
    hide Offer, OfferAll, Others;
    ghost var d := Distances(rows[i], rows);
    var topk := new RowTopK();
    NoPush(d, i, k);
    for j := 0 to |rows|
      invariant topk.Valid() && fresh(topk) && fresh(topk.buf) && topk.Contents() == OfferAll(k, Others(d, i, j))
    {
      OthersNext(d, i, k, j);
      if i != j {
        topk.Push(k, j, L2(rows[i], rows[j]));
      }
    }
    top := topk.buf[..topk.len];
  }

  // ----- emission -------------------------------------------------------------------------------------------

  const FLUSH_AT: nat := 16384

  method EmitRow(leaf: Leaf, i: nat, top: seq<Entry>, edges0: seq<Edge>) returns (edges: seq<Edge>)
    requires i < |leaf.ids| && Within(leaf, top)
    ensures edges == edges0 + RowEdges(leaf, i, top, |top|)
  {
    edges := edges0;
    for r := 0 to |top|
      invariant edges == edges0 + RowEdges(leaf, i, top, r)
    {
      edges := edges + [Direct(leaf, i, top[r], r)];
      edges := edges + [Mirror(leaf, i, top[r], r)];
    }
  }

  /** Emits rows in order, handing edges to the sink in batches: none is lost or repeated. */
  method EmitAll(leaf: Leaf, tops: seq<seq<Entry>>) returns (sink: seq<Edge>)
    requires AllWithin(leaf, tops)
    ensures sink == Edges(leaf, tops, 0, |tops|)
  {
    hide RowEdges, Within;
    sink := [];
    var edges: seq<Edge> := [];
    for i := 0 to |tops|
      invariant sink + edges == Edges(leaf, tops, 0, i)
    {
      ghost var before := edges;
      edges := EmitRow(leaf, i, tops[i], edges);
      assert sink + edges == (sink + before) + RowEdges(leaf, i, tops[i], |tops[i]|);
      if |edges| >= FLUSH_AT {
        sink, edges := sink + edges, [];
      }
    }
    sink := sink + edges;
  }

  // ----- the full-matrix path -----------------------------------------------------------------------------------

  /** One matrix for the whole leaf, from its Gram matrix or pair by pair. */
  method FullMatrixLeaf(rows: seq<Vec>, dim: nat, leaf: Leaf, knn: nat, gram: bool) returns (edges: seq<Edge>)
    requires IsMatrix(rows, dim) && |leaf.ids| == |rows| && LeafKnnK(knn, |rows|) <= CAPACITY
    ensures edges == LeafEdges(leaf, rows, dim, LeafKnnK(knn, |rows|))
  {
    hide IsNorms, IsGram, HoldsRow, RowOf, Edges, AllWithin, Distances;
    var k := LeafKnnK(knn, |rows|);
    if k == 0 {
      NoNeighbours(leaf, rows, dim);
      return [];
    }
    var m: array2<real>;
    if gram {
      var norms := Norms(rows, dim);
      m := Gram(rows, dim, 0, |rows|);
      ToDistances(m, norms, rows, dim);
    } else {
      m := PairMatrix(rows, dim);
    }
    var tops: seq<seq<Entry>> := [];
    for i := 0 to |rows|
      invariant |tops| == i && forall a :: 0 <= a < i ==> tops[a] == RowOf(Distances(rows[a], rows), a, k)
      invariant forall a :: 0 <= a < |rows| ==> HoldsRow(m, rows, dim, a)
    {
      var top := PushMatrixRow(m, rows, dim, i, k);
      tops := tops + [top];
    }
    assert tops == RowTops(rows, dim, k);
    TopsWithin(leaf, rows, dim, k);
    edges := EmitAll(leaf, tops);
  }

  // ----- the blockwise path ---------------------------------------------------------------------------------------

  /** The lists of rows `lo .. hi`, from a Gram block or pair by pair. */
  method BlockTops(rows: seq<Vec>, dim: nat, norms: array<real>, lo: nat, hi: nat, k: nat, gram: bool)
    returns (tops: seq<seq<Entry>>)
    requires IsMatrix(rows, dim) && lo <= hi <= |rows| && k <= CAPACITY
    requires gram ==> IsNorms(norms, rows, dim)
    ensures tops == RowTops(rows, dim, k)[lo..hi]
  {
    hide IsNorms, IsGram, RowOf, Distances;
    tops := [];
    if gram {
      var g := Gram(rows, dim, lo, hi);
      for b := 0 to hi - lo
        invariant |tops| == b && forall a :: 0 <= a < b ==> tops[a] == RowTops(rows, dim, k)[lo..hi][a]
        invariant IsNorms(norms, rows, dim) && IsGram(g, rows, dim, lo)
      {
        var top := PushGramRow(g, norms, rows, dim, lo, b, k);
        tops := tops + [top];
      }
    } else {
      for i := lo to hi
        invariant |tops| == i - lo && forall a :: 0 <= a < i - lo ==> tops[a] == RowTops(rows, dim, k)[lo..hi][a]
      {
        var top := PushPairRow(rows, dim, i, k);
        tops := tops + [top];
      }
    }
  }

  /** Rows in blocks, one Gram matrix per block, edges at the end. */
  method BlockwiseLeaf(rows: seq<Vec>, dim: nat, leaf: Leaf, knn: nat, block: nat, gram: bool) returns (edges: seq<Edge>)
    requires IsMatrix(rows, dim) && |leaf.ids| == |rows| && LeafKnnK(knn, |rows|) <= CAPACITY && block > 0
    ensures edges == LeafEdges(leaf, rows, dim, LeafKnnK(knn, |rows|))
  {
    hide IsNorms, Edges, AllWithin, RowTops, RowOf, Distances;
    var k := LeafKnnK(knn, |rows|);
    if k == 0 {
      NoNeighbours(leaf, rows, dim);
      return [];
    }
    var norms := Norms(rows, dim);
    var tops: seq<seq<Entry>> := [];
    var start := 0;
    while start < |rows|
      invariant start <= |rows| && tops == RowTops(rows, dim, k)[..start]
      invariant IsNorms(norms, rows, dim)
      decreases |rows| - start
    {
      var end := MinNat(start + block, |rows|);
      var part := BlockTops(rows, dim, norms, start, end, k, gram);
      tops := tops + part;
      start := end;
    }
    TopsWithin(leaf, rows, dim, k);
    assert tops == RowTops(rows, dim, k);
    edges := EmitAll(leaf, tops);
  }

  // ----- the parallel-block path ------------------------------------------------------------------------------------

  datatype BlockResult = BlockResult(start: nat, edges: seq<Edge>)

  predicate ByStart(a: BlockResult, b: BlockResult) {
    a.start <= b.start
  }

  lemma StartOrder()
    ensures TotalPreorder(ByStart)
  {
  }

  /** One block on its own: lists and edges of its rows only. */
  method ParallelBlock(rows: seq<Vec>, dim: nat, leaf: Leaf, norms: array<real>, start: nat, block: nat, k: nat, gram: bool)
    returns (r: BlockResult)
    requires IsMatrix(rows, dim) && |leaf.ids| == |rows| && k <= CAPACITY && start < |rows| && block > 0
    requires gram ==> IsNorms(norms, rows, dim)
    requires AllWithin(leaf, RowTops(rows, dim, k))
    ensures r == BlockResult(start, Edges(leaf, RowTops(rows, dim, k), start, MinNat(start + block, |rows|)))
  {
    hide *;
    ghost var all := RowTops(rows, dim, k);
    var end := MinNat(start + block, |rows|);
    Between(start, block, |rows|);
    var tops := BlockTops(rows, dim, norms, start, end, k, gram);
    var edges: seq<Edge> := [];
    EdgesNone(leaf, all, start);
    for i := start to end
      invariant edges == Edges(leaf, all, start, i)
    {
      EdgesNext(leaf, all, start, i);
      assert tops[i - start] == all[i];
      edges := EmitRow(leaf, i, tops[i - start], edges);
    }
    r := BlockResult(start, edges);
  }

  lemma Between(start: nat, block: nat, n: nat)
    requires start < n && block > 0
    ensures start < MinNat(start + block, n) <= n
  {
  }

  lemma EdgesNone(leaf: Leaf, tops: seq<seq<Entry>>, lo: nat)
    requires AllWithin(leaf, tops) && lo <= |tops|
    ensures Edges(leaf, tops, lo, lo) == []
  {
  }

  lemma EdgesNext(leaf: Leaf, tops: seq<seq<Entry>>, lo: nat, i: nat)
    requires AllWithin(leaf, tops) && lo <= i < |tops|
    ensures |tops| == |leaf.ids| && Within(leaf, tops[i])
    ensures Edges(leaf, tops, lo, i + 1) == Edges(leaf, tops, lo, i) + RowEdges(leaf, i, tops[i], |tops[i]|)
  {
  }

  /** The first row of block number `b`, or the number of rows past the last block. */
  function StartOf(b: nat, block: nat, n: nat): (s: nat)
    ensures s <= n
  {
    MinNat(b * block, n)
  }

  /** What block number `b` returns. */
  ghost function ResultOf(leaf: Leaf, tops: seq<seq<Entry>>, block: nat, b: nat): BlockResult
    requires AllWithin(leaf, tops)
  {
    var n := |tops|;
    StartsGrow(b, b + 1, block, n);
    BlockResult(StartOf(b, block, n), Edges(leaf, tops, StartOf(b, block, n), StartOf(b + 1, block, n)))
  }

  lemma StartsGrow(a: nat, b: nat, block: nat, n: nat)
    requires a < b
    ensures StartOf(a, block, n) <= StartOf(b, block, n)
    ensures StartOf(a, block, n) < n && block > 0 ==> StartOf(a, block, n) < StartOf(b, block, n)
    ensures b == a + 1 && StartOf(a, block, n) < n ==> StartOf(b, block, n) == MinNat(StartOf(a, block, n) + block, n)
  {
    MulMono(a + 1, b, block);
  }

  ghost predicate IsResult(r: BlockResult, leaf: Leaf, tops: seq<seq<Entry>>, block: nat, b: nat)
    requires AllWithin(leaf, tops)
  {
    r == ResultOf(leaf, tops, block, b) && StartOf(b, block, |tops|) < |tops|
  }

  ghost predicate Results(results: seq<BlockResult>, leaf: Leaf, tops: seq<seq<Entry>>, block: nat, first: nat)
    requires AllWithin(leaf, tops)
  {
    forall j :: 0 <= j < |results| ==> IsResult(results[j], leaf, tops, block, first + j)
  }

  lemma InStartOrder(results: seq<BlockResult>, leaf: Leaf, tops: seq<seq<Entry>>, block: nat, first: nat)
    requires AllWithin(leaf, tops) && block > 0 && Results(results, leaf, tops, block, first)
    ensures SortedBy(ByStart, results) && Strict(ByStart, results)
  {
    hide Edges, AllWithin, StartOf;
    forall i, j | 0 <= i < j < |results|
      ensures results[i].start < results[j].start
    {
      assert IsResult(results[i], leaf, tops, block, first + i) && IsResult(results[j], leaf, tops, block, first + j);
      StartsGrow(first + i, first + j, block, |tops|);
    }
    hide Results;
    forall x, y | x in results && y in results && ByStart(x, y) && ByStart(y, x)
      ensures x == y
    {
      var i :| 0 <= i < |results| && results[i] == x;
      var j :| 0 <= j < |results| && results[j] == y;
    }
  }

  /**
   A wave's results arrive in any order (`wave` is the order of the blocks) and are flushed by block
   start, which restores it.
   */
  method FlushWave(results: seq<BlockResult>, sink0: seq<Edge>, ghost wave: seq<BlockResult>, ghost leaf: Leaf,
                   ghost tops: seq<seq<Entry>>, ghost block: nat, ghost first: nat)
    returns (sink: seq<Edge>)
    requires AllWithin(leaf, tops) && block > 0 && Results(wave, leaf, tops, block, first)
    requires multiset(results) == multiset(wave)
    requires sink0 == Edges(leaf, tops, 0, StartOf(first, block, |tops|))
    ensures sink == Edges(leaf, tops, 0, StartOf(first + |results|, block, |tops|)) && |results| == |wave|
  {
    hide *;
    StartOrder();
    var sorted := SortUnstable(ByStart, results);
    InStartOrder(wave, leaf, tops, block, first);
    SortedUnique(ByStart, wave, sorted);
    sink := sink0;
    for j := 0 to |sorted|
      invariant sink == Edges(leaf, tops, 0, StartOf(first + j, block, |tops|))
    {
      AddBlock(wave, leaf, tops, block, first, j);
      sink := sink + sorted[j].edges;
    }
  }

  lemma AddBlock(results: seq<BlockResult>, leaf: Leaf, tops: seq<seq<Entry>>, block: nat, first: nat, j: nat)
    requires AllWithin(leaf, tops) && Results(results, leaf, tops, block, first) && j < |results|
    ensures Edges(leaf, tops, 0, StartOf(first + j + 1, block, |tops|))
            == Edges(leaf, tops, 0, StartOf(first + j, block, |tops|)) + results[j].edges
  {
    hide Edges, AllWithin, StartOf;
    assert IsResult(results[j], leaf, tops, block, first + j);
    var n := |tops|;
    StartsGrow(first + j, first + j + 1, block, n);
    EdgesJoin(leaf, tops, 0, StartOf(first + j, block, n), StartOf(first + j + 1, block, n));
  }

  /**
   Blocks in waves, each block on its own, by Gram block or pair by pair. `width` is the number
   of blocks in flight; they finish in any order.
   */
  method ParallelLeaf(rows: seq<Vec>, dim: nat, leaf: Leaf, knn: nat, block: nat, width: nat, gram: bool) returns (edges: seq<Edge>)
    requires IsMatrix(rows, dim) && |leaf.ids| == |rows| && LeafKnnK(knn, |rows|) <= CAPACITY && block > 0 && width > 0
    ensures edges == LeafEdges(leaf, rows, dim, LeafKnnK(knn, |rows|))
  {
    hide *;
    var k := LeafKnnK(knn, |rows|);
    if k == 0 {
      NoNeighbours(leaf, rows, dim);
      return [];
    }
    var norms := Norms(rows, dim);
    var n := |rows|;
    TopsWithin(leaf, rows, dim, k);
    ghost var all := RowTops(rows, dim, k);
    AtStart(block, n);
    EdgesNone(leaf, all, 0);
    edges := [];
    var first: nat := 0;
    while StartOf(first, block, n) < n
      invariant edges == Edges(leaf, all, 0, StartOf(first, block, n))
      invariant IsNorms(norms, rows, dim)
      decreases n - StartOf(first, block, n)
    {
      var results: seq<BlockResult> := [];
      ghost var wave := results;
      NoResults(leaf, all, block, first);
      while |results| < width && StartOf(first + |results|, block, n) < n
        invariant Results(wave, leaf, all, block, first) && |wave| == |results| && multiset(results) == multiset(wave)
        invariant IsNorms(norms, rows, dim)
        decreases width - |results|
      {
        var b := first + |results|;
        var r := ParallelBlock(rows, dim, leaf, norms, StartOf(b, block, n), block, k, gram);
        Between(StartOf(b, block, n), block, n);
        AddResult(wave, r, leaf, all, block, first);
        wave := wave + [r];
        results := Finish(results, r);
      }
      edges := FlushWave(results, edges, wave, leaf, all, block, first);
      StartsGrow(first, first + |results|, block, n);
      first := first + |results|;
    }
    IsLeafEdges(leaf, rows, dim, k);
  }

  /** A block may finish before or after any other one of its wave. */
  method Finish(results: seq<BlockResult>, r: BlockResult) returns (more: seq<BlockResult>)
    ensures multiset(more) == multiset(results) + multiset{r} && |more| == |results| + 1
  {
    var at :| 0 <= at <= |results|;
    assert results == results[..at] + results[at..];
    more := results[..at] + [r] + results[at..];
  }

  lemma AtStart(block: nat, n: nat)
    ensures StartOf(0, block, n) == 0
  {
  }

  lemma NoResults(leaf: Leaf, tops: seq<seq<Entry>>, block: nat, first: nat)
    requires AllWithin(leaf, tops)
    ensures Results([], leaf, tops, block, first)
  {
  }

  lemma AddResult(results: seq<BlockResult>, r: BlockResult, leaf: Leaf, tops: seq<seq<Entry>>, block: nat, first: nat)
    requires AllWithin(leaf, tops) && Results(results, leaf, tops, block, first)
    requires var n, b := |tops|, first + |results|;
             StartOf(b, block, n) < n
             && StartOf(b, block, n) <= MinNat(StartOf(b, block, n) + block, n) <= n
             && r == BlockResult(StartOf(b, block, n), Edges(leaf, tops, StartOf(b, block, n), MinNat(StartOf(b, block, n) + block, n)))
    ensures Results(results + [r], leaf, tops, block, first)
  {
    hide Edges, AllWithin, StartOf;
    var b := first + |results|;
    StartsGrow(b, b + 1, block, |tops|);
    assert IsResult(r, leaf, tops, block, b);
    forall j | 0 <= j < |results + [r]|
      ensures IsResult((results + [r])[j], leaf, tops, block, first + j)
    {
      if j < |results| {
        assert IsResult(results[j], leaf, tops, block, first + j);
      }
    }
  }

  lemma IsLeafEdges(leaf: Leaf, rows: seq<Vec>, dim: nat, k: nat)
    requires IsMatrix(rows, dim) && |leaf.ids| == |rows| && AllWithin(leaf, RowTops(rows, dim, k))
    ensures LeafEdges(leaf, rows, dim, k) == Edges(leaf, RowTops(rows, dim, k), 0, |rows|)
  {
  }
}
