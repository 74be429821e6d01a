/**
 Root and depth assignment: the scan of all leaders for one query, compared with the
 exhaustive scan `exact_topk_layout`.
 */
module AdsRoot {
  import opened Basics
  import opened TopK
  import opened AdsSpec

  /** `adsampling_seed_indices` is 0..SeedCount. */
  function SeedCount(n: nat, seedExact: nat, fanout: nat): (s: nat)
    ensures s <= n && (0 < n ==> 0 < s)
    ensures s == n || (s >= 1 && s >= seedExact && s >= fanout && (s == 1 || s == seedExact || s == fanout))
  {
    MinNat(n, MaxNat(MaxNat(seedExact, fanout), 1))
  }

  function RootK(fanout: nat, n: nat): (k: nat)
    ensures 1 <= k
    ensures 1 <= n ==> k == (var want := if fanout < 1 then 1 else if 32 < fanout then 32 else fanout; if want < n then want else if n < 32 then n else 32)
  {
    ClampK(MinNat(fanout, MaxNat(n, 1)))
  }

  /** The pruned scan for one query: exact seeds, then every block without the seeds. */
  function RootScan(ctx: Context, q: Vec, rows: seq<Vec>, fanout: nat, seedExact: nat): seq<Entry>
    requires ctx.Valid() && IsMatrix(rows, ctx.dim) && |q| == ctx.dim
  {
    var s, k := SeedCount(|rows|, seedExact, fanout), RootK(fanout, |rows|);
    ScanBlocks(ctx, q, rows, k, PushAll(k, Distances(q, rows)[..s]), UpTo(s), BlockCount(|rows|))
  }

  /** `exact_topk_layout`: every leader pushed in order. */
  function ExactTopK(q: Vec, rows: seq<Vec>, fanout: nat): seq<Entry>
    requires IsMatrix(rows, |q|)
  {
    PushAll(ClampK(fanout), Distances(q, rows))
  }

  // ----- conservative ratios give the exact list -------------------------------------------

  lemma {:induction false} PushAllFalls(k: nat, d: seq<real>, m: nat, n: nat)
    requires m <= n <= |d|
    ensures AtMost(Threshold(PushAll(k, d[..n]), k), Threshold(PushAll(k, d[..m]), k))
  {
    if m < n {
      PushAllFalls(k, d, m, n - 1);
      PushAllStep(k, d, n);
      PushAllNearest(k, d[..n - 1]);
      NearestSorted(PushAll(k, d[..n - 1]), k, d[..n - 1]);
      ThresholdFalls(PushAll(k, d[..n - 1]), k, Entry(d[n - 1], n - 1));
    }
  }

  lemma PushAllStep(k: nat, d: seq<real>, n: nat)
    requires 0 < n <= |d|
    ensures PushAll(k, d[..n]) == Push(PushAll(k, d[..n - 1]), k, Entry(d[n - 1], n - 1))
  {
    assert d[..n][..n - 1] == d[..n - 1];
  }

  lemma NearestSorted(s: seq<Entry>, k: nat, d: seq<real>)
    requires Nearest(s, k, d)
    ensures Sorted(s)
  {
    forall i, j | 0 <= i < j < |s|
      ensures s[i].dist <= s[j].dist
    {
      assert Before(s[i], s[j]);
    }
  }

  /** How many leaders have been considered when the scan reaches index c. */
  function Reached(s: nat, n: nat, c: nat): nat {
    MaxNat(s, MinNat(c, n))
  }

  lemma {:induction false} LanesExact(ctx: Context, q: Vec, rows: seq<Vec>, k: nat, s: nat, start: nat, lanes: nat)
    requires ctx.Valid() && IsMatrix(rows, ctx.dim) && |q| == ctx.dim
    requires s <= |rows| && lanes <= BLOCK && Conservative(ctx, 0)
    ensures var d := Distances(q, rows);
            var top := PushAll(k, d[..Reached(s, |rows|, start)]);
            PushLanes(ctx, q, rows, k, top, Threshold(top, k), start, LanesOf(start, |rows|, UpTo(s)), lanes)
            == PushAll(k, d[..Reached(s, |rows|, start + lanes)])
  {
    hide PushAll, Push, Threshold, Survives, Conservative, Partial, LanesOf, Distances;
    if lanes > 0 {
      LanesExact(ctx, q, rows, k, s, start, lanes - 1);
      var c := start + lanes - 1;
      LaneIs(start, |rows|, s, lanes - 1);
      if s <= c < |rows| {
        OneExact(ctx, q, rows, k, Reached(s, |rows|, start), c);
      }
    }
  }

  lemma LaneIs(start: nat, n: nat, s: nat, l: nat)
    requires l < BLOCK
    ensures l in LanesOf(start, n, UpTo(s)) <==> s <= start + l < n
  {
    assert IsOpen(start, l, n, UpTo(s)) <==> s <= start + l < n;
  }

  lemma OneExact(ctx: Context, q: Vec, rows: seq<Vec>, k: nat, m: nat, c: nat)
    requires ctx.Valid() && IsMatrix(rows, ctx.dim) && |q| == ctx.dim
    requires m <= c < |rows| && Conservative(ctx, 0)
    ensures var d := Distances(q, rows);
            PushAll(k, d[..c + 1]) ==
            if Survives(ctx, q, rows[c], Threshold(PushAll(k, d[..m]), k), 0)
            then Push(PushAll(k, d[..c]), k, Entry(L2(q, rows[c]), c)) else PushAll(k, d[..c])
  {
    var d := Distances(q, rows);
    var bound := Threshold(PushAll(k, d[..m]), k);
    PushAllStep(k, d, c + 1);
    if !Survives(ctx, q, rows[c], bound, 0) {
      PrunedIsFar(ctx, q, rows[c], bound, 0);
      PushAllNearest(k, d[..m]);
      var far := PushAll(k, d[..m])[k - 1];
      PartialGrows(q, rows[far.idx], 0, ctx.dim);
      assert far.dist == d[far.idx];
      PushAllFalls(k, d, m, c);
      PushNoOp(PushAll(k, d[..c]), k, Entry(d[c], c));
    }
  }

  lemma {:induction false} BlocksExact(ctx: Context, q: Vec, rows: seq<Vec>, k: nat, s: nat, blocks: nat)
    requires ctx.Valid() && IsMatrix(rows, ctx.dim) && |q| == ctx.dim
    requires s <= |rows| && Conservative(ctx, 0)
    ensures var d := Distances(q, rows);
            ScanBlocks(ctx, q, rows, k, PushAll(k, d[..s]), UpTo(s), blocks)
            == PushAll(k, d[..Reached(s, |rows|, BlockStart(blocks))])
  {
    hide PushLanes, PushAll, Threshold, LanesOf, Survives, Distances, Conservative, UpTo;
    if blocks > 0 {
      BlocksExact(ctx, q, rows, k, s, blocks - 1);
      LanesExact(ctx, q, rows, k, s, BlockStart(blocks - 1), BLOCK);
    }
  }

  /** A list that already holds every candidate is the same for every larger k. */
  lemma SameForLargerK(k: nat, k': nat, d: seq<real>)
    requires MinNat(k, |d|) == MinNat(k', |d|)
    ensures PushAll(k, d) == PushAll(k', d)
  {
    PushAllNearest(k, d);
    PushAllNearest(k', d);
    NearestUnique(PushAll(k, d), PushAll(k', d), k, d);
  }

  /** With every boundary ratio at least 1 the pruned scan is the exhaustive one, ties included. */
  lemma RootScanExact(ctx: Context, q: Vec, rows: seq<Vec>, fanout: nat, seedExact: nat)
    requires ctx.Valid() && IsMatrix(rows, ctx.dim) && |q| == ctx.dim && Conservative(ctx, 0)
    ensures RootScan(ctx, q, rows, fanout, seedExact) == ExactTopK(q, rows, fanout)
    ensures Nearest(ExactTopK(q, rows, fanout), ClampK(fanout), Distances(q, rows))
    ensures |ExactTopK(q, rows, fanout)|
            == (var want := if fanout < 1 then 1 else if 32 < fanout then 32 else fanout; if want < |rows| then want else |rows|)
  {
    var s, k, d := SeedCount(|rows|, seedExact, fanout), RootK(fanout, |rows|), Distances(q, rows);
    BlocksExact(ctx, q, rows, k, s, BlockCount(|rows|));
    assert d[..|rows|] == d;
    assert Reached(s, |rows|, BlockStart(BlockCount(|rows|))) == |rows|;
    SameForLargerK(k, ClampK(fanout), d);
    PushAllNearest(ClampK(fanout), d);
  }

  // ----- how many leaders a query gets, for any ratios ---------------------------------------

  lemma PushKeepsLength(s: seq<Entry>, k: nat, e: Entry)
    requires |s| == k
    ensures |Push(s, k, e)| == k
  {
  }

  lemma {:induction false} LanesKeepLength(ctx: Context, q: Vec, rows: seq<Vec>, k: nat, top: seq<Entry>, bound: Bound,
                                           start: nat, mask: set<nat>, lanes: nat)
    requires ctx.Valid() && IsMatrix(rows, ctx.dim) && |q| == ctx.dim && |top| == k
    requires forall l :: l in mask ==> start + l < |rows|
    ensures |PushLanes(ctx, q, rows, k, top, bound, start, mask, lanes)| == k
  {
    hide Push, Survives;
    if lanes > 0 {
      LanesKeepLength(ctx, q, rows, k, top, bound, start, mask, lanes - 1);
      if lanes - 1 in mask {
        PushKeepsLength(PushLanes(ctx, q, rows, k, top, bound, start, mask, lanes - 1), k,
                        Entry(L2(q, rows[start + lanes - 1]), start + lanes - 1));
      }
    }
  }

  lemma {:induction false} ScanKeepsLength(ctx: Context, q: Vec, rows: seq<Vec>, k: nat, top: seq<Entry>, skip: set<nat>, blocks: nat)
    requires ctx.Valid() && IsMatrix(rows, ctx.dim) && |q| == ctx.dim && |top| == k
    ensures |ScanBlocks(ctx, q, rows, k, top, skip, blocks)| == k
  {
    if blocks > 0 {
      ScanKeepsLength(ctx, q, rows, k, top, skip, blocks - 1);
      var t, start := ScanBlocks(ctx, q, rows, k, top, skip, blocks - 1), BlockStart(blocks - 1);
      LanesKeepLength(ctx, q, rows, k, t, Threshold(t, k), start, LanesOf(start, |rows|, skip), BLOCK);
    }
  }

  /** The seeds alone fill the list, so every query gets min(max(fanout, 1), 32, leaders) leaders. */
  lemma RootScanCount(ctx: Context, q: Vec, rows: seq<Vec>, fanout: nat, seedExact: nat)
    requires ctx.Valid() && IsMatrix(rows, ctx.dim) && |q| == ctx.dim
    ensures |RootScan(ctx, q, rows, fanout, seedExact)|
            == (var want := if fanout < 1 then 1 else if 32 < fanout then 32 else fanout; if want < |rows| then want else |rows|)
  {
    var s, k, d := SeedCount(|rows|, seedExact, fanout), RootK(fanout, |rows|), Distances(q, rows);
    PushAllNearest(k, d[..s]);
    if rows == [] {
      assert ScanBlocks(ctx, q, rows, k, PushAll(k, d[..s]), UpTo(s), 0) == PushAll(k, d[..s]);
    } else {
      assert k <= s;
      hide SeedCount, RootK, PushAll, ScanBlocks;
      ScanKeepsLength(ctx, q, rows, k, PushAll(k, d[..s]), UpTo(s), BlockCount(|rows|));
    }
  }

  // ----- and only they do ----------------------------------------------------------------

  /** A point on the first axis. */
  function OnAxis(x: real, dim: nat): (v: Vec)
    ensures |v| == dim
    ensures forall i :: 0 < i < dim ==> v[i] == 0.0
    ensures 0 < dim ==> v[0] == x
  {
    seq(dim, i => if i == 0 then x else 0.0)
  }

  lemma {:induction false} AxisGap(x: real, y: real, dim: nat, n: nat)
    requires 0 < n <= dim
    ensures Partial(OnAxis(x, dim), OnAxis(y, dim), n) == (x - y) * (x - y)
  {
    var a, b := OnAxis(x, dim), OnAxis(y, dim);
    if n == 1 {
      assert Partial(a, b, 0) == 0.0;
    } else {
      AxisGap(x, y, dim, n - 1);
      assert a[n - 1] - b[n - 1] == 0.0;
    }
  }

  lemma AxisPartial(x: real, dim: nat, n: nat)
    requires 0 < n <= dim
    ensures Partial(OnAxis(0.0, dim), OnAxis(x, dim), n) == x * x
  {
    AxisGap(0.0, x, dim, n);
    assert (0.0 - x) * (0.0 - x) == x * x;
  }

  /** A boundary ratio r below 1 prunes a candidate at squared distance (1+r)^2 against the bound 4. */
  lemma {:induction false} SmallRatioPrunes(ctx: Context, from: nat) returns (r: real)
    requires ctx.Valid() && !Conservative(ctx, from)
    ensures 0.0 <= r < 1.0
    ensures !Survives(ctx, OnAxis(0.0, ctx.dim), OnAxis(1.0 + r, ctx.dim), Finite(4.0), from)
    decreases ctx.dim - from
  {
    var end := GroupEnd(ctx, from);
    if ctx.ratios[end] < 1.0 {
      r := if ctx.ratios[end] < 0.0 then 0.0 else ctx.ratios[end];
      AxisPartial(1.0 + r, ctx.dim, end);
      assert (1.0 + r) * (1.0 + r) == 4.0 * r + (1.0 - r) * (1.0 - r);
      assert (1.0 - r) * (1.0 - r) >= 0.0;
    } else {
      r := SmallRatioPrunes(ctx, end);
    }
  }

  lemma {:induction false} FirstOfEqual(x: real, d: seq<real>)
    requires 0 < |d| && forall i :: 0 <= i < |d| ==> d[i] == x
    ensures PushAll(1, d) == [Entry(x, 0)]
  {
    var t := d[..|d| - 1];
    if t == [] {
      assert PushAll(1, t) == [];
      assert Insert([], Entry(x, 0)) == [Entry(x, 0)];
    } else {
      FirstOfEqual(x, t);
    }
  }

  lemma {:induction false} NothingPushed(ctx: Context, q: Vec, rows: seq<Vec>, k: nat, top: seq<Entry>,
                                         bound: Bound, start: nat, mask: set<nat>, lanes: nat)
    requires ctx.Valid() && IsMatrix(rows, ctx.dim) && |q| == ctx.dim && |top| <= k
    requires forall l :: l in mask ==> start + l < |rows| && !Survives(ctx, q, rows[start + l], bound, 0)
    ensures PushLanes(ctx, q, rows, k, top, bound, start, mask, lanes) == top
  {
    if lanes > 0 {
      NothingPushed(ctx, q, rows, k, top, bound, start, mask, lanes - 1);
    }
  }

  lemma {:induction false} ScanUnchanged(ctx: Context, q: Vec, rows: seq<Vec>, k: nat, top: seq<Entry>,
                                         skip: set<nat>, blocks: nat)
    requires ctx.Valid() && IsMatrix(rows, ctx.dim) && |q| == ctx.dim && |top| <= k
    requires forall c :: 0 <= c < |rows| && c !in skip ==> !Survives(ctx, q, rows[c], Threshold(top, k), 0)
    ensures ScanBlocks(ctx, q, rows, k, top, skip, blocks) == top
  {
    if blocks > 0 {
      ScanUnchanged(ctx, q, rows, k, top, skip, blocks - 1);
      var start := BlockStart(blocks - 1);
      NothingPushed(ctx, q, rows, k, top, Threshold(top, k), start, LanesOf(start, |rows|, skip), BLOCK);
    }
  }

  /** The failing input: seeds at distance 4, then one nearer leader that is pruned. */
  function Decoys(dim: nat, seeds: nat, r: real): (rows: seq<Vec>)
    ensures |rows| == seeds + 1
    ensures forall i :: 0 <= i < |rows| ==> rows[i] == OnAxis(if i < seeds then 2.0 else 1.0 + r, dim)
    ensures IsMatrix(rows, dim)
  {
    seq(seeds + 1, i => OnAxis(if i < seeds then 2.0 else 1.0 + r, dim))
  }

  lemma DecoyDistances(dim: nat, seeds: nat, r: real)
    requires 0 < dim
    ensures var d := Distances(OnAxis(0.0, dim), Decoys(dim, seeds, r));
            && (forall i :: 0 <= i < seeds ==> d[i] == 4.0)
            && d[seeds] == (1.0 + r) * (1.0 + r)
  {
    AxisPartial(2.0, dim, dim);
    AxisPartial(1.0 + r, dim, dim);
  }

  /** With some boundary ratio below 1 there is an input on which the scan misses the nearest leader. */
  lemma RootScanMisses(ctx: Context, seedExact: nat) returns (q: Vec, rows: seq<Vec>)
    requires ctx.Valid() && !Conservative(ctx, 0)
    ensures IsMatrix(rows, ctx.dim) && |q| == ctx.dim
    ensures RootScan(ctx, q, rows, 1, seedExact) != ExactTopK(q, rows, 1)
  {
    var r := SmallRatioPrunes(ctx, 0);
    var s := MaxNat(seedExact, 1);
    q, rows := OnAxis(0.0, ctx.dim), Decoys(ctx.dim, s, r);
    var d := Distances(q, rows);
    RootScanIs(ctx, q, rows, seedExact, s);
    hide *;
    DecoyDistances(ctx.dim, s, r);
    FirstOfEqual(4.0, d[..s]);
    DecoyPruned(ctx, s, r);
    SquaresCompare(1.0 + r, 2.0);
    NearestOfTwo(d, s);
  }

  lemma RootScanIs(ctx: Context, q: Vec, rows: seq<Vec>, seedExact: nat, s: nat)
    requires ctx.Valid() && IsMatrix(rows, ctx.dim) && |q| == ctx.dim && s == MaxNat(seedExact, 1) < |rows|
    ensures var d := Distances(q, rows);
            && RootScan(ctx, q, rows, 1, seedExact) == ScanBlocks(ctx, q, rows, 1, PushAll(1, d[..s]), UpTo(s), BlockCount(|rows|))
            && ExactTopK(q, rows, 1) == PushAll(1, d)
  {
    hide ScanBlocks, PushAll, Distances, UpTo, BlockCount;
  }

  lemma DecoyPruned(ctx: Context, s: nat, r: real)
    requires ctx.Valid() && 0 < s
    requires !Survives(ctx, OnAxis(0.0, ctx.dim), OnAxis(1.0 + r, ctx.dim), Finite(4.0), 0)
    ensures var q, rows, t := OnAxis(0.0, ctx.dim), Decoys(ctx.dim, s, r), [Entry(4.0, 0)];
            ScanBlocks(ctx, q, rows, 1, t, UpTo(s), BlockCount(|rows|)) == t
  {
    var q, rows, t := OnAxis(0.0, ctx.dim), Decoys(ctx.dim, s, r), [Entry(4.0, 0)];
    assert Threshold(t, 1) == Finite(4.0);
    hide OnAxis, Survives, ScanBlocks, Threshold;
    ScanUnchanged(ctx, q, rows, 1, t, UpTo(s), BlockCount(|rows|));
  }

  /** A later candidate that is strictly nearer displaces the first one. */
  lemma NearestOfTwo(d: seq<real>, c: nat)
    requires 0 < c < |d| && d[c] < d[0]
    ensures PushAll(1, d) != [Entry(d[0], 0)]
  {
    PushAllNearest(1, d);
    var e := [Entry(d[0], 0)];
    assert !HasIdx(e, c);
    assert !Before(e[0], Entry(d[c], c));
  }

  /** The scan returns the exhaustive list for every query, every leaders and every fan-out. */
  ghost predicate AlwaysExact(ctx: Context, seedExact: nat)
    requires ctx.Valid()
  {
    forall q: Vec, rows: seq<Vec>, fanout: nat :: |q| == ctx.dim && IsMatrix(rows, ctx.dim)
      ==> RootScan(ctx, q, rows, fanout, seedExact) == ExactTopK(q, rows, fanout)
  }

  /** The scan is exact on every input just when every boundary ratio is at least 1. */
  lemma RootExactIff(ctx: Context, seedExact: nat)
    requires ctx.Valid()
    ensures AlwaysExact(ctx, seedExact) <==> Conservative(ctx, 0)
  {
    if Conservative(ctx, 0) {
      forall q: Vec, rows: seq<Vec>, fanout: nat | |q| == ctx.dim && IsMatrix(rows, ctx.dim)
        ensures RootScan(ctx, q, rows, fanout, seedExact) == ExactTopK(q, rows, fanout)
      {
        RootScanExact(ctx, q, rows, fanout, seedExact);
      }
    } else {
      var q, rows := RootScanMisses(ctx, seedExact);
    }
  }

  // ----- the table the builder makes ---------------------------------------------------------

  /** `pdx_adsampling_ratio`; `root` stands for the square root of `visited`. */
  function PdxRatio(dim: nat, epsilon: real, visited: nat, root: real): real
    requires 0 < dim && (0 < visited < dim ==> root > 0.0)
  {
    if visited == 0 || visited >= dim then 1.0
    else
      var x := 1.0 + epsilon / root;
      visited as real / dim as real * (x * x)
  }

  /** `root` is the square root on 1..dim. */
  ghost predicate IsRoot(root: nat -> real, dim: nat) {
    forall v: nat :: 1 <= v <= dim ==> root(v) > 0.0 && root(v) * root(v) == v as real
  }

  /** The ratio after v dimensions is (sqrt(v) + epsilon)^2 / dim. */
  lemma PdxRatioValue(dim: nat, epsilon: real, visited: nat, root: real)
    requires 0 < visited < dim && root > 0.0 && root * root == visited as real
    ensures PdxRatio(dim, epsilon, visited, root) * dim as real == (root + epsilon) * (root + epsilon)
  {
    var v, n, x, y := visited as real, dim as real, 1.0 + epsilon / root, root + epsilon;
    assert root * x == y by {
      assert root * (epsilon / root) == epsilon;
    }
    assert v * (x * x) == y * y by {
      assert (root * root) * (x * x) == (root * x) * (root * x);
    }
    assert v / n * n == v;
    assert v / n * (x * x) * n == (v / n * n) * (x * x);
  }

  lemma PdxRatioValues(dim: nat, epsilon: real, root: nat -> real)
    requires 0 < dim && IsRoot(root, dim)
    ensures PdxRatio(dim, epsilon, 0, root(0)) == 1.0 && PdxRatio(dim, epsilon, dim, root(dim)) == 1.0
    ensures forall v :: 0 < v < dim ==>
              PdxRatio(dim, epsilon, v, root(v)) * dim as real == (root(v) + epsilon) * (root(v) + epsilon)
  {
    forall v | 0 < v < dim
      ensures PdxRatio(dim, epsilon, v, root(v)) * dim as real == (root(v) + epsilon) * (root(v) + epsilon)
    {
      hide PdxRatio;
      PdxRatioValue(dim, epsilon, v, root(v));
    }
  }

  /** `AdSamplingRatios::new`: a table for every valid configuration. */
  ghost function BuildContext(dim: nat, epsilon: real, group: nat, root: nat -> real): (r: Option<Context>)
    requires IsRoot(root, dim)
    ensures r.Some? <==> 0 < dim && 0 < group && epsilon > 0.0
    ensures r.Some? ==> r.value.Valid() && r.value.dim == dim && r.value.group == group
    ensures r.Some? ==> forall v :: 0 <= v <= dim ==> r.value.ratios[v] == PdxRatio(dim, epsilon, v, root(v))
    ensures r.Some? ==> r.value.ratios[0] == 1.0 && r.value.ratios[dim] == 1.0
    ensures r.Some? ==> forall v :: 0 < v < dim ==>
              r.value.ratios[v] * dim as real == (root(v) + epsilon) * (root(v) + epsilon)
  {
    if dim == 0 || group == 0 || epsilon <= 0.0 then None
    else
      PdxRatioValues(dim, epsilon, root);
      Some(Context(dim, group, seq(dim + 1, v requires 0 <= v <= dim => PdxRatio(dim, epsilon, v, root(v)))))
  }

  lemma RootGrows(root: nat -> real, dim: nat, a: nat, b: nat)
    requires IsRoot(root, dim) && 1 <= a <= b <= dim
    ensures root(a) <= root(b)
  {
    SquaresCompare(root(b), root(a));
  }

  /** A boundary before the last dimension is safe. */
  ghost predicate Reaches(root: nat -> real, dim: nat, epsilon: real, v: nat) {
    v >= dim || root(v) + epsilon >= root(dim)
  }

  /** Later boundaries have larger ratios, so the first one decides. */
  lemma {:induction false} FirstBoundaryDecides(ctx: Context, epsilon: real, root: nat -> real, from: nat)
    requires IsRoot(root, ctx.dim) && ctx.Valid() && epsilon > 0.0 && from < ctx.dim
    requires BuildContext(ctx.dim, epsilon, ctx.group, root) == Some(ctx)
    ensures Conservative(ctx, from) <==> Reaches(root, ctx.dim, epsilon, GroupEnd(ctx, from))
    decreases ctx.dim - from
  {
    hide PdxRatio;
    var end := GroupEnd(ctx, from);
    if end < ctx.dim {
      PdxRatioAtLeastOne(ctx.dim, epsilon, end, root(end), root(ctx.dim));
      FirstBoundaryDecides(ctx, epsilon, root, end);
      RootGrows(root, ctx.dim, end, GroupEnd(ctx, end));
    } else {
      LastRatio(ctx.dim, epsilon, root(end));
    }
  }

  lemma LastRatio(dim: nat, epsilon: real, root: real)
    requires 0 < dim
    ensures PdxRatio(dim, epsilon, dim, root) == 1.0
  {
  }

  /**
   The builder's own table: for every dimension, epsilon and group size it accepts, the root scan
   is exact on every input if and only if the first group covers all dimensions or
   sqrt(group) + epsilon reaches sqrt(dim).
   */
  lemma BuiltExactIff(dim: nat, epsilon: real, group: nat, root: nat -> real, seedExact: nat)
    requires 0 < dim && 0 < group && epsilon > 0.0 && IsRoot(root, dim)
    ensures AlwaysExact(BuildContext(dim, epsilon, group, root).value, seedExact)
            <==> (group >= dim || root(group) + epsilon >= root(dim))
  {
    var ctx := BuildContext(dim, epsilon, group, root).value;
    RootExactIff(ctx, seedExact);
    FirstBoundaryDecides(ctx, epsilon, root, 0);
    hide AlwaysExact, Conservative;
  }

  /** The ratio after v dimensions is at least 1 just when sqrt(v) + epsilon reaches sqrt(dim). */
  lemma PdxRatioAtLeastOne(dim: nat, epsilon: real, visited: nat, root: real, rootDim: real)
    requires 0 < visited < dim && epsilon > 0.0
    requires root > 0.0 && root * root == visited as real
    requires rootDim > 0.0 && rootDim * rootDim == dim as real
    ensures PdxRatio(dim, epsilon, visited, root) >= 1.0 <==> root + epsilon >= rootDim
  {
    var ratio, n := PdxRatio(dim, epsilon, visited, root), dim as real;
    PdxRatioValue(dim, epsilon, visited, root);
    hide PdxRatio;
    SquaresCompare(root + epsilon, rootDim);
    assert ratio >= 1.0 <==> ratio * n >= n;
  }

  lemma SquaresCompare(a: real, b: real)
    requires a > 0.0 && b > 0.0
    ensures a * a >= b * b <==> a >= b
  {
    assert a * a - b * b == (a - b) * (a + b);
  }
}
