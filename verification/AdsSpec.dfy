/**
 What an ADSampling scan computes for one query row, independent of tiles, masks and
 accumulation paths: candidates come block by block, a candidate is dropped at the first
 group boundary where its partial distance reaches the scaled threshold, and the rest are
 pushed. The threshold is the one at the start of the block.
 */
module AdsSpec {
  import opened Basics
  import opened TopK

  const BLOCK: nat := 64

  type Vec = seq<real>

  /** `AdSamplingRatios`: one ratio per number of visited dimensions. */
  datatype Context = Context(dim: nat, group: nat, ratios: seq<real>) {
    ghost predicate Valid() {
      0 < dim && 0 < group && |ratios| == dim + 1
    }
  }

  function Sq(x: real): (r: real)
    ensures r >= 0.0
  {
    x * x
  }

  /** Squared distance over the first n dimensions. */
  function Partial(x: Vec, y: Vec, n: nat): (r: real)
    requires n <= |x| && n <= |y|
  {
    if n == 0 then 0.0 else Partial(x, y, n - 1) + Sq(x[n - 1] - y[n - 1])
  }

  function L2(x: Vec, y: Vec): real
    requires |x| <= |y|
  {
    Partial(x, y, |x|)
  }

  predicate IsMatrix(rows: seq<Vec>, dim: nat) {
    forall i :: 0 <= i < |rows| ==> |rows[i]| == dim
  }

  function Scale(b: Bound, ratio: real): Bound {
    match b
    case Infinite => Infinite
    case Finite(v) => Finite(v * ratio)
  }

  /** The boundary after the group that starts at dimension `from`. */
  function GroupEnd(ctx: Context, from: nat): nat {
    MinNat(from + ctx.group, ctx.dim)
  }

  /** The candidate stays below the scaled bound at every boundary after `from`. */
  predicate Survives(ctx: Context, x: Vec, y: Vec, bound: Bound, from: nat)
    requires ctx.Valid() && |x| == ctx.dim && |y| == ctx.dim
    decreases ctx.dim - from
  {
    from >= ctx.dim ||
    var end := GroupEnd(ctx, from);
    Below(Partial(x, y, end), Scale(bound, ctx.ratios[end])) && Survives(ctx, x, y, bound, end)
  }

  /** Every boundary ratio after `from` is at least 1: pruning is conservative. */
  predicate Conservative(ctx: Context, from: nat)
    requires ctx.Valid()
    decreases ctx.dim - from
  {
    from >= ctx.dim || (ctx.ratios[GroupEnd(ctx, from)] >= 1.0 && Conservative(ctx, GroupEnd(ctx, from)))
  }

  predicate IsOpen(start: nat, l: nat, n: nat, skip: set<nat>) {
    start + l < n && start + l !in skip
  }

  /** The lanes of the block at `start` that hold a candidate not in `skip`. */
  function LanesOf(start: nat, n: nat, skip: set<nat>): set<nat> {
    set l: nat | l < BLOCK && IsOpen(start, l, n, skip)
  }

  /** The first `lanes` lanes of one block, pushed onto `top` in lane order. */
  function PushLanes(ctx: Context, q: Vec, rows: seq<Vec>, k: nat, top: seq<Entry>, bound: Bound,
                     start: nat, mask: set<nat>, lanes: nat): (r: seq<Entry>)
    requires ctx.Valid() && IsMatrix(rows, ctx.dim) && |q| == ctx.dim && |top| <= k
    requires forall l :: l in mask ==> start + l < |rows|
    ensures |r| <= k
  {
    if lanes == 0 then top
    else
      var t := PushLanes(ctx, q, rows, k, top, bound, start, mask, lanes - 1);
      if lanes - 1 in mask && Survives(ctx, q, rows[start + lanes - 1], bound, 0)
      then Push(t, k, Entry(L2(q, rows[start + lanes - 1]), start + lanes - 1))
      else t
  }

  /** One whole block, pruned against the threshold on entry. */
  function BlockStep(ctx: Context, q: Vec, rows: seq<Vec>, k: nat, top: seq<Entry>,
                     start: nat, mask: set<nat>): (r: seq<Entry>)
    requires ctx.Valid() && IsMatrix(rows, ctx.dim) && |q| == ctx.dim && |top| <= k
    requires forall l :: l in mask ==> start + l < |rows|
    ensures |r| <= k
  {
    PushLanes(ctx, q, rows, k, top, Threshold(top, k), start, mask, BLOCK)
  }

  /** The first `blocks` blocks of a row scan. */
  function ScanBlocks(ctx: Context, q: Vec, rows: seq<Vec>, k: nat, top: seq<Entry>,
                      skip: set<nat>, blocks: nat): (r: seq<Entry>)
    requires ctx.Valid() && IsMatrix(rows, ctx.dim) && |q| == ctx.dim && |top| <= k
    ensures |r| <= k
  {
    if blocks == 0 then top
    else
      var start := BlockStart(blocks - 1);
      BlockStep(ctx, q, rows, k, ScanBlocks(ctx, q, rows, k, top, skip, blocks - 1),
                start, LanesOf(start, |rows|, skip))
  }

  function BlockStart(b: nat): nat {
    64 * b
  }

  function BlockCount(n: nat): (b: nat)
    ensures BlockStart(b) >= n
    ensures 0 < b ==> BlockStart(b - 1) < n
  {
    (n + 63) / 64
  }

  /** The true distances of all candidates. */
  function Distances(q: Vec, rows: seq<Vec>): (d: seq<real>)
    requires IsMatrix(rows, |q|)
    ensures |d| == |rows|
    ensures forall i :: 0 <= i < |rows| ==> d[i] == L2(q, rows[i])
  {
    seq(|rows|, i requires 0 <= i < |rows| => L2(q, rows[i]))
  }

  // ----- pruning is conservative ---------------------------------------------------------

  lemma {:induction false} PartialSym(x: Vec, y: Vec, n: nat)
    requires n <= |x| && n <= |y|
    ensures Partial(x, y, n) == Partial(y, x, n)
  {
    if n > 0 {
      PartialSym(x, y, n - 1);
      var d := x[n - 1] - y[n - 1];
      assert Sq(d) == Sq(-d);
    }
  }

  lemma {:induction false} PartialGrows(x: Vec, y: Vec, m: nat, n: nat)
    requires m <= n <= |x| && n <= |y|
    ensures 0.0 <= Partial(x, y, m) <= Partial(x, y, n)
  {
    if m < n {
      PartialGrows(x, y, m, n - 1);
    } else if m > 0 {
      PartialGrows(x, y, m - 1, m - 1);
    }
  }

  /** Only a finite bound prunes, and a conservative context prunes no nearer candidate. */
  lemma {:induction false} PrunedIsFar(ctx: Context, x: Vec, y: Vec, bound: Bound, from: nat)
    requires ctx.Valid() && |x| == ctx.dim && |y| == ctx.dim
    requires !Survives(ctx, x, y, bound, from)
    ensures bound.Finite?
    ensures Conservative(ctx, from) && bound.value >= 0.0 ==> L2(x, y) >= bound.value
    decreases ctx.dim - from
  {
    var end := GroupEnd(ctx, from);
    if Below(Partial(x, y, end), Scale(bound, ctx.ratios[end])) {
      PrunedIsFar(ctx, x, y, bound, end);
    } else if Conservative(ctx, from) && bound.value >= 0.0 {
      PartialGrows(x, y, end, ctx.dim);
      assert bound.value * ctx.ratios[end] >= bound.value * 1.0;
    }
  }

  // ----- what is pruned ---------------------------------------------------------------------

  /** The dimensions at which candidates are pruned: the multiples of the group, and the last one. */
  predicate Boundary(ctx: Context, e: nat) {
    0 < e <= ctx.dim && 0 < ctx.group && (e % ctx.group == 0 || e == ctx.dim)
  }

  /** A group that starts at a boundary, or at 0, ends at the next boundary. */
  lemma NextBoundary(ctx: Context, from: nat)
    requires ctx.Valid() && from < ctx.dim && from % ctx.group == 0
    ensures var end := GroupEnd(ctx, from);
            && from < end && Boundary(ctx, end) && (end == ctx.dim || end % ctx.group == 0)
            && forall e: nat :: Boundary(ctx, e) && from < e ==> end <= e
  {
    var end := GroupEnd(ctx, from);
    AddMod(from, ctx.group);
    forall e: nat | Boundary(ctx, e) && from < e
      ensures end <= e
    {
      if e < end {
        BetweenMultiples(from, e - from, ctx.group);
      }
    }
  }

  /**
   For any ratios: a candidate survives exactly when at every boundary the bound is infinite or the
   partial distance is below the bound times that boundary's ratio.
   */
  lemma {:induction false} SurvivesIff(ctx: Context, x: Vec, y: Vec, bound: Bound, from: nat)
    requires ctx.Valid() && |x| == ctx.dim && |y| == ctx.dim && (from >= ctx.dim || from % ctx.group == 0)
    ensures Survives(ctx, x, y, bound, from) <==>
            (forall e: nat :: Boundary(ctx, e) && from < e ==> bound.Infinite? || Partial(x, y, e) < bound.value * ctx.ratios[e])
    decreases ctx.dim - from
  {
    if from < ctx.dim {
      NextBoundary(ctx, from);
      SurvivesIff(ctx, x, y, bound, GroupEnd(ctx, from));
    }
  }

  /** A context is conservative exactly when the ratio at every boundary is at least 1. */
  lemma {:induction false} ConservativeIff(ctx: Context, from: nat)
    requires ctx.Valid() && (from >= ctx.dim || from % ctx.group == 0)
    ensures Conservative(ctx, from) <==> (forall e: nat :: Boundary(ctx, e) && from < e ==> ctx.ratios[e] >= 1.0)
    decreases ctx.dim - from
  {
    if from < ctx.dim {
      NextBoundary(ctx, from);
      ConservativeIff(ctx, GroupEnd(ctx, from));
    }
  }

  // ----- one block keeps the list best -----------------------------------------------------

  /** `seen` with the candidates in the first `lanes` lanes of a mask. */
  ghost function SeenLanes(seen: set<nat>, start: nat, mask: set<nat>, lanes: nat): (r: set<nat>)
    ensures forall c: nat {:trigger c in r} :: c in r <==> c in seen || (start <= c < start + lanes && c - start in mask)
  {
    if lanes == 0 then seen
    else if lanes - 1 in mask then SeenLanes(seen, start, mask, lanes - 1) + {start + lanes - 1}
    else SeenLanes(seen, start, mask, lanes - 1)
  }

  lemma {:induction false} PushLanesBest(ctx: Context, q: Vec, rows: seq<Vec>, k: nat, top: seq<Entry>,
                      start: nat, mask: set<nat>, lanes: nat, seen: set<nat>, exact: bool)
    requires ctx.Valid() && IsMatrix(rows, ctx.dim) && |q| == ctx.dim && |top| <= k
    requires forall l :: l in mask ==> start + l < |rows| && start + l !in seen
    requires Best(top, k, seen, Distances(q, rows), exact)
    requires exact ==> Conservative(ctx, 0)
    ensures var r := PushLanes(ctx, q, rows, k, top, Threshold(top, k), start, mask, lanes);
            && Best(r, k, SeenLanes(seen, start, mask, lanes), Distances(q, rows), exact)
            && AtMost(Threshold(r, k), Threshold(top, k))
  {
    hide Best, Distances, Survives, Push;
    var bound := Threshold(top, k);
    if lanes > 0 {
      PushLanesBest(ctx, q, rows, k, top, start, mask, lanes - 1, seen, exact);
      if lanes - 1 in mask {
        var seen' := SeenLanes(seen, start, mask, lanes - 1);
        var t := PushLanes(ctx, q, rows, k, top, bound, start, mask, lanes - 1);
        LaneBest(ctx, q, rows, k, t, bound, seen', start + lanes - 1, exact);
      }
    }
  }

  lemma LaneBest(ctx: Context, q: Vec, rows: seq<Vec>, k: nat, t: seq<Entry>, bound: Bound,
                 seen: set<nat>, c: nat, exact: bool)
    requires ctx.Valid() && IsMatrix(rows, ctx.dim) && |q| == ctx.dim && |t| <= k
    requires c < |rows| && c !in seen
    requires Best(t, k, seen, Distances(q, rows), exact)
    requires AtMost(Threshold(t, k), bound)
    requires exact ==> Conservative(ctx, 0)
    ensures var r := if Survives(ctx, q, rows[c], bound, 0) then Push(t, k, Entry(L2(q, rows[c]), c)) else t;
            && Best(r, k, seen + {c}, Distances(q, rows), exact)
            && AtMost(Threshold(r, k), bound)
  {
    var d, e := Distances(q, rows), Entry(L2(q, rows[c]), c);
    if Survives(ctx, q, rows[c], bound, 0) {
      BestPush(t, k, seen, d, exact, e);
      ThresholdFalls(t, k, e);
    } else {
      PrunedIsFar(ctx, q, rows[c], bound, 0);
      var far := t[k - 1];
      PartialGrows(q, rows[far.idx], 0, ctx.dim);
      assert far.dist == d[far.idx] == L2(q, rows[far.idx]) >= 0.0;
      BestSkip(t, k, seen, d, exact, c);
    }
  }

  /** The candidates considered after b blocks: those seen before, and all of the blocks not skipped. */
  ghost function SeenAfter(seen: set<nat>, skip: set<nat>, n: nat, b: nat): set<nat> {
    seen + (UpTo(MinNat(BlockStart(b), n)) - skip)
  }

  lemma BlockCovers(seen: set<nat>, skip: set<nat>, n: nat, blocks: nat)
    requires 0 < blocks
    ensures var start := BlockStart(blocks - 1);
            SeenLanes(SeenAfter(seen, skip, n, blocks - 1), start, LanesOf(start, n, skip), BLOCK)
            == SeenAfter(seen, skip, n, blocks)
  {
    hide UpTo, SeenLanes;
    var start := BlockStart(blocks - 1);
    forall c: nat
      ensures start <= c < start + BLOCK && c - start in LanesOf(start, n, skip)
              <==> start <= c < BlockStart(blocks) && c < n && c !in skip
    {
      if start <= c < BlockStart(blocks) {
        assert IsOpen(start, c - start, n, skip) <==> (c < n && c !in skip);
      }
    }
  }

  /** The lanes of block b are new to a list that has met the blocks before it. */
  lemma LanesUnseen(seen: set<nat>, skip: set<nat>, n: nat, b: nat)
    requires seen <= skip
    ensures var start := BlockStart(b);
            forall l :: l in LanesOf(start, n, skip) ==> start + l < n && start + l !in SeenAfter(seen, skip, n, b)
  {
    hide UpTo;
    var start := BlockStart(b);
    forall l | l in LanesOf(start, n, skip)
      ensures start + l < n && start + l !in SeenAfter(seen, skip, n, b)
    {
      assert IsOpen(start, l, n, skip);
    }
  }

  /** One block takes a list that is best after b blocks to one that is best after b + 1. */
  lemma BlockStepBest(ctx: Context, q: Vec, rows: seq<Vec>, k: nat, top: seq<Entry>, skip: set<nat>, seen: set<nat>,
                      b: nat, exact: bool)
    requires ctx.Valid() && IsMatrix(rows, ctx.dim) && |q| == ctx.dim && |top| <= k && seen <= skip
    requires Best(top, k, SeenAfter(seen, skip, |rows|, b), Distances(q, rows), exact)
    requires exact ==> Conservative(ctx, 0)
    ensures var start := BlockStart(b);
            Best(BlockStep(ctx, q, rows, k, top, start, LanesOf(start, |rows|, skip)), k,
                 SeenAfter(seen, skip, |rows|, b + 1), Distances(q, rows), exact)
  {
    hide Best, Distances, Conservative, PushLanes, UpTo, SeenAfter;
    var start := BlockStart(b);
    LanesUnseen(seen, skip, |rows|, b);
    PushLanesBest(ctx, q, rows, k, top, start, LanesOf(start, |rows|, skip), BLOCK,
                  SeenAfter(seen, skip, |rows|, b), exact);
    BlockCovers(seen, skip, |rows|, b + 1);
  }
}
