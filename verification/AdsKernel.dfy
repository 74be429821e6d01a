/**
 The blocked, masked tile scan: up to eight queries against one structure-of-arrays block,
 group by group, with a scalar and a 16-lane accumulation path and in-place pruning of the
 lane masks. A `u64` mask is the set of its lanes; the loops visit lanes in increasing order,
 which is the order of `trailing_zeros` and `mask &= mask - 1`.
 */
module AdsKernel {
  import opened Basics
  import opened TopK
  import opened AdsSpec

  const TILE: nat := 8

  /** `AdSamplingLeaderBlock`: dimension-major data with stride 64, zero beyond `len`. */
  datatype Block = Block(data: seq<real>, start: nat, len: nat)

  /** Where dimension i of lane l is stored. */
  function At(i: nat, l: nat): nat {
    64 * i + l
  }

  ghost predicate IsBlock(b: Block, rows: seq<Vec>, dim: nat) {
    && b.len <= BLOCK
    && b.start + b.len <= |rows|
    && IsMatrix(rows, dim)
    && |b.data| == 64 * dim
    && (forall l, i :: 0 <= l < b.len && 0 <= i < dim ==> At(i, l) < |b.data| && b.data[At(i, l)] == rows[b.start + l][i])
  }

  method BuildBlock(rows: seq<Vec>, dim: nat, start: nat, len: nat) returns (b: Block)
    requires IsMatrix(rows, dim) && len <= BLOCK && start + len <= |rows|
    ensures b.start == start && b.len == len && IsBlock(b, rows, dim)
  {
    var data := new real[64 * dim](_ => 0.0);
    for l := 0 to len
      invariant forall m, i :: 0 <= m < l && 0 <= i < dim ==> data[At(i, m)] == rows[start + m][i]
    {
      for j := 0 to dim
        invariant forall m, i :: 0 <= m < l && 0 <= i < dim ==> data[At(i, m)] == rows[start + m][i]
        invariant forall i :: 0 <= i < j ==> data[At(i, l)] == rows[start + l][i]
      {
        data[At(j, l)] := rows[start + l][j];
      }
    }
    b := Block(data[..], start, len);
  }

  ghost predicate IsLayout(blocks: seq<Block>, rows: seq<Vec>, dim: nat) {
    && |blocks| == BlockCount(|rows|)
    && (forall b :: 0 <= b < |blocks| ==>
          && IsBlock(blocks[b], rows, dim)
          && blocks[b].start == BlockStart(b)
          && blocks[b].len == MinNat(BLOCK, |rows| - BlockStart(b)))
  }

  /** `AdSamplingLeafLayout::build` */
  method BuildLayout(rows: seq<Vec>, dim: nat) returns (blocks: seq<Block>)
    requires IsMatrix(rows, dim)
    ensures IsLayout(blocks, rows, dim)
  {
    blocks := [];
    for b := 0 to BlockCount(|rows|)
      invariant |blocks| == b
      invariant forall i :: 0 <= i < b ==>
                  && IsBlock(blocks[i], rows, dim)
                  && blocks[i].start == BlockStart(i)
                  && blocks[i].len == MinNat(BLOCK, |rows| - BlockStart(i))
    {
      assert BlockStart(b) <= BlockStart(BlockCount(|rows|) - 1);
      var block := BuildBlock(rows, dim, BlockStart(b), MinNat(BLOCK, |rows| - BlockStart(b)));
      blocks := blocks + [block];
    }
  }

  /** `block_len_mask` */
  function LenMask(len: nat): (m: set<nat>)
    ensures forall l: nat :: l in m <==> l < len && l < BLOCK
  {
    UpTo(MinNat(len, BLOCK))
  }

  // ----- accumulation ----------------------------------------------------------------------

  /** The masked lanes of row `qi` hold the partial distances after n dimensions. */
  ghost predicate LanesAt(dist: array2<real>, qi: nat, q: Vec, rows: seq<Vec>, start: nat, mask: set<nat>, n: nat)
    reads dist
  {
    && qi < dist.Length0 && dist.Length1 == BLOCK
    && n <= |q| && IsMatrix(rows, |q|)
    && (forall l :: l in mask ==> l < BLOCK && start + l < |rows| && dist[qi, l] == Partial(q, rows[start + l], n))
  }

  /** One lane over one dimension group. */
  method AccumulateLane(q: Vec, b: Block, ghost rows: seq<Vec>, from: nat, end: nat, lane: nat, acc0: real)
    returns (acc: real)
    requires IsBlock(b, rows, |q|) && from <= end <= |q| && lane < BLOCK
    ensures lane < b.len && acc0 == Partial(q, rows[b.start + lane], from)
            ==> acc == Partial(q, rows[b.start + lane], end)
  {
    acc := acc0;
    for i := from to end
      invariant lane < b.len && acc0 == Partial(q, rows[b.start + lane], from)
                ==> acc == Partial(q, rows[b.start + lane], i)
    {
      var diff := q[i] - b.data[At(i, lane)];
      acc := acc + diff * diff;
    }
  }

  /** The scalar path touches the masked lanes only. */
  method AccumulateScalar(q: Vec, b: Block, ghost rows: seq<Vec>, from: nat, end: nat, mask: set<nat>,
                          dist: array2<real>, qi: nat)
    requires IsBlock(b, rows, |q|) && from <= end <= |q|
    requires forall l :: l in mask ==> l < b.len
    requires LanesAt(dist, qi, q, rows, b.start, mask, from)
    modifies dist
    ensures LanesAt(dist, qi, q, rows, b.start, mask, end)
    ensures OtherRowsKept(dist, qi, old(Cells(dist)))
  {
    ghost var before := Cells(dist);
    for lane := 0 to BLOCK
      invariant forall l :: l in mask && l < lane ==> dist[qi, l] == Partial(q, rows[b.start + l], end)
      invariant forall l :: l in mask && l >= lane ==> dist[qi, l] == Partial(q, rows[b.start + l], from)
      invariant OtherRowsKept(dist, qi, before)
    {
      if lane in mask {
        var acc := AccumulateLane(q, b, rows, from, end, lane, dist[qi, lane]);
        dist[qi, lane] := acc;
      }
    }
  }

  /** The 16-lane path touches every lane of a group that has a masked lane. */
  method AccumulateWide(q: Vec, b: Block, ghost rows: seq<Vec>, from: nat, end: nat, mask: set<nat>,
                        dist: array2<real>, qi: nat)
    requires IsBlock(b, rows, |q|) && from <= end <= |q|
    requires forall l :: l in mask ==> l < b.len
    requires LanesAt(dist, qi, q, rows, b.start, mask, from)
    modifies dist
    ensures LanesAt(dist, qi, q, rows, b.start, mask, end)
    ensures OtherRowsKept(dist, qi, old(Cells(dist)))
  {
    ghost var before := Cells(dist);
    for g := 0 to 4
      invariant forall l :: l in mask && l < 16 * g ==> dist[qi, l] == Partial(q, rows[b.start + l], end)
      invariant forall l :: l in mask && l >= 16 * g ==> dist[qi, l] == Partial(q, rows[b.start + l], from)
      invariant OtherRowsKept(dist, qi, before)
    {
      if exists l :: l in mask && 16 * g <= l < 16 * g + 16 {
        for lane := 16 * g to 16 * g + 16
          invariant forall l :: l in mask && l < lane ==> dist[qi, l] == Partial(q, rows[b.start + l], end)
          invariant forall l :: l in mask && l >= lane ==> dist[qi, l] == Partial(q, rows[b.start + l], from)
          invariant OtherRowsKept(dist, qi, before)
        {
          var acc := AccumulateLane(q, b, rows, from, end, lane, dist[qi, lane]);
          dist[qi, lane] := acc;
        }
      }
    }
  }

  ghost function Cells(dist: array2<real>): (c: seq<seq<real>>)
    reads dist
    ensures |c| == dist.Length0
    ensures forall i :: 0 <= i < |c| ==> |c[i]| == dist.Length1
    ensures forall i, j :: 0 <= i < dist.Length0 && 0 <= j < dist.Length1 ==> c[i][j] == dist[i, j]
  {
    seq(dist.Length0, i requires 0 <= i < dist.Length0 reads dist =>
      seq(dist.Length1, j requires 0 <= j < dist.Length1 reads dist => dist[i, j]))
  }

  ghost predicate OtherRowsKept(dist: array2<real>, qi: nat, before: seq<seq<real>>)
    reads dist
  {
    && |before| == dist.Length0
    && (forall i, j :: 0 <= i < dist.Length0 && 0 <= j < dist.Length1 && i != qi
          ==> |before[i]| == dist.Length1 && dist[i, j] == before[i][j])
  }

  // ----- choosing the path -------------------------------------------------------------------

  function SumCard(masks: seq<set<nat>>): nat {
    if masks == [] then 0 else SumCard(masks[..|masks| - 1]) + |masks[|masks| - 1]|
  }

  function InGroup(mask: set<nat>, g: nat): set<nat> {
    set l | l in mask && 16 * g <= l < 16 * g + 16
  }

  function GroupMasks(masks: seq<set<nat>>, g: nat): (r: seq<set<nat>>)
    ensures |r| == |masks|
    ensures forall i :: 0 <= i < |r| ==> r[i] == InGroup(masks[i], g)
  {
    seq(|masks|, i requires 0 <= i < |masks| => InGroup(masks[i], g))
  }

  ghost predicate AllSparse(masks: seq<set<nat>>, group16: nat) {
    forall g :: 0 <= g < 4 ==> SumCard(GroupMasks(masks, g)) <= group16
  }

  /** `should_use_sparse_ads_fallback`: few active lanes overall, or few in every group that has any. */
  method UseScalarPath(masks: seq<set<nat>>, total: nat, full64: nat, group16: nat) returns (scalar: bool)
    requires total == SumCard(masks)
    requires forall i, l :: 0 <= i < |masks| && l in masks[i] ==> l < BLOCK
    ensures scalar <==> (total > 0 && (total < full64 || AllSparse(masks, group16)))
  {
    if total == 0 {
      return false;
    }
    if total < full64 {
      return true;
    }
    var sawGroup, allSparse := false, true;
    var g := 0;
    while g < 4 && allSparse
      invariant 0 <= g <= 4
      invariant sawGroup <==> exists h :: 0 <= h < g && SumCard(GroupMasks(masks, h)) > 0
      invariant allSparse <==> forall h :: 0 <= h < g ==> SumCard(GroupMasks(masks, h)) <= group16
    {
      var active := SumCard(GroupMasks(masks, g));
      if active > 0 {
        sawGroup := true;
        if active > group16 {
          allSparse := false;
        }
      }
      g := g + 1;
    }
    if allSparse {
      var h := SomeGroup(masks);
      assert SumCard(GroupMasks(masks, h)) > 0;
    }
    return sawGroup && allSparse;
  }

  lemma {:induction false} SomeGroup(masks: seq<set<nat>>) returns (g: nat)
    requires SumCard(masks) > 0
    requires forall i, l :: 0 <= i < |masks| && l in masks[i] ==> l < BLOCK
    ensures g < 4 && SumCard(GroupMasks(masks, g)) > 0
  {
    var t, last := masks[..|masks| - 1], masks[|masks| - 1];
    if last != {} {
      var l :| l in last;
      g := l / 16;
      assert l in InGroup(last, g);
    } else {
      g := SomeGroup(t);
    }
    assert GroupMasks(masks, g)[..|masks| - 1] == GroupMasks(t, g);
  }

  // ----- one block for a tile of queries -------------------------------------------------------

  ghost predicate TileAt(dist: array2<real>, queries: seq<Vec>, rows: seq<Vec>, start: nat,
                         masks: seq<set<nat>>, n: nat)
    reads dist
  {
    && |masks| == |queries|
    && (forall i :: 0 <= i < |queries| ==> LanesAt(dist, i, queries[i], rows, start, masks[i], n))
  }

  ghost predicate Fits(masks: seq<set<nat>>, b: Block) {
    forall i, l :: 0 <= i < |masks| && l in masks[i] ==> l < b.len
  }

  /** Accumulates one dimension group for the queries lo..hi of a tile. */
  method AccumulateTile(queries: seq<Vec>, dim: nat, b: Block, ghost rows: seq<Vec>, from: nat, end: nat,
                        masks: seq<set<nat>>, dist: array2<real>, lo: nat, hi: nat, wide: bool)
    requires IsMatrix(queries, dim) && IsBlock(b, rows, dim) && from <= end <= dim
    requires lo <= hi <= |queries| == |masks| && Fits(masks, b)
    requires forall i :: lo <= i < hi ==> LanesAt(dist, i, queries[i], rows, b.start, masks[i], from)
    modifies dist
    ensures forall i :: lo <= i < hi ==> LanesAt(dist, i, queries[i], rows, b.start, masks[i], end)
    ensures forall i, l :: 0 <= i < dist.Length0 && 0 <= l < dist.Length1 && !(lo <= i < hi)
              ==> dist[i, l] == old(dist[i, l])
  {
    for i := lo to hi
      invariant forall j :: lo <= j < i ==> LanesAt(dist, j, queries[j], rows, b.start, masks[j], end)
      invariant forall j :: i <= j < hi ==> LanesAt(dist, j, queries[j], rows, b.start, masks[j], from)
      invariant forall j, l :: 0 <= j < dist.Length0 && 0 <= l < dist.Length1 && !(lo <= j < hi)
                  ==> dist[j, l] == old(dist[j, l])
    {
      if wide {
        AccumulateWide(queries[i], b, rows, from, end, masks[i], dist, i);
      } else {
        AccumulateScalar(queries[i], b, rows, from, end, masks[i], dist, i);
      }
    }
  }

  /** `prune_ads_mask`: keeps the masked lanes strictly below the bound. */
  method PruneMask(mask: set<nat>, dist: array2<real>, qi: nat, bound: Bound) returns (keep: set<nat>)
    requires qi < dist.Length0 && dist.Length1 == BLOCK
    requires forall l :: l in mask ==> l < BLOCK
    ensures forall l :: l in keep <==> l in mask && l < BLOCK && Below(dist[qi, l], bound)
  {
    keep := {};
    for lane := 0 to BLOCK
      invariant forall l :: l in keep <==> l in mask && l < lane && Below(dist[qi, l], bound)
    {
      if lane in mask && Below(dist[qi, lane], bound) {
        keep := keep + {lane};
      }
    }
  }

  /** What has been decided for a mask once the boundaries up to `from` are checked. */
  ghost predicate SameFate(ctx: Context, q: Vec, rows: seq<Vec>, start: nat, bound: Bound,
                           mask0: set<nat>, mask: set<nat>, from: nat)
    requires ctx.Valid() && |q| == ctx.dim && IsMatrix(rows, ctx.dim)
  {
    && mask <= mask0
    && (forall l :: l in mask0 && start + l < |rows| ==>
         ((l in mask && Survives(ctx, q, rows[start + l], bound, from))
          <==> Survives(ctx, q, rows[start + l], bound, 0)))
  }

  lemma FateStep(ctx: Context, q: Vec, rows: seq<Vec>, start: nat, bound: Bound,
                 mask0: set<nat>, mask: set<nat>, keep: set<nat>, from: nat)
    requires ctx.Valid() && |q| == ctx.dim && IsMatrix(rows, ctx.dim) && from < ctx.dim
    requires SameFate(ctx, q, rows, start, bound, mask0, mask, from)
    requires forall l :: l in mask ==> start + l < |rows|
    requires var end := GroupEnd(ctx, from);
             forall l :: l in keep <==>
               (l in mask && Below(Partial(q, rows[start + l], end), Scale(bound, ctx.ratios[end])))
    ensures SameFate(ctx, q, rows, start, bound, mask0, keep, GroupEnd(ctx, from))
  {
  }

  ghost predicate Tile(ctx: Context, queries: seq<Vec>, rows: seq<Vec>, b: Block) {
    ctx.Valid() && IsMatrix(queries, ctx.dim) && IsMatrix(rows, ctx.dim) && IsBlock(b, rows, ctx.dim)
  }

  ghost predicate TileFate(ctx: Context, queries: seq<Vec>, rows: seq<Vec>, b: Block, bounds: seq<Bound>,
                           masks0: seq<set<nat>>, masks: seq<set<nat>>, from: nat)
    requires Tile(ctx, queries, rows, b)
  {
    && |bounds| == |masks0| == |masks| == |queries|
    && (forall i :: 0 <= i < |queries| ==>
          SameFate(ctx, queries[i], rows, b.start, bounds[i], masks0[i], masks[i], from))
  }

  lemma {:induction false} SumCardUpdate(masks: seq<set<nat>>, i: nat, m: set<nat>)
    requires i < |masks|
    ensures SumCard(masks[i := m]) == SumCard(masks) - |masks[i]| + |m|
  {
    var t := masks[..|masks| - 1];
    if i == |masks| - 1 {
      assert masks[i := m][..|masks| - 1] == t;
    } else {
      SumCardUpdate(t, i, m);
      assert masks[i := m][..|masks| - 1] == t[i := m];
    }
  }

  /** Prunes every query's mask at one boundary. */
  method PruneTile(ctx: Context, queries: seq<Vec>, ghost rows: seq<Vec>, b: Block, bounds: seq<Bound>,
                   ghost masks0: seq<set<nat>>, masks: seq<set<nat>>, from: nat, dist: array2<real>)
    returns (kept: seq<set<nat>>, pruned: nat)
    requires Tile(ctx, queries, rows, b) && from < ctx.dim && Fits(masks, b)
    requires TileFate(ctx, queries, rows, b, bounds, masks0, masks, from)
    requires TileAt(dist, queries, rows, b.start, masks, GroupEnd(ctx, from))
    ensures Fits(kept, b)
    ensures TileFate(ctx, queries, rows, b, bounds, masks0, kept, GroupEnd(ctx, from))
    ensures TileAt(dist, queries, rows, b.start, kept, GroupEnd(ctx, from))
    ensures pruned + SumCard(kept) == SumCard(masks)
  {
    var end := GroupEnd(ctx, from);
    kept, pruned := masks, 0;
    for i := 0 to |queries|
      invariant |kept| == |masks| && Fits(kept, b)
      invariant TileAt(dist, queries, rows, b.start, kept, end)
      invariant forall j :: 0 <= j < i ==>
                  SameFate(ctx, queries[j], rows, b.start, bounds[j], masks0[j], kept[j], end)
      invariant forall j :: i <= j < |queries| ==> kept[j] == masks[j]
      invariant pruned + SumCard(kept) == SumCard(masks)
    {
      var keep := PruneMask(masks[i], dist, i, Scale(bounds[i], ctx.ratios[end]));
      FateStep(ctx, queries[i], rows, b.start, bounds[i], masks0[i], masks[i], keep, from);
      SumCardUpdate(kept, i, keep);
      SubsetCount(keep, masks[i]);
      pruned := pruned + (|masks[i]| - |keep|);
      kept := kept[i := keep];
    }
  }

  /** `push_active_distances`: pushes the survivors of one query in lane order. */
  method PushActive(ghost ctx: Context, ghost q: Vec, ghost rows: seq<Vec>, b: Block, k: nat, top: seq<Entry>,
                    ghost mask0: set<nat>, mask: set<nat>, dist: array2<real>, qi: nat) returns (r: seq<Entry>)
    requires ctx.Valid() && |q| == ctx.dim && IsMatrix(rows, ctx.dim) && |top| <= k
    requires forall l :: l in mask0 ==> b.start + l < |rows|
    requires SameFate(ctx, q, rows, b.start, Threshold(top, k), mask0, mask, ctx.dim)
    requires LanesAt(dist, qi, q, rows, b.start, mask, ctx.dim)
    ensures r == BlockStep(ctx, q, rows, k, top, b.start, mask0)
  {
    r := top;
    for lane := 0 to BLOCK
      invariant r == PushLanes(ctx, q, rows, k, top, Threshold(top, k), b.start, mask0, lane)
    {
      if lane in mask {
        r := Push(r, k, Entry(dist[qi, lane], b.start + lane));
      }
    }
  }

  function Thresholds(tops: seq<seq<Entry>>, k: nat): (r: seq<Bound>)
    requires forall i :: 0 <= i < |tops| ==> |tops[i]| <= k
    ensures |r| == |tops|
    ensures forall i :: 0 <= i < |r| ==> r[i] == Threshold(tops[i], k)
  {
    seq(|tops|, i requires 0 <= i < |tops| => Threshold(tops[i], k))
  }

  predicate AllEmpty(masks: seq<set<nat>>) {
    forall i :: 0 <= i < |masks| ==> masks[i] == {}
  }

  /** Runs the dimension groups until no lane is left, and returns the surviving lanes. */
  method RunGroups(ctx: Context, queries: seq<Vec>, ghost rows: seq<Vec>, b: Block, bounds: seq<Bound>,
                   masks0: seq<set<nat>>, dist: array2<real>, simd: bool, full64: nat, group16: nat)
    returns (masks: seq<set<nat>>, pruned: nat)
    requires Tile(ctx, queries, rows, b)
    requires |bounds| == |masks0| == |queries| <= dist.Length0 && dist.Length1 == BLOCK
    requires Fits(masks0, b)
    modifies dist
    ensures TileFate(ctx, queries, rows, b, bounds, masks0, masks, ctx.dim)
    ensures TileAt(dist, queries, rows, b.start, masks, ctx.dim)
    ensures pruned + SumCard(masks) == SumCard(masks0)
  {
    forall i, l | 0 <= i < dist.Length0 && 0 <= l < dist.Length1 {
      dist[i, l] := 0.0;
    }
    var from := 0;
    masks, pruned := masks0, 0;
    while from < ctx.dim && !AllEmpty(masks)
      invariant from <= ctx.dim && Fits(masks, b)
      invariant TileFate(ctx, queries, rows, b, bounds, masks0, masks, from)
      invariant TileAt(dist, queries, rows, b.start, masks, from)
      invariant pruned + SumCard(masks) == SumCard(masks0)
    {
      var end := GroupEnd(ctx, from);
      var scalar := UseScalarPath(masks, SumCard(masks), full64, group16);
      AccumulateTile(queries, ctx.dim, b, rows, from, end, masks, dist, 0, |queries|, simd && !scalar);
      var dropped;
      masks, dropped := PruneTile(ctx, queries, rows, b, bounds, masks0, masks, from, dist);
      pruned, from := pruned + dropped, end;
    }
    if from < ctx.dim {
      EmptyFate(ctx, queries, rows, b, bounds, masks0, masks, from);
    }
  }

  /** Nothing more can happen to empty masks. */
  lemma EmptyFate(ctx: Context, queries: seq<Vec>, rows: seq<Vec>, b: Block, bounds: seq<Bound>,
                  masks0: seq<set<nat>>, masks: seq<set<nat>>, from: nat)
    requires Tile(ctx, queries, rows, b) && AllEmpty(masks)
    requires TileFate(ctx, queries, rows, b, bounds, masks0, masks, from)
    ensures TileFate(ctx, queries, rows, b, bounds, masks0, masks, ctx.dim)
  {
  }

  /**
   One block for every query of the tile. `simd` says whether the 16-lane path exists on this
   machine; `full64` and `group16` steer the choice per group. None of them shows in the result.
   */
  method ScanBlockTile(ctx: Context, queries: seq<Vec>, ghost rows: seq<Vec>, b: Block, k: nat,
                       tops: seq<seq<Entry>>, masks0: seq<set<nat>>, dist: array2<real>,
                       simd: bool, full64: nat, group16: nat)
    returns (next: seq<seq<Entry>>, pruned: nat, full: nat)
    requires Tile(ctx, queries, rows, b)
    requires |tops| == |masks0| == |queries| <= dist.Length0 && dist.Length1 == BLOCK
    requires forall i :: 0 <= i < |tops| ==> |tops[i]| <= k
    requires Fits(masks0, b)
    modifies dist
    ensures |next| == |tops|
    ensures forall i :: 0 <= i < |tops| ==>
              next[i] == BlockStep(ctx, queries[i], rows, k, tops[i], b.start, masks0[i])
    ensures pruned + full == SumCard(masks0)
  {
    var bounds, masks := Thresholds(tops, k), masks0;
    masks, pruned := RunGroups(ctx, queries, rows, b, bounds, masks0, dist, simd, full64, group16);
    full := SumCard(masks);
    next := tops;
    for i := 0 to |queries|
      invariant |next| == |tops|
      invariant TileAt(dist, queries, rows, b.start, masks, ctx.dim)
      invariant forall j :: 0 <= j < i ==>
                  next[j] == BlockStep(ctx, queries[j], rows, k, tops[j], b.start, masks0[j])
    {
      var top := PushActive(ctx, queries[i], rows, b, k, tops[i], masks0[i], masks[i], dist, i);
      next := next[i := top];
    }
  }
}
