/**
 Assignment of a tile of points to leaders: `assign_point_tile_adsampling_layout`.
 */
module AdsAssign {
  import opened Basics
  import opened TopK
  import opened AdsSpec
  import opened AdsKernel
  import opened AdsRoot

  function IdxList(s: seq<Entry>): (r: seq<nat>)
    ensures |r| == |s|
    ensures forall i :: 0 <= i < |s| ==> r[i] == s[i].idx
  {
    seq(|s|, i requires 0 <= i < |s| => s[i].idx)
  }

  /** `seeded_block_mask` taken out of `block_len_mask`. */
  method BaseMask(b: Block, n: nat, seeds: nat) returns (mask: set<nat>)
    requires b.start < n && b.len == MinNat(BLOCK, n - b.start) && seeds <= n
    ensures mask == LanesOf(b.start, n, UpTo(seeds))
    ensures forall l :: l in mask ==> l < b.len
  {
    hide LenMask, UpTo;
    mask := LenMask(b.len);
    for l := 0 to b.len
      invariant forall m: nat :: m in mask <==> m < b.len && !(m < l && b.start + m < seeds)
    {
      if b.start + l < seeds {
        mask := mask - {l};
      }
    }
    UnseededLanes(mask, b.start, b.len, n, seeds);
  }

  lemma UnseededLanes(mask: set<nat>, start: nat, len: nat, n: nat, seeds: nat)
    requires start < n && len == MinNat(BLOCK, n - start)
    requires forall l: nat :: l in mask <==> l < len && start + l >= seeds
    ensures mask == LanesOf(start, n, UpTo(seeds))
  {
    hide UpTo;
    var lanes := LanesOf(start, n, UpTo(seeds));
    forall l: nat
      ensures l in mask <==> l in lanes
    {
      assert l in lanes <==> l < BLOCK && IsOpen(start, l, n, UpTo(seeds));
    }
  }

  /** A block adds as many candidates as the scan position advances. */
  lemma LanesCount(start: nat, n: nat, s: nat)
    requires s <= n
    ensures |LanesOf(start, n, UpTo(s))| == Reached(s, n, start + BLOCK) - Reached(s, n, start)
  {
    hide UpTo;
    var hi := Reached(s, n, start + BLOCK) - start;
    var lo := Reached(s, n, start) - start;
    var lanes := LanesOf(start, n, UpTo(s));
    forall l: nat
      ensures l in lanes <==> lo <= l < hi
    {
      assert l in lanes <==> l < BLOCK && IsOpen(start, l, n, UpTo(s));
    }
    if lo < hi && 0 <= lo {
      assert lanes == UpTo(hi) - UpTo(lo);
      assert UpTo(hi) * UpTo(lo) == UpTo(lo);
    } else {
      assert lanes == {};
    }
  }

  lemma {:induction false} SumCardSame(masks: seq<set<nat>>, m: set<nat>)
    requires forall i :: 0 <= i < |masks| ==> masks[i] == m
    ensures SumCard(masks) == |masks| * |m|
  {
    if masks != [] {
      SumCardSame(masks[..|masks| - 1], m);
    }
  }

  /** Exact distances to the first `seeds` leaders for every query. */
  method SeedQueries(queries: seq<Vec>, rows: seq<Vec>, dim: nat, k: nat, seeds: nat)
    returns (tops: seq<seq<Entry>>, full: nat)
    requires IsMatrix(queries, dim) && IsMatrix(rows, dim) && seeds <= |rows|
    ensures |tops| == |queries| && full == |queries| * seeds
    ensures forall i :: 0 <= i < |queries| ==> tops[i] == PushAll(k, Distances(queries[i], rows)[..seeds])
  {
    tops, full := seq(|queries|, _ => []), 0;
    for c := 0 to seeds
      invariant |tops| == |queries| && full == |queries| * c
      invariant forall i :: 0 <= i < |queries| ==> Seeded(queries[i], rows, k, c, tops[i])
    {
      tops := SeedLeader(queries, rows, dim, k, c, tops);
      full := full + |queries|;
    }
  }

  ghost predicate Seeded(q: Vec, rows: seq<Vec>, k: nat, c: nat, top: seq<Entry>)
    requires IsMatrix(rows, |q|) && c <= |rows|
  {
    top == PushAll(k, Distances(q, rows)[..c])
  }

  /** One seed leader for every query. */
  method SeedLeader(queries: seq<Vec>, rows: seq<Vec>, dim: nat, k: nat, c: nat, tops: seq<seq<Entry>>)
    returns (next: seq<seq<Entry>>)
    requires IsMatrix(queries, dim) && IsMatrix(rows, dim) && c < |rows| && |tops| == |queries|
    requires forall i :: 0 <= i < |queries| ==> Seeded(queries[i], rows, k, c, tops[i])
    ensures |next| == |queries|
    ensures forall i :: 0 <= i < |queries| ==> Seeded(queries[i], rows, k, c + 1, next[i])
  {
    next := tops;
    for i := 0 to |queries|
      invariant |next| == |queries|
      invariant forall j :: 0 <= j < i ==> Seeded(queries[j], rows, k, c + 1, next[j])
      invariant forall j :: i <= j < |queries| ==> next[j] == tops[j]
    {
      PushAllStep(k, Distances(queries[i], rows), c + 1);
      next := next[i := Push(tops[i], k, Entry(L2(queries[i], rows[c]), c))];
    }
  }

  ghost predicate RootAfter(ctx: Context, q: Vec, rows: seq<Vec>, k: nat, s: nat, b: nat, top: seq<Entry>)
    requires ctx.Valid() && IsMatrix(rows, ctx.dim) && |q| == ctx.dim && s <= |rows|
  {
    top == ScanBlocks(ctx, q, rows, k, PushAll(k, Distances(q, rows)[..s]), UpTo(s), b)
  }

  method AssignBlock(ctx: Context, queries: seq<Vec>, rows: seq<Vec>, block: Block, ghost b: nat, k: nat, s: nat,
                     tops: seq<seq<Entry>>, dist: array2<real>, simd: bool, full64: nat, group16: nat)
    returns (next: seq<seq<Entry>>, pruned: nat, full: nat)
    requires Tile(ctx, queries, rows, block) && s <= |rows|
    requires block.start == BlockStart(b) < |rows| && block.len == MinNat(BLOCK, |rows| - block.start)
    requires |tops| == |queries| <= dist.Length0 && dist.Length1 == BLOCK
    requires forall i :: 0 <= i < |queries| ==> RootAfter(ctx, queries[i], rows, k, s, b, tops[i])
    modifies dist
    ensures |next| == |queries|
    ensures forall i :: 0 <= i < |queries| ==> RootAfter(ctx, queries[i], rows, k, s, b + 1, next[i])
    ensures pruned + full == |queries| * (Reached(s, |rows|, BlockStart(b + 1)) - Reached(s, |rows|, BlockStart(b)))
  {
    hide *;
    TileIs(ctx, queries, rows, block);
    var base := BaseMask(block, |rows|, s);
    var masks := seq(|queries|, _ => base);
    LanesCount(BlockStart(b), |rows|, s);
    SumCardSame(masks, base);
    MasksFit(masks, base, block);
    NextStart(b);
    forall i | 0 <= i < |queries|
      ensures |tops[i]| <= k
    {
      RootLen(ctx, queries[i], rows, k, s, b, tops[i]);
    }
    next, pruned, full := ScanBlockTile(ctx, queries, rows, block, k, tops, masks, dist, simd, full64, group16);
    forall i | 0 <= i < |queries|
      ensures RootAfter(ctx, queries[i], rows, k, s, b + 1, next[i])
    {
      RootNext(ctx, queries[i], rows, k, s, b, tops[i]);
    }
  }

  lemma NextStart(b: nat)
    ensures BlockStart(b + 1) == BlockStart(b) + BLOCK
  {
  }

  lemma MasksFit(masks: seq<set<nat>>, base: set<nat>, b: Block)
    requires (forall i :: 0 <= i < |masks| ==> masks[i] == base) && forall l :: l in base ==> l < b.len
    ensures Fits(masks, b)
  {
  }

  lemma TileIs(ctx: Context, queries: seq<Vec>, rows: seq<Vec>, b: Block)
    requires Tile(ctx, queries, rows, b)
    ensures ctx.Valid() && IsMatrix(queries, ctx.dim) && IsMatrix(rows, ctx.dim) && forall i :: 0 <= i < |queries| ==> |queries[i]| == ctx.dim
  {
  }

  lemma RootLen(ctx: Context, q: Vec, rows: seq<Vec>, k: nat, s: nat, b: nat, top: seq<Entry>)
    requires ctx.Valid() && IsMatrix(rows, ctx.dim) && |q| == ctx.dim && s <= |rows| && RootAfter(ctx, q, rows, k, s, b, top)
    ensures |top| <= k
  {
  }

  /** One block more of the row scan. */
  lemma RootNext(ctx: Context, q: Vec, rows: seq<Vec>, k: nat, s: nat, b: nat, top: seq<Entry>)
    requires ctx.Valid() && IsMatrix(rows, ctx.dim) && |q| == ctx.dim && s <= |rows| && |top| <= k
    requires RootAfter(ctx, q, rows, k, s, b, top)
    ensures RootAfter(ctx, q, rows, k, s, b + 1,
                      BlockStep(ctx, q, rows, k, top, BlockStart(b), LanesOf(BlockStart(b), |rows|, UpTo(s))))
  {
    hide BlockStep, PushAll, Distances;
  }

  /**
   The leaders of every query of the tile. For any ratios each list is the pruned row scan and
   every (query, leader) pair is either fully evaluated or pruned; with conservative ratios each
   list is the exhaustive one.
   */
  method AssignTile(ctx: Context, queries: seq<Vec>, rows: seq<Vec>, blocks: seq<Block>, fanout: nat, seedExact: nat,
                    simd: bool, full64: nat, group16: nat)
    returns (leaders: seq<seq<nat>>, full: nat, pruned: nat)
    requires ctx.Valid() && IsMatrix(queries, ctx.dim) && IsMatrix(rows, ctx.dim)
    requires IsLayout(blocks, rows, ctx.dim) && |queries| <= TILE
    ensures |leaders| == |queries|
    ensures forall i :: 0 <= i < |queries| ==>
              leaders[i] == IdxList(RootScan(ctx, queries[i], rows, fanout, seedExact))
    ensures full + pruned == |queries| * |rows|
    ensures forall i :: 0 <= i < |queries| ==>
              |leaders[i]| == (var want := if fanout < 1 then 1 else if 32 < fanout then 32 else fanout; if want < |rows| then want else |rows|)
    ensures Conservative(ctx, 0) ==> forall i :: 0 <= i < |queries| ==>
              leaders[i] == IdxList(ExactTopK(queries[i], rows, fanout))
  {
    var n := |rows|;
    var k, s := RootK(fanout, n), SeedCount(n, seedExact, fanout);
    var tops;
    tops, full := SeedQueries(queries, rows, ctx.dim, k, s);
    pruned := 0;
    var dist := new real[TILE, BLOCK];
    for b := 0 to |blocks|
      invariant |tops| == |queries|
      invariant forall i :: 0 <= i < |queries| ==> RootAfter(ctx, queries[i], rows, k, s, b, tops[i])
      invariant full + pruned == |queries| * Reached(s, n, BlockStart(b))
    {
      assert BlockStart(b) <= BlockStart(|blocks| - 1) < n;
      var p, f;
      tops, p, f := AssignBlock(ctx, queries, rows, blocks[b], b, k, s, tops, dist, simd, full64, group16);
      Distribute(|queries|, Reached(s, n, BlockStart(b)), Reached(s, n, BlockStart(b + 1)));
      pruned, full := pruned + p, full + f;
    }
    forall i | 0 <= i < |queries|
      ensures |RootScan(ctx, queries[i], rows, fanout, seedExact)|
              == (var want := if fanout < 1 then 1 else if 32 < fanout then 32 else fanout; if want < |rows| then want else |rows|)
    {
      RootScanCount(ctx, queries[i], rows, fanout, seedExact);
    }
    leaders := seq(|queries|, i requires 0 <= i < |queries| && |tops| == |queries| => IdxList(tops[i]));
    if Conservative(ctx, 0) {
      forall i | 0 <= i < |queries|
        ensures RootScan(ctx, queries[i], rows, fanout, seedExact) == ExactTopK(queries[i], rows, fanout)
      {
        RootScanExact(ctx, queries[i], rows, fanout, seedExact);
      }
    }
  }

  lemma Distribute(q: nat, a: nat, b: nat)
    ensures q * a + q * (b - a) == q * b
  {
  }
}
