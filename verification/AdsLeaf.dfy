/**
 Leaf kNN by ADSampling, directed form: every row scans all other rows of the leaf, with
 its next `seed_exact` rows (cyclically) pushed exactly beforehand.
 */
module AdsLeaf {
  import opened Basics
  import opened TopK
  import opened AdsSpec
  import opened AdsKernel

  /** `k.min(rows - 1).max(1)`, then the clamp of `TinyTopK::new`. */
  function LeafK(k: nat, n: nat): (r: nat)
    ensures 1 <= r
    ensures 2 <= n ==> r == (var want := if k < 1 then 1 else if 32 < k then 32 else k; if want < n - 1 then want else n - 1)
  {
    var m := MinNat(k, if n == 0 then 0 else n - 1);
    ClampK(if m < 1 then 1 else m)
  }

  function LeafSeeds(seedExact: nat, n: nat): (s: nat)
    ensures 0 < n ==> s < n && s <= seedExact && (s == seedExact || s == n - 1)
  {
    MinNat(seedExact, if n == 0 then 0 else n - 1)
  }

  /** The row `off` places further, cyclically. */
  function Wrap(row: nat, off: nat, n: nat): (r: nat)
    requires row < n && off < n
    ensures r < n && r == (row + off) % n
  {
    if row + off < n then row + off else row + off - n
  }

  /** The rows a scan of `row` leaves out: itself and its first s successors. */
  function LeafSkip(row: nat, s: nat, n: nat): (r: set<nat>)
    requires row < n && s < n
    ensures forall c: nat :: c in r <==> c < n && (row <= c <= row + s || c + n <= row + s)
  {
    if s == 0 then {row} else LeafSkip(row, s - 1, n) + {Wrap(row, s, n)}
  }

  /** The list after the first s seeds. */
  function SeedTop(rows: seq<Vec>, dim: nat, row: nat, k: nat, s: nat): (r: seq<Entry>)
    requires IsMatrix(rows, dim) && row < |rows| && s < |rows|
    ensures |r| <= k
  {
    if s == 0 then []
    else
      var c := Wrap(row, s, |rows|);
      Push(SeedTop(rows, dim, row, k, s - 1), k, Entry(L2(rows[row], rows[c]), c))
  }

  /** What one leaf row returns; it mentions no other row's result and no tile. */
  function LeafScan(ctx: Context, rows: seq<Vec>, row: nat, k: nat, seedExact: nat): (r: seq<Entry>)
    requires ctx.Valid() && IsMatrix(rows, ctx.dim) && row < |rows|
  {
    var s, k' := LeafSeeds(seedExact, |rows|), LeafK(k, |rows|);
    ScanBlocks(ctx, rows[row], rows, k', SeedTop(rows, ctx.dim, row, k', s),
               LeafSkip(row, s, |rows|), BlockCount(|rows|))
  }

  // ----- the row result is best -------------------------------------------------------------

  lemma {:induction false} SeedTopBest(rows: seq<Vec>, dim: nat, row: nat, k: nat, s: nat, exact: bool)
    requires IsMatrix(rows, dim) && row < |rows| && s < |rows|
    ensures Best(SeedTop(rows, dim, row, k, s), k, LeafSkip(row, s, |rows|) - {row},
                 Distances(rows[row], rows), exact)
  {
    hide Best, Push;
    var d, n := Distances(rows[row], rows), |rows|;
    if s == 0 {
      BestEmpty(k, d, exact);
      assert LeafSkip(row, 0, n) - {row} == {};
    } else {
      SeedTopBest(rows, dim, row, k, s - 1, exact);
      var c := Wrap(row, s, n);
      assert LeafSkip(row, s, n) - {row} == LeafSkip(row, s - 1, n) - {row} + {c};
      BestPush(SeedTop(rows, dim, row, k, s - 1), k, LeafSkip(row, s - 1, n) - {row}, d, exact, Entry(d[c], c));
    }
  }

  /** A scan keeps the list best while the set of considered candidates grows block by block. */
  lemma {:induction false} ScanBlocksBest(ctx: Context, q: Vec, rows: seq<Vec>, k: nat, top: seq<Entry>,
                                          skip: set<nat>, seen: set<nat>, blocks: nat, exact: bool)
    requires ctx.Valid() && IsMatrix(rows, ctx.dim) && |q| == ctx.dim && |top| <= k
    requires seen <= skip && Best(top, k, seen, Distances(q, rows), exact)
    requires exact ==> Conservative(ctx, 0)
    ensures Best(ScanBlocks(ctx, q, rows, k, top, skip, blocks), k,
                 SeenAfter(seen, skip, |rows|, blocks), Distances(q, rows), exact)
  {
    hide Best, Distances, Conservative, UpTo, BlockStep;
    if blocks == 0 {
      assert SeenAfter(seen, skip, |rows|, 0) == seen;
    } else {
      ScanBlocksBest(ctx, q, rows, k, top, skip, seen, blocks - 1, exact);
      BlockStepBest(ctx, q, rows, k, ScanBlocks(ctx, q, rows, k, top, skip, blocks - 1), skip, seen, blocks - 1, exact);
    }
  }

  lemma OthersCount(n: nat, row: nat)
    requires row < n
    ensures |UpTo(n) - {row}| == n - 1
  {
    assert UpTo(n) == (UpTo(n) - {row}) + {row};
  }

  /** How many neighbours a row gets, in numbers, and that they are that many of the brute-force scan. */
  lemma LeafCount(s: seq<Entry>, d: seq<real>, row: nat, k: nat, exact: bool)
    requires row < |d| && Best(s, LeafK(k, |d|), UpTo(|d|) - {row}, d, exact)
    ensures |s| == (var want := if k < 1 then 1 else if 32 < k then 32 else k; if want < |d| - 1 then want else |d| - 1)
    ensures exact ==> SameDistances(s, BruteForce(d, row, |s|, |d|))
  {
    hide LeafK, BruteForce, SameDistances, Sound, Complete, UpTo;
    OthersCount(|d|, row);
    if exact {
      MatchesBruteForce(s, d, row, |s|);
    }
  }

  /**
   Every row's result lists min(max(k, 1), 32, n - 1) other rows, sorted, each once, with true
   distances, whatever the ratios; with every boundary ratio at least 1 they are the nearest ones.
   */
  lemma LeafScanBest(ctx: Context, rows: seq<Vec>, row: nat, k: nat, seedExact: nat, exact: bool)
    requires ctx.Valid() && IsMatrix(rows, ctx.dim) && row < |rows|
    requires exact ==> Conservative(ctx, 0)
    ensures Best(LeafScan(ctx, rows, row, k, seedExact), LeafK(k, |rows|), UpTo(|rows|) - {row},
                 Distances(rows[row], rows), exact)
    ensures var t, n := LeafScan(ctx, rows, row, k, seedExact), |rows|;
            && |t| == (var want := if k < 1 then 1 else if 32 < k then 32 else k; if want < n - 1 then want else n - 1)
            && (exact ==> SameDistances(t, BruteForce(Distances(rows[row], rows), row, |t|, n)))
  {
    hide Best, UpTo, ScanBlocks, BruteForce, SameDistances;
    var n, s, k' := |rows|, LeafSeeds(seedExact, |rows|), LeafK(k, |rows|);
    var skip := LeafSkip(row, s, n);
    SeedTopBest(rows, ctx.dim, row, k', s, exact);
    ScanBlocksBest(ctx, rows[row], rows, k', SeedTop(rows, ctx.dim, row, k', s), skip, skip - {row},
                   BlockCount(n), exact);
    assert SeenAfter(skip - {row}, skip, n, BlockCount(n)) == UpTo(n) - {row};
    LeafCount(LeafScan(ctx, rows, row, k, seedExact), Distances(rows[row], rows), row, k, exact);
  }

  // ----- brute force ----------------------------------------------------------------------------

  /** The first n candidates of d other than `row`, all pushed. */
  function BruteForce(d: seq<real>, row: nat, k: nat, n: nat): (r: seq<Entry>)
    requires n <= |d|
    ensures |r| <= k
  {
    if n == 0 then []
    else if n - 1 == row then BruteForce(d, row, k, n - 1)
    else Push(BruteForce(d, row, k, n - 1), k, Entry(d[n - 1], n - 1))
  }

  lemma {:induction false} BruteForceBest(d: seq<real>, row: nat, k: nat, n: nat)
    requires n <= |d|
    ensures Best(BruteForce(d, row, k, n), k, UpTo(n) - {row}, d, true)
  {
    hide Best, Push, UpTo;
    if n == 0 {
      BestEmpty(k, d, true);
      assert UpTo(0) - {row} == {};
    } else {
      BruteForceBest(d, row, k, n - 1);
      if n - 1 == row {
        assert UpTo(n) - {row} == UpTo(n - 1) - {row};
      } else {
        assert UpTo(n) - {row} == UpTo(n - 1) - {row} + {n - 1};
        BestPush(BruteForce(d, row, k, n - 1), k, UpTo(n - 1) - {row}, d, true, Entry(d[n - 1], n - 1));
      }
    }
  }

  ghost predicate SameDistances(s: seq<Entry>, t: seq<Entry>) {
    |s| == |t| && forall i :: 0 <= i < |s| ==> s[i].dist == t[i].dist
  }

  /** Any list that is best for all other rows has the distances of the brute-force scan. */
  lemma MatchesBruteForce(s: seq<Entry>, d: seq<real>, row: nat, k: nat)
    requires Best(s, k, UpTo(|d|) - {row}, d, true)
    ensures SameDistances(s, BruteForce(d, row, k, |d|))
  {
    BruteForceBest(d, row, k, |d|);
    BestUnique(s, BruteForce(d, row, k, |d|), k, UpTo(|d|) - {row}, d);
  }

  // ----- the lane mask of one row and block ------------------------------------------------------

  /** `clear_block_mask_range` */
  function ClearRange(mask: set<nat>, blockStart: nat, blockEnd: nat, from: nat, to: nat): (m: set<nat>)
    requires blockStart <= blockEnd <= blockStart + BLOCK
    ensures forall l: nat :: l in m <==> l in mask && !(from <= blockStart + l < to && blockStart + l < blockEnd)
  {
    var start := if blockStart < from then from else blockStart;
    var end := MinNat(blockEnd, to);
    if start < end then
      mask - (LenMask(end - blockStart) - LenMask(start - blockStart))
    else mask
  }

  /** `leaf_adsampling_active_mask`: three range clears leave exactly the rows still to be scanned. */
  method ActiveMask(row: nat, blockStart: nat, blockLen: nat, n: nat, seedExact: nat) returns (mask: set<nat>)
    requires row < n && blockStart < n && blockLen == MinNat(BLOCK, n - blockStart)
    ensures mask == LanesOf(blockStart, n, LeafSkip(row, LeafSeeds(seedExact, n), n))
  {
    hide ClearRange, LenMask, LeafSkip, UpTo;
    mask := LenMask(blockLen);
    var blockEnd := blockStart + blockLen;
    if blockStart <= row < blockEnd {
      mask := mask - {row - blockStart};
    }
    var s := LeafSeeds(seedExact, n);
    if s > 0 {
      var seedStart := row + 1;
      var seedEnd := seedStart + s;
      if seedEnd <= n {
        mask := ClearRange(mask, blockStart, blockEnd, seedStart, seedEnd);
      } else {
        mask := ClearRange(mask, blockStart, blockEnd, seedStart, n);
        mask := ClearRange(mask, blockStart, blockEnd, 0, seedEnd - n);
      }
    }
    OpenLanes(mask, row, s, blockStart, blockLen, n);
  }

  lemma OpenLanes(mask: set<nat>, row: nat, s: nat, blockStart: nat, blockLen: nat, n: nat)
    requires row < n && s < n && blockStart < n && blockLen == MinNat(BLOCK, n - blockStart)
    requires forall l: nat :: l in mask <==>
               (l < blockLen && !(row <= blockStart + l <= row + s) && !(blockStart + l + n <= row + s))
    ensures mask == LanesOf(blockStart, n, LeafSkip(row, s, n))
  {
    hide LeafSkip;
    var lanes := LanesOf(blockStart, n, LeafSkip(row, s, n));
    forall l: nat
      ensures l in mask <==> l in lanes
    {
      assert l in lanes <==> l < BLOCK && IsOpen(blockStart, l, n, LeafSkip(row, s, n));
    }
  }

  // ----- the tile ----------------------------------------------------------------------------------

  /** The exact seeds of one row. */
  method SeedRow(rows: seq<Vec>, dim: nat, row: nat, k: nat, s: nat) returns (top: seq<Entry>)
    requires IsMatrix(rows, dim) && row < |rows| && s < |rows|
    ensures top == SeedTop(rows, dim, row, k, s)
  {
    top := [];
    for off := 1 to s + 1
      invariant top == SeedTop(rows, dim, row, k, off - 1)
    {
      var c := Wrap(row, off, |rows|);
      top := Push(top, k, Entry(L2(rows[row], rows[c]), c));
    }
  }

  /** The masks of all rows of a tile for one block. */
  method TileMasks(rowStart: nat, count: nat, b: Block, n: nat, seedExact: nat)
    returns (masks: seq<set<nat>>)
    requires rowStart + count <= n && b.start < n && b.len == MinNat(BLOCK, n - b.start)
    ensures |masks| == count && Fits(masks, b)
    ensures forall i :: 0 <= i < count ==>
              masks[i] == LanesOf(b.start, n, LeafSkip(rowStart + i, LeafSeeds(seedExact, n), n))
  {
    masks := [];
    for i := 0 to count
      invariant |masks| == i && Fits(masks, b)
      invariant forall j :: 0 <= j < i ==>
                  masks[j] == LanesOf(b.start, n, LeafSkip(rowStart + j, LeafSeeds(seedExact, n), n))
    {
      var mask := ActiveMask(rowStart + i, b.start, b.len, n, seedExact);
      forall l | l in mask
        ensures l < b.len
      {
        assert IsOpen(b.start, l, n, LeafSkip(rowStart + i, LeafSeeds(seedExact, n), n));
      }
      masks := masks + [mask];
    }
  }

  /**
   `compute_leaf_adsampling_row_tile`: the rows rowStart..rowEnd together. Each result is the
   row's own `LeafScan`, so it does not depend on which rows share the tile.
   */
  method RowTile(ctx: Context, rows: seq<Vec>, blocks: seq<Block>, rowStart: nat, rowEnd: nat, k: nat,
                 seedExact: nat, simd: bool, full64: nat, group16: nat) returns (tops: seq<seq<Entry>>)
    requires ctx.Valid() && IsMatrix(rows, ctx.dim) && IsLayout(blocks, rows, ctx.dim)
    requires rowStart < rowEnd <= |rows| && rowEnd - rowStart <= TILE
    ensures |tops| == rowEnd - rowStart
    ensures forall i :: 0 <= i < |tops| ==> tops[i] == LeafScan(ctx, rows, rowStart + i, k, seedExact)
  {
    var n, count := |rows|, rowEnd - rowStart;
    var k', s := LeafK(k, n), LeafSeeds(seedExact, n);
    tops := SeedTile(rows, ctx.dim, rowStart, count, k', s);
    var dist := new real[TILE, BLOCK];
    for b := 0 to |blocks|
      invariant |tops| == count
      invariant forall i :: 0 <= i < count ==> tops[i] == RowAfter(ctx, rows, rowStart + i, k', s, b)
    {
      assert BlockStart(b) <= BlockStart(|blocks| - 1) < n;
      tops := RowTileBlock(ctx, rows, blocks[b], b, rowStart, count, k', s, seedExact, tops, dist, simd, full64, group16);
    }
  }

  /** A row's list after its seeds and the first b blocks. */
  function RowAfter(ctx: Context, rows: seq<Vec>, row: nat, k: nat, s: nat, b: nat): (r: seq<Entry>)
    requires ctx.Valid() && IsMatrix(rows, ctx.dim) && row < |rows| && s < |rows|
    ensures |r| <= k
  {
    ScanBlocks(ctx, rows[row], rows, k, SeedTop(rows, ctx.dim, row, k, s), LeafSkip(row, s, |rows|), b)
  }

  method SeedTile(rows: seq<Vec>, dim: nat, rowStart: nat, count: nat, k: nat, s: nat) returns (tops: seq<seq<Entry>>)
    requires IsMatrix(rows, dim) && rowStart + count <= |rows| && s < |rows|
    ensures |tops| == count
    ensures forall j :: 0 <= j < count ==> tops[j] == SeedTop(rows, dim, rowStart + j, k, s)
  {
    tops := [];
    for i := 0 to count
      invariant |tops| == i
      invariant forall j :: 0 <= j < i ==> tops[j] == SeedTop(rows, dim, rowStart + j, k, s)
    {
      var top := SeedRow(rows, dim, rowStart + i, k, s);
      tops := tops + [top];
    }
  }

  method RowTileBlock(ctx: Context, rows: seq<Vec>, block: Block, ghost b: nat, rowStart: nat, count: nat, k: nat,
                      ghost s: nat, seedExact: nat, tops: seq<seq<Entry>>, dist: array2<real>,
                      simd: bool, full64: nat, group16: nat) returns (next: seq<seq<Entry>>)
    requires ctx.Valid() && IsMatrix(rows, ctx.dim) && IsBlock(block, rows, ctx.dim)
    requires block.start == BlockStart(b) < |rows| && block.len == MinNat(BLOCK, |rows| - block.start)
    requires rowStart + count <= |rows| && s == LeafSeeds(seedExact, |rows|)
    requires count == |tops| <= dist.Length0 && dist.Length1 == BLOCK
    requires forall i :: 0 <= i < count ==> tops[i] == RowAfter(ctx, rows, rowStart + i, k, s, b)
    modifies dist
    ensures |next| == count
    ensures forall i :: 0 <= i < count ==> next[i] == RowAfter(ctx, rows, rowStart + i, k, s, b + 1)
  {
    var queries := rows[rowStart..rowStart + count];
    var masks := TileMasks(rowStart, count, block, |rows|, seedExact);
    var pruned, full;
    next, pruned, full := ScanBlockTile(ctx, queries, rows, block, k, tops, masks, dist, simd, full64, group16);
    hide BlockStep, LanesOf, SeedTop, LeafSkip;
  }

  /** `compute_leaf_adsampling_row_range`: a range of rows, eight at a time. */
  method RowRange(ctx: Context, rows: seq<Vec>, blocks: seq<Block>, rowStart: nat, rowEnd: nat, k: nat,
                  seedExact: nat, simd: bool, full64: nat, group16: nat) returns (tops: seq<seq<Entry>>)
    requires ctx.Valid() && IsMatrix(rows, ctx.dim) && IsLayout(blocks, rows, ctx.dim)
    requires rowStart <= rowEnd <= |rows|
    ensures |tops| == rowEnd - rowStart
    ensures forall i :: 0 <= i < |tops| ==> tops[i] == LeafScan(ctx, rows, rowStart + i, k, seedExact)
    ensures forall i :: 0 <= i < |tops| ==>
              |tops[i]| == (var want := if k < 1 then 1 else if 32 < k then 32 else k; if want < |rows| - 1 then want else |rows| - 1)
  {
    tops := [];
    var start := rowStart;
    while start < rowEnd
      invariant rowStart <= start <= rowEnd && |tops| == start - rowStart
      invariant forall i :: 0 <= i < |tops| ==> tops[i] == LeafScan(ctx, rows, rowStart + i, k, seedExact)
    {
      hide LeafScan;
      var end := MinNat(start + TILE, rowEnd);
      var tile := RowTile(ctx, rows, blocks, start, end, k, seedExact, simd, full64, group16);
      tops := tops + tile;
      start := end;
    }
    forall i | 0 <= i < |tops|
      ensures |tops[i]| == (var want := if k < 1 then 1 else if 32 < k then 32 else k; if want < |rows| - 1 then want else |rows| - 1)
    {
      LeafScanBest(ctx, rows, rowStart + i, k, seedExact, false);
    }
  }
}
