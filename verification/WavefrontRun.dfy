/**
 One pair of blocks over scratch matrices: masks, dimension groups, and committing the survivors.
 */
module WavefrontRun {
  import opened Basics
  import opened TopK
  import opened AdsSpec
  import opened AdsKernel
  import opened Wavefront
  import opened WaveLog

  // ----- groups over a block pair ---------------------------------------------------------------

  /** `prune_leaf_wavefront_pair_mask` */
  method PrunePairMask(mask: set<nat>, dist: array2<real>, i: nat, left: Bound, rights: seq<Bound>, ratio: real)
    returns (keep: set<nat>)
    requires i < dist.Length0 && dist.Length1 == BLOCK == |rights|
    requires forall l :: l in mask ==> l < BLOCK
    ensures forall l :: l in keep <==>
              (l in mask && l < BLOCK && Below(dist[i, l], Scale(MaxBound(left, rights[l]), ratio)))
  {
    keep := {};
    for lane := 0 to BLOCK
      invariant forall l :: l in keep <==>
                  (l in mask && l < lane && Below(dist[i, l], Scale(MaxBound(left, rights[l]), ratio)))
    {
      if lane in mask && Below(dist[i, lane], Scale(MaxBound(left, rights[lane]), ratio)) {
        keep := keep + {lane};
      }
    }
  }

  /** What has been decided for one left row once the boundaries up to `from` are checked. */
  ghost predicate PairFate(ctx: Context, q: Vec, rows: seq<Vec>, start: nat, left: Bound, rights: seq<Bound>,
                           mask0: set<nat>, mask: set<nat>, from: nat)
    requires ctx.Valid() && |q| == ctx.dim && IsMatrix(rows, ctx.dim) && |rights| == BLOCK
  {
    && mask <= mask0
    && (forall l :: l in mask0 && l < BLOCK && start + l < |rows| ==>
         ((l in mask && Survives(ctx, q, rows[start + l], MaxBound(left, rights[l]), from))
          <==> Survives(ctx, q, rows[start + l], MaxBound(left, rights[l]), 0)))
  }

  ghost predicate PairRow(ctx: Context, q: Vec, rows: seq<Vec>, b: Block, left: Bound, rights: seq<Bound>,
                          mask0: set<nat>, mask: set<nat>, from: nat, dist: array2<real>, i: nat)
    requires ctx.Valid() && |q| == ctx.dim && IsMatrix(rows, ctx.dim) && |rights| == BLOCK
    reads dist
  {
    && LanesAt(dist, i, q, rows, b.start, mask, from)
    && PairFate(ctx, q, rows, b.start, left, rights, mask0, mask, from)
    && (forall l :: l in mask ==> l < b.len)
  }

  lemma PairFateStep(ctx: Context, q: Vec, rows: seq<Vec>, start: nat, left: Bound, rights: seq<Bound>,
                     mask0: set<nat>, mask: set<nat>, keep: set<nat>, from: nat)
    requires ctx.Valid() && |q| == ctx.dim && IsMatrix(rows, ctx.dim) && |rights| == BLOCK && from < ctx.dim
    requires PairFate(ctx, q, rows, start, left, rights, mask0, mask, from)
    requires forall l :: l in mask ==> l < BLOCK && start + l < |rows|
    requires var end := GroupEnd(ctx, from);
             forall l :: l in keep <==>
               (l in mask && Below(Partial(q, rows[start + l], end), Scale(MaxBound(left, rights[l]), ctx.ratios[end])))
    ensures PairFate(ctx, q, rows, start, left, rights, mask0, keep, GroupEnd(ctx, from))
  {
  }

  /** One left row over one group: accumulate by the given path, then prune its mask. */
  method PairRowStep(ctx: Context, q: Vec, ghost rows: seq<Vec>, b: Block, left: Bound, rights: seq<Bound>,
                     ghost mask0: set<nat>, mask: set<nat>, from: nat, dist: array2<real>, i: nat, wide: bool)
    returns (keep: set<nat>)
    requires ctx.Valid() && |q| == ctx.dim && IsBlock(b, rows, ctx.dim) && |rights| == BLOCK && from < ctx.dim
    requires PairRow(ctx, q, rows, b, left, rights, mask0, mask, from, dist, i)
    modifies dist
    ensures PairRow(ctx, q, rows, b, left, rights, mask0, keep, GroupEnd(ctx, from), dist, i)
    ensures OtherRowsKept(dist, i, old(Cells(dist)))
  {
    var end := GroupEnd(ctx, from);
    if wide {
      AccumulateWide(q, b, rows, from, end, mask, dist, i);
    } else {
      AccumulateScalar(q, b, rows, from, end, mask, dist, i);
    }
    keep := PrunePairMask(mask, dist, i, left, rights, ctx.ratios[end]);
    PairFateStep(ctx, q, rows, b.start, left, rights, mask0, mask, keep, from);
  }

  ghost predicate PairRows(ctx: Context, queries: seq<Vec>, rows: seq<Vec>, b: Block, lefts: seq<Bound>,
                           rights: seq<Bound>, masks0: seq<set<nat>>, masks: seq<set<nat>>, dist: array2<real>,
                           lo: nat, hi: nat, from: nat)
    requires Tile(ctx, queries, rows, b) && |rights| == BLOCK && hi <= |queries|
    requires |lefts| == |masks0| == |masks| == |queries|
    reads dist
  {
    forall i :: lo <= i < hi ==>
      PairRow(ctx, queries[i], rows, b, lefts[i], rights, masks0[i], masks[i], from, dist, i)
  }

  /** One dimension group for all left rows; the path is chosen per tile of eight. */
  method PairGroup(ctx: Context, queries: seq<Vec>, ghost rows: seq<Vec>, b: Block, lefts: seq<Bound>,
                   rights: seq<Bound>, ghost masks0: seq<set<nat>>, masks1: seq<set<nat>>, dist: array2<real>,
                   from: nat, simd: bool, full64: nat, group16: nat) returns (masks: seq<set<nat>>)
    requires Tile(ctx, queries, rows, b) && |rights| == BLOCK && from < ctx.dim
    requires |lefts| == |masks0| == |masks1| == |queries|
    requires PairRows(ctx, queries, rows, b, lefts, rights, masks0, masks1, dist, 0, |queries|, from)
    modifies dist
    ensures |masks| == |masks1|
    ensures PairRows(ctx, queries, rows, b, lefts, rights, masks0, masks, dist, 0, |queries|, GroupEnd(ctx, from))
  {
    masks := masks1;
    var wide := false;
    for i := 0 to |queries|
      invariant |masks| == |masks1|
      invariant PairRows(ctx, queries, rows, b, lefts, rights, masks0, masks, dist, 0, i, GroupEnd(ctx, from))
      invariant PairRows(ctx, queries, rows, b, lefts, rights, masks0, masks, dist, i, |queries|, from)
    {
      if i % TILE == 0 {
        var tile := masks[i..MinNat(i + TILE, |queries|)];
        var scalar := UseScalarPath(tile, SumCard(tile), full64, group16);
        wide := simd && !scalar;
      }
      var keep := PairRowStep(ctx, queries[i], rows, b, lefts[i], rights, masks0[i], masks[i], from, dist, i, wide);
      masks := masks[i := keep];
    }
  }

  /** All groups of one block pair. */
  method PairGroups(ctx: Context, queries: seq<Vec>, ghost rows: seq<Vec>, b: Block, lefts: seq<Bound>,
                    rights: seq<Bound>, masks0: seq<set<nat>>, dist: array2<real>,
                    simd: bool, full64: nat, group16: nat) returns (masks: seq<set<nat>>)
    requires Tile(ctx, queries, rows, b) && |rights| == BLOCK && Fits(masks0, b)
    requires |lefts| == |masks0| == |queries| <= dist.Length0 && dist.Length1 == BLOCK
    modifies dist
    ensures |masks| == |queries|
    ensures PairRows(ctx, queries, rows, b, lefts, rights, masks0, masks, dist, 0, |queries|, ctx.dim)
  {
    forall i, l | 0 <= i < dist.Length0 && 0 <= l < dist.Length1 {
      dist[i, l] := 0.0;
    }
    masks := masks0;
    var from := 0;
    while from < ctx.dim && !AllEmpty(masks)
      invariant from <= ctx.dim && |masks| == |queries|
      invariant PairRows(ctx, queries, rows, b, lefts, rights, masks0, masks, dist, 0, |queries|, from)
    {
      masks := PairGroup(ctx, queries, rows, b, lefts, rights, masks0, masks, dist, from, simd, full64, group16);
      from := GroupEnd(ctx, from);
    }
  }

  // ----- off-diagonal block pair -------------------------------------------------------------------

  ghost predicate IsPair(rows: seq<Vec>, left: Block, right: Block) {
    && left.start + left.len <= right.start
    && right.start + right.len <= |rows|
    && left.len <= BLOCK && right.len <= BLOCK
  }

  /** The active lanes of one left row: the right rows it is not seeded with. */
  method PairMask(seeds: Seeds, a: nat, right: Block) returns (mask: set<nat>)
    requires a < |seeds| && right.len <= BLOCK
    ensures forall l: nat :: l in mask <==> l < right.len && right.start + l !in seeds[a]
  {
    mask := {};
    for l := 0 to right.len
      invariant forall m: nat :: m in mask <==> m < l && right.start + m !in seeds[a]
    {
      if right.start + l !in seeds[a] {
        mask := mask + {l};
      }
    }
  }

  method PairMasks(seeds: Seeds, left: Block, right: Block) returns (masks: seq<set<nat>>)
    requires left.start + left.len <= |seeds| && right.len <= BLOCK
    ensures |masks| == left.len && Fits(masks, right)
    ensures forall i, l: nat :: 0 <= i < left.len ==>
              (l in masks[i] <==> l < right.len && right.start + l !in seeds[left.start + i])
  {
    masks := [];
    for i := 0 to left.len
      invariant |masks| == i && Fits(masks, right)
      invariant forall j, l: nat :: 0 <= j < i ==>
                  (l in masks[j] <==> l < right.len && right.start + l !in seeds[left.start + j])
    {
      var mask := PairMask(seeds, left.start + i, right);
      masks := masks + [mask];
    }
  }

  /** The thresholds of a block's rows, `Infinite` beyond its length. */
  function LaneBounds(tops: seq<seq<Entry>>, k: nat, start: nat, len: nat): (r: seq<Bound>)
    requires start + len <= |tops| && forall a :: 0 <= a < |tops| ==> |tops[a]| <= k
    ensures |r| == BLOCK
    ensures forall l :: 0 <= l < len && l < BLOCK ==> r[l] == Threshold(tops[start + l], k)
  {
    seq(BLOCK, l requires 0 <= l < BLOCK => if l < len then Threshold(tops[start + l], k) else Infinite)
  }

  /** The survivors of a block pair, with their distances in scratch. */
  ghost predicate Survivors(ctx: Context, rows: seq<Vec>, k: nat, tops: seq<seq<Entry>>, seeds: Seeds,
                            left: Block, right: Block, masks: seq<set<nat>>, dist: array2<real>)
    requires Leaf(ctx, rows, k, tops, seeds) && IsPair(rows, left, right)
    reads dist
  {
    && |masks| == left.len <= dist.Length0 && dist.Length1 == BLOCK
    && (forall i, l: nat {:trigger l in masks[i]} :: 0 <= i < left.len ==>
         (l in masks[i] <==> l < right.len && PairLives(ctx, rows, k, tops, seeds, left.start + i, right.start + l)))
    && (forall i, l: nat {:trigger dist[i, l]} :: 0 <= i < left.len && l < right.len && l in masks[i] ==>
         dist[i, l] == L2(rows[left.start + i], rows[right.start + l]))
  }

  /** The scan of a block pair starts from exactly the unseeded pairs of a left and a right row. */
  ghost predicate PairScan(scanned: set<Meeting>, seeds: Seeds, left: Block, right: Block)
    requires left.start + left.len <= |seeds|
  {
    forall a: nat, c: nat :: Meeting(a, c) in scanned <==>
      (left.start <= a < left.start + left.len && right.start <= c < right.start + right.len && c !in seeds[a])
  }

  lemma MasksScan(scanned: set<Meeting>, masks: seq<set<nat>>, seeds: Seeds, left: Block, right: Block)
    requires left.start + left.len <= |seeds| && |masks| == left.len
    requires scanned == MaskMeetings(left.start, right.start, masks)
    requires forall i, l: nat :: 0 <= i < left.len ==>
               (l in masks[i] <==> l < right.len && right.start + l !in seeds[left.start + i])
    ensures PairScan(scanned, seeds, left, right)
  {
    forall a: nat, c: nat
      ensures Meeting(a, c) in scanned <==>
              (left.start <= a < left.start + left.len && right.start <= c < right.start + right.len && c !in seeds[a])
    {
      if left.start <= a < left.start + left.len && right.start <= c {
        var i, l: nat := a - left.start, c - right.start;
        assert l in masks[i] <==> l < right.len && right.start + l !in seeds[left.start + i];
      }
    }
  }

  method FindSurvivors(ctx: Context, rows: seq<Vec>, k: nat, tops: seq<seq<Entry>>, seeds: Seeds,
                       left: Block, right: Block, dist: array2<real>, simd: bool, full64: nat, group16: nat)
    returns (masks: seq<set<nat>>, ghost scanned: set<Meeting>)
    requires Leaf(ctx, rows, k, tops, seeds) && IsPair(rows, left, right)
    requires IsBlock(right, rows, ctx.dim) && left.len <= dist.Length0 && dist.Length1 == BLOCK
    modifies dist
    ensures Survivors(ctx, rows, k, tops, seeds, left, right, masks, dist)
    ensures PairScan(scanned, seeds, left, right)
  {
    hide *;
    PairFacts(ctx, rows, k, tops, seeds, left, right);
    var queries := rows[left.start..left.start + left.len];
    var lefts := LaneBounds(tops, k, left.start, left.len)[..left.len];
    var rights := LaneBounds(tops, k, right.start, right.len);
    var masks0 := PairMasks(seeds, left, right);
    scanned := MaskMeetings(left.start, right.start, masks0);
    MasksScan(scanned, masks0, seeds, left, right);
    IsTile(ctx, rows, left, right);
    masks := PairGroups(ctx, queries, rows, right, lefts, rights, masks0, dist, simd, full64, group16);
    SurvivorsFound(ctx, rows, k, tops, seeds, left, right, queries, lefts, rights, masks0, masks, dist);
  }

  lemma PairFacts(ctx: Context, rows: seq<Vec>, k: nat, tops: seq<seq<Entry>>, seeds: Seeds, left: Block, right: Block)
    requires Leaf(ctx, rows, k, tops, seeds) && IsPair(rows, left, right)
    ensures ctx.Valid() && IsMatrix(rows, ctx.dim) && |tops| == |seeds| == |rows| && forall r :: 0 <= r < |tops| ==> |tops[r]| <= k
    ensures left.start + left.len <= |rows| && right.start + right.len <= |rows| && left.len <= BLOCK && right.len <= BLOCK
  {
  }

  lemma IsTile(ctx: Context, rows: seq<Vec>, left: Block, b: Block)
    requires ctx.Valid() && IsMatrix(rows, ctx.dim) && IsBlock(b, rows, ctx.dim) && left.start + left.len <= |rows|
    ensures Tile(ctx, rows[left.start..left.start + left.len], rows, b)
  {
  }

  lemma SurvivorsFound(ctx: Context, rows: seq<Vec>, k: nat, tops: seq<seq<Entry>>, seeds: Seeds, left: Block, right: Block,
                       queries: seq<Vec>, lefts: seq<Bound>, rights: seq<Bound>, masks0: seq<set<nat>>,
                       masks: seq<set<nat>>, dist: array2<real>)
    requires Leaf(ctx, rows, k, tops, seeds) && IsPair(rows, left, right) && IsBlock(right, rows, ctx.dim)
    requires left.len <= dist.Length0 && dist.Length1 == BLOCK && |rights| == BLOCK
    requires queries == rows[left.start..left.start + left.len] && Tile(ctx, queries, rows, right)
    requires |lefts| == |masks0| == |masks| == left.len
    requires forall i :: 0 <= i < left.len ==> lefts[i] == Threshold(tops[left.start + i], k)
    requires forall l :: 0 <= l < right.len ==> rights[l] == Threshold(tops[right.start + l], k)
    requires forall i, l: nat :: 0 <= i < left.len ==>
               (l in masks0[i] <==> l < right.len && right.start + l !in seeds[left.start + i])
    requires PairRows(ctx, queries, rows, right, lefts, rights, masks0, masks, dist, 0, |queries|, ctx.dim)
    ensures Survivors(ctx, rows, k, tops, seeds, left, right, masks, dist)
  {
    forall i, l: nat | 0 <= i < left.len
      ensures l in masks[i] <==> l < right.len && PairLives(ctx, rows, k, tops, seeds, left.start + i, right.start + l)
      ensures l in masks[i] && l < right.len ==> dist[i, l] == L2(rows[left.start + i], rows[right.start + l])
    {
      assert queries[i] == rows[left.start + i];
      assert PairRow(ctx, queries[i], rows, right, lefts[i], rights, masks0[i], masks[i], ctx.dim, dist, i);
    }
  }

  /** The lists while left row i has been offered the first l right rows. */
  ghost predicate CommitAt(ctx: Context, rows: seq<Vec>, k: nat, tops: seq<seq<Entry>>, seeds: Seeds,
                           left: Block, right: Block, next: seq<seq<Entry>>, i: nat, l: nat)
    requires Leaf(ctx, rows, k, tops, seeds) && IsPair(rows, left, right)
  {
    && |next| == |tops|
    && (forall r {:trigger next[r]} :: 0 <= r < |next| ==>
          next[r] == if left.start <= r < left.start + left.len
                     then PairLanes(ctx, rows, k, tops, seeds, r, right.start, LeftDone(right.len, r - left.start, i, l))
                     else if right.start <= r < right.start + right.len
                     then PairLanes(ctx, rows, k, tops, seeds, r, left.start, RightDone(r - right.start, i, l))
                     else tops[r])
  }

  function LeftDone(len: nat, x: nat, i: nat, l: nat): nat {
    if x < i then len else if x == i then l else 0
  }

  function RightDone(j: nat, i: nat, l: nat): nat {
    if j < l then i + 1 else i
  }

  /** Offering one surviving pair to both of its rows, or passing over a dead one. */
  lemma CommitStep(ctx: Context, rows: seq<Vec>, k: nat, tops: seq<seq<Entry>>, seeds: Seeds,
                   left: Block, right: Block, next: seq<seq<Entry>>, i: nat, l: nat)
    requires Leaf(ctx, rows, k, tops, seeds) && IsPair(rows, left, right) && i < left.len && l < right.len
    requires CommitAt(ctx, rows, k, tops, seeds, left, right, next, i, l)
    ensures var a, c := left.start + i, right.start + l;
            |next[a]| <= k && |next[c]| <= k &&
            CommitAt(ctx, rows, k, tops, seeds, left, right,
                     if PairLives(ctx, rows, k, tops, seeds, a, c)
                     then next[a := Push(next[a], k, Entry(L2(rows[a], rows[c]), c))]
                              [c := Push(next[c], k, Entry(L2(rows[a], rows[c]), a))]
                     else next, i, l + 1)
  {
    hide PairLives, L2, Push;
    var a, c := left.start + i, right.start + l;
    PairSym(ctx, rows, k, tops, seeds, a, c);
    assert next[a] == PairLanes(ctx, rows, k, tops, seeds, a, right.start, l);
    assert next[c] == PairLanes(ctx, rows, k, tops, seeds, c, left.start, i);
  }

  /** Offers every survivor to both rows, left row by left row. */
  method CommitPairs(ghost ctx: Context, ghost rows: seq<Vec>, k: nat, tops: seq<seq<Entry>>, ghost seeds: Seeds,
                     left: Block, right: Block, masks: seq<set<nat>>, dist: array2<real>) returns (next: seq<seq<Entry>>)
    requires Leaf(ctx, rows, k, tops, seeds) && IsPair(rows, left, right)
    requires Survivors(ctx, rows, k, tops, seeds, left, right, masks, dist)
    ensures CommitAt(ctx, rows, k, tops, seeds, left, right, next, left.len, 0)
  {
    hide *;
    PairFacts(ctx, rows, k, tops, seeds, left, right);
    CommitStart(ctx, rows, k, tops, seeds, left, right);
    next := tops;
    for i := 0 to left.len
      invariant |next| == |tops| && CommitAt(ctx, rows, k, tops, seeds, left, right, next, i, 0)
    {
      for l := 0 to right.len
        invariant |next| == |tops| && CommitAt(ctx, rows, k, tops, seeds, left, right, next, i, l)
      {
        PairOrder(rows, left, right);
        SurvivorAt(ctx, rows, k, tops, seeds, left, right, masks, dist, i, l);
        CommitStep(ctx, rows, k, tops, seeds, left, right, next, i, l);
        if l in masks[i] {
          var a, c := left.start + i, right.start + l;
          var d := dist[i, l];
          next := next[a := Push(next[a], k, Entry(d, c))][c := Push(next[c], k, Entry(d, a))];
        }
      }
      RowDone(ctx, rows, k, tops, seeds, left, right, next, i);
    }
  }

  lemma PairOrder(rows: seq<Vec>, left: Block, right: Block)
    requires IsPair(rows, left, right)
    ensures left.start + left.len <= right.start
  {
  }

  lemma CommitStart(ctx: Context, rows: seq<Vec>, k: nat, tops: seq<seq<Entry>>, seeds: Seeds, left: Block, right: Block)
    requires Leaf(ctx, rows, k, tops, seeds) && IsPair(rows, left, right)
    ensures CommitAt(ctx, rows, k, tops, seeds, left, right, tops, 0, 0)
  {
  }

  lemma SurvivorAt(ctx: Context, rows: seq<Vec>, k: nat, tops: seq<seq<Entry>>, seeds: Seeds, left: Block, right: Block,
                   masks: seq<set<nat>>, dist: array2<real>, i: nat, l: nat)
    requires Leaf(ctx, rows, k, tops, seeds) && IsPair(rows, left, right) && i < left.len && l < right.len
    requires Survivors(ctx, rows, k, tops, seeds, left, right, masks, dist)
    ensures |masks| == left.len && i < dist.Length0 && l < dist.Length1
    ensures l in masks[i] <==> PairLives(ctx, rows, k, tops, seeds, left.start + i, right.start + l)
    ensures l in masks[i] ==> dist[i, l] == L2(rows[left.start + i], rows[right.start + l])
  {
    hide PairLives;
  }

  lemma RowDone(ctx: Context, rows: seq<Vec>, k: nat, tops: seq<seq<Entry>>, seeds: Seeds,
                left: Block, right: Block, next: seq<seq<Entry>>, i: nat)
    requires Leaf(ctx, rows, k, tops, seeds) && IsPair(rows, left, right) && i < left.len
    requires CommitAt(ctx, rows, k, tops, seeds, left, right, next, i, right.len)
    ensures CommitAt(ctx, rows, k, tops, seeds, left, right, next, i + 1, 0)
  {
    hide PairLanes;
  }
}
