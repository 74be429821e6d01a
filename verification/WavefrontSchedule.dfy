/**
 The whole wavefront: wave w pairs every earlier block with block w, then scans block w against
 itself. The lists follow the specification visit by visit, and every offer is logged.
 */
module WavefrontSchedule {
  import opened Basics
  import opened TopK
  import opened AdsSpec
  import opened AdsKernel
  import opened AdsLeaf
  import opened Wavefront
  import opened WavefrontRun
  import opened WaveOrder
  import opened WaveLog
  import opened WaveSpec

  // ----- what a visit logs -----------------------------------------------------------------------------

  /** Candidate c lies in block b and is neither the row itself nor a seed of it. */
  ghost predicate Opens(seeds: Seeds, a: nat, b: nat, c: nat)
    requires a < |seeds|
  {
    BlockStart(b) <= c < BlockStart(b) + BLOCK && c < |seeds| && c !in seeds[a] && c != a
  }

  /** In a visit, row a is offered candidate c. */
  ghost predicate Offers(seeds: Seeds, v: Visit, a: nat, c: nat) {
    a < |seeds| && ((Home(v.left, a) && Opens(seeds, a, v.right, c)) || (Home(v.right, a) && Opens(seeds, a, v.left, c)))
  }

  /** A visit logs each of its offers once, and nothing else. */
  ghost predicate VisitLogged(log: Log, log': Log, seeds: Seeds, v: Visit) {
    forall a: nat, c: nat :: Times(log', a, c) == Times(log, a, c) + Once(Offers(seeds, v, a, c))
  }

  // ----- off-diagonal block pair -------------------------------------------------------------------------

  /** Lanes beyond the last row receive nothing. */
  lemma {:induction false} PairLanesTail(ctx: Context, rows: seq<Vec>, k: nat, tops: seq<seq<Entry>>, seeds: Seeds,
                                         a: nat, start: nat, len: nat, lanes: nat)
    requires Leaf(ctx, rows, k, tops, seeds) && a < |rows|
    requires len <= lanes && (len == lanes || start + len >= |rows|)
    ensures PairLanes(ctx, rows, k, tops, seeds, a, start, lanes) == PairLanes(ctx, rows, k, tops, seeds, a, start, len)
  {
    if len < lanes {
      PairLanesTail(ctx, rows, k, tops, seeds, a, start, len, lanes - 1);
    }
  }

  lemma PairShape(blocks: seq<Block>, rows: seq<Vec>, dim: nat, lb: nat, rb: nat)
    requires IsLayout(blocks, rows, dim) && lb < rb < |blocks|
    ensures IsPair(rows, blocks[lb], blocks[rb]) && IsBlock(blocks[rb], rows, dim) && blocks[lb].len == BLOCK
    ensures blocks[lb].start == BlockStart(lb) && blocks[rb].start == BlockStart(rb)
    ensures blocks[rb].len == BLOCK || blocks[rb].start + blocks[rb].len == |rows|
  {
    assert BlockStart(rb) <= BlockStart(|blocks| - 1) < |rows|;
  }

  /** Committing the survivors of a block pair is the visit. */
  lemma CommitIsVisit(ctx: Context, rows: seq<Vec>, k: nat, tops: seq<seq<Entry>>, seeds: Seeds, blocks: seq<Block>,
                      lb: nat, rb: nat, next: seq<seq<Entry>>)
    requires Leaf(ctx, rows, k, tops, seeds) && IsLayout(blocks, rows, ctx.dim) && lb < rb < |blocks|
    requires IsPair(rows, blocks[lb], blocks[rb])
    requires CommitAt(ctx, rows, k, tops, seeds, blocks[lb], blocks[rb], next, blocks[lb].len, 0)
    ensures next == AfterVisit(ctx, rows, k, tops, seeds, Visit(lb, rb))
  {
    var left, right, v := blocks[lb], blocks[rb], Visit(lb, rb);
    PairShape(blocks, rows, ctx.dim, lb, rb);
    assert |next| == |rows|;
    hide PairLanes, IsLayout, DiagonalRow;
    forall r | 0 <= r < |rows|
      ensures next[r] == VisitRow(ctx, rows, k, tops, seeds, v, r)
    {
      if Home(lb, r) {
        PairLanesTail(ctx, rows, k, tops, seeds, r, right.start, right.len, BLOCK);
      }
    }
  }

  lemma PairIsLogged(log: Log, scanned: set<Meeting>, rows: seq<Vec>, dim: nat, seeds: Seeds, blocks: seq<Block>, lb: nat, rb: nat)
    requires IsLayout(blocks, rows, dim) && lb < rb < |blocks| && SeedsOk(seeds, |rows|)
    requires IsPair(rows, blocks[lb], blocks[rb]) && PairScan(scanned, seeds, blocks[lb], blocks[rb])
    ensures VisitLogged(log, log + multiset(scanned) + multiset(Flip(scanned)), seeds, Visit(lb, rb))
  {
    hide IsPair, IsLayout, PairScan, Flip;
    forall a: nat, c: nat
      ensures Times(log + multiset(scanned) + multiset(Flip(scanned)), a, c)
              == Times(log, a, c) + Once(Offers(seeds, Visit(lb, rb), a, c))
    {
      TimesAdd(log, scanned, a, c);
      TimesAdd(log + multiset(scanned), Flip(scanned), a, c);
      PairOffers(scanned, rows, dim, seeds, blocks, lb, rb, a, c);
    }
  }

  /** The scanned pairs, in both directions, are the visit's offers. */
  lemma PairOffers(scanned: set<Meeting>, rows: seq<Vec>, dim: nat, seeds: Seeds, blocks: seq<Block>, lb: nat, rb: nat, a: nat, c: nat)
    requires IsLayout(blocks, rows, dim) && lb < rb < |blocks| && SeedsOk(seeds, |rows|)
    requires IsPair(rows, blocks[lb], blocks[rb]) && PairScan(scanned, seeds, blocks[lb], blocks[rb])
    ensures Once(Meeting(a, c) in scanned) + Once(Meeting(a, c) in Flip(scanned)) == Once(Offers(seeds, Visit(lb, rb), a, c))
  {
    PairShape(blocks, rows, dim, lb, rb);
    hide IsLayout;
    assert Meeting(a, c) in Flip(scanned) <==> Meeting(c, a) in scanned;
    if a < |rows| && c < |rows| {
      assert c in seeds[a] <==> a in seeds[c] by {
        assert c in seeds[a] ==> PairOk(seeds, |rows|, a, c);
        assert a in seeds[c] ==> PairOk(seeds, |rows|, c, a);
      }
    }
  }

  /** `run_leaf_wavefront_offdiag_pair` */
  method OffDiagonal(ctx: Context, rows: seq<Vec>, blocks: seq<Block>, lb: nat, rb: nat, seeds: Seeds, k: nat,
                     tops: seq<seq<Entry>>, dist: array2<real>, simd: bool, full64: nat, group16: nat, ghost log: Log)
    returns (next: seq<seq<Entry>>, ghost log': Log)
    requires Leaf(ctx, rows, k, tops, seeds) && IsLayout(blocks, rows, ctx.dim) && lb < rb < |blocks|
    requires dist.Length0 == dist.Length1 == BLOCK
    modifies dist
    ensures next == AfterVisit(ctx, rows, k, tops, seeds, Visit(lb, rb))
    ensures VisitLogged(log, log', seeds, Visit(lb, rb))
  {
    PairShape(blocks, rows, ctx.dim, lb, rb);
    LeafSeedsOk(ctx, rows, k, tops, seeds);
    hide *;
    var masks, scanned := FindSurvivors(ctx, rows, k, tops, seeds, blocks[lb], blocks[rb], dist, simd, full64, group16);
    next := CommitPairs(ctx, rows, k, tops, seeds, blocks[lb], blocks[rb], masks, dist);
    CommitIsVisit(ctx, rows, k, tops, seeds, blocks, lb, rb, next);
    log' := log + multiset(scanned) + multiset(Flip(scanned));
    PairIsLogged(log, scanned, rows, ctx.dim, seeds, blocks, lb, rb);
  }

  lemma LeafSeedsOk(ctx: Context, rows: seq<Vec>, k: nat, tops: seq<seq<Entry>>, seeds: Seeds)
    requires Leaf(ctx, rows, k, tops, seeds)
    ensures ctx.Valid() && IsMatrix(rows, ctx.dim) && |tops| == |rows| == |seeds| && SeedsOk(seeds, |rows|)
  {
  }

  // ----- diagonal block ------------------------------------------------------------------------------

  /** The lanes of a row's own block: not itself, not seeded. */
  method DiagonalMask(seeds: Seeds, row: nat, b: Block, n: nat) returns (mask: set<nat>)
    requires row < n == |seeds| && b.start < n && b.len == MinNat(BLOCK, n - b.start)
    requires b.start <= row < b.start + b.len
    ensures mask == LanesOf(b.start, n, seeds[row] + {row})
    ensures forall l :: l in mask ==> l < b.len
  {
    hide LenMask;
    mask := LenMask(b.len) - {row - b.start};
    for l := 0 to b.len
      invariant forall m: nat :: m in mask <==>
                  (m < b.len && b.start + m != row && !(m < l && b.start + m in seeds[row]))
    {
      if b.start + l in seeds[row] {
        mask := mask - {l};
      }
    }
    ghost var lanes := LanesOf(b.start, n, seeds[row] + {row});
    forall l: nat
      ensures l in mask <==> l in lanes
    {
      assert l in lanes <==> l < BLOCK && IsOpen(b.start, l, n, seeds[row] + {row});
    }
  }

  ghost predicate DiagonalAt(ctx: Context, rows: seq<Vec>, k: nat, tops: seq<seq<Entry>>, seeds: Seeds, b: Block,
                             next: seq<seq<Entry>>, done: nat)
    requires Leaf(ctx, rows, k, tops, seeds)
  {
    && |next| == |tops|
    && (forall r :: 0 <= r < |next| ==>
          next[r] == if b.start <= r < b.start + done then DiagonalRow(ctx, rows, k, tops, seeds, b.start, r) else tops[r])
  }

  method DiagonalMasks(seeds: Seeds, from: nat, count: nat, b: Block, n: nat) returns (masks: seq<set<nat>>)
    requires n == |seeds| && b.start < n && b.len == MinNat(BLOCK, n - b.start)
    requires b.start <= from && from + count <= b.start + b.len
    ensures |masks| == count && Fits(masks, b)
    ensures forall i :: 0 <= i < count ==> masks[i] == LanesOf(b.start, n, seeds[from + i] + {from + i})
  {
    masks := [];
    for i := 0 to count
      invariant |masks| == i && Fits(masks, b)
      invariant forall j :: 0 <= j < i ==> masks[j] == LanesOf(b.start, n, seeds[from + j] + {from + j})
    {
      var mask := DiagonalMask(seeds, from + i, b, n);
      masks := masks + [mask];
    }
  }

  /** Up to eight rows of a diagonal block. */
  method DiagonalTile(ctx: Context, rows: seq<Vec>, b: Block, seeds: Seeds, k: nat, ghost tops: seq<seq<Entry>>,
                      next: seq<seq<Entry>>, done: nat, count: nat, dist: array2<real>,
                      simd: bool, full64: nat, group16: nat)
    returns (after: seq<seq<Entry>>, ghost scanned: set<Meeting>)
    requires Leaf(ctx, rows, k, tops, seeds) && IsBlock(b, rows, ctx.dim)
    requires b.start < |rows| && b.len == MinNat(BLOCK, |rows| - b.start)
    requires done + count <= b.len && count <= dist.Length0 && dist.Length1 == BLOCK
    requires DiagonalAt(ctx, rows, k, tops, seeds, b, next, done)
    modifies dist
    ensures DiagonalAt(ctx, rows, k, tops, seeds, b, after, done + count)
    ensures forall w :: b.start == BlockStart(w) ==> TileScan(scanned, seeds, w, b.start + done, count)
  {
    var from := b.start + done;
    var masks := DiagonalMasks(seeds, from, count, b, |rows|);
    scanned := MaskMeetings(from, b.start, masks);
    forall w | b.start == BlockStart(w)
      ensures TileScan(scanned, seeds, w, from, count)
    {
      MasksTile(scanned, masks, seeds, w, from, count);
    }
    hide TileScan, MaskMeetings;
    var lists, pruned, full := ScanBlockTile(ctx, rows[from..from + count], rows, b, k, next[from..from + count], masks,
                                             dist, simd, full64, group16);
    after := next[..from] + lists + next[from + count..];
    hide BlockStep, LanesOf;
  }

  method Diagonal(ctx: Context, rows: seq<Vec>, blocks: seq<Block>, w: nat, seeds: Seeds, k: nat,
                  tops: seq<seq<Entry>>, dist: array2<real>, simd: bool, full64: nat, group16: nat, ghost log: Log)
    returns (next: seq<seq<Entry>>, ghost log': Log)
    requires Leaf(ctx, rows, k, tops, seeds) && IsLayout(blocks, rows, ctx.dim) && w < |blocks|
    requires dist.Length0 == dist.Length1 == BLOCK
    modifies dist
    ensures next == AfterVisit(ctx, rows, k, tops, seeds, Visit(w, w))
    ensures VisitLogged(log, log', seeds, Visit(w, w))
  {
    var b := blocks[w];
    BlockShape(blocks, rows, ctx.dim, w);
    next, log' := tops, log;
    var done := 0;
    NothingDone(log, seeds, b, w);
    while done < b.len
      invariant done <= b.len
      invariant DiagonalAt(ctx, rows, k, tops, seeds, b, next, done)
      invariant DiagonalLogged(log, log', seeds, b, w, done)
    {
      hide DiagonalAt, DiagonalLogged, TileScan, Leaf, IsLayout;
      var count := MinNat(TILE, b.len - done);
      ghost var scanned;
      next, scanned := DiagonalTile(ctx, rows, b, seeds, k, tops, next, done, count, dist, simd, full64, group16);
      TileLogged(log, log', scanned, seeds, b, w, done, count);
      log' := log' + multiset(scanned);
      done := done + count;
    }
    DiagonalIsVisit(ctx, rows, k, tops, seeds, b, w, next);
    DiagonalIsLogged(log, log', seeds, b, w, |rows|);
  }

  lemma BlockShape(blocks: seq<Block>, rows: seq<Vec>, dim: nat, w: nat)
    requires IsLayout(blocks, rows, dim) && w < |blocks|
    ensures var b := blocks[w];
            b.start == BlockStart(w) < |rows| && b.len == MinNat(BLOCK, |rows| - b.start) && IsBlock(b, rows, dim)
  {
    assert BlockStart(w) <= BlockStart(|blocks| - 1) < |rows|;
  }

  lemma DiagonalIsVisit(ctx: Context, rows: seq<Vec>, k: nat, tops: seq<seq<Entry>>, seeds: Seeds, b: Block, w: nat, next: seq<seq<Entry>>)
    requires Leaf(ctx, rows, k, tops, seeds) && b.start == BlockStart(w) < |rows| && b.len == MinNat(BLOCK, |rows| - b.start)
    requires DiagonalAt(ctx, rows, k, tops, seeds, b, next, b.len)
    ensures next == AfterVisit(ctx, rows, k, tops, seeds, Visit(w, w))
  {
    hide DiagonalRow;
    assert |next| == |rows|;
  }

  lemma DiagonalIsLogged(log: Log, log': Log, seeds: Seeds, b: Block, w: nat, n: nat)
    requires DiagonalLogged(log, log', seeds, b, w, b.len) && n == |seeds|
    requires b.start == BlockStart(w) < n && b.len == MinNat(BLOCK, n - b.start)
    ensures VisitLogged(log, log', seeds, Visit(w, w))
  {
    hide Opens;
    forall a: nat, c: nat
      ensures Times(log', a, c) == Times(log, a, c) + Once(Offers(seeds, Visit(w, w), a, c))
    {
      assert Times(log', a, c) == Times(log, a, c) + Once(TileOpens(seeds, w, b.start, b.len, a, c));
    }
  }

  /** The first rows of a diagonal block have met what their block opens. */
  ghost predicate DiagonalLogged(log0: Log, log: Log, seeds: Seeds, b: Block, w: nat, done: nat) {
    forall a: nat, c: nat :: Times(log, a, c) == Times(log0, a, c) + Once(TileOpens(seeds, w, b.start, done, a, c))
  }

  /** Row a is one of `count` rows from `from`, and block w opens c to it. */
  ghost predicate TileOpens(seeds: Seeds, w: nat, from: nat, count: nat, a: nat, c: nat) {
    from <= a < from + count && a < |seeds| && Opens(seeds, a, w, c)
  }

  lemma NothingDone(log: Log, seeds: Seeds, b: Block, w: nat)
    ensures DiagonalLogged(log, log, seeds, b, w, 0)
  {
    assert forall a: nat, c: nat :: !TileOpens(seeds, w, b.start, 0, a, c);
  }

  lemma TileLogged(log0: Log, log: Log, scanned: set<Meeting>, seeds: Seeds, b: Block, w: nat, done: nat, count: nat)
    requires DiagonalLogged(log0, log, seeds, b, w, done) && TileScan(scanned, seeds, w, b.start + done, count)
    ensures DiagonalLogged(log0, log + multiset(scanned), seeds, b, w, done + count)
  {
    hide Opens;
    forall a: nat, c: nat
      ensures Times(log + multiset(scanned), a, c)
              == Times(log0, a, c) + Once(TileOpens(seeds, w, b.start, done + count, a, c))
    {
      TimesAdd(log, scanned, a, c);
      assert Times(log, a, c) == Times(log0, a, c) + Once(TileOpens(seeds, w, b.start, done, a, c));
    }
  }

  /** A tile of a diagonal block starts from exactly what the block opens to its rows. */
  ghost predicate TileScan(scanned: set<Meeting>, seeds: Seeds, w: nat, from: nat, count: nat) {
    forall a: nat, c: nat :: Meeting(a, c) in scanned <==> TileOpens(seeds, w, from, count, a, c)
  }

  lemma MasksTile(scanned: set<Meeting>, masks: seq<set<nat>>, seeds: Seeds, w: nat, from: nat, count: nat)
    requires |masks| == count && from + count <= |seeds| && scanned == MaskMeetings(from, BlockStart(w), masks)
    requires forall i :: 0 <= i < count ==> masks[i] == LanesOf(BlockStart(w), |seeds|, seeds[from + i] + {from + i})
    ensures TileScan(scanned, seeds, w, from, count)
  {
    forall a: nat, c: nat
      ensures Meeting(a, c) in scanned <==> TileOpens(seeds, w, from, count, a, c)
    {
      if from <= a < from + count && BlockStart(w) <= c {
        LaneOpens(seeds, a, w, c);
        assert masks[a - from] == LanesOf(BlockStart(w), |seeds|, seeds[a] + {a});
      }
    }
  }

  lemma LaneOpens(seeds: Seeds, a: nat, w: nat, c: nat)
    requires a < |seeds| && BlockStart(w) <= c
    ensures c - BlockStart(w) in LanesOf(BlockStart(w), |seeds|, seeds[a] + {a}) <==> Opens(seeds, a, w, c)
  {
    assert IsOpen(BlockStart(w), c - BlockStart(w), |seeds|, seeds[a] + {a}) <==> (c < |seeds| && c !in seeds[a] && c != a);
  }

  // ----- the log of a run -----------------------------------------------------------------------------

  /** Meeting one block more adds exactly the candidates it opens, and they are new. */
  lemma SeenNext(seeds: Seeds, a: nat, b: nat, c: nat)
    requires a < |seeds|
    ensures c in Seen(seeds, a, |seeds|, b + 1) <==> c in Seen(seeds, a, |seeds|, b) || Opens(seeds, a, b, c)
    ensures !(c in Seen(seeds, a, |seeds|, b) && Opens(seeds, a, b, c))
  {
  }

  /** The block of a row. */
  ghost function HomeOf(a: nat): (b: nat)
    ensures Home(b, a)
  {
    a / 64
  }

  /** Every row has met exactly the candidates it has considered, each once. */
  ghost predicate Logged(log: Log, seeds: Seeds, vs: seq<Visit>) {
    forall a: nat, c: nat :: Times(log, a, c) == Once(Considered(seeds, vs, a, c))
  }

  ghost predicate Considered(seeds: Seeds, vs: seq<Visit>, a: nat, c: nat) {
    a < |seeds| && c in Seen(seeds, a, |seeds|, |Meetings(vs, HomeOf(a))|)
  }

  /** The next visit of the schedule offers a row exactly what it has not considered yet. */
  lemma OffersNext(seeds: Seeds, blocks: nat, p: nat, a: nat, c: nat)
    requires p < |Schedule(blocks)|
    ensures var vs, v := Schedule(blocks), Schedule(blocks)[p];
            Once(Considered(seeds, vs[..p + 1], a, c)) == Once(Considered(seeds, vs[..p], a, c)) + Once(Offers(seeds, v, a, c))
  {
    var vs, v, home := Schedule(blocks), Schedule(blocks)[p], HomeOf(a);
    var met := Meetings(vs[..p], home);
    assert vs[..p + 1] == vs[..p] + [v];
    MetSoFar(blocks, p, home);
    MetSoFar(blocks, p + 1, home);
    MeetingsSnoc(vs[..p], v, home);
    MetNext(met, v, home);
    assert Home(v.left, a) <==> v.left == home;
    assert Home(v.right, a) <==> v.right == home;
    if a < |seeds| {
      SeenNext(seeds, a, |met|, c);
    }
    hide Meetings, Schedule, Seen, Opens, Upto, HomeOf, Home;
  }

  lemma VisitKeepsLogged(log: Log, log': Log, seeds: Seeds, blocks: nat, p: nat)
    requires p < |Schedule(blocks)| && Logged(log, seeds, Schedule(blocks)[..p])
    requires VisitLogged(log, log', seeds, Schedule(blocks)[p])
    ensures Logged(log', seeds, Schedule(blocks)[..p + 1])
  {
    hide Considered, Offers, Schedule;
    forall a: nat, c: nat
      ensures Times(log', a, c) == Once(Considered(seeds, Schedule(blocks)[..p + 1], a, c))
    {
      OffersNext(seeds, blocks, p, a, c);
      assert Times(log, a, c) == Once(Considered(seeds, Schedule(blocks)[..p], a, c));
      assert Times(log', a, c) == Times(log, a, c) + Once(Offers(seeds, Schedule(blocks)[p], a, c));
    }
  }

  lemma SeedsStart(log: Log, seeds: Seeds)
    requires SeedsLogged(log, seeds)
    ensures Logged(log, seeds, [])
  {
    forall a: nat, c: nat
      ensures Times(log, a, c) == Once(Considered(seeds, [], a, c))
    {
      assert Times(log, a, c) == Once(a < |seeds| && c in seeds[a]);
    }
  }

  /** Each ordered pair of distinct rows has been met exactly once, and no row has met itself. */
  ghost predicate EachPairOnce(log: Log, n: nat) {
    forall a: nat, c: nat :: Times(log, a, c) == Once(a < n && c < n && a != c)
  }

  lemma AllSeen(seeds: Seeds, r: nat, n: nat)
    requires SeedsOk(seeds, n) && r < n
    ensures Seen(seeds, r, n, BlockCount(n)) == UpTo(n) - {r}
  {
    hide UpTo;
    forall c: nat | c in seeds[r]
      ensures c < n && c != r
    {
      assert PairOk(seeds, n, r, c);
    }
  }

  /** A row whose home is one of the blocks has met all of them at the end. */
  lemma AllMet(n: nat, a: nat)
    requires a < n
    ensures HomeOf(a) < BlockCount(n) && |Meetings(Schedule(BlockCount(n)), HomeOf(a))| == BlockCount(n)
  {
    MeetsInOrder(BlockCount(n), HomeOf(a));
    UptoLen(BlockCount(n));
  }

  lemma AllLogged(log: Log, seeds: Seeds, n: nat)
    requires SeedsOk(seeds, n) && |seeds| == n && Logged(log, seeds, Schedule(BlockCount(n)))
    ensures EachPairOnce(log, n)
  {
    hide Seen, SeedsOk, Meetings, Schedule;
    forall a: nat, c: nat
      ensures Times(log, a, c) == Once(a < n && c < n && a != c)
    {
      assert Times(log, a, c) == Once(Considered(seeds, Schedule(BlockCount(n)), a, c));
      if a < n {
        AllMet(n, a);
        AllSeen(seeds, a, n);
      }
    }
  }

  // ----- the run ----------------------------------------------------------------------------------------

  /** The history of a run: seeds and lists after seeding, the visits, and every offer. */
  datatype History = History(seeds: Seeds, seeded: seq<seq<Entry>>, visits: seq<Visit>, log: Log)

  /** The lists of a run are those of its visits, and visits and seeds are the prescribed ones. */
  ghost predicate IsHistory(ctx: Context, rows: seq<Vec>, k: nat, seedExact: nat, tops: seq<seq<Entry>>, h: History) {
    && Leaf(ctx, rows, k, h.seeded, h.seeds) && SeedsAre(h.seeds, |rows|, seedExact)
    && RowsBest(rows, ctx.dim, k, h.seeded, h.seeds, Conservative(ctx, 0))
    && h.visits == Schedule(BlockCount(|rows|))
    && tops == AfterVisits(ctx, rows, k, h.seeded, h.seeds, h.visits)
  }

  /**
   `compute_leaf_adsampling_topk_l2_wavefront_pairmask`: for any ratios every row ends with
   min(max(k, 1), 32, n - 1) other rows, sorted, each once, with true distances; with conservative ratios
   they are nearest ones, with the distances of the brute-force scan. Each ordered pair of distinct
   rows is seeded or scanned exactly once.
   */
  method WavefrontTopK(ctx: Context, rows: seq<Vec>, k0: nat, seedExact0: nat, simd: bool, full64: nat, group16: nat)
    returns (tops: seq<seq<Entry>>, ghost h: History)
    requires ctx.Valid() && IsMatrix(rows, ctx.dim)
    ensures |tops| == |rows| && EachPairOnce(h.log, |rows|)
    ensures IsHistory(ctx, rows, LeafK(k0, |rows|), LeafSeeds(seedExact0, |rows|), tops, h)
    ensures forall r :: 0 <= r < |rows| ==>
              Best(tops[r], LeafK(k0, |rows|), UpTo(|rows|) - {r}, Distances(rows[r], rows), Conservative(ctx, 0))
    ensures forall r :: 0 <= r < |rows| ==>
              |tops[r]| == (var want := if k0 < 1 then 1 else if 32 < k0 then 32 else k0; if want < |rows| - 1 then want else |rows| - 1)
    ensures Conservative(ctx, 0) ==> forall r :: 0 <= r < |rows| ==>
              SameDistances(tops[r], BruteForce(Distances(rows[r], rows), r, |tops[r]|, |rows|))
  {
    hide *;
    var n := |rows|;
    var k, seedExact := LeafK(k0, n), LeafSeeds(seedExact0, n);
    var blocks := BuildLayout(rows, ctx.dim);
    var seeds;
    ghost var log;
    tops, seeds, log := MutualSeed(rows, ctx.dim, k, seedExact, Conservative(ctx, 0));
    LeafStarts(ctx, rows, k, tops, seeds, Conservative(ctx, 0));
    ghost var seeded, all := tops, Schedule(BlockCount(n));
    LayoutSize(blocks, rows, ctx.dim);
    var dist := new real[BLOCK, BLOCK];
    ghost var visits: seq<Visit> := [];
    ScheduleStarts();
    NoVisits(ctx, rows, k, seeded, seeds);
    SeedsStart(log, seeds);
    for w := 0 to |blocks|
      invariant visits == Schedule(w) && Logged(log, seeds, visits)
      invariant tops == AfterVisits(ctx, rows, k, seeded, seeds, visits)
    {
      WaveStarts(w);
      for l := 0 to w
        invariant visits == Schedule(w) + Wave(w, l) && Logged(log, seeds, visits)
        invariant tops == AfterVisits(ctx, rows, k, seeded, seeds, visits)
      {
        ghost var log0 := log;
        tops, log := OffDiagonal(ctx, rows, blocks, l, w, seeds, k, tops, dist, simd, full64, group16, log);
        VisitIn(|blocks|, w, l);
        WaveGoesOn(w, l);
        OneMore(ctx, rows, k, seeded, seeds, visits, Visit(l, w));
        VisitKeepsLogged(log0, log, seeds, |blocks|, |visits|);
        visits := visits + [Visit(l, w)];
      }
      ghost var log0 := log;
      tops, log := Diagonal(ctx, rows, blocks, w, seeds, k, tops, dist, simd, full64, group16, log);
      VisitIn(|blocks|, w, w);
      WaveEnds(w);
      OneMore(ctx, rows, k, seeded, seeds, visits, Visit(w, w));
      VisitKeepsLogged(log0, log, seeds, |blocks|, |visits|);
      visits := visits + [Visit(w, w)];
    }
    h := History(seeds, seeded, visits, log);
    IsRun(ctx, rows, k, seedExact, tops, h);
    LeafSeedsOk(ctx, rows, k, seeded, seeds);
    AllLogged(log, seeds, n);
    forall r | 0 <= r < n
      ensures Best(tops[r], k, UpTo(n) - {r}, Distances(rows[r], rows), Conservative(ctx, 0))
      ensures |tops[r]| == (var want := if k0 < 1 then 1 else if 32 < k0 then 32 else k0; if want < |rows| - 1 then want else |rows| - 1)
      ensures Conservative(ctx, 0) ==> SameDistances(tops[r], BruteForce(Distances(rows[r], rows), r, |tops[r]|, n))
    {
      RunRow(ctx, rows, k, seedExact, tops, h, r);
      LeafCount(tops[r], Distances(rows[r], rows), r, k0, Conservative(ctx, 0));
    }
  }

  lemma IsRun(ctx: Context, rows: seq<Vec>, k: nat, seedExact: nat, tops: seq<seq<Entry>>, h: History)
    requires Leaf(ctx, rows, k, h.seeded, h.seeds) && SeedsAre(h.seeds, |rows|, seedExact)
    requires RowsBest(rows, ctx.dim, k, h.seeded, h.seeds, Conservative(ctx, 0))
    requires h.visits == Schedule(BlockCount(|rows|))
    requires tops == AfterVisits(ctx, rows, k, h.seeded, h.seeds, h.visits)
    ensures IsHistory(ctx, rows, k, seedExact, tops, h)
  {
  }

  lemma LayoutSize(blocks: seq<Block>, rows: seq<Vec>, dim: nat)
    requires IsLayout(blocks, rows, dim)
    ensures |blocks| == BlockCount(|rows|)
  {
  }

  lemma LeafStarts(ctx: Context, rows: seq<Vec>, k: nat, tops: seq<seq<Entry>>, seeds: Seeds, exact: bool)
    requires ctx.Valid() && IsMatrix(rows, ctx.dim) && SeedsOk(seeds, |rows|) && RowsBest(rows, ctx.dim, k, tops, seeds, exact)
    ensures Leaf(ctx, rows, k, tops, seeds)
  {
    hide Sound, Complete, Distances;
  }

  /** At the end of a run a row is best for all other rows. */
  lemma RunRow(ctx: Context, rows: seq<Vec>, k: nat, seedExact: nat, tops: seq<seq<Entry>>, h: History, r: nat)
    requires IsHistory(ctx, rows, k, seedExact, tops, h) && r < |rows| == |tops|
    ensures Best(tops[r], k, UpTo(|rows|) - {r}, Distances(rows[r], rows), Conservative(ctx, 0))
    ensures Conservative(ctx, 0) ==> SameDistances(tops[r], BruteForce(Distances(rows[r], rows), r, k, |rows|))
  {
    var exact, vs, n := Conservative(ctx, 0), h.visits, |rows|;
    assert IsHistory(ctx, rows, k, seedExact, tops, h);
    LeafSeedsOk(ctx, rows, k, h.seeded, h.seeds);
    hide *;
    assert vs[..|vs|] == vs;
    SeededRow(rows, ctx.dim, k, h.seeded, h.seeds, r, exact);
    AllMet(n, r);
    RunBest(ctx, rows, k, h.seeded, h.seeds, BlockCount(n), |vs|, r, HomeOf(r), exact);
    MetAll(rows, ctx.dim, k, h.seeds, r, tops[r], exact);
    if exact {
      MatchesBruteForce(tops[r], Distances(rows[r], rows), r, k);
    }
  }

  lemma MetAll(rows: seq<Vec>, dim: nat, k: nat, seeds: Seeds, r: nat, t: seq<Entry>, exact: bool)
    requires IsMatrix(rows, dim) && r < |rows| == |seeds| && SeedsOk(seeds, |rows|)
    requires RowBest(rows, dim, k, seeds, r, t, BlockCount(|rows|), exact)
    ensures Best(t, k, UpTo(|rows|) - {r}, Distances(rows[r], rows), exact)
  {
    hide Best, Distances, Seen;
    AllSeen(seeds, r, |rows|);
  }

  lemma SeededRow(rows: seq<Vec>, dim: nat, k: nat, tops: seq<seq<Entry>>, seeds: Seeds, r: nat, exact: bool)
    requires IsMatrix(rows, dim) && RowsBest(rows, dim, k, tops, seeds, exact) && r < |rows|
    ensures RowBest(rows, dim, k, seeds, r, tops[r], 0, exact)
  {
    hide Sound, Complete, Distances;
    assert Seen(seeds, r, |rows|, 0) == seeds[r];
  }
}
