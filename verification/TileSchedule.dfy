/**
 Leaf rows computed by a varying number of workers over a shared cursor. A worker claims the
 next rows with `fetch_add`, computes them, collects its chunks locally and publishes them when
 the cursor is past the last row; the chunks are then sorted by first row and concatenated.
 Tile sizes may change from claim to claim. `res(r)` is what a row computes.
 */
module TileSchedule {
  import opened Basics
  import opened Sorting
  import opened TopK
  import opened AdsSpec
  import opened AdsKernel
  import opened AdsLeaf

  datatype Range = Range(start: nat, end: nat)

  /** `local` holds the finished chunks of a worker that has not published yet. */
  datatype Worker = Working(local: seq<Range>) | Computing(local: seq<Range>, now: Range) | Published

  /** `claims` is the history of successful claims. */
  datatype State = State(cursor: nat, workers: seq<Worker>, published: seq<Range>, claims: seq<Range>)

  datatype Step = Claim(w: nat, tile: nat) | Compute(w: nat) | Publish(w: nat)

  ghost predicate Enabled(n: nat, s: State, step: Step) {
    match step
    case Claim(w, tile) => w < |s.workers| && s.workers[w].Working? && 0 < tile && s.cursor < n
    case Compute(w) => w < |s.workers| && s.workers[w].Computing?
    case Publish(w) => w < |s.workers| && s.workers[w].Working? && s.cursor >= n
  }

  ghost function Apply(n: nat, s: State, step: Step): State
    requires Enabled(n, s, step)
  {
    match step
    case Claim(w, tile) =>
      var r := Range(s.cursor, MinNat(s.cursor + tile, n));
      s.(cursor := s.cursor + tile, workers := s.workers[w := Computing(s.workers[w].local, r)], claims := s.claims + [r])
    case Compute(w) => s.(workers := s.workers[w := Working(s.workers[w].local + [s.workers[w].now])])
    case Publish(w) => s.(workers := s.workers[w := Published], published := s.published + s.workers[w].local)
  }

  ghost function Init(workers: nat): State {
    State(0, seq(workers, _ => Working([])), [], [])
  }

  // ----- the claims partition the rows ----------------------------------------------------------

  ghost function LastEnd(claims: seq<Range>): nat {
    if claims == [] then 0 else claims[|claims| - 1].end
  }

  /** Non-empty ranges, each starting where the one before it ends, the first at row 0. */
  ghost predicate Contiguous(claims: seq<Range>) {
    && (forall i :: 0 <= i < |claims| ==> claims[i].start < claims[i].end)
    && (forall i :: 0 <= i < |claims| ==> claims[i].start == LastEnd(claims[..i]))
  }

  ghost function Count(rs: seq<Range>, r: Range): nat {
    multiset(rs)[r]
  }

  lemma CountConcat(a: seq<Range>, b: seq<Range>, r: Range)
    ensures Count(a + b, r) == Count(a, r) + Count(b, r)
  {
  }

  /** How often a range is with one worker. */
  ghost function Items(w: Worker, r: Range): nat {
    match w
    case Working(local) => Count(local, r)
    case Computing(local, now) => Count(local, r) + Count([now], r)
    case Published => 0
  }

  /** How often a range is with the workers. */
  ghost function Held(ws: seq<Worker>, r: Range): nat {
    if ws == [] then 0 else Held(ws[..|ws| - 1], r) + Items(ws[|ws| - 1], r)
  }

  lemma {:induction false} HeldUpdate(ws: seq<Worker>, w: nat, x: Worker, r: Range)
    requires w < |ws|
    ensures Held(ws[w := x], r) + Items(ws[w], r) == Held(ws, r) + Items(x, r)
  {
    hide Items;
    var t := ws[..|ws| - 1];
    if w == |ws| - 1 {
      assert ws[w := x][..|ws| - 1] == t;
    } else {
      HeldUpdate(t, w, x, r);
      assert ws[w := x][..|ws| - 1] == t[w := x];
    }
  }

  ghost predicate Accounted(s: State, r: Range) {
    Held(s.workers, r) + Count(s.published, r) == Count(s.claims, r)
  }

  /** Every claim is with exactly one worker or published, and claims cover the rows up to the cursor. */
  ghost predicate Inv(n: nat, s: State) {
    && Contiguous(s.claims)
    && LastEnd(s.claims) == MinNat(s.cursor, n)
    && (forall r :: Accounted(s, r))
    && ((exists w :: 0 <= w < |s.workers| && s.workers[w].Published?) ==> s.cursor >= n)
  }

  lemma StepAccounts(n: nat, s: State, step: Step, r: Range)
    requires Accounted(s, r) && Enabled(n, s, step)
    ensures Accounted(Apply(n, s, step), r)
  {
    hide Held, Count;
    var s' := Apply(n, s, step);
    HeldUpdate(s.workers, step.w, s'.workers[step.w], r);
    match step
    case Claim(w, tile) => CountConcat(s.claims, [s'.workers[w].now], r);
    case Compute(w) => CountConcat(s.workers[w].local, [s.workers[w].now], r);
    case Publish(w) => CountConcat(s.published, s.workers[w].local, r);
  }

  lemma ClaimContiguous(n: nat, claims: seq<Range>, r: Range)
    requires Contiguous(claims) && r.start == LastEnd(claims) < r.end
    ensures Contiguous(claims + [r])
  {
    var next := claims + [r];
    forall i | 0 <= i < |next|
      ensures next[i].start < next[i].end && next[i].start == LastEnd(next[..i])
    {
      if i < |claims| {
        assert next[..i] == claims[..i];
      } else {
        assert next[..i] == claims;
      }
    }
  }

  lemma StepKeeps(n: nat, s: State, step: Step)
    requires Inv(n, s) && Enabled(n, s, step)
    ensures Inv(n, Apply(n, s, step))
  {
    hide Accounted, Contiguous;
    var s' := Apply(n, s, step);
    forall r
      ensures Accounted(s', r)
    {
      StepAccounts(n, s, step, r);
    }
    if step.Claim? {
      ClaimContiguous(n, s.claims, Range(s.cursor, MinNat(s.cursor + step.tile, n)));
    }
  }

  ghost predicate IsRun(n: nat, workers: nat, steps: seq<Step>) {
    steps == [] ||
    (IsRun(n, workers, steps[..|steps| - 1]) && Enabled(n, After(n, workers, steps[..|steps| - 1]), steps[|steps| - 1]))
  }

  ghost function After(n: nat, workers: nat, steps: seq<Step>): State {
    if steps == [] then Init(workers)
    else
      var s := After(n, workers, steps[..|steps| - 1]);
      if Enabled(n, s, steps[|steps| - 1]) then Apply(n, s, steps[|steps| - 1]) else s
  }

  lemma {:induction false} NothingHeld(ws: seq<Worker>, r: Range)
    requires forall w :: 0 <= w < |ws| ==> Items(ws[w], r) == 0
    ensures Held(ws, r) == 0
  {
    if ws != [] {
      NothingHeld(ws[..|ws| - 1], r);
    }
  }

  lemma InitInv(n: nat, workers: nat)
    ensures Inv(n, Init(workers))
  {
    var s := Init(workers);
    forall r
      ensures Accounted(s, r)
    {
      NothingHeld(s.workers, r);
    }
  }

  lemma {:induction false} RunInv(n: nat, workers: nat, steps: seq<Step>)
    requires IsRun(n, workers, steps)
    ensures Inv(n, After(n, workers, steps)) && |After(n, workers, steps).workers| == workers
  {
    hide Inv;
    if steps == [] {
      InitInv(n, workers);
    } else {
      var front := steps[..|steps| - 1];
      RunInv(n, workers, front);
      StepKeeps(n, After(n, workers, front), steps[|steps| - 1]);
    }
  }

  // ----- finalising ---------------------------------------------------------------------------------

  function Rows<R>(res: nat -> R, r: Range): (s: seq<R>)
    ensures r.start <= r.end ==> |s| == r.end - r.start && forall i :: 0 <= i < |s| ==> s[i] == res(r.start + i)
  {
    if r.end <= r.start then [] else seq(r.end - r.start, i requires 0 <= i => res(r.start + i))
  }

  function RowsOf<R>(res: nat -> R, rs: seq<Range>): seq<R> {
    if rs == [] then [] else RowsOf(res, rs[..|rs| - 1]) + Rows(res, rs[|rs| - 1])
  }

  predicate StartsBefore(a: Range, b: Range) {
    a.start <= b.start
  }

  lemma StartOrder()
    ensures TotalPreorder(StartsBefore)
  {
  }

  lemma {:induction false} EndsGrow(claims: seq<Range>, i: nat, j: nat)
    requires Contiguous(claims) && i < j < |claims|
    ensures claims[i].end <= claims[j].start
  {
    assert claims[j].start == LastEnd(claims[..j]) == claims[..j][j - 1].end == claims[j - 1].end;
    if i < j - 1 {
      EndsGrow(claims, i, j - 1);
    }
  }

  lemma SameStart(claims: seq<Range>, i: nat, j: nat)
    requires Contiguous(claims) && i < |claims| && j < |claims| && claims[i].start == claims[j].start
    ensures i == j
  {
    if i < j {
      EndsGrow(claims, i, j);
    } else if j < i {
      EndsGrow(claims, j, i);
    }
  }

  lemma ClaimsSorted(claims: seq<Range>)
    requires Contiguous(claims)
    ensures SortedBy(StartsBefore, claims) && Strict(StartsBefore, claims)
  {
    forall i, j | 0 <= i < j < |claims|
      ensures StartsBefore(claims[i], claims[j])
    {
      EndsGrow(claims, i, j);
    }
    hide Contiguous;
    forall x, y | x in claims && y in claims && StartsBefore(x, y) && StartsBefore(y, x)
      ensures x == y
    {
      var i :| 0 <= i < |claims| && claims[i] == x;
      var j :| 0 <= j < |claims| && claims[j] == y;
      SameStart(claims, i, j);
    }
  }

  lemma {:induction false} ContiguousRows<R>(res: nat -> R, claims: seq<Range>)
    requires Contiguous(claims)
    ensures RowsOf(res, claims) == Rows(res, Range(0, LastEnd(claims)))
  {
    if claims != [] {
      var front, last := claims[..|claims| - 1], claims[|claims| - 1];
      assert Contiguous(front) by {
        assert forall i :: 0 <= i < |front| ==> front[i] == claims[i] && front[..i] == claims[..i];
      }
      ContiguousRows(res, front);
      assert last.start == LastEnd(front);
      var all := Rows(res, Range(0, last.end));
      assert all == Rows(res, Range(0, last.start)) + Rows(res, last);
    }
  }

  /**
   Schedule independence: whatever the number of workers, the interleaving and the tile sizes,
   once every worker has published, the published ranges in any sorted order concatenate to the
   sequential result.
   */
  lemma ScheduleIndependent<R>(res: nat -> R, n: nat, workers: nat, steps: seq<Step>, sorted: seq<Range>)
    requires 0 < workers && IsRun(n, workers, steps)
    requires var s := After(n, workers, steps);
             && (forall w :: 0 <= w < |s.workers| ==> s.workers[w].Published?)
             && multiset(sorted) == multiset(s.published) && SortedBy(StartsBefore, sorted)
    ensures RowsOf(res, sorted) == Rows(res, Range(0, n))
  {
    var s := After(n, workers, steps);
    RunInv(n, workers, steps);
    AllPublished(n, s);
    assert s.workers[0].Published?;
    ClaimsSorted(s.claims);
    hide SortedBy, Strict, After, IsRun;
    SortedUnique(StartsBefore, s.claims, sorted);
    ContiguousRows(res, s.claims);
  }

  lemma AllPublished(n: nat, s: State)
    requires Inv(n, s) && forall w :: 0 <= w < |s.workers| ==> s.workers[w].Published?
    ensures multiset(s.published) == multiset(s.claims)
  {
    forall r
      ensures multiset(s.published)[r] == multiset(s.claims)[r]
    {
      assert Accounted(s, r);
      NothingHeld(s.workers, r);
    }
  }

  // ----- chunks with their rows ---------------------------------------------------------------------

  /** A computed tile: its range and what its rows yielded. */
  datatype Chunk<R> = Chunk(range: Range, rows: seq<R>)

  predicate ChunkBefore<R>(a: Chunk<R>, b: Chunk<R>) {
    StartsBefore(a.range, b.range)
  }

  lemma ChunkOrder<R(!new)>()
    ensures TotalPreorder<Chunk<R>>(ChunkBefore)
  {
  }

  function RangesOf<R>(chunks: seq<Chunk<R>>): (r: seq<Range>)
    ensures |r| == |chunks| && forall i :: 0 <= i < |r| ==> r[i] == chunks[i].range
  {
    seq(|chunks|, i requires 0 <= i < |chunks| => chunks[i].range)
  }

  /** Every chunk holds the results of its own rows. */
  ghost predicate Computed<R>(res: nat -> R, chunks: seq<Chunk<R>>) {
    forall i :: 0 <= i < |chunks| ==> chunks[i].rows == Rows(res, chunks[i].range)
  }

  lemma {:induction false} RangeCount<R>(res: nat -> R, chunks: seq<Chunk<R>>, r: Range)
    requires Computed(res, chunks)
    ensures Count(RangesOf(chunks), r) == multiset(chunks)[Chunk(r, Rows(res, r))]
  {
    if chunks != [] {
      var front, last := chunks[..|chunks| - 1], chunks[|chunks| - 1];
      RangeCount(res, front, r);
      assert chunks == front + [last];
      assert RangesOf(chunks) == RangesOf(front) + [last.range];
      hide Rows;
      CountConcat(RangesOf(front), [last.range], r);
    }
  }

  lemma SortedComputed<R>(res: nat -> R, chunks: seq<Chunk<R>>, sorted: seq<Chunk<R>>)
    requires Computed(res, chunks) && multiset(sorted) == multiset(chunks)
    ensures Computed(res, sorted) && multiset(RangesOf(sorted)) == multiset(RangesOf(chunks))
  {
    forall i | 0 <= i < |sorted|
      ensures sorted[i].rows == Rows(res, sorted[i].range)
    {
      assert sorted[i] in multiset(chunks);
    }
    forall r
      ensures multiset(RangesOf(sorted))[r] == multiset(RangesOf(chunks))[r]
    {
      RangeCount(res, chunks, r);
      RangeCount(res, sorted, r);
    }
  }

  /**
   `finalize_leaf_ads_tiles`: sorts the published chunks by first row and concatenates what they hold.
   For any schedule, row r of the output is what row r yielded.
   */
  method Finalize<R(!new)>(ghost res: nat -> R, ghost n: nat, ghost workers: nat, ghost steps: seq<Step>, chunks: seq<Chunk<R>>)
    returns (all: seq<R>)
    requires 0 < workers && IsRun(n, workers, steps) && Computed(res, chunks)
    requires var s := After(n, workers, steps);
             s.published == RangesOf(chunks) && forall w :: 0 <= w < |s.workers| ==> s.workers[w].Published?
    ensures |all| == n && forall r :: 0 <= r < n ==> all[r] == res(r)
  {
    hide *;
    ChunkOrder<R>();
    var sorted := SortUnstable(ChunkBefore, chunks);
    SortedComputed(res, chunks, sorted);
    SortedRanges(sorted);
    ghost var ranges := RangesOf(sorted);
    ScheduleIndependent(res, n, workers, steps, ranges);
    all := [];
    NoRows(res);
    assert ranges[..0] == [];
    for i := 0 to |sorted|
      invariant all == RowsOf(res, ranges[..i])
    {
      RowsNext(res, sorted, i);
      all := all + sorted[i].rows;
    }
    assert ranges[..|ranges|] == ranges;
  }

  lemma NoRows<R>(res: nat -> R)
    ensures RowsOf(res, []) == []
  {
  }

  lemma RowsNext<R>(res: nat -> R, chunks: seq<Chunk<R>>, i: nat)
    requires Computed(res, chunks) && i < |chunks|
    ensures RowsOf(res, RangesOf(chunks)[..i + 1]) == RowsOf(res, RangesOf(chunks)[..i]) + chunks[i].rows
  {
    var ranges := RangesOf(chunks);
    assert ranges[..i + 1][..i] == ranges[..i];
  }

  lemma SortedRanges<R>(sorted: seq<Chunk<R>>)
    requires SortedBy(ChunkBefore, sorted)
    ensures SortedBy(StartsBefore, RangesOf(sorted))
  {
    forall i, j | 0 <= i < j < |sorted|
      ensures StartsBefore(sorted[i].range, sorted[j].range)
    {
      assert ChunkBefore(sorted[i], sorted[j]);
    }
  }

  // ----- leaf rows ----------------------------------------------------------------------------------

  /** What each row of a leaf yields on its own. */
  ghost function Scans(ctx: Context, rows: seq<Vec>, k: nat, seedExact: nat): (f: nat -> seq<Entry>)
    requires ctx.Valid() && IsMatrix(rows, ctx.dim)
    ensures forall r :: 0 <= r < |rows| ==> f(r) == LeafScan(ctx, rows, r, k, seedExact)
  {
    (r: nat) => if r < |rows| then LeafScan(ctx, rows, r, k, seedExact) else []
  }

  /** A worker computes its claim with the tile kernel. */
  method ComputeChunk(ctx: Context, rows: seq<Vec>, blocks: seq<Block>, range: Range, k: nat, seedExact: nat,
                      simd: bool, full64: nat, group16: nat) returns (chunk: Chunk<seq<Entry>>)
    requires ctx.Valid() && IsMatrix(rows, ctx.dim) && IsLayout(blocks, rows, ctx.dim)
    requires range.start <= range.end <= |rows|
    ensures chunk.range == range && chunk.rows == Rows(Scans(ctx, rows, k, seedExact), range)
  {
    hide LeafScan, IsLayout;
    var tops := RowRange(ctx, rows, blocks, range.start, range.end, k, seedExact, simd, full64, group16);
    chunk := Chunk(range, tops);
  }

  /** For leaf rows: whatever the schedule, the output is row by row each row's own scan. */
  method FinalizeLeaf(ghost ctx: Context, ghost rows: seq<Vec>, ghost k: nat, ghost seedExact: nat, ghost workers: nat,
                      ghost steps: seq<Step>, chunks: seq<Chunk<seq<Entry>>>) returns (all: seq<seq<Entry>>)
    requires ctx.Valid() && IsMatrix(rows, ctx.dim)
    requires 0 < workers && IsRun(|rows|, workers, steps) && Computed(Scans(ctx, rows, k, seedExact), chunks)
    requires var s := After(|rows|, workers, steps);
             s.published == RangesOf(chunks) && forall w :: 0 <= w < |s.workers| ==> s.workers[w].Published?
    ensures |all| == |rows| && forall r :: 0 <= r < |rows| ==> all[r] == LeafScan(ctx, rows, r, k, seedExact)
  {
    hide LeafScan, IsRun, After, Computed;
    all := Finalize(Scans(ctx, rows, k, seedExact), |rows|, workers, steps, chunks);
  }
}
