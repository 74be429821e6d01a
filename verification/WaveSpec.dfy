/**
 What one visit of the wavefront does to the lists, and what a sequence of visits does: each row of
 the two blocks scans the other block with pairs that live at the lists held before the visit; a
 block visiting itself is scanned row by row.
 */
module WaveSpec {
  import opened TopK
  import opened AdsSpec
  import opened Wavefront
  import opened WaveOrder

  ghost predicate Home(b: nat, r: nat) {
    BlockStart(b) <= r < BlockStart(b) + BLOCK
  }

  /** A row of a block that is scanned against itself. */
  ghost function DiagonalRow(ctx: Context, rows: seq<Vec>, k: nat, tops: seq<seq<Entry>>, seeds: Seeds,
                             start: nat, r: nat): (t: seq<Entry>)
    requires Leaf(ctx, rows, k, tops, seeds) && r < |rows|
    ensures |t| <= k
  {
    BlockStep(ctx, rows[r], rows, k, tops[r], start, LanesOf(start, |rows|, seeds[r] + {r}))
  }

  ghost function VisitRow(ctx: Context, rows: seq<Vec>, k: nat, tops: seq<seq<Entry>>, seeds: Seeds, v: Visit, r: nat): (t: seq<Entry>)
    requires Leaf(ctx, rows, k, tops, seeds) && r < |rows|
    ensures |t| <= k
  {
    if Home(v.left, r) then
      if v.left == v.right then DiagonalRow(ctx, rows, k, tops, seeds, BlockStart(v.left), r)
      else PairLanes(ctx, rows, k, tops, seeds, r, BlockStart(v.right), BLOCK)
    else if Home(v.right, r) then PairLanes(ctx, rows, k, tops, seeds, r, BlockStart(v.left), BLOCK)
    else tops[r]
  }

  ghost function AfterVisit(ctx: Context, rows: seq<Vec>, k: nat, tops: seq<seq<Entry>>, seeds: Seeds, v: Visit): (next: seq<seq<Entry>>)
    requires Leaf(ctx, rows, k, tops, seeds)
    ensures |next| == |rows| && Leaf(ctx, rows, k, next, seeds)
    ensures forall r :: 0 <= r < |rows| ==> next[r] == VisitRow(ctx, rows, k, tops, seeds, v, r)
  {
    seq(|rows|, r requires 0 <= r < |rows| => VisitRow(ctx, rows, k, tops, seeds, v, r))
  }

  ghost function AfterVisits(ctx: Context, rows: seq<Vec>, k: nat, tops: seq<seq<Entry>>, seeds: Seeds, vs: seq<Visit>): (next: seq<seq<Entry>>)
    requires Leaf(ctx, rows, k, tops, seeds)
    ensures |next| == |rows| && Leaf(ctx, rows, k, next, seeds)
  {
    if vs == [] then tops
    else AfterVisit(ctx, rows, k, AfterVisits(ctx, rows, k, tops, seeds, vs[..|vs| - 1]), seeds, vs[|vs| - 1])
  }

  lemma NoVisits(ctx: Context, rows: seq<Vec>, k: nat, tops: seq<seq<Entry>>, seeds: Seeds)
    requires Leaf(ctx, rows, k, tops, seeds)
    ensures AfterVisits(ctx, rows, k, tops, seeds, []) == tops
  {
  }

  lemma OneMore(ctx: Context, rows: seq<Vec>, k: nat, tops: seq<seq<Entry>>, seeds: Seeds, vs: seq<Visit>, v: Visit)
    requires Leaf(ctx, rows, k, tops, seeds)
    ensures AfterVisits(ctx, rows, k, tops, seeds, vs + [v])
            == AfterVisit(ctx, rows, k, AfterVisits(ctx, rows, k, tops, seeds, vs), seeds, v)
  {
    assert (vs + [v])[..|vs|] == vs;
  }

  // ----- a row's list along the visits ---------------------------------------------------------------

  /** The list of row a after meeting its first m blocks. */
  ghost predicate RowBest(rows: seq<Vec>, dim: nat, k: nat, seeds: Seeds, a: nat, t: seq<Entry>, m: nat, exact: bool)
    requires IsMatrix(rows, dim) && a < |rows| == |seeds|
  {
    Best(t, k, Seen(seeds, a, |rows|, m), Distances(rows[a], rows), exact)
  }

  /** A row that meets block m in a visit, having met the blocks before it, has met one more afterwards. */
  lemma RowVisit(ctx: Context, rows: seq<Vec>, k: nat, tops: seq<seq<Entry>>, seeds: Seeds, v: Visit, a: nat, home: nat, m: nat, exact: bool)
    requires Leaf(ctx, rows, k, tops, seeds) && a < |rows| && Home(home, a) && (exact ==> Conservative(ctx, 0))
    requires RowBest(rows, ctx.dim, k, seeds, a, tops[a], m, exact)
    ensures var t := VisitRow(ctx, rows, k, tops, seeds, v, a);
            && (MetIn(v, home) == [] ==> t == tops[a])
            && (MetIn(v, home) == [m] ==> RowBest(rows, ctx.dim, k, seeds, a, t, m + 1, exact))
  {
    assert Home(v.left, a) <==> v.left == home;
    assert Home(v.right, a) <==> v.right == home;
    hide Best, Distances, Conservative, BlockStep, PairLanes;
    if MetIn(v, home) == [m] {
      if m == home {
        BlockStepBest(ctx, rows[a], rows, k, tops[a], seeds[a] + {a}, seeds[a], m, exact);
      } else {
        PairStepBest(ctx, rows, k, tops, seeds, a, m, exact);
      }
    }
  }

  lemma {:induction false} MeetingsPrefix(vs: seq<Visit>, p: nat, j: nat)
    requires p <= |vs|
    ensures Meetings(vs[..p], j) <= Meetings(vs, j)
  {
    if p == |vs| {
      assert vs[..p] == vs;
    } else {
      var front := vs[..|vs| - 1];
      MeetingsPrefix(front, p, j);
      assert front[..p] == vs[..p];
    }
  }

  lemma {:induction false} UptoPrefix(s: seq<nat>, n: nat)
    requires s <= Upto(n)
    ensures s == Upto(|s|)
  {
    if n > 0 && |s| < |Upto(n)| {
      UptoPrefix(s, n - 1);
    } else if n > 0 {
      UptoLen(n);
    }
  }

  lemma {:induction false} UptoLen(n: nat)
    ensures |Upto(n)| == n && forall i :: 0 <= i < n ==> Upto(n)[i] == i
  {
    if n > 0 {
      UptoLen(n - 1);
    }
  }

  /** At any point of the schedule a block has met 0, 1, ..., m - 1. */
  lemma MetSoFar(blocks: nat, p: nat, j: nat)
    requires p <= |Schedule(blocks)|
    ensures var met := Meetings(Schedule(blocks)[..p], j); met == Upto(|met|)
  {
    MeetsInOrder(blocks, j);
    MeetingsPrefix(Schedule(blocks), p, j);
    UptoPrefix(Meetings(Schedule(blocks)[..p], j), blocks);
    assert Upto(0) == [];
  }

  /** In the run, a row's list is best for its seeds and the blocks met so far. */
  lemma {:induction false} RunBest(ctx: Context, rows: seq<Vec>, k: nat, tops: seq<seq<Entry>>, seeds: Seeds, blocks: nat, p: nat,
                                   a: nat, home: nat, exact: bool)
    requires Leaf(ctx, rows, k, tops, seeds) && a < |rows| && Home(home, a) && (exact ==> Conservative(ctx, 0))
    requires p <= |Schedule(blocks)| && RowBest(rows, ctx.dim, k, seeds, a, tops[a], 0, exact)
    ensures var vs := Schedule(blocks)[..p];
            RowBest(rows, ctx.dim, k, seeds, a, AfterVisits(ctx, rows, k, tops, seeds, vs)[a], |Meetings(vs, home)|, exact)
  {
    hide *;
    var vs := Schedule(blocks)[..p];
    if p == 0 {
      assert vs == [];
      NoVisits(ctx, rows, k, tops, seeds);
      MeetingsNone(home);
    } else {
      var front, v := vs[..p - 1], vs[p - 1];
      assert front == Schedule(blocks)[..p - 1] && vs == front + [v];
      RunBest(ctx, rows, k, tops, seeds, blocks, p - 1, a, home, exact);
      MetSoFar(blocks, p, home);
      MetSoFar(blocks, p - 1, home);
      MeetingsSnoc(front, v, home);
      MetNext(Meetings(front, home), v, home);
      OneMore(ctx, rows, k, tops, seeds, front, v);
      AfterRow(ctx, rows, k, AfterVisits(ctx, rows, k, tops, seeds, front), seeds, v, a);
      RowVisit(ctx, rows, k, AfterVisits(ctx, rows, k, tops, seeds, front), seeds, v, a, home, |Meetings(front, home)|, exact);
    }
  }

  lemma AfterRow(ctx: Context, rows: seq<Vec>, k: nat, tops: seq<seq<Entry>>, seeds: Seeds, v: Visit, a: nat)
    requires Leaf(ctx, rows, k, tops, seeds) && a < |rows|
    ensures |tops| == |rows| == |seeds| && AfterVisit(ctx, rows, k, tops, seeds, v)[a] == VisitRow(ctx, rows, k, tops, seeds, v, a)
  {
  }

  lemma MetNext(met: seq<nat>, v: Visit, home: nat)
    requires met == Upto(|met|) && met + MetIn(v, home) == Upto(|met + MetIn(v, home)|)
    ensures MetIn(v, home) == [] || MetIn(v, home) == [|met|]
  {
    UptoLen(|met + MetIn(v, home)|);
    if MetIn(v, home) != [] {
      assert (met + MetIn(v, home))[|met|] == MetIn(v, home)[0];
    }
  }
}
