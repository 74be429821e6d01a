/**
 The wavefront loses exactness for every ratio table with a boundary ratio below 1, although it drops
 a pair only when it is out of reach of both rows: on the leaf of one axis the two rows of the
 decisive pair have both filled their lists when their blocks meet.
 */
module WavefrontExact {
  import opened TopK
  import opened AdsSpec
  import opened AdsRoot
  import opened AdsLeaf
  import opened AdsDecoy
  import opened Wavefront
  import opened WaveOrder
  import opened WaveSpec
  import opened WavefrontSchedule

  lemma {:induction false} PairLanesMembers(ctx: Context, rows: seq<Vec>, k: nat, tops: seq<seq<Entry>>, seeds: Seeds,
                                            a: nat, start: nat, lanes: nat, c: nat)
    requires Leaf(ctx, rows, k, tops, seeds) && a < |rows|
    requires HasIdx(PairLanes(ctx, rows, k, tops, seeds, a, start, lanes), c) && !HasIdx(tops[a], c)
    ensures start <= c < start + lanes && c < |rows| && PairLives(ctx, rows, k, tops, seeds, a, c)
  {
    hide PairLives, Push;
    if lanes > 0 {
      var t, e := PairLanes(ctx, rows, k, tops, seeds, a, start, lanes - 1), start + lanes - 1;
      if HasIdx(t, c) {
        PairLanesMembers(ctx, rows, k, tops, seeds, a, start, lanes - 1, c);
      } else {
        assert e < |rows| && PairLives(ctx, rows, k, tops, seeds, a, e);
        PushMembers(t, k, Entry(L2(rows[a], rows[e]), e), c);
      }
    }
  }

  /** A candidate that a visit adds to a row's list lies in the block met, and its pair lives if that is another block. */
  lemma VisitRowMembers(ctx: Context, rows: seq<Vec>, k: nat, tops: seq<seq<Entry>>, seeds: Seeds, v: Visit, a: nat, home: nat, c: nat)
    requires Leaf(ctx, rows, k, tops, seeds) && a < |rows| && Home(home, a) && c < |rows|
    requires HasIdx(VisitRow(ctx, rows, k, tops, seeds, v, a), c) && !HasIdx(tops[a], c)
    ensures |MetIn(v, home)| == 1 && Home(MetIn(v, home)[0], c)
    ensures MetIn(v, home)[0] != home ==> PairLives(ctx, rows, k, tops, seeds, a, c)
  {
    assert Home(v.left, a) <==> v.left == home;
    assert Home(v.right, a) <==> v.right == home;
    hide PairLives, PairLanes;
    if v.left == home == v.right {
      var start := BlockStart(home);
      var mask := LanesOf(start, |rows|, seeds[a] + {a});
      PushLanesMembers(ctx, rows[a], rows, k, tops[a], Threshold(tops[a], k), start, mask, BLOCK, c);
    } else {
      PairLanesMembers(ctx, rows, k, tops, seeds, a, BlockStart(if v.left == home then v.right else v.left), BLOCK, c);
    }
  }

  /** The decoy row's list, once not empty, is within distance 4. */
  lemma DecoyList(dim: nat, s: nat, r: real, t: seq<Entry>, seen: set<nat>)
    requires 0 < dim && 0.0 <= r < 1.0 && Decoy(s) < Size(s)
    requires var rows := DecoyLeaf(dim, s, r);
             Best(t, 1, seen, Distances(rows[Decoy(s)], rows), false)
    requires seen != {} && Decoy(s) !in seen
    ensures |t| == 1 && t[0].dist <= 4.0
  {
    var x :| x in seen;
    assert |seen| == |seen - {x}| + 1;
    var c := t[0].idx;
    assert c in seen;
    LeafDistance(dim, s, r, Decoy(s), c);
    SquaresCompare(2.0, 1.0 + r);
    assert (1.0 - r) * (1.0 - r) <= 1.0 by {
      SquaresCompare(1.0, 1.0 - r);
    }
    assert (1.0 + r - 2.0) * (1.0 + r - 2.0) == (1.0 - r) * (1.0 - r);
  }

  /** The pair of a full list at 4 and a full list within 4 is held against 4, and does not live. */
  lemma PairDies(ctx: Context, s: nat, r: real, tops: seq<seq<Entry>>, seeds: Seeds)
    requires ctx.Valid() && ROW < Decoy(s) < Size(s) && Leaf(ctx, DecoyLeaf(ctx.dim, s, r), 1, tops, seeds)
    requires !Survives(ctx, OnAxis(0.0, ctx.dim), OnAxis(1.0 + r, ctx.dim), Finite(4.0), 0)
    requires |tops| == Size(s) && |tops[ROW]| == 1 && tops[ROW][0].dist == 4.0
    requires |tops[Decoy(s)]| == 1 && tops[Decoy(s)][0].dist <= 4.0
    ensures !PairLives(ctx, DecoyLeaf(ctx.dim, s, r), 1, tops, seeds, ROW, Decoy(s))
  {
    var rows, c := DecoyLeaf(ctx.dim, s, r), Decoy(s);
    assert rows[ROW] == OnAxis(0.0, ctx.dim) && rows[c] == OnAxis(1.0 + r, ctx.dim);
    hide DecoyLeaf, OnAxis, Survives, Leaf, Threshold;
    FullThreshold(tops[ROW]);
    FullThreshold(tops[c]);
  }

  /** The misled row's list after a block, while it lacks the decoy. */
  lemma RowFull(dim: nat, s: nat, r: real, seeds: Seeds, t: seq<Entry>, m: nat)
    requires 0 < dim && 0.0 <= r < 1.0 && 1 <= m && ROW < Decoy(s) < Size(s) == |seeds| && SeedsOk(seeds, Size(s))
    requires RowBest(DecoyLeaf(dim, s, r), dim, 1, seeds, ROW, t, m, false) && !HasIdx(t, Decoy(s))
    ensures |t| == 1 && t[0].dist == 4.0
  {
    hide DecoyLeaf, Best, Distances, Seen;
    SeenZero(seeds, ROW, Size(s), m);
    FarList(dim, s, r, t, Seen(seeds, ROW, Size(s), m), false);
  }

  lemma DecoyFull(dim: nat, s: nat, r: real, seeds: Seeds, t: seq<Entry>)
    requires 0 < dim && 0.0 <= r < 1.0 && ROW < Decoy(s) < Size(s) == |seeds| && SeedsOk(seeds, Size(s))
    requires RowBest(DecoyLeaf(dim, s, r), dim, 1, seeds, Decoy(s), t, 1, false)
    ensures |t| == 1 && t[0].dist <= 4.0
  {
    hide DecoyLeaf, Best, Distances, Seen;
    SeenZero(seeds, Decoy(s), Size(s), 1);
    DecoyList(dim, s, r, t, Seen(seeds, Decoy(s), Size(s), 1));
  }

  /** A row of a later block that has met a block has considered row 0, and never itself. */
  lemma SeenZero(seeds: Seeds, a: nat, n: nat, m: nat)
    requires 0 < a < n == |seeds| && 1 <= m && SeedsOk(seeds, n)
    ensures Seen(seeds, a, n, m) != {} && a !in Seen(seeds, a, n, m)
  {
    assert a in seeds[a] ==> PairOk(seeds, n, a, a);
    assert 0 in Seen(seeds, a, n, m);
  }

  /** The decoy is not near the misled row in the cyclic order. */
  lemma FarApart(s: nat)
    ensures !Near(ROW, Decoy(s), Size(s), s) && ROW < Decoy(s) < Size(s)
    ensures Home(1, ROW) && Home(s + 2, Decoy(s)) && BlockCount(Size(s)) == 2 * s + 3
  {
  }

  lemma OneHome(a: nat, b: nat, c: nat)
    requires Home(b, a) && Home(c, a)
    ensures b == c
  {
  }

  ghost predicate Start(ctx: Context, s: nat, r: real, seeded: seq<seq<Entry>>, seeds: Seeds) {
    && ctx.Valid() && 0.0 <= r < 1.0
    && !Survives(ctx, OnAxis(0.0, ctx.dim), OnAxis(1.0 + r, ctx.dim), Finite(4.0), 0)
    && var rows := DecoyLeaf(ctx.dim, s, r);
       && Leaf(ctx, rows, 1, seeded, seeds) && SeedsAre(seeds, |rows|, s)
       && RowsBest(rows, ctx.dim, 1, seeded, seeds, false)
  }

  /** The lists after the first p visits. */
  ghost function ListsAt(ctx: Context, s: nat, r: real, seeded: seq<seq<Entry>>, seeds: Seeds, p: nat): (tops: seq<seq<Entry>>)
    requires Start(ctx, s, r, seeded, seeds) && p <= |Schedule(2 * s + 3)|
    ensures |tops| == Size(s) && ROW < Decoy(s) < |tops| && Leaf(ctx, DecoyLeaf(ctx.dim, s, r), 1, tops, seeds)
  {
    FarApart(s);
    AfterVisits(ctx, DecoyLeaf(ctx.dim, s, r), 1, seeded, seeds, Schedule(2 * s + 3)[..p])
  }

  lemma ListsStart(ctx: Context, s: nat, r: real, seeded: seq<seq<Entry>>, seeds: Seeds)
    requires Start(ctx, s, r, seeded, seeds)
    ensures !HasIdx(ListsAt(ctx, s, r, seeded, seeds, 0)[ROW], Decoy(s))
  {
    FarApart(s);
    var rows := DecoyLeaf(ctx.dim, s, r);
    assert Decoy(s) !in seeds[ROW];
    NoVisits(ctx, rows, 1, seeded, seeds);
    assert Best(seeded[ROW], 1, seeds[ROW], Distances(rows[ROW], rows), false);
  }

  lemma ListsNext(ctx: Context, s: nat, r: real, seeded: seq<seq<Entry>>, seeds: Seeds, p: nat)
    requires Start(ctx, s, r, seeded, seeds) && p < |Schedule(2 * s + 3)|
    ensures ListsAt(ctx, s, r, seeded, seeds, p + 1)[ROW]
            == VisitRow(ctx, DecoyLeaf(ctx.dim, s, r), 1, ListsAt(ctx, s, r, seeded, seeds, p), seeds, Schedule(2 * s + 3)[p], ROW)
  {
    var all, rows := Schedule(2 * s + 3), DecoyLeaf(ctx.dim, s, r);
    var tops := ListsAt(ctx, s, r, seeded, seeds, p);
    hide Schedule, VisitRow, DecoyLeaf, Survives, RowsBest, SeedsAre, Leaf, AfterVisits, AfterVisit;
    assert all[..p + 1] == all[..p] + [all[p]];
    OneMore(ctx, rows, 1, seeded, seeds, all[..p], all[p]);
    AfterRow(ctx, rows, 1, tops, seeds, all[p], ROW);
  }

  lemma ListsBest(ctx: Context, s: nat, r: real, seeded: seq<seq<Entry>>, seeds: Seeds, p: nat, a: nat, home: nat)
    requires Start(ctx, s, r, seeded, seeds) && p <= |Schedule(2 * s + 3)| && a < Size(s) && Home(home, a)
    ensures var rows := DecoyLeaf(ctx.dim, s, r);
            |seeds| == |rows| && RowBest(rows, ctx.dim, 1, seeds, a, ListsAt(ctx, s, r, seeded, seeds, p)[a],
                                         |Meetings(Schedule(2 * s + 3)[..p], home)|, false)
  {
    var rows := DecoyLeaf(ctx.dim, s, r);
    hide Schedule, DecoyLeaf, Survives, RowsBest, SeedsAre, AfterVisits, Meetings, Home, Best;
    SeededRow(rows, ctx.dim, 1, seeded, seeds, a, false);
    hide Leaf, RowBest;
    RunBest(ctx, rows, 1, seeded, seeds, 2 * s + 3, p, a, home, false);
  }

  /** At no point of the run does the misled row list the decoy. */
  lemma {:induction false} RunAvoids(ctx: Context, s: nat, r: real, seeded: seq<seq<Entry>>, seeds: Seeds, p: nat)
    requires Start(ctx, s, r, seeded, seeds) && p <= |Schedule(2 * s + 3)|
    ensures !HasIdx(ListsAt(ctx, s, r, seeded, seeds, p)[ROW], Decoy(s))
  {
    hide *;
    if p == 0 {
      ListsStart(ctx, s, r, seeded, seeds);
    } else {
      RunAvoids(ctx, s, r, seeded, seeds, p - 1);
      ListsNext(ctx, s, r, seeded, seeds, p - 1);
      FarApart(s);
      var rows, tops, v := DecoyLeaf(ctx.dim, s, r), ListsAt(ctx, s, r, seeded, seeds, p - 1), Schedule(2 * s + 3)[p - 1];
      if HasIdx(VisitRow(ctx, rows, 1, tops, seeds, v, ROW), Decoy(s)) {
        VisitRowMembers(ctx, rows, 1, tops, seeds, v, ROW, 1, Decoy(s));
        OneHome(Decoy(s), MetIn(v, 1)[0], s + 2);
        DecisiveVisit(ctx, s, r, seeded, seeds, p - 1);
      }
    }
  }

  /** When the blocks of the row and of the decoy meet, the pair is dropped. */
  lemma DecisiveVisit(ctx: Context, s: nat, r: real, seeded: seq<seq<Entry>>, seeds: Seeds, p: nat)
    requires Start(ctx, s, r, seeded, seeds) && p < |Schedule(2 * s + 3)|
    requires MetIn(Schedule(2 * s + 3)[p], 1) == [s + 2]
    requires !HasIdx(ListsAt(ctx, s, r, seeded, seeds, p)[ROW], Decoy(s))
    ensures !PairLives(ctx, DecoyLeaf(ctx.dim, s, r), 1, ListsAt(ctx, s, r, seeded, seeds, p), seeds, ROW, Decoy(s))
  {
    hide *;
    StartIs(ctx, s, r, seeded, seeds);
    DecisiveRow(ctx, s, r, seeded, seeds, p);
    DecisiveDecoy(ctx, s, r, seeded, seeds, p);
    PairDies(ctx, s, r, ListsAt(ctx, s, r, seeded, seeds, p), seeds);
  }

  lemma DecisiveRow(ctx: Context, s: nat, r: real, seeded: seq<seq<Entry>>, seeds: Seeds, p: nat)
    requires Start(ctx, s, r, seeded, seeds) && p < |Schedule(2 * s + 3)|
    requires MetIn(Schedule(2 * s + 3)[p], 1) == [s + 2]
    requires !HasIdx(ListsAt(ctx, s, r, seeded, seeds, p)[ROW], Decoy(s))
    ensures var t := ListsAt(ctx, s, r, seeded, seeds, p)[ROW]; |t| == 1 && t[0].dist == 4.0
  {
    hide *;
    StartIs(ctx, s, r, seeded, seeds);
    FarApart(s);
    MetAt(s, p);
    ListsBest(ctx, s, r, seeded, seeds, p, ROW, 1);
    RowFull(ctx.dim, s, r, seeds, ListsAt(ctx, s, r, seeded, seeds, p)[ROW], s + 2);
  }

  lemma DecisiveDecoy(ctx: Context, s: nat, r: real, seeded: seq<seq<Entry>>, seeds: Seeds, p: nat)
    requires Start(ctx, s, r, seeded, seeds) && p < |Schedule(2 * s + 3)|
    requires MetIn(Schedule(2 * s + 3)[p], 1) == [s + 2]
    ensures var t := ListsAt(ctx, s, r, seeded, seeds, p)[Decoy(s)]; |t| == 1 && t[0].dist <= 4.0
  {
    hide *;
    StartIs(ctx, s, r, seeded, seeds);
    FarApart(s);
    MetAt(s, p);
    ListsBest(ctx, s, r, seeded, seeds, p, Decoy(s), s + 2);
    DecoyFull(ctx.dim, s, r, seeds, ListsAt(ctx, s, r, seeded, seeds, p)[Decoy(s)]);
  }

  lemma StartIs(ctx: Context, s: nat, r: real, seeded: seq<seq<Entry>>, seeds: Seeds)
    requires Start(ctx, s, r, seeded, seeds)
    ensures ctx.Valid() && 0 < ctx.dim && 0.0 <= r < 1.0 && |seeds| == Size(s) && SeedsOk(seeds, Size(s))
    ensures !Survives(ctx, OnAxis(0.0, ctx.dim), OnAxis(1.0 + r, ctx.dim), Finite(4.0), 0)
  {
  }

  /** The block of the row has then met s + 2 blocks, and that of the decoy exactly one. */
  lemma MetAt(s: nat, p: nat)
    requires p < |Schedule(2 * s + 3)| && MetIn(Schedule(2 * s + 3)[p], 1) == [s + 2]
    ensures |Meetings(Schedule(2 * s + 3)[..p], 1)| == s + 2 && |Meetings(Schedule(2 * s + 3)[..p], s + 2)| == 1
  {
    var all := Schedule(2 * s + 3);
    var v := all[p];
    assert all[..p + 1] == all[..p] + [v];
    assert MetIn(v, s + 2) == [1];
    MeetsNext(2 * s + 3, p, 1);
    MeetsNext(2 * s + 3, p, s + 2);
  }

  lemma MeetsNext(blocks: nat, p: nat, j: nat)
    requires p < |Schedule(blocks)| && MetIn(Schedule(blocks)[p], j) != []
    ensures MetIn(Schedule(blocks)[p], j) == [|Meetings(Schedule(blocks)[..p], j)|]
  {
    var all := Schedule(blocks);
    assert all[..p + 1] == all[..p] + [all[p]];
    hide *;
    MetSoFar(blocks, p, j);
    MetSoFar(blocks, p + 1, j);
    MeetingsSnoc(all[..p], all[p], j);
    MetNext(Meetings(all[..p], j), all[p], j);
  }

  /** Any run of the wavefront on this leaf gives the misled row a wrong distance. */
  lemma WaveMisses(ctx: Context, s: nat, r: real, tops: seq<seq<Entry>>, h: History)
    requires ctx.Valid() && !Conservative(ctx, 0) && 0.0 <= r < 1.0
    requires !Survives(ctx, OnAxis(0.0, ctx.dim), OnAxis(1.0 + r, ctx.dim), Finite(4.0), 0)
    requires IsHistory(ctx, DecoyLeaf(ctx.dim, s, r), 1, s, tops, h) && |tops| == Size(s)
    ensures var rows := DecoyLeaf(ctx.dim, s, r);
            ROW < |rows| && !SameDistances(tops[ROW], BruteForce(Distances(rows[ROW], rows), ROW, 1, |rows|))
  {
    var rows, all := DecoyLeaf(ctx.dim, s, r), Schedule(2 * s + 3);
    FarApart(s);
    assert Start(ctx, s, r, h.seeded, h.seeds);
    assert all[..|all|] == all && h.visits == all;
    assert tops == ListsAt(ctx, s, r, h.seeded, h.seeds, |all|);
    hide *;
    RunAvoids(ctx, s, r, h.seeded, h.seeds, |all|);
    RunRow(ctx, rows, 1, s, tops, h, ROW);
    NearList(ctx.dim, s, r);
    AtFour(ctx.dim, s, r, tops[ROW]);
    Differ(tops[ROW], BruteForce(Distances(rows[ROW], rows), ROW, 1, |rows|));
  }

  lemma AtFour(dim: nat, s: nat, r: real, t: seq<Entry>)
    requires 0 < dim && 0.0 <= r < 1.0 && ROW < Decoy(s) < Size(s)
    requires var rows := DecoyLeaf(dim, s, r);
             Best(t, 1, UpTo(|rows|) - {ROW}, Distances(rows[ROW], rows), false)
    requires !HasIdx(t, Decoy(s))
    ensures |t| == 1 && t[0].dist == 4.0
  {
    var rows := DecoyLeaf(dim, s, r);
    assert Decoy(s) in UpTo(|rows|) - {ROW};
    FarList(dim, s, r, t, UpTo(|rows|) - {ROW}, false);
  }

  lemma Differ(a: seq<Entry>, b: seq<Entry>)
    requires |a| == 1 && a[0].dist == 4.0 && |b| == 1 && b[0].dist < 4.0
    ensures !SameDistances(a, b)
  {
  }

  // ----- runs exist --------------------------------------------------------------------------------------

  lemma {:induction false} BestExists(k: nat, seen: set<nat>, d: seq<real>) returns (t: seq<Entry>)
    requires forall c :: c in seen ==> c < |d|
    ensures |t| <= k && Best(t, k, seen, d, true)
    decreases seen
  {
    if seen == {} {
      t := [];
      BestEmpty(k, d, true);
    } else {
      var c :| c in seen;
      var u := BestExists(k, seen - {c}, d);
      BestPush(u, k, seen - {c}, d, true, Entry(d[c], c));
      t := Push(u, k, Entry(d[c], c));
      assert seen - {c} + {c} == seen;
    }
  }

  ghost function NearRows(a: nat, n: nat, s: nat): (r: set<nat>)
    ensures forall c: nat :: c in r <==> c < n && c != a && Near(a, c, n, s)
  {
    set c | c in UpTo(n) && c != a && Near(a, c, n, s)
  }

  lemma {:induction false} SeededExist(rows: seq<Vec>, dim: nat, k: nat, seeds: Seeds, m: nat) returns (tops: seq<seq<Entry>>)
    requires IsMatrix(rows, dim) && m <= |rows| == |seeds| && forall a, c :: 0 <= a < m && c in seeds[a] ==> c < |rows|
    ensures |tops| == m && forall a :: 0 <= a < m ==> |tops[a]| <= k && Best(tops[a], k, seeds[a], Distances(rows[a], rows), true)
  {
    if m == 0 {
      tops := [];
    } else {
      var front := SeededExist(rows, dim, k, seeds, m - 1);
      var t := BestExists(k, seeds[m - 1], Distances(rows[m - 1], rows));
      hide Best;
      tops := front + [t];
    }
  }

  lemma RunExists(ctx: Context, rows: seq<Vec>, k: nat, s: nat) returns (tops: seq<seq<Entry>>, h: History)
    requires ctx.Valid() && IsMatrix(rows, ctx.dim) && (0 < |rows| ==> s < |rows|)
    ensures |tops| == |rows| && IsHistory(ctx, rows, k, s, tops, h)
  {
    var n := |rows|;
    var seeds: Seeds := seq(n, a requires 0 <= a < n => NearRows(a, n, s));
    forall a: nat, c: nat | a < n && c in seeds[a]
      ensures PairOk(seeds, n, a, c)
    {
    }
    var seeded := SeededExist(rows, ctx.dim, k, seeds, n);
    forall a | 0 <= a < n
      ensures Best(seeded[a], k, seeds[a], Distances(rows[a], rows), Conservative(ctx, 0))
    {
    }
    hide Best, Distances;
    var visits := Schedule(BlockCount(n));
    tops := AfterVisits(ctx, rows, k, seeded, seeds, visits);
    h := History(seeds, seeded, visits, multiset{});
  }

  /** Every run of the wavefront, on every leaf, gives every row the distances of the brute-force scan. */
  ghost predicate WaveAlwaysExact(ctx: Context, seedExact: nat)
    requires ctx.Valid()
  {
    forall rows: seq<Vec>, k: nat, tops: seq<seq<Entry>>, h: History, r: nat ::
      IsRunOf(ctx, rows, k, seedExact, tops, h) && r < |rows|
      ==> SameDistances(tops[r], BruteForce(Distances(rows[r], rows), r, LeafK(k, |rows|), |rows|))
  }

  /** A run as `WavefrontTopK` makes it. */
  ghost predicate IsRunOf(ctx: Context, rows: seq<Vec>, k: nat, seedExact: nat, tops: seq<seq<Entry>>, h: History) {
    IsMatrix(rows, ctx.dim) && |tops| == |rows| && IsHistory(ctx, rows, LeafK(k, |rows|), LeafSeeds(seedExact, |rows|), tops, h)
  }

  /** The wavefront is exact on every leaf if and only if every boundary ratio is at least 1. */
  lemma WaveExactIff(ctx: Context, seedExact: nat)
    requires ctx.Valid()
    ensures WaveAlwaysExact(ctx, seedExact) <==> Conservative(ctx, 0)
  {
    if Conservative(ctx, 0) {
      hide Conservative, IsHistory, BruteForce, SameDistances, LeafK, LeafSeeds;
      forall rows: seq<Vec>, k: nat, tops: seq<seq<Entry>>, h: History, r: nat |
        IsRunOf(ctx, rows, k, seedExact, tops, h) && r < |rows|
        ensures SameDistances(tops[r], BruteForce(Distances(rows[r], rows), r, LeafK(k, |rows|), |rows|))
      {
        RunRow(ctx, rows, LeafK(k, |rows|), LeafSeeds(seedExact, |rows|), tops, h, r);
      }
    } else {
      var small := SmallRatioPrunes(ctx, 0);
      var rows := DecoyLeaf(ctx.dim, seedExact, small);
      assert LeafK(1, |rows|) == 1 && LeafSeeds(seedExact, |rows|) == seedExact;
      hide Conservative, IsHistory, BruteForce, SameDistances, DecoyLeaf, Survives, LeafK, LeafSeeds, Distances;
      var tops, h := RunExists(ctx, rows, 1, seedExact);
      WaveMisses(ctx, seedExact, small, tops, h);
      assert IsRunOf(ctx, rows, 1, seedExact, tops, h);
    }
  }

  /**
   For the table the builder makes, both leaf scans are exact on every leaf under the same condition
   on its parameters as the root scan.
   */
  lemma BuiltLeafExactIff(dim: nat, epsilon: real, group: nat, root: nat -> real, seedExact: nat)
    requires 0 < dim && 0 < group && epsilon > 0.0 && IsRoot(root, dim)
    ensures var ctx := BuildContext(dim, epsilon, group, root).value;
            && (LeafAlwaysExact(ctx, seedExact) <==> (group >= dim || root(group) + epsilon >= root(dim)))
            && (WaveAlwaysExact(ctx, seedExact) <==> (group >= dim || root(group) + epsilon >= root(dim)))
  {
    hide LeafAlwaysExact, WaveAlwaysExact, AlwaysExact, Conservative;
    var ctx := BuildContext(dim, epsilon, group, root).value;
    BuiltExactIff(dim, epsilon, group, root, seedExact);
    RootExactIff(ctx, seedExact);
    LeafExactIff(ctx, seedExact);
    WaveExactIff(ctx, seedExact);
  }
}
