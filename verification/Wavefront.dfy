/**
 Leaf kNN by ADSampling, symmetric form: blocks are paired wave by wave, each unordered pair of
 rows of two blocks is evaluated once and offered to both rows, and a pair is dropped only when
 its partial distance reaches the scaled maximum of the two rows' thresholds at the start of the
 block pair. Seeds are mutual and never evaluated again.
 */
module Wavefront {
  import opened Basics
  import opened TopK
  import opened AdsSpec
  import opened AdsLeaf
  import opened WaveLog

  function MaxBound(a: Bound, b: Bound): Bound {
    if a.Infinite? || b.Infinite? then Infinite
    else if a.value >= b.value then a else b
  }

  /** The seeded matrix by rows: seeds[a] holds the rows paired with a. */
  type Seeds = seq<set<nat>>

  ghost predicate SeedsOk(seeds: Seeds, n: nat) {
    && |seeds| == n
    && (forall a: nat, c: nat {:trigger c in seeds[a]} :: a < n && c in seeds[a] ==> PairOk(seeds, n, a, c))
  }

  ghost predicate PairOk(seeds: Seeds, n: nat, a: nat, c: nat) {
    c < n && c != a && c < |seeds| && a in seeds[c]
  }

  ghost predicate Leaf(ctx: Context, rows: seq<Vec>, k: nat, tops: seq<seq<Entry>>, seeds: Seeds) {
    && ctx.Valid() && IsMatrix(rows, ctx.dim)
    && |tops| == |rows| && SeedsOk(seeds, |rows|)
    && (forall r :: 0 <= r < |tops| ==> |tops[r]| <= k)
  }

  /** The pair is not seeded and stays below both stale thresholds' maximum at every boundary. */
  ghost predicate PairLives(ctx: Context, rows: seq<Vec>, k: nat, tops: seq<seq<Entry>>, seeds: Seeds, a: nat, c: nat)
    requires Leaf(ctx, rows, k, tops, seeds) && a < |rows| && c < |rows|
  {
    && c !in seeds[a]
    && Survives(ctx, rows[a], rows[c], MaxBound(Threshold(tops[a], k), Threshold(tops[c], k)), 0)
  }

  /** What a row receives from the first `lanes` lanes of the block at `start`. */
  ghost function PairLanes(ctx: Context, rows: seq<Vec>, k: nat, tops: seq<seq<Entry>>, seeds: Seeds,
                           a: nat, start: nat, lanes: nat): (r: seq<Entry>)
    requires Leaf(ctx, rows, k, tops, seeds) && a < |rows|
    ensures |r| <= k
  {
    if lanes == 0 then tops[a]
    else
      var t, c := PairLanes(ctx, rows, k, tops, seeds, a, start, lanes - 1), start + lanes - 1;
      if c < |rows| && PairLives(ctx, rows, k, tops, seeds, a, c)
      then Push(t, k, Entry(L2(rows[a], rows[c]), c)) else t
  }

  // ----- pairs are symmetric ------------------------------------------------------------------

  lemma {:induction false} SurvivesSym(ctx: Context, x: Vec, y: Vec, bound: Bound, from: nat)
    requires ctx.Valid() && |x| == ctx.dim && |y| == ctx.dim
    ensures Survives(ctx, x, y, bound, from) <==> Survives(ctx, y, x, bound, from)
    decreases ctx.dim - from
  {
    if from < ctx.dim {
      PartialSym(x, y, GroupEnd(ctx, from));
      SurvivesSym(ctx, x, y, bound, GroupEnd(ctx, from));
    }
  }

  lemma PairSym(ctx: Context, rows: seq<Vec>, k: nat, tops: seq<seq<Entry>>, seeds: Seeds, a: nat, c: nat)
    requires Leaf(ctx, rows, k, tops, seeds) && a < |rows| && c < |rows|
    ensures PairLives(ctx, rows, k, tops, seeds, a, c) <==> PairLives(ctx, rows, k, tops, seeds, c, a)
    ensures L2(rows[a], rows[c]) == L2(rows[c], rows[a])
  {
    var ta, tc := Threshold(tops[a], k), Threshold(tops[c], k);
    assert MaxBound(ta, tc) == MaxBound(tc, ta);
    SurvivesSym(ctx, rows[a], rows[c], MaxBound(ta, tc), 0);
    PartialSym(rows[a], rows[c], ctx.dim);
  }

  // ----- one block pair keeps both rows best ----------------------------------------------------

  /** The set a row has considered after meeting its first m blocks. */
  ghost function Seen(seeds: Seeds, a: nat, n: nat, m: nat): set<nat>
    requires a < |seeds|
  {
    SeenAfter(seeds[a], seeds[a] + {a}, n, m)
  }

  lemma PairBest(ctx: Context, rows: seq<Vec>, k: nat, tops: seq<seq<Entry>>, seeds: Seeds,
                 a: nat, c: nat, t: seq<Entry>, seen: set<nat>, exact: bool)
    requires Leaf(ctx, rows, k, tops, seeds) && a < |rows| && c < |rows| && |t| <= k
    requires c !in seen && c !in seeds[a]
    requires Best(t, k, seen, Distances(rows[a], rows), exact)
    requires AtMost(Threshold(t, k), Threshold(tops[a], k))
    requires exact ==> Conservative(ctx, 0)
    ensures var r := if PairLives(ctx, rows, k, tops, seeds, a, c)
                     then Push(t, k, Entry(L2(rows[a], rows[c]), c)) else t;
            && Best(r, k, seen + {c}, Distances(rows[a], rows), exact)
            && AtMost(Threshold(r, k), Threshold(tops[a], k))
  {
    var d := Distances(rows[a], rows);
    var own, bound := Threshold(tops[a], k), MaxBound(Threshold(tops[a], k), Threshold(tops[c], k));
    var e := Entry(L2(rows[a], rows[c]), c);
    if PairLives(ctx, rows, k, tops, seeds, a, c) {
      BestPush(t, k, seen, d, exact, e);
      ThresholdFalls(t, k, e);
    } else {
      PrunedIsFar(ctx, rows[a], rows[c], bound, 0);
      var far := t[k - 1];
      PartialGrows(rows[a], rows[far.idx], 0, ctx.dim);
      assert far.dist == d[far.idx] == L2(rows[a], rows[far.idx]) >= 0.0;
      BestSkip(t, k, seen, d, exact, c);
    }
  }

  lemma {:induction false} PairLanesBest(ctx: Context, rows: seq<Vec>, k: nat, tops: seq<seq<Entry>>, seeds: Seeds,
                                         a: nat, start: nat, mask: set<nat>, lanes: nat, seen: set<nat>, exact: bool)
    requires Leaf(ctx, rows, k, tops, seeds) && a < |rows| && lanes <= BLOCK
    requires forall l: nat :: l in mask <==> OpenTo(rows, seeds, a, start, l)
    requires forall l :: l in mask ==> start + l !in seen
    requires Best(tops[a], k, seen, Distances(rows[a], rows), exact)
    requires exact ==> Conservative(ctx, 0)
    ensures var r := PairLanes(ctx, rows, k, tops, seeds, a, start, lanes);
            && Best(r, k, SeenLanes(seen, start, mask, lanes), Distances(rows[a], rows), exact)
            && AtMost(Threshold(r, k), Threshold(tops[a], k))
  {
    hide Best, Distances, Survives, Push, Conservative;
    if lanes > 0 {
      PairLanesBest(ctx, rows, k, tops, seeds, a, start, mask, lanes - 1, seen, exact);
      var c := start + lanes - 1;
      assert lanes - 1 in mask <==> OpenTo(rows, seeds, a, start, lanes - 1);
      if lanes - 1 in mask {
        var t := PairLanes(ctx, rows, k, tops, seeds, a, start, lanes - 1);
        PairBest(ctx, rows, k, tops, seeds, a, c, t, SeenLanes(seen, start, mask, lanes - 1), exact);
      }
    }
  }

  ghost predicate OpenTo(rows: seq<Vec>, seeds: Seeds, a: nat, start: nat, l: nat)
    requires a < |seeds|
  {
    l < BLOCK && start + l < |rows| && start + l !in seeds[a]
  }

  /** A row that has met b blocks meets block b through a block pair. */
  lemma PairStepBest(ctx: Context, rows: seq<Vec>, k: nat, tops: seq<seq<Entry>>, seeds: Seeds,
                     a: nat, b: nat, exact: bool)
    requires Leaf(ctx, rows, k, tops, seeds) && a < |rows|
    requires !(BlockStart(b) <= a < BlockStart(b) + BLOCK)
    requires Best(tops[a], k, Seen(seeds, a, |rows|, b), Distances(rows[a], rows), exact)
    requires exact ==> Conservative(ctx, 0)
    ensures Best(PairLanes(ctx, rows, k, tops, seeds, a, BlockStart(b), BLOCK), k,
                 Seen(seeds, a, |rows|, b + 1), Distances(rows[a], rows), exact)
  {
    hide Best, Distances, Conservative, PairLanes, UpTo, SeenAfter;
    var skip, start := seeds[a] + {a}, BlockStart(b);
    LanesUnseen(seeds[a], skip, |rows|, b);
    var mask := LanesOf(start, |rows|, skip);
    forall l: nat
      ensures l in mask <==> OpenTo(rows, seeds, a, start, l)
    {
      assert l in mask <==> l < BLOCK && IsOpen(start, l, |rows|, skip);
    }
    PairLanesBest(ctx, rows, k, tops, seeds, a, start, mask, BLOCK, Seen(seeds, a, |rows|, b), exact);
    BlockCovers(seeds[a], skip, |rows|, b + 1);
  }

  // ----- mutual seeds ------------------------------------------------------------------------------

  /** Row a's list is best for its set; no row has itself in it. */
  ghost predicate RowsBest(rows: seq<Vec>, dim: nat, k: nat, tops: seq<seq<Entry>>, seen: seq<set<nat>>, exact: bool)
    requires IsMatrix(rows, dim)
  {
    && |tops| == |seen| == |rows|
    && (forall a :: 0 <= a < |rows| ==> Best(tops[a], k, seen[a], Distances(rows[a], rows), exact))
  }

  lemma SeedsAdd(seeds: Seeds, s: Seeds, n: nat, left: nat, right: nat)
    requires SeedsOk(seeds, n) && left < right < n && |s| == n
    requires s[left] == seeds[left] + {right} && s[right] == seeds[right] + {left}
    requires forall a :: 0 <= a < n && a != left && a != right ==> s[a] == seeds[a]
    ensures SeedsOk(s, n)
  {
    forall a: nat, c: nat | a < n && c in s[a]
      ensures PairOk(s, n, a, c)
    {
      if c in seeds[a] {
        assert PairOk(seeds, n, a, c);
      }
    }
  }

  method SeedPair(rows: seq<Vec>, dim: nat, k: nat, tops: seq<seq<Entry>>, seeds: Seeds, left: nat, right: nat,
                  ghost exact: bool, ghost log: Log) returns (tops': seq<seq<Entry>>, seeds': Seeds, ghost log': Log)
    requires IsMatrix(rows, dim) && left < right < |rows| && SeedsOk(seeds, |rows|) && right !in seeds[left]
    requires RowsBest(rows, dim, k, tops, seeds, exact) && SeedsLogged(log, seeds)
    ensures SeedsLogged(log', seeds')
    ensures forall s :: SeedsNear(seeds, |rows|, s) && Near(left, right, |rows|, s) ==> SeedsNear(seeds', |rows|, s)
    ensures SeedsOk(seeds', |rows|) && right in seeds'[left]
    ensures forall a :: 0 <= a < |rows| ==> seeds[a] <= seeds'[a]
    ensures RowsBest(rows, dim, k, tops', seeds', exact)
  {
    Unpaired(seeds, |rows|, left, right);
    SeedSizes(rows, dim, k, tops, seeds, exact);
    hide *;
    SeedLogged(log, seeds, left, right);
    log' := log + multiset({Meeting(left, right), Meeting(right, left)});
    seeds' := seeds[left := seeds[left] + {right}];
    seeds' := seeds'[right := seeds[right] + {left}];
    SeedsAdd(seeds, seeds', |rows|, left, right);
    forall s | SeedsNear(seeds, |rows|, s) && Near(left, right, |rows|, s)
      ensures SeedsNear(seeds', |rows|, s)
    {
      NearAdd(seeds, seeds', |rows|, left, right, s);
    }
    var d := L2(rows[left], rows[right]);
    tops' := tops[left := Push(tops[left], k, Entry(d, right))];
    tops' := tops'[right := Push(tops[right], k, Entry(d, left))];
    SeedBest(rows, dim, k, tops, seeds, left, right, exact, tops', seeds');
  }

  lemma Unpaired(seeds: Seeds, n: nat, left: nat, right: nat)
    requires SeedsOk(seeds, n) && left < right < n && right !in seeds[left]
    ensures |seeds| == n && left !in seeds[right]
  {
  }

  lemma SeedSizes(rows: seq<Vec>, dim: nat, k: nat, tops: seq<seq<Entry>>, seeds: Seeds, exact: bool)
    requires IsMatrix(rows, dim) && RowsBest(rows, dim, k, tops, seeds, exact)
    ensures |tops| == |rows| && (forall a :: 0 <= a < |rows| ==> |tops[a]| <= k && |rows[a]| == dim)
  {
    hide Sound, Complete, Distances;
  }

  /** Pushing a new seed pair keeps both rows best. */
  lemma SeedBest(rows: seq<Vec>, dim: nat, k: nat, tops: seq<seq<Entry>>, seeds: Seeds, left: nat, right: nat, exact: bool,
                 tops': seq<seq<Entry>>, seeds': Seeds)
    requires IsMatrix(rows, dim) && left < right < |rows| && RowsBest(rows, dim, k, tops, seeds, exact)
    requires right !in seeds[left] && left !in seeds[right] && |tops[left]| <= k && |tops[right]| <= k
    requires seeds' == seeds[left := seeds[left] + {right}][right := seeds[right] + {left}]
    requires var d := L2(rows[left], rows[right]);
             tops' == tops[left := Push(tops[left], k, Entry(d, right))][right := Push(tops[right], k, Entry(d, left))]
    ensures RowsBest(rows, dim, k, tops', seeds', exact)
  {
    hide Best, Push;
    var d := L2(rows[left], rows[right]);
    PartialSym(rows[left], rows[right], dim);
    BestPush(tops[left], k, seeds[left], Distances(rows[left], rows), exact, Entry(d, right));
    BestPush(tops[right], k, seeds[right], Distances(rows[right], rows), exact, Entry(d, left));
  }

  /** The rows are at most s places apart, cyclically. */
  predicate Near(a: nat, c: nat, n: nat, s: nat) {
    if a < c then c - a <= s || a + n - c <= s else a - c <= s || c + n - a <= s
  }

  /** Only rows near each other are seeded. */
  ghost predicate SeedsNear(seeds: Seeds, n: nat, s: nat) {
    |seeds| == n && forall a: nat, c: nat {:trigger c in seeds[a]} :: a < n && c in seeds[a] ==> Near(a, c, n, s)
  }

  lemma NearAdd(seeds: Seeds, seeds': Seeds, n: nat, left: nat, right: nat, s: nat)
    requires SeedsNear(seeds, n, s) && left < right < n && |seeds'| == n && Near(left, right, n, s)
    requires seeds'[left] == seeds[left] + {right} && seeds'[right] == seeds[right] + {left}
    requires forall a :: 0 <= a < n && a != left && a != right ==> seeds'[a] == seeds[a]
    ensures SeedsNear(seeds', n, s)
  {
  }

  /** Each row's seeds are exactly the other rows within s places of it, cyclically. */
  ghost predicate SeedsAre(seeds: Seeds, n: nat, s: nat) {
    |seeds| == n && forall a: nat, c: nat {:trigger c in seeds[a]} :: a < n ==> (c in seeds[a] <==> c < n && c != a && Near(a, c, n, s))
  }

  /** The seeds of one row, skipping pairs that an earlier row has seeded. */
  method SeedFrom(rows: seq<Vec>, dim: nat, k: nat, seedExact: nat, row: nat, tops0: seq<seq<Entry>>, seeds0: Seeds,
                  ghost exact: bool, ghost log0: Log) returns (tops: seq<seq<Entry>>, seeds: Seeds, ghost log: Log)
    requires IsMatrix(rows, dim) && row < |rows| && seedExact < |rows|
    requires SeedsOk(seeds0, |rows|) && RowsBest(rows, dim, k, tops0, seeds0, exact) && SeedsLogged(log0, seeds0)
    requires SeedsNear(seeds0, |rows|, seedExact)
    ensures SeedsNear(seeds, |rows|, seedExact)
    ensures |seeds| == |rows| && SeedsLogged(log, seeds)
    ensures SeedsOk(seeds, |rows|) && RowsBest(rows, dim, k, tops, seeds, exact)
    ensures forall a :: 0 <= a < |rows| ==> seeds0[a] <= seeds[a]
    ensures HasSuccessors(seeds, row, |rows|, seedExact)
  {
    hide RowsBest, SeedsLogged, SeedsNear;
    var n := |rows|;
    tops, seeds, log := tops0, seeds0, log0;
    for off := 1 to seedExact + 1
      invariant SeedsOk(seeds, n) && RowsBest(rows, dim, k, tops, seeds, exact)
      invariant forall a :: 0 <= a < n ==> seeds0[a] <= seeds[a]
      invariant HasSuccessors(seeds, row, n, off - 1) && SeedsLogged(log, seeds) && SeedsNear(seeds, n, seedExact)
    {
      var candidate := Wrap(row, off, n);
      var left, right := MinNat(row, candidate), if row < candidate then candidate else row;
      if left != right && right !in seeds[left] {
        tops, seeds, log := SeedPair(rows, dim, k, tops, seeds, left, right, exact, log);
      }
      assert PairOk(seeds, n, left, right);
    }
  }

  /** The next s rows after a, cyclically, are seeded with it. */
  ghost predicate HasSuccessors(seeds: Seeds, a: nat, n: nat, s: nat)
    requires a < n == |seeds| && s < n
  {
    forall off :: 1 <= off <= s ==> Wrap(a, off, n) in seeds[a]
  }

  /** `initialize_leaf_wavefront_mutual_seed` */
  method MutualSeed(rows: seq<Vec>, dim: nat, k: nat, seedExact: nat, ghost exact: bool)
    returns (tops: seq<seq<Entry>>, seeds: Seeds, ghost log: Log)
    requires IsMatrix(rows, dim) && (0 < |rows| ==> seedExact < |rows|)
    ensures |seeds| == |rows| && SeedsOk(seeds, |rows|) && SeedsLogged(log, seeds) && SeedsAre(seeds, |rows|, seedExact)
    ensures RowsBest(rows, dim, k, tops, seeds, exact)
    ensures forall a :: 0 <= a < |rows| ==> HasSuccessors(seeds, a, |rows|, seedExact)
  {
    hide *;
    var n := |rows|;
    tops, seeds, log := seq(n, _ => []), seq(n, _ => {}), multiset{};
    NoSeeds(rows, dim, k, tops, seeds, log, exact, seedExact);
    for row := 0 to n
      invariant |seeds| == n && SeedsOk(seeds, n) && RowsBest(rows, dim, k, tops, seeds, exact) && SeedsLogged(log, seeds)
      invariant SeedsNear(seeds, n, seedExact)
      invariant forall a :: 0 <= a < row ==> HasSuccessors(seeds, a, n, seedExact)
    {
      ghost var before := seeds;
      tops, seeds, log := SeedFrom(rows, dim, k, seedExact, row, tops, seeds, exact, log);
      forall a | 0 <= a < row
        ensures HasSuccessors(seeds, a, n, seedExact)
      {
        SuccessorsStay(before, seeds, a, n, seedExact);
      }
    }
    SeedsExactly(seeds, n, seedExact);
  }

  lemma SeedsExactly(seeds: Seeds, n: nat, s: nat)
    requires SeedsOk(seeds, n) && SeedsNear(seeds, n, s) && (0 < n ==> s < n)
    requires forall a :: 0 <= a < n ==> HasSuccessors(seeds, a, n, s)
    ensures SeedsAre(seeds, n, s)
  {
    forall a: nat, c: nat | a < n
      ensures c in seeds[a] <==> c < n && c != a && Near(a, c, n, s)
    {
      if c in seeds[a] {
        assert PairOk(seeds, n, a, c);
      } else if c < n && c != a && Near(a, c, n, s) {
        NearSuccessor(seeds, a, c, n, s);
      }
    }
  }

  lemma NearSuccessor(seeds: Seeds, a: nat, c: nat, n: nat, s: nat)
    requires SeedsOk(seeds, n) && a < n && c < n && a != c && s < n && Near(a, c, n, s)
    requires HasSuccessors(seeds, a, n, s) && HasSuccessors(seeds, c, n, s)
    ensures c in seeds[a]
  {
    var up: nat := if a < c then c - a else c + n - a;
    if up <= s {
      assert Wrap(a, up, n) == c;
    } else {
      assert Wrap(c, n - up, n) == a;
      assert PairOk(seeds, n, c, a);
    }
  }

  lemma NoSeeds(rows: seq<Vec>, dim: nat, k: nat, tops: seq<seq<Entry>>, seeds: Seeds, log: Log, exact: bool, s: nat)
    requires IsMatrix(rows, dim) && |tops| == |seeds| == |rows| && log == multiset{}
    requires forall a :: 0 <= a < |rows| ==> tops[a] == [] && seeds[a] == {}
    ensures SeedsOk(seeds, |rows|) && RowsBest(rows, dim, k, tops, seeds, exact) && SeedsLogged(log, seeds)
    ensures SeedsNear(seeds, |rows|, s)
  {
    hide Best;
    forall a | 0 <= a < |rows|
      ensures Best(tops[a], k, seeds[a], Distances(rows[a], rows), exact)
    {
      BestEmpty(k, Distances(rows[a], rows), exact);
    }
  }

  lemma SuccessorsStay(before: Seeds, seeds: Seeds, a: nat, n: nat, s: nat)
    requires a < n == |before| == |seeds| && s < n && HasSuccessors(before, a, n, s) && before[a] <= seeds[a]
    ensures HasSuccessors(seeds, a, n, s)
  {
  }
}
