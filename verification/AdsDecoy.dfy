/**
 Leaf scans lose exactness for every ratio table with a boundary ratio below 1: on a leaf of points
 on one axis, one row's nearest other row is far from it in the order of rows, stands behind blocks
 that fill the row's list, and is dropped at that boundary.
 */
module AdsDecoy {
  import opened TopK
  import opened AdsSpec
  import opened AdsRoot
  import opened AdsLeaf

  // ----- the leaf -------------------------------------------------------------------------------------

  /** The row that is misled, the first of block 1. */
  const ROW: nat := 64

  /** Its nearest row, the first of block s + 2. */
  function Decoy(s: nat): nat {
    BlockStart(s + 2)
  }

  function Size(s: nat): nat {
    BlockStart(2 * s + 3)
  }

  function Place(s: nat, r: real, c: nat): real {
    if c == ROW then 0.0 else if c == Decoy(s) then 1.0 + r else 2.0
  }

  function DecoyLeaf(dim: nat, s: nat, r: real): (rows: seq<Vec>)
    ensures |rows| == Size(s) && IsMatrix(rows, dim)
    ensures forall c :: 0 <= c < |rows| ==> rows[c] == OnAxis(Place(s, r, c), dim)
  {
    seq(Size(s), c requires 0 <= c => OnAxis(Place(s, r, c), dim))
  }

  lemma LeafDistance(dim: nat, s: nat, r: real, a: nat, c: nat)
    requires 0 < dim && a < Size(s) && c < Size(s)
    ensures var rows := DecoyLeaf(dim, s, r);
            Distances(rows[a], rows)[c] == (Place(s, r, a) - Place(s, r, c)) * (Place(s, r, a) - Place(s, r, c))
  {
    AxisGap(Place(s, r, a), Place(s, r, c), dim, dim);
  }

  /** From the row, the decoy is nearer than 4 and every other row is at 4. */
  lemma RowDistances(dim: nat, s: nat, r: real, c: nat)
    requires 0 < dim && 0.0 <= r < 1.0 && c < Size(s) && c != ROW
    ensures ROW < Decoy(s) < Size(s)
    ensures var rows := DecoyLeaf(dim, s, r); var d := Distances(rows[ROW], rows);
            if c == Decoy(s) then d[c] == (1.0 + r) * (1.0 + r) < 4.0 else d[c] == 4.0
  {
    LeafDistance(dim, s, r, ROW, c);
    SquaresCompare(1.0 + r, 2.0);
  }

  // ----- what a list can hold ---------------------------------------------------------------------------

  lemma PushMembers(s: seq<Entry>, k: nat, e: Entry, c: nat)
    requires |s| <= k && HasIdx(Push(s, k, e), c)
    ensures HasIdx(s, c) || c == e.idx
  {
    if !HasIdx(s, e.idx) {
      if |s| < k {
        InsertMembers(s, e);
      } else if 0 < k && e.dist < s[k - 1].dist {
        InsertMembers(s[..k - 1], e);
        if HasIdx(s[..k - 1], c) {
          var i :| 0 <= i < k - 1 && s[..k - 1][i].idx == c;
          assert s[i].idx == c;
        }
      }
    }
  }

  /** A list that is full for some candidates other than the decoy, and does not hold it, is at distance 4. */
  lemma FarList(dim: nat, s: nat, r: real, t: seq<Entry>, seen: set<nat>, exact: bool)
    requires 0 < dim && 0.0 <= r < 1.0
    requires var rows := DecoyLeaf(dim, s, r);
             Best(t, 1, seen, Distances(rows[ROW], rows), exact)
    requires seen != {} && ROW !in seen && !HasIdx(t, Decoy(s))
    ensures |t| == 1 && t[0].dist == 4.0
  {
    var x :| x in seen;
    assert |seen| == |seen - {x}| + 1;
    assert t[0].idx in seen && t[0].idx != Decoy(s);
    RowDistances(dim, s, r, t[0].idx);
  }

  /** Brute force finds the decoy. */
  lemma NearList(dim: nat, s: nat, r: real)
    requires 0 < dim && 0.0 <= r < 1.0
    ensures var rows := DecoyLeaf(dim, s, r);
            var t := BruteForce(Distances(rows[ROW], rows), ROW, 1, |rows|);
            |t| == 1 && t[0].dist < 4.0
  {
    var rows := DecoyLeaf(dim, s, r);
    var d, n := Distances(rows[ROW], rows), |rows|;
    var t, c := BruteForce(d, ROW, 1, n), Decoy(s);
    RowDistances(dim, s, r, c);
    BruteForceBest(d, ROW, 1, n);
    hide DecoyLeaf, BruteForce, Distances;
    var others := UpTo(n) - {ROW};
    assert c in others;
    assert |others| == |others - {c}| + 1;
    if HasIdx(t, c) {
      assert t[0].idx == c;
    } else {
      assert t[0].dist <= d[c];
    }
  }

  // ----- the directed scan ----------------------------------------------------------------------------------

  lemma {:induction false} PushLanesMembers(ctx: Context, q: Vec, rows: seq<Vec>, k: nat, top: seq<Entry>, bound: Bound,
                                            start: nat, mask: set<nat>, lanes: nat, c: nat)
    requires ctx.Valid() && IsMatrix(rows, ctx.dim) && |q| == ctx.dim && |top| <= k && c < |rows|
    requires forall l :: l in mask ==> start + l < |rows|
    requires HasIdx(PushLanes(ctx, q, rows, k, top, bound, start, mask, lanes), c) && !HasIdx(top, c)
    ensures start <= c < start + lanes && c - start in mask && Survives(ctx, q, rows[c], bound, 0)
  {
    if lanes > 0 {
      var t := PushLanes(ctx, q, rows, k, top, bound, start, mask, lanes - 1);
      if HasIdx(t, c) {
        PushLanesMembers(ctx, q, rows, k, top, bound, start, mask, lanes - 1, c);
      } else {
        PushMembers(t, k, Entry(L2(q, rows[start + lanes - 1]), start + lanes - 1), c);
      }
    }
  }

  lemma {:induction false} SeedTopMembers(rows: seq<Vec>, dim: nat, row: nat, k: nat, s: nat, c: nat)
    requires IsMatrix(rows, dim) && row < |rows| && s < |rows| && HasIdx(SeedTop(rows, dim, row, k, s), c)
    ensures c in LeafSkip(row, s, |rows|)
  {
    var w := Wrap(row, s, |rows|);
    if s > 0 {
      var t := SeedTop(rows, dim, row, k, s - 1);
      if HasIdx(t, c) {
        SeedTopMembers(rows, dim, row, k, s - 1, c);
      } else {
        PushMembers(t, k, Entry(L2(rows[row], rows[w]), w), c);
      }
    }
  }

  /** The row's list after its seeds and b blocks. */
  ghost function ListAt(ctx: Context, s: nat, r: real, b: nat): (t: seq<Entry>)
    requires ctx.Valid()
    ensures |t| <= 1
  {
    var rows := DecoyLeaf(ctx.dim, s, r);
    ScanBlocks(ctx, rows[ROW], rows, 1, SeedTop(rows, ctx.dim, ROW, 1, s), LeafSkip(ROW, s, |rows|), b)
  }

  /** The row's list never gets the decoy: when its block comes, the list is full at distance 4. */
  lemma {:induction false} ScanAvoids(ctx: Context, s: nat, r: real, b: nat)
    requires ctx.Valid() && 0.0 <= r < 1.0 && b <= 2 * s + 3
    requires !Survives(ctx, OnAxis(0.0, ctx.dim), OnAxis(1.0 + r, ctx.dim), Finite(4.0), 0)
    ensures !HasIdx(ListAt(ctx, s, r, b), Decoy(s))
  {
    hide *;
    if b == 0 {
      SeedsAvoid(ctx, s, r);
    } else {
      ScanAvoids(ctx, s, r, b - 1);
      if HasIdx(ListAt(ctx, s, r, b), Decoy(s)) {
        AddsDecoy(ctx, s, r, b);
        ScanFull(ctx, s, r, b - 1);
        FullThreshold(ListAt(ctx, s, r, b - 1));
      }
    }
  }

  lemma FullThreshold(t: seq<Entry>)
    requires |t| == 1
    ensures Threshold(t, 1) == Finite(t[0].dist)
  {
  }

  lemma SeedsAvoid(ctx: Context, s: nat, r: real)
    requires ctx.Valid()
    ensures !HasIdx(ListAt(ctx, s, r, 0), Decoy(s))
  {
    var rows := DecoyLeaf(ctx.dim, s, r);
    assert Decoy(s) !in LeafSkip(ROW, s, |rows|);
    if HasIdx(SeedTop(rows, ctx.dim, ROW, 1, s), Decoy(s)) {
      SeedTopMembers(rows, ctx.dim, ROW, 1, s, Decoy(s));
    }
  }

  /** Only its own block can add the decoy, and only if it survives the threshold held then. */
  lemma AddsDecoy(ctx: Context, s: nat, r: real, b: nat)
    requires ctx.Valid() && 0 < b <= 2 * s + 3
    requires HasIdx(ListAt(ctx, s, r, b), Decoy(s)) && !HasIdx(ListAt(ctx, s, r, b - 1), Decoy(s))
    ensures 1 <= b - 1
    ensures Survives(ctx, OnAxis(0.0, ctx.dim), OnAxis(1.0 + r, ctx.dim), Threshold(ListAt(ctx, s, r, b - 1), 1), 0)
  {
    var rows, c, t, start := DecoyLeaf(ctx.dim, s, r), Decoy(s), ListAt(ctx, s, r, b - 1), BlockStart(b - 1);
    assert rows[ROW] == OnAxis(0.0, ctx.dim) && rows[c] == OnAxis(1.0 + r, ctx.dim);
    var mask := LanesOf(start, |rows|, LeafSkip(ROW, s, |rows|));
    hide OnAxis, Survives, SeedTop, LeafSkip;
    PushLanesMembers(ctx, rows[ROW], rows, 1, t, Threshold(t, 1), start, mask, BLOCK, c);
  }

  /** From the first block on, a list without the decoy is full at distance 4. */
  lemma ScanFull(ctx: Context, s: nat, r: real, b: nat)
    requires ctx.Valid() && 0.0 <= r < 1.0 && 1 <= b <= 2 * s + 3 && !HasIdx(ListAt(ctx, s, r, b), Decoy(s))
    ensures |ListAt(ctx, s, r, b)| == 1 && ListAt(ctx, s, r, b)[0].dist == 4.0
  {
    var rows := DecoyLeaf(ctx.dim, s, r);
    var seeds, skip, n := SeedTop(rows, ctx.dim, ROW, 1, s), LeafSkip(ROW, s, |rows|), |rows|;
    SeedTopBest(rows, ctx.dim, ROW, 1, s, false);
    ScanBlocksBest(ctx, rows[ROW], rows, 1, seeds, skip, skip - {ROW}, b, false);
    assert 0 in SeenAfter(skip - {ROW}, skip, n, b) && ROW !in SeenAfter(skip - {ROW}, skip, n, b);
    FarList(ctx.dim, s, r, ListAt(ctx, s, r, b), SeenAfter(skip - {ROW}, skip, n, b), false);
  }

  /** With some boundary ratio below 1 there is a leaf on which a row misses its nearest neighbour. */
  lemma LeafScanMisses(ctx: Context, seedExact: nat) returns (rows: seq<Vec>, row: nat)
    requires ctx.Valid() && !Conservative(ctx, 0)
    ensures IsMatrix(rows, ctx.dim) && row < |rows|
    ensures !SameDistances(LeafScan(ctx, rows, row, 1, seedExact), BruteForce(Distances(rows[row], rows), row, LeafK(1, |rows|), |rows|))
  {
    var r := SmallRatioPrunes(ctx, 0);
    var s := seedExact;
    rows, row := DecoyLeaf(ctx.dim, s, r), ROW;
    assert BlockCount(|rows|) == 2 * s + 3 && LeafSeeds(s, |rows|) == s && LeafK(1, |rows|) == 1;
    hide DecoyLeaf, ScanBlocks, SeedTop, LeafSkip, BruteForce, Distances, Survives;
    ScanAvoids(ctx, s, r, 2 * s + 3);
    ScanFull(ctx, s, r, 2 * s + 3);
    NearList(ctx.dim, s, r);
  }

  /** Every row of every leaf gets the distances of the brute-force scan. */
  ghost predicate LeafAlwaysExact(ctx: Context, seedExact: nat)
    requires ctx.Valid()
  {
    forall rows: seq<Vec>, row: nat, k: nat :: IsMatrix(rows, ctx.dim) && row < |rows|
      ==> SameDistances(LeafScan(ctx, rows, row, k, seedExact), BruteForce(Distances(rows[row], rows), row, LeafK(k, |rows|), |rows|))
  }

  /** The directed leaf scan is exact on every leaf if and only if every boundary ratio is at least 1. */
  lemma LeafExactIff(ctx: Context, seedExact: nat)
    requires ctx.Valid()
    ensures LeafAlwaysExact(ctx, seedExact) <==> Conservative(ctx, 0)
  {
    hide LeafScan, BruteForce, Conservative, Best, SameDistances;
    if Conservative(ctx, 0) {
      forall rows: seq<Vec>, row: nat, k: nat | IsMatrix(rows, ctx.dim) && row < |rows|
        ensures SameDistances(LeafScan(ctx, rows, row, k, seedExact), BruteForce(Distances(rows[row], rows), row, LeafK(k, |rows|), |rows|))
      {
        LeafScanBest(ctx, rows, row, k, seedExact, true);
        MatchesBruteForce(LeafScan(ctx, rows, row, k, seedExact), Distances(rows[row], rows), row, LeafK(k, |rows|));
      }
    } else {
      var rows, row := LeafScanMisses(ctx, seedExact);
    }
  }
}
