/**
 The gap-bounded planner `build_gather_plan`: a window grows while the gap to the next requested
 row and the window's row count stay within limits. Its statistics separate the rows read into
 distinct requested rows and over-read rows.
 */
module GatherPlan {
  import opened Basics
  import opened Sorting
  import opened ReadPlan
  import opened AlignedPlan

  datatype Options = Options(maxWindowBytes: nat, maxGapRows: nat, alignment: nat, sortIds: bool)
  datatype Op = Op(pos: nat, offset: nat)
  datatype Stats = Stats(rows: nat, overread: nat, physicalBytes: nat, wasteBytes: nat, scatterOps: nat)

  function WindowLimit(o: Options, rowBytes: nat, ids: seq<nat>): (n: nat)
    ensures n > 0
    ensures rowBytes == 0 ==> n == if |ids| < 1 then 1 else |ids|
    ensures rowBytes > 0 ==> (n == 1 || n * rowBytes <= o.maxWindowBytes) && o.maxWindowBytes < (n + 1) * rowBytes
  {
    if rowBytes == 0 then MaxNat(|ids|, 1)
    else
      QuotientOrOne(o.maxWindowBytes, rowBytes);
      MaxNat(o.maxWindowBytes / rowBytes, 1)
  }

  lemma QuotientOrOne(most: nat, row: nat)
    requires row > 0
    ensures var n := MaxNat(most / row, 1); (n == 1 || n * row <= most) && most < (n + 1) * row
  {
    if row <= most {
      Quotient(most, row);
    } else {
      assert most / row == 0;
    }
  }

  /** At most `maxGapRows` rows are skipped between two neighbouring requests. */
  ghost predicate SmallGap(o: Options, rows: seq<Row>, i: nat) {
    0 < i < |rows| && rows[i].id <= rows[i - 1].id + 1 + o.maxGapRows
  }

  /** The greedy window: small gaps inside, within the limit, and the next row breaks one of the two. */
  ghost predicate GreedyGap(o: Options, limit: nat, rows: seq<Row>, start: nat, end: nat) {
    && start < end <= |rows|
    && (forall i :: start < i < end ==> SmallGap(o, rows, i))
    && Span(rows, start, end) <= limit
    && (end < |rows| ==> !SmallGap(o, rows, end) || Span(rows, start, end + 1) > limit)
  }

  method ExtendGap(o: Options, limit: nat, rows: seq<Row>, start: nat) returns (end: nat)
    requires start < |rows| && limit > 0
    ensures GreedyGap(o, limit, rows, start, end)
  {
    end := start + 1;
    var prev := rows[start].id;
    while end < |rows|
      invariant start < end <= |rows| && prev == rows[end - 1].id
      invariant forall i :: start < i < end ==> SmallGap(o, rows, i)
      invariant Span(rows, start, end) <= limit
    {
      var next := rows[end].id;
      var gap := SubSat(SubSat(next, prev), 1);
      var proposed := SubSat(next, rows[start].id) + 1;
      if gap > o.maxGapRows || proposed > limit {
        break;
      }
      prev := next;
      end := end + 1;
    }
  }

  lemma GapFresh(o: Options, limit: nat, rows: seq<Row>, start: nat, end: nat)
    requires SortedBy(ById, rows) && GreedyGap(o, limit, rows, start, end)
    ensures FreshCut(rows, end)
  {
    assert end < |rows| ==> ById(rows[end - 1], rows[end]);
  }

  // ----- distinct rows --------------------------------------------------------------------------------

  ghost function Ids(rows: seq<Row>, start: nat, end: nat): set<nat>
    requires start <= end <= |rows|
  {
    set i | start <= i < end :: rows[i].id
  }

  lemma IdsNext(rows: seq<Row>, start: nat, end: nat)
    requires SortedBy(ById, rows) && start < end < |rows|
    ensures |Ids(rows, start, end + 1)| == |Ids(rows, start, end)| + (if rows[end].id == rows[end - 1].id then 0 else 1)
  {
    var was, x := Ids(rows, start, end), rows[end].id;
    assert Ids(rows, start, end + 1) == was + {x};
    assert rows[end - 1].id in was;
    assert ById(rows[end - 1], rows[end]);
    if x != rows[end - 1].id {
      forall i | start <= i < end
        ensures rows[i].id != x
      {
        assert i < end - 1 ==> ById(rows[i], rows[end - 1]);
      }
    }
  }

  lemma IdsBelow(rows: seq<Row>, start: nat, x: nat)
    requires SortedBy(ById, rows) && FreshCut(rows, start) && start < |rows| && x in Ids(rows, 0, start)
    ensures x < rows[start].id
  {
    var i :| 0 <= i < start && rows[i].id == x;
    RowsAscend(rows, i, start);
  }

  lemma IdsFrom(rows: seq<Row>, start: nat, end: nat, x: nat)
    requires SortedBy(ById, rows) && start < end <= |rows| && x in Ids(rows, start, end)
    ensures rows[start].id <= x
  {
    var i :| start <= i < end && rows[i].id == x;
    RowsAscend(rows, start, i + 1);
  }

  lemma IdsJoin(rows: seq<Row>, start: nat, end: nat)
    requires SortedBy(ById, rows) && FreshCut(rows, start) && start < end <= |rows|
    ensures |Ids(rows, 0, end)| == |Ids(rows, 0, start)| + |Ids(rows, start, end)|
  {
    hide SortedBy, FreshCut;
    var a, b := Ids(rows, 0, start), Ids(rows, start, end);
    assert Ids(rows, 0, end) == a + b;
    hide Ids;
    forall x | x in a
      ensures x !in b
    {
      IdsBelow(rows, start, x);
      if x in b {
        IdsFrom(rows, start, end, x);
      }
    }
    assert a !! b;
  }

  ghost function Requested(ids: seq<nat>): set<nat> {
    set i | i in ids
  }

  lemma AllIds(ids: seq<nat>, rows: seq<Row>)
    requires Ordered(ids, rows)
    ensures |rows| == |ids| && Ids(rows, 0, |rows|) == Requested(ids)
  {
    OrderedDistinct(ids, rows);
    forall x | x in Ids(rows, 0, |rows|)
      ensures x in ids
    {
      var i :| 0 <= i < |rows| && rows[i].id == x;
      OrderedRow(ids, rows, i);
    }
    forall x | x in ids
      ensures x in Ids(rows, 0, |rows|)
    {
      var p :| 0 <= p < |ids| && ids[p] == x;
      OrderedHits(ids, rows, p);
      var i :| 0 <= i < |rows| && rows[i].pos == p;
      OrderedRow(ids, rows, i);
    }
  }

  /** Counts the distinct rows of a window. */
  method CountDistinct(rows: seq<Row>, start: nat, end: nat) returns (distinct: nat)
    requires SortedBy(ById, rows) && start < end <= |rows|
    ensures distinct == |Ids(rows, start, end)|
    ensures distinct <= Span(rows, start, end)
  {
    hide SortedBy, Ids;
    distinct := 1;
    var prev := rows[start].id;
    OneId(rows, start);
    for i := start + 1 to end
      invariant prev == rows[i - 1].id && distinct == |Ids(rows, start, i)|
      invariant distinct <= Span(rows, start, i) && rows[start].id <= prev
    {
      IdsNext(rows, start, i);
      assert prev <= rows[i].id by {
        RowsAscend(rows, i - 1, i + 1);
      }
      if rows[i].id != prev {
        distinct := distinct + 1;
        prev := rows[i].id;
      }
    }
  }

  lemma OneId(rows: seq<Row>, start: nat)
    requires start < |rows|
    ensures |Ids(rows, start, start + 1)| == 1
  {
    assert Ids(rows, start, start + 1) == {rows[start].id};
  }

  // ----- the plan -------------------------------------------------------------------------------------

  ghost predicate GreedyGapAt(o: Options, limit: nat, rows: seq<Row>, cuts: seq<nat>, w: nat) {
    w + 1 < |cuts| && GreedyGap(o, limit, rows, cuts[w], cuts[w + 1])
  }

  ghost predicate AllGreedyGap(o: Options, limit: nat, rows: seq<Row>, cuts: seq<nat>) {
    forall w :: 0 <= w < |cuts| - 1 ==> GreedyGapAt(o, limit, rows, cuts, w)
  }

  lemma AddGap(o: Options, limit: nat, rows: seq<Row>, cuts: seq<nat>, start: nat, end: nat)
    requires AllGreedyGap(o, limit, rows, cuts) && FreshCuts(rows, cuts) && 0 < |cuts| && cuts[|cuts| - 1] == start
    requires GreedyGap(o, limit, rows, start, end) && FreshCut(rows, end)
    ensures AllGreedyGap(o, limit, rows, cuts + [end]) && FreshCuts(rows, cuts + [end]) && FreshCut(rows, start)
  {
    hide GreedyGap, FreshCut;
    var next := cuts + [end];
    assert FreshCut(rows, cuts[|cuts| - 1]);
    forall w | 0 <= w < |next| - 1
      ensures GreedyGapAt(o, limit, rows, next, w)
    {
      if w + 1 < |cuts| {
        assert GreedyGapAt(o, limit, rows, cuts, w);
      }
    }
  }

  /** The per-window operations are the flat scatter, cut by window. */
  ghost predicate SliceAt(byWindow: seq<seq<Op>>, scatter: seq<Scatter>, cuts: seq<nat>, w: nat) {
    && w < |byWindow| && w + 1 < |cuts| && cuts[w] <= cuts[w + 1] <= |scatter|
    && |byWindow[w]| == cuts[w + 1] - cuts[w]
    && forall k :: 0 <= k < |byWindow[w]| ==>
         byWindow[w][k] == Op(scatter[cuts[w] + k].pos, scatter[cuts[w] + k].offset)
  }

  ghost predicate Slices(byWindow: seq<seq<Op>>, scatter: seq<Scatter>, cuts: seq<nat>) {
    |cuts| == |byWindow| + 1 && forall w :: 0 <= w < |byWindow| ==> SliceAt(byWindow, scatter, cuts, w)
  }

  function OpsOf(scatter: seq<Scatter>, start: nat): (ops: seq<Op>)
    requires start <= |scatter|
  {
    seq(|scatter| - start, k requires 0 <= k < |scatter| - start => Op(scatter[start + k].pos, scatter[start + k].offset))
  }

  lemma AddSlice(byWindow: seq<seq<Op>>, scatter: seq<Scatter>, cuts: seq<nat>, scatter': seq<Scatter>)
    requires Slices(byWindow, scatter, cuts) && 0 < |cuts| && cuts[|cuts| - 1] == |scatter| <= |scatter'|
    requires scatter'[..|scatter|] == scatter
    ensures Slices(byWindow + [OpsOf(scatter', |scatter|)], scatter', cuts + [|scatter'|])
  {
    var next, cs := byWindow + [OpsOf(scatter', |scatter|)], cuts + [|scatter'|];
    assert forall i :: 0 <= i < |scatter| ==> scatter'[i] == scatter[i];
    forall w | 0 <= w < |next|
      ensures SliceAt(next, scatter', cs, w)
    {
      if w < |byWindow| {
        assert SliceAt(byWindow, scatter, cuts, w);
      }
    }
  }

  ghost predicate NonDecreasing(ids: seq<nat>) {
    forall i, j :: 0 <= i < j < |ids| ==> ids[i] <= ids[j]
  }

  lemma AlreadyOrdered(ids: seq<nat>)
    requires NonDecreasing(ids)
    ensures Ordered(ids, RowsOf(ids))
  {
  }

  function RoundUp(bytes: nat, alignment: nat): (n: nat)
    ensures var a := if alignment < 1 then 1 else alignment; bytes <= n < bytes + a && n % a == 0
  {
    var a := MaxNat(alignment, 1);
    DivCeilBounds(bytes, a);
    MultipleMod(a, DivCeil(bytes, a));
    DivCeil(bytes, a) * a
  }

  /**
   `build_gather_plan`, with `scatter` the flat form of its per-window operations. With
   `sortIds` off the ids have to be in order already. Rows read are distinct ids plus over-read.
   */
  method BuildGatherPlan(ids: seq<nat>, rowBytes: nat, o: Options)
    returns (windows: seq<Window>, byWindow: seq<seq<Op>>, stats: Stats,
             ghost scatter: seq<Scatter>, ghost rows: seq<Row>, ghost cuts: seq<nat>)
    requires o.sortIds || NonDecreasing(ids)
    ensures Ordered(ids, rows) && Built(windows, scatter, rows, cuts) && Slices(byWindow, scatter, cuts)
    ensures Scatters(ids, windows, scatter) && Disjoint(windows) && AllTight(ids, windows)
    ensures AllGreedyGap(o, WindowLimit(o, rowBytes, ids), rows, cuts)
    ensures stats.rows == SumCounts(windows) == |Requested(ids)| + stats.overread
    ensures stats.physicalBytes == stats.rows * rowBytes + stats.wasteBytes && stats.scatterOps == |ids|
    ensures stats.physicalBytes == SumBytes(windows, rowBytes, if o.sortIds then o.alignment else 1)
  {
    hide *;
    var sorted := RowsOf(ids);
    if o.sortIds {
      IdOrder();
      sorted := SortUnstable(ById, RowsOf(ids));
      IsOrdered(ids, sorted);
    } else {
      AlreadyOrdered(ids);
      OrderedSorted(ids, sorted);
    }
    rows := sorted;
    OrderedDistinct(ids, rows);
    var flat: seq<Scatter> := [];
    var limit := WindowLimit(o, rowBytes, ids);
    var start := 0;
    windows, byWindow, cuts := [], [], [0];
    stats := Stats(0, 0, 0, 0, 0);
    NothingGathered(o, limit, rows);
    while start < |sorted|
      invariant start == |flat| == stats.scatterOps <= |sorted|
      invariant 0 < |cuts| && cuts[|cuts| - 1] == start
      invariant Built(windows, flat, rows, cuts) && Slices(byWindow, flat, cuts)
      invariant AllGreedyGap(o, limit, rows, cuts) && FreshCuts(rows, cuts)
      invariant stats.rows == SumCounts(windows) == |Ids(rows, 0, start)| + stats.overread
      invariant stats.physicalBytes == stats.rows * rowBytes + stats.wasteBytes
      invariant stats.physicalBytes == SumBytes(windows, rowBytes, if o.sortIds then o.alignment else 1)
      decreases |sorted| - start
    {
      var end := ExtendGap(o, limit, sorted, start);
      GapBounds(o, limit, rows, start, end);
      GapFresh(o, limit, rows, start, end);
      AddGap(o, limit, rows, cuts, start, end);
      var count: nat := sorted[end - 1].id - sorted[start].id + 1;
      var distinct := CountDistinct(sorted, start, end);
      IdsJoin(rows, start, end);
      SumAdd(windows, Window(rows[start].id, count));
      var logical := count * rowBytes;
      var physical := if o.sortIds then RoundUp(logical, o.alignment) else logical;
      AddBytes(stats.rows, count, rowBytes);
      BytesAdd(windows, Window(rows[start].id, count), rowBytes, if o.sortIds then o.alignment else 1);
      stats := Stats(stats.rows + count, stats.overread + (count - distinct), stats.physicalBytes + physical,
                     stats.wasteBytes + (physical - logical), stats.scatterOps + (end - start));
      var windows', flat' := Emit(sorted, start, end, windows, flat, cuts);
      AddSlice(byWindow, flat, cuts, flat');
      byWindow := byWindow + [OpsOf(flat', start)];
      windows, flat := windows', flat';
      cuts := cuts + [end];
      start := end;
    }
    scatter := flat;
    AllIds(ids, rows);
    BuiltScatters(ids, windows, scatter, rows, cuts);
    BuiltTight(ids, windows, scatter, rows, cuts);
    BuiltDisjoint(windows, scatter, rows, cuts);
  }

  /** The bytes of all windows, each rounded up to whole blocks. */
  ghost function SumBytes(windows: seq<Window>, rowBytes: nat, alignment: nat): nat {
    if windows == [] then 0
    else SumBytes(windows[..|windows| - 1], rowBytes, alignment) + RoundUp(windows[|windows| - 1].count * rowBytes, alignment)
  }

  lemma BytesAdd(windows: seq<Window>, w: Window, rowBytes: nat, alignment: nat)
    ensures SumBytes(windows + [w], rowBytes, alignment) == SumBytes(windows, rowBytes, alignment) + RoundUp(w.count * rowBytes, alignment)
  {
    assert (windows + [w])[..|windows|] == windows;
  }

  lemma AddBytes(a: nat, b: nat, bytes: nat)
    ensures (a + b) * bytes == a * bytes + b * bytes
  {
  }

  lemma OrderedSorted(ids: seq<nat>, rows: seq<Row>)
    requires Ordered(ids, rows)
    ensures SortedBy(ById, rows)
  {
  }

  lemma NothingGathered(o: Options, limit: nat, rows: seq<Row>)
    ensures Built([], [], rows, [0]) && FreshCuts(rows, [0]) && AllGreedyGap(o, limit, rows, [0])
    ensures SumCounts([]) == 0 && (forall b: nat, a: nat :: SumBytes([], b, a) == 0) && Slices([], [], [0]) && |Ids(rows, 0, 0)| == 0
  {
    assert Ids(rows, 0, 0) == {};
  }

  lemma GapBounds(o: Options, limit: nat, rows: seq<Row>, start: nat, end: nat)
    requires SortedBy(ById, rows) && GreedyGap(o, limit, rows, start, end)
    ensures start < end <= |rows| && rows[start].id <= rows[end - 1].id
    ensures rows[end - 1].id - rows[start].id + 1 == Span(rows, start, end)
  {
    RowsAscend(rows, start, end);
  }
}
