/**
 Planning of row reads. Requested ids are sorted, cut into groups, and each group is read with
 one window spanning its rows; every requested position then copies its row out of its window.
 This module holds what the planners share (windows, scatter and their layout by cut points)
 and the amplification-bounded planner `BoundedReadPlanner::plan`.
 */
module ReadPlan {
  import opened Basics
  import opened Sorting

  datatype Row = Row(id: nat, pos: nat)
  datatype Window = Window(start: nat, count: nat)
  datatype Scatter = Scatter(window: nat, offset: nat, pos: nat)

  function RowsOf(ids: seq<nat>): seq<Row> {
    seq(|ids|, i requires 0 <= i < |ids| => Row(ids[i], i))
  }

  predicate ById(a: Row, b: Row) {
    a.id <= b.id
  }

  lemma IdOrder()
    ensures TotalPreorder(ById)
  {
  }

  /** The rows to read, by id: some sorted permutation of the numbered ids. */
  ghost predicate Ordered(ids: seq<nat>, rows: seq<Row>) {
    multiset(rows) == multiset(RowsOf(ids)) && SortedBy(ById, rows)
  }

  // ----- what a plan promises -----------------------------------------------------------------------

  /** The scatter entry copies row `ids[pos]` to `pos`, from inside its window. */
  ghost predicate Lands(ids: seq<nat>, windows: seq<Window>, s: Scatter) {
    && s.pos < |ids| && s.window < |windows|
    && s.offset < windows[s.window].count
    && windows[s.window].start + s.offset == ids[s.pos]
  }

  ghost predicate Hit(scatter: seq<Scatter>, pos: nat) {
    exists i :: 0 <= i < |scatter| && scatter[i].pos == pos
  }

  /** The scatter is a bijection on request positions. */
  ghost predicate Bijection(n: nat, scatter: seq<Scatter>) {
    && |scatter| == n
    && (forall i, j :: 0 <= i < j < n ==> scatter[i].pos != scatter[j].pos)
    && (forall p :: 0 <= p < n ==> Hit(scatter, p))
  }

  ghost predicate Scatters(ids: seq<nat>, windows: seq<Window>, scatter: seq<Scatter>) {
    && (forall i :: 0 <= i < |scatter| ==> Lands(ids, windows, scatter[i]))
    && Bijection(|ids|, scatter)
  }

  /** Windows increase and do not overlap. */
  ghost predicate Disjoint(windows: seq<Window>) {
    forall v, w :: 0 <= v < w < |windows| ==> windows[v].start + windows[v].count <= windows[w].start
  }

  /** A window starts and ends at requested rows. */
  ghost predicate Tight(ids: seq<nat>, w: Window) {
    && 0 < w.count
    && w.start in ids
    && w.start + (w.count - 1) in ids
  }

  ghost predicate AllTight(ids: seq<nat>, windows: seq<Window>) {
    forall w :: 0 <= w < |windows| ==> Tight(ids, windows[w])
  }

  function SumCounts(windows: seq<Window>): nat {
    if windows == [] then 0 else SumCounts(windows[..|windows| - 1]) + windows[|windows| - 1].count
  }

  // ----- plans by cut points ------------------------------------------------------------------------

  /** `cuts` splits `0 .. n` into non-empty consecutive groups. */
  ghost predicate IsCuts(cuts: seq<nat>, n: nat) {
    && 0 < |cuts| && cuts[0] == 0 && cuts[|cuts| - 1] == n
    && (forall v, w :: 0 <= v < w < |cuts| ==> cuts[v] < cuts[w])
  }

  /** Window `w` spans rows `lo .. hi` and their scatter entries point into it. */
  ghost predicate Group(windows: seq<Window>, scatter: seq<Scatter>, rows: seq<Row>, lo: nat, hi: nat, w: nat) {
    && lo < hi <= |scatter| && hi <= |rows| && w < |windows|
    && windows[w].start == rows[lo].id
    && windows[w].count == rows[hi - 1].id - rows[lo].id + 1
    && (forall i :: lo <= i < hi ==>
          scatter[i].window == w && scatter[i].pos == rows[i].pos && rows[lo].id + scatter[i].offset == rows[i].id)
  }

  ghost predicate GroupAt(windows: seq<Window>, scatter: seq<Scatter>, rows: seq<Row>, cuts: seq<nat>, w: nat) {
    w + 1 < |cuts| && Group(windows, scatter, rows, cuts[w], cuts[w + 1], w)
  }

  /** The scatter is grouped by window, group `w` being `cuts[w] .. cuts[w + 1]`. */
  ghost predicate Built(windows: seq<Window>, scatter: seq<Scatter>, rows: seq<Row>, cuts: seq<nat>) {
    && IsCuts(cuts, |scatter|) && |scatter| <= |rows| && |cuts| == |windows| + 1
    && (forall w :: 0 <= w < |windows| ==> GroupAt(windows, scatter, rows, cuts, w))
  }

  ghost function GroupOf(cuts: seq<nat>, n: nat, i: nat): (w: nat)
    requires IsCuts(cuts, n) && i < n
    ensures w + 1 < |cuts| && cuts[w] <= i < cuts[w + 1]
    decreases |cuts|
  {
    if cuts[|cuts| - 2] <= i then |cuts| - 2
    else GroupOf(cuts[..|cuts| - 1], cuts[|cuts| - 2], i)
  }

  /** Appends the window of `rows[start .. end]` and its scatter entries. */
  method Emit(rows: seq<Row>, start: nat, end: nat, windows: seq<Window>, scatter: seq<Scatter>, ghost cuts: seq<nat>)
    returns (windows': seq<Window>, scatter': seq<Scatter>)
    requires SortedBy(ById, rows) && start < end <= |rows| && start == |scatter|
    requires Built(windows, scatter, rows, cuts)
    ensures Built(windows', scatter', rows, cuts + [end]) && |scatter'| == end && scatter'[..start] == scatter
    ensures windows' == windows + [Window(rows[start].id, rows[end - 1].id - rows[start].id + 1)]
  {
    hide Built, GroupAt, IsCuts;
    RowsAscend(rows, start, end);
    var index := |windows|;
    windows' := windows + [Window(rows[start].id, rows[end - 1].id - rows[start].id + 1)];
    scatter' := scatter;
    for i := start to end
      invariant |scatter'| == i && scatter'[..start] == scatter
      invariant forall j :: start <= j < i ==>
          && scatter'[j].window == index && scatter'[j].pos == rows[j].pos
          && rows[start].id + scatter'[j].offset == rows[j].id
    {
      scatter' := scatter' + [Scatter(index, rows[i].id - rows[start].id, rows[i].pos)];
    }
    assert Group(windows', scatter', rows, start, end, index);
    hide Group;
    BuiltGrows(windows, scatter, rows, cuts, windows', scatter', end);
  }

  lemma RowsAscend(rows: seq<Row>, start: nat, end: nat)
    requires SortedBy(ById, rows) && start < end <= |rows|
    ensures forall i :: start <= i < end ==> rows[start].id <= rows[i].id <= rows[end - 1].id
  {
    forall i | start <= i < end
      ensures rows[start].id <= rows[i].id <= rows[end - 1].id
    {
      assert start < i ==> ById(rows[start], rows[i]);
      assert i < end - 1 ==> ById(rows[i], rows[end - 1]);
    }
  }

  lemma BuiltGrows(windows: seq<Window>, scatter: seq<Scatter>, rows: seq<Row>, cuts: seq<nat>,
                   windows': seq<Window>, scatter': seq<Scatter>, end: nat)
    requires Built(windows, scatter, rows, cuts) && |scatter| < end == |scatter'| <= |rows|
    requires |windows'| == |windows| + 1 && windows'[..|windows|] == windows && scatter'[..|scatter|] == scatter
    requires Group(windows', scatter', rows, |scatter|, end, |windows|)
    ensures Built(windows', scatter', rows, cuts + [end])
  {
    var next := cuts + [end];
    forall w | 0 <= w < |windows'|
      ensures GroupAt(windows', scatter', rows, next, w)
    {
      if w < |windows| {
        GroupStays(windows, scatter, rows, cuts, windows', scatter', end, w);
      } else {
        assert cuts[w] == |scatter|;
      }
    }
  }

  lemma GroupStays(windows: seq<Window>, scatter: seq<Scatter>, rows: seq<Row>, cuts: seq<nat>,
                   windows': seq<Window>, scatter': seq<Scatter>, end: nat, w: nat)
    requires GroupAt(windows, scatter, rows, cuts, w) && w < |windows|
    requires |scatter| <= |scatter'| && |windows| <= |windows'|
    requires windows'[..|windows|] == windows && scatter'[..|scatter|] == scatter
    ensures GroupAt(windows', scatter', rows, cuts + [end], w)
  {
    assert windows'[w] == windows[w];
    assert forall i :: 0 <= i < |scatter| ==> scatter'[i] == scatter[i];
  }

  // ----- from cut points to the promises ------------------------------------------------------------

  lemma OrderedRow(ids: seq<nat>, rows: seq<Row>, i: nat)
    requires Ordered(ids, rows) && i < |rows|
    ensures rows[i].pos < |ids| && rows[i].id == ids[rows[i].pos]
  {
    assert rows[i] in multiset(RowsOf(ids));
  }

  lemma OrderedHits(ids: seq<nat>, rows: seq<Row>, p: nat)
    requires Ordered(ids, rows) && p < |ids|
    ensures exists i :: 0 <= i < |rows| && rows[i].pos == p
  {
    assert RowsOf(ids)[p] in multiset(rows);
  }

  lemma OrderedDistinct(ids: seq<nat>, rows: seq<Row>)
    requires Ordered(ids, rows)
    ensures |rows| == |ids| && forall i, j :: 0 <= i < j < |rows| ==> rows[i].pos != rows[j].pos
  {
    SameLength(rows, RowsOf(ids));
    PermutationNoRepeat(rows, RowsOf(ids));
    forall i, j | 0 <= i < j < |rows|
      ensures rows[i].pos != rows[j].pos
    {
      OrderedRow(ids, rows, i);
      OrderedRow(ids, rows, j);
    }
  }

  lemma BuiltAt(windows: seq<Window>, scatter: seq<Scatter>, rows: seq<Row>, cuts: seq<nat>, i: nat)
    requires Built(windows, scatter, rows, cuts) && SortedBy(ById, rows) && i < |scatter|
    ensures var s := scatter[i];
            && s.pos == rows[i].pos && s.window == GroupOf(cuts, |scatter|, i) < |windows|
            && windows[s.window].start + s.offset == rows[i].id && s.offset < windows[s.window].count
  {
    hide IsCuts, SortedBy;
    var w := GroupOf(cuts, |scatter|, i);
    assert GroupAt(windows, scatter, rows, cuts, w);
    RowsAscend(rows, cuts[w], cuts[w + 1]);
  }

  lemma BuiltScatters(ids: seq<nat>, windows: seq<Window>, scatter: seq<Scatter>, rows: seq<Row>, cuts: seq<nat>)
    requires Ordered(ids, rows) && Built(windows, scatter, rows, cuts) && |scatter| == |rows|
    ensures Scatters(ids, windows, scatter)
  {
    OrderedDistinct(ids, rows);
    forall i | 0 <= i < |scatter|
      ensures Lands(ids, windows, scatter[i]) && scatter[i].pos == rows[i].pos
    {
      BuiltAt(windows, scatter, rows, cuts, i);
      OrderedRow(ids, rows, i);
    }
    hide Lands, Built, Ordered;
    forall p | 0 <= p < |ids|
      ensures Hit(scatter, p)
    {
      OrderedHits(ids, rows, p);
      var i :| 0 <= i < |rows| && rows[i].pos == p;
      assert scatter[i].pos == p;
    }
  }

  lemma BuiltTight(ids: seq<nat>, windows: seq<Window>, scatter: seq<Scatter>, rows: seq<Row>, cuts: seq<nat>)
    requires Ordered(ids, rows) && Built(windows, scatter, rows, cuts)
    ensures AllTight(ids, windows)
  {
    forall w | 0 <= w < |windows|
      ensures Tight(ids, windows[w])
    {
      assert GroupAt(windows, scatter, rows, cuts, w);
      OrderedRow(ids, rows, cuts[w]);
      OrderedRow(ids, rows, cuts[w + 1] - 1);
      RowsAscend(rows, cuts[w], cuts[w + 1]);
      assert windows[w].start + (windows[w].count - 1) == rows[cuts[w + 1] - 1].id;
    }
  }

  /** The row after a cut is a new row. */
  ghost predicate FreshCut(rows: seq<Row>, c: nat) {
    0 < c < |rows| ==> rows[c - 1].id < rows[c].id
  }

  ghost predicate FreshCuts(rows: seq<Row>, cuts: seq<nat>) {
    forall w :: 0 <= w < |cuts| ==> FreshCut(rows, cuts[w])
  }

  lemma BuiltDisjoint(windows: seq<Window>, scatter: seq<Scatter>, rows: seq<Row>, cuts: seq<nat>)
    requires SortedBy(ById, rows) && Built(windows, scatter, rows, cuts) && FreshCuts(rows, cuts)
    ensures Disjoint(windows)
  {
    forall v, w | 0 <= v < w < |windows|
      ensures windows[v].start + windows[v].count <= windows[w].start
    {
      assert GroupAt(windows, scatter, rows, cuts, v) && GroupAt(windows, scatter, rows, cuts, w);
      assert cuts[v + 1] == cuts[w] || cuts[v + 1] < cuts[w];
      RowsAscend(rows, cuts[v], cuts[v + 1]);
      assert FreshCut(rows, cuts[v + 1]);
      RowsAscend(rows, cuts[v + 1], cuts[w] + 1);
    }
  }

  // ----- the amplification-bounded planner ------------------------------------------------------------

  /** `maxAmplification` is `None` for a value that is not finite. */
  datatype Planner = Planner(rowBytes: nat, maxWindowBytes: nat, maxAmplification: Option<real>)

  const DEFAULT_MAX_READ_AMPLIFICATION: real := 1.5

  function Amplification(p: Planner): (amp: real)
    ensures amp >= 1.0
    ensures p.maxAmplification.Some? && p.maxAmplification.value >= 1.0 ==> amp == p.maxAmplification.value
    ensures p.maxAmplification.None? || p.maxAmplification.value < 1.0 ==> amp == 1.5
  {
    if p.maxAmplification.Some? && p.maxAmplification.value >= 1.0 then p.maxAmplification.value
    else DEFAULT_MAX_READ_AMPLIFICATION
  }

  function RowBytes(p: Planner): (b: nat)
    ensures b > 0 && b == if p.rowBytes < 1 then 1 else p.rowBytes
  {
    MaxNat(p.rowBytes, 1)
  }

  function BytesOf(p: Planner, rows: nat): nat {
    rows * RowBytes(p)
  }

  lemma BytesAdd(p: Planner, a: nat, b: nat)
    ensures BytesOf(p, a) + BytesOf(p, b) == BytesOf(p, a + b) && BytesOf(p, 0) == 0
  {
  }

  lemma Quotient(n: nat, d: nat)
    requires 0 < d <= n
    ensures 1 <= n / d && n / d * d <= n < (n / d + 1) * d
  {
    assert n == n / d * d + n % d;
  }

  /** The most rows whose bytes fit the window limit, at least one. */
  function MaxWindowRows(p: Planner): (n: nat)
    ensures 1 <= n
    ensures var row := if p.rowBytes < 1 then 1 else p.rowBytes; var limit := if p.maxWindowBytes < row then row else p.maxWindowBytes;
            n * row <= limit < (n + 1) * row
  {
    Quotient(MaxNat(p.maxWindowBytes, RowBytes(p)), RowBytes(p));
    MaxNat(MaxNat(p.maxWindowBytes, RowBytes(p)) / RowBytes(p), 1)
  }

  /** Reading `physical` units for `requested` ones stays within the amplification. */
  ghost predicate Within(amp: real, physical: nat, requested: nat) {
    physical as real <= amp * requested as real
  }

  lemma RatioWithin(amp: real, physical: nat, requested: nat)
    requires requested > 0
    ensures physical as real / requested as real <= amp <==> Within(amp, physical, requested)
  {
    var r := requested as real;
    assert physical as real == (physical as real / r) * r;
  }

  lemma WithinMore(amp: real, physical: nat, requested: nat, more: nat)
    requires amp >= 1.0 && Within(amp, physical, requested) && requested <= more
    ensures Within(amp, physical, more)
  {
  }

  lemma WithinSum(amp: real, p1: nat, r1: nat, p2: nat, r2: nat)
    requires Within(amp, p1, r1) && Within(amp, p2, r2)
    ensures Within(amp, p1 + p2, r1 + r2)
  {
  }

  function Span(rows: seq<Row>, start: nat, end: nat): (n: nat)
    requires start < end <= |rows|
    ensures rows[start].id <= rows[end - 1].id ==> rows[start].id + n == rows[end - 1].id + 1
  {
    if rows[end - 1].id < rows[start].id then 1 else rows[end - 1].id - rows[start].id + 1
  }

  /** Rows `start .. end` may share one window. */
  ghost predicate Joinable(p: Planner, rows: seq<Row>, start: nat, end: nat)
    requires start < end <= |rows|
  {
    Span(rows, start, end) <= MaxWindowRows(p) && Within(Amplification(p), Span(rows, start, end), end - start)
  }

  /** The greedy window from `start`: joinable, and one more row would not be. */
  ghost predicate Greedy(p: Planner, rows: seq<Row>, start: nat, end: nat) {
    && start < end <= |rows|
    && Joinable(p, rows, start, end)
    && (end < |rows| ==> !Joinable(p, rows, start, end + 1))
  }

  method Extend(p: Planner, rows: seq<Row>, start: nat) returns (end: nat)
    requires SortedBy(ById, rows) && start < |rows|
    ensures Greedy(p, rows, start, end)
  {
    hide Within;
    end := start + 1;
    assert Within(Amplification(p), 1, 1) by {
      UnitWithin(Amplification(p));
    }
    while end < |rows|
      invariant start < end <= |rows| && Joinable(p, rows, start, end)
    {
      var startRow, endRow := rows[start].id, rows[end].id;
      var physical: nat := (if endRow < startRow then 0 else endRow - startRow) + 1;
      var requested := end - start + 1;
      assert physical == Span(rows, start, end + 1);
      RatioWithin(Amplification(p), physical, requested);
      if physical > MaxWindowRows(p) || physical as real / requested as real > Amplification(p) {
        break;
      }
      end := end + 1;
    }
  }

  lemma UnitWithin(amp: real)
    requires amp >= 1.0
    ensures Within(amp, 1, 1)
  {
  }

  /** Repeated ids never straddle a cut: the repeat adds nothing to the span. */
  lemma GreedyFresh(p: Planner, rows: seq<Row>, start: nat, end: nat)
    requires SortedBy(ById, rows) && Greedy(p, rows, start, end)
    ensures FreshCut(rows, end)
  {
    hide Within;
    if end < |rows| {
      assert ById(rows[end - 1], rows[end]);
      if rows[end - 1].id == rows[end].id {
        WithinMore(Amplification(p), Span(rows, start, end), end - start, end + 1 - start);
        assert false;
      }
    }
  }

  datatype BoundedPlan = BoundedPlan(
    windows: seq<Window>, scatter: seq<Scatter>, requestedRows: nat, physicalRows: nat, physicalBytes: nat)

  ghost predicate GreedyAt(p: Planner, rows: seq<Row>, cuts: seq<nat>, w: nat) {
    w + 1 < |cuts| && Greedy(p, rows, cuts[w], cuts[w + 1])
  }

  /** Every group is the greedy one from where it starts. */
  ghost predicate AllGreedy(p: Planner, rows: seq<Row>, cuts: seq<nat>) {
    forall w :: 0 <= w < |cuts| - 1 ==> GreedyAt(p, rows, cuts, w)
  }

  /**
   The planner. Its scatter is a bijection on positions grouped by window, its windows are
   disjoint even when ids repeat, and it reads at most `amplification` times the requested rows.
   */
  method Plan(p: Planner, ids: seq<nat>) returns (plan: BoundedPlan, ghost rows: seq<Row>, ghost cuts: seq<nat>)
    ensures Ordered(ids, rows) && Built(plan.windows, plan.scatter, rows, cuts)
    ensures Scatters(ids, plan.windows, plan.scatter)
    ensures Disjoint(plan.windows) && AllTight(ids, plan.windows)
    ensures AllGreedy(p, rows, cuts)
    ensures plan.requestedRows == |ids|
    ensures plan.physicalRows == SumCounts(plan.windows)
    ensures plan.physicalRows as real
            <= (if p.maxAmplification.Some? && p.maxAmplification.value >= 1.0 then p.maxAmplification.value else 1.5) * |ids| as real
    ensures var row := if p.rowBytes < 1 then 1 else p.rowBytes; var limit := if p.maxWindowBytes < row then row else p.maxWindowBytes;
            forall w :: 0 <= w < |plan.windows| ==> plan.windows[w].count * row <= limit
    ensures plan.physicalBytes == plan.physicalRows * (if p.rowBytes < 1 then 1 else p.rowBytes)
  {
    hide *;
    IdOrder();
    var sorted := SortUnstable(ById, RowsOf(ids));
    rows := sorted;
    IsOrdered(ids, rows);
    var windows, scatter, start := [], [], 0;
    var physicalRows, physicalBytes := 0, 0;
    cuts := [0];
    NothingBuilt(p, rows);
    assert Within(Amplification(p), 0, 0) by {
      NothingWithin(Amplification(p));
    }
    while start < |sorted|
      invariant start == |scatter| <= |sorted|
      invariant 0 < |cuts| && cuts[|cuts| - 1] == start
      invariant Built(windows, scatter, rows, cuts) && AllGreedy(p, rows, cuts) && FreshCuts(rows, cuts)
      invariant physicalRows == SumCounts(windows) && physicalBytes == BytesOf(p, physicalRows)
      invariant Within(Amplification(p), physicalRows, start)
      decreases |sorted| - start
    {
      var end := Extend(p, sorted, start);
      GreedyFresh(p, rows, start, end);
      GreedyBounds(p, rows, start, end);
      AddCut(p, rows, cuts, start, end);
      WithinSum(Amplification(p), physicalRows, start, Span(rows, start, end), end - start);
      var count := Span(sorted, start, end);
      BytesAdd(p, physicalRows, count);
      physicalRows := physicalRows + count;
      physicalBytes := physicalBytes + BytesOf(p, count);
      SumAdd(windows, Window(rows[start].id, count));
      windows, scatter := Emit(sorted, start, end, windows, scatter, cuts);
      cuts := cuts + [end];
      start := end;
    }
    plan := BoundedPlan(windows, scatter, |ids|, physicalRows, physicalBytes);
    BuiltScatters(ids, windows, scatter, rows, cuts);
    BuiltTight(ids, windows, scatter, rows, cuts);
    BuiltDisjoint(windows, scatter, rows, cuts);
    OrderedDistinct(ids, rows);
    InNumbers(p, physicalRows, |ids|);
    forall w | 0 <= w < |windows|
      ensures var row := if p.rowBytes < 1 then 1 else p.rowBytes; var limit := if p.maxWindowBytes < row then row else p.maxWindowBytes;
              windows[w].count * row <= limit
    {
      WindowFits(p, windows, scatter, rows, cuts, w);
    }
  }

  lemma InNumbers(p: Planner, physicalRows: nat, requested: nat)
    requires Within(Amplification(p), physicalRows, requested)
    ensures physicalRows as real
            <= (if p.maxAmplification.Some? && p.maxAmplification.value >= 1.0 then p.maxAmplification.value else 1.5) * requested as real
    ensures BytesOf(p, physicalRows) == physicalRows * (if p.rowBytes < 1 then 1 else p.rowBytes)
  {
  }

  /** No window reads more bytes than the limit, or than one row if that is more. */
  lemma WindowFits(p: Planner, windows: seq<Window>, scatter: seq<Scatter>, rows: seq<Row>, cuts: seq<nat>, w: nat)
    requires SortedBy(ById, rows) && Built(windows, scatter, rows, cuts) && AllGreedy(p, rows, cuts) && w < |windows|
    ensures var row := if p.rowBytes < 1 then 1 else p.rowBytes; var limit := if p.maxWindowBytes < row then row else p.maxWindowBytes;
            windows[w].count * row <= limit
  {
    hide *;
    WindowRows(p, windows, scatter, rows, cuts, w);
    MulMono(windows[w].count, MaxWindowRows(p), if p.rowBytes < 1 then 1 else p.rowBytes);
  }

  /** Each window keeps to the row limit and to the amplification of its own requests. */
  lemma WindowRows(p: Planner, windows: seq<Window>, scatter: seq<Scatter>, rows: seq<Row>, cuts: seq<nat>, w: nat)
    requires SortedBy(ById, rows) && Built(windows, scatter, rows, cuts) && AllGreedy(p, rows, cuts) && w < |windows|
    ensures w + 1 < |cuts| && cuts[w] < cuts[w + 1] && windows[w].count <= MaxWindowRows(p)
    ensures Within(Amplification(p), windows[w].count, cuts[w + 1] - cuts[w])
  {
    assert GroupAt(windows, scatter, rows, cuts, w) && GreedyAt(p, rows, cuts, w);
    hide *;
    GreedyBounds(p, rows, cuts[w], cuts[w + 1]);
  }

  lemma SumAdd(windows: seq<Window>, w: Window)
    ensures SumCounts(windows + [w]) == SumCounts(windows) + w.count
  {
    assert (windows + [w])[..|windows|] == windows;
  }

  lemma NothingWithin(amp: real)
    ensures Within(amp, 0, 0)
  {
  }

  lemma IsOrdered(ids: seq<nat>, rows: seq<Row>)
    requires multiset(rows) == multiset(RowsOf(ids)) && SortedBy(ById, rows)
    ensures Ordered(ids, rows)
  {
  }

  lemma NothingBuilt(p: Planner, rows: seq<Row>)
    ensures Built([], [], rows, [0]) && FreshCuts(rows, [0]) && AllGreedy(p, rows, [0])
    ensures SumCounts([]) == 0 && BytesOf(p, 0) == 0
  {
  }

  lemma GreedyBounds(p: Planner, rows: seq<Row>, start: nat, end: nat)
    requires SortedBy(ById, rows) && Greedy(p, rows, start, end)
    ensures start < end <= |rows|
    ensures Within(Amplification(p), Span(rows, start, end), end - start) && Span(rows, start, end) <= MaxWindowRows(p)
    ensures rows[end - 1].id - rows[start].id + 1 == Span(rows, start, end)
  {
    assert start < end - 1 ==> ById(rows[start], rows[end - 1]);
  }

  lemma AddCut(p: Planner, rows: seq<Row>, cuts: seq<nat>, start: nat, end: nat)
    requires AllGreedy(p, rows, cuts) && FreshCuts(rows, cuts) && 0 < |cuts| && cuts[|cuts| - 1] == start
    requires Greedy(p, rows, start, end) && FreshCut(rows, end)
    ensures AllGreedy(p, rows, cuts + [end]) && FreshCuts(rows, cuts + [end])
  {
    hide Greedy, FreshCut;
    var next := cuts + [end];
    forall w | 0 <= w < |next| - 1
      ensures GreedyAt(p, rows, next, w)
    {
      if w + 1 < |cuts| {
        assert GreedyAt(p, rows, cuts, w);
      }
    }
  }
}
