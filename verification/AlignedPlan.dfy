/**
 The planner for aligned reads, `plan_with_aligned_read_cost`. A window is read in whole
 alignment blocks, so its cost is counted in blocks: the bytes from the block of its first row
 to the block of its last, against the blocks the requested rows themselves touch.
 */
module AlignedPlan {
  import opened Basics
  import opened Sorting
  import opened ReadPlan

  /** Rows of `rowBytes` bytes after a header, read in blocks of `alignment` bytes. */
  datatype Geometry = Geometry(rowBytes: nat, alignment: nat, header: nat) {
    ghost predicate Valid() {
      0 < rowBytes && 0 < alignment
    }
  }

  function DivCeil(a: nat, b: nat): nat
    requires b > 0
  {
    if a % b == 0 then a / b else a / b + 1
  }

  function Offset(g: Geometry, row: nat): nat {
    g.header + row * g.rowBytes
  }

  function FirstBlock(g: Geometry, row: nat): nat
    requires g.Valid()
  {
    Offset(g, row) / g.alignment
  }

  function EndBlock(g: Geometry, row: nat): nat
    requires g.Valid()
  {
    DivCeil(Offset(g, row) + g.rowBytes, g.alignment)
  }

  /** `aligned_read_bytes_for_rows` */
  function AlignedReadBytes(g: Geometry, startRow: nat, endRow: nat): nat
    requires g.Valid()
  {
    var count := SubSat(endRow, startRow) + 1;
    var logicalEnd := Offset(g, startRow) + count * g.rowBytes;
    SubSat(DivCeil(logicalEnd, g.alignment) * g.alignment, Offset(g, startRow) / g.alignment * g.alignment)
  }

  /** What the reader submits for a window: its rows with the prefix before them, rounded up. */
  function SubmittedBytes(g: Geometry, w: Window): nat
    requires g.Valid()
  {
    var aligned := Offset(g, w.start) / g.alignment * g.alignment;
    var prefix := SubSat(Offset(g, w.start), aligned);
    DivCeil(prefix + w.count * g.rowBytes, g.alignment) * g.alignment
  }

  // ----- block arithmetic ---------------------------------------------------------------------------

  lemma Smaller(p: int, q: int, d: nat)
    requires p * d < q * d
    ensures p < q
  {
  }

  lemma DivMono(a: nat, b: nat, d: nat)
    requires a <= b && d > 0
    ensures a / d <= b / d
  {
    assert a / d * d <= a && b < (b / d + 1) * d;
    Smaller(a / d, b / d + 1, d);
  }

  lemma DivCeilBounds(a: nat, d: nat)
    requires d > 0
    ensures (DivCeil(a, d) - 1) * d < a <= DivCeil(a, d) * d
  {
    assert a == a / d * d + a % d;
  }

  /** `DivCeil(a, d)` is the only `q` with `(q - 1) * d < a <= q * d`. */
  lemma DivCeilIs(a: nat, d: nat, q: int)
    requires d > 0 && (q - 1) * d < a <= q * d
    ensures DivCeil(a, d) == q
  {
    DivCeilBounds(a, d);
    hide DivCeil;
    Smaller(q - 1, DivCeil(a, d), d);
    Smaller(DivCeil(a, d) - 1, q, d);
  }

  lemma DivCeilShift(a: nat, d: nat, k: nat)
    requires d > 0
    ensures DivCeil(k * d + a, d) == k + DivCeil(a, d)
  {
    var q := DivCeil(a, d);
    DivCeilBounds(a, d);
    assert (k + q - 1) * d == k * d + (q - 1) * d && (k + q) * d == k * d + q * d;
    DivCeilIs(k * d + a, d, k + q);
  }

  lemma DivCeilMono(a: nat, b: nat, d: nat)
    requires a <= b && d > 0
    ensures DivCeil(a, d) <= DivCeil(b, d)
  {
    DivCeilBounds(a, d);
    DivCeilBounds(b, d);
    hide DivCeil;
    Smaller(DivCeil(a, d) - 1, DivCeil(b, d), d);
  }

  lemma BlocksMono(g: Geometry, a: nat, b: nat)
    requires g.Valid() && a <= b
    ensures FirstBlock(g, a) <= FirstBlock(g, b) && EndBlock(g, a) <= EndBlock(g, b)
  {
    MulMono(a, b, g.rowBytes);
    DivMono(Offset(g, a), Offset(g, b), g.alignment);
    DivCeilMono(Offset(g, a) + g.rowBytes, Offset(g, b) + g.rowBytes, g.alignment);
  }

  lemma BlocksNonEmpty(g: Geometry, a: nat)
    requires g.Valid()
    ensures FirstBlock(g, a) < EndBlock(g, a)
  {
    var o := Offset(g, a);
    DivCeilBounds(o + g.rowBytes, g.alignment);
    assert o / g.alignment * g.alignment <= o;
    hide DivCeil;
    Smaller(FirstBlock(g, a), EndBlock(g, a), g.alignment);
  }

  /** The bytes of the blocks from one row's first to another's last. */
  function Cost(g: Geometry, startRow: nat, endRow: nat): (c: nat)
    requires g.Valid()
  {
    SubSat(EndBlock(g, endRow), FirstBlock(g, startRow)) * g.alignment
  }

  /** The planner's cost formula counts exactly the blocks spanned. */
  lemma ReadBytesAreBlocks(g: Geometry, a: nat, b: nat)
    requires g.Valid() && a <= b
    ensures AlignedReadBytes(g, a, b) == Cost(g, a, b)
  {
    hide DivCeil;
    OffsetEnd(g, a, b);
    BlocksMono(g, a, b);
    BlocksNonEmpty(g, b);
    MulSub(FirstBlock(g, a), EndBlock(g, b), g.alignment);
  }

  lemma OffsetEnd(g: Geometry, a: nat, b: nat)
    requires a <= b
    ensures Offset(g, a) + (b - a + 1) * g.rowBytes == Offset(g, b) + g.rowBytes
  {
    assert (b - a + 1) * g.rowBytes == b * g.rowBytes - a * g.rowBytes + g.rowBytes;
  }

  lemma MulSub(p: nat, q: nat, d: nat)
    requires p <= q
    ensures SubSat(q * d, p * d) == SubSat(q, p) * d
  {
    MulMono(p, q, d);
    assert q * d - p * d == (q - p) * d;
  }

  /** The reader submits exactly the bytes the planner counted. */
  lemma SubmittedIsCost(g: Geometry, w: Window)
    requires g.Valid() && w.count > 0
    ensures SubmittedBytes(g, w) == Cost(g, w.start, w.start + (w.count - 1))
  {
    var o, d := Offset(g, w.start), g.alignment;
    var last := w.start + (w.count - 1);
    var p := o / d;
    assert o == p * d + o % d;
    hide DivCeil;
    OffsetEnd(g, w.start, last);
    DivCeilShift(o % d + w.count * g.rowBytes, d, p);
    assert EndBlock(g, last) == p + DivCeil(o % d + w.count * g.rowBytes, d);
  }

  /** A row touches a block exactly when their bytes overlap. */
  lemma RowTouches(g: Geometry, row: nat, b: nat)
    requires g.Valid()
    ensures FirstBlock(g, row) <= b < EndBlock(g, row) <==>
            (g.header + row * g.rowBytes < (b + 1) * g.alignment && b * g.alignment < g.header + row * g.rowBytes + g.rowBytes)
  {
    var o, d := Offset(g, row), g.alignment;
    var p, q := FirstBlock(g, row), EndBlock(g, row);
    assert p * d <= o < (p + 1) * d;
    DivCeilBounds(o + g.rowBytes, d);
    hide FirstBlock, EndBlock, DivCeil;
    if p <= b {
      MulMono(p + 1, b + 1, d);
    } else {
      MulMono(b + 1, p, d);
    }
    if b < q {
      MulMono(b, q - 1, d);
    } else {
      MulMono(q, b, d);
    }
  }

  // ----- touched blocks -------------------------------------------------------------------------------

  ghost function Interval(lo: nat, hi: nat): (s: set<nat>)
    ensures forall b :: b in s <==> lo <= b < hi
    decreases hi
  {
    if hi <= lo then {} else Interval(lo, hi - 1) + {hi - 1}
  }

  lemma {:induction false} IntervalSize(lo: nat, hi: nat)
    requires lo <= hi
    ensures |Interval(lo, hi)| == hi - lo
    decreases hi
  {
    if lo < hi {
      IntervalSize(lo, hi - 1);
    }
  }

  ghost function RowBlocks(g: Geometry, row: nat): set<nat>
    requires g.Valid()
  {
    Interval(FirstBlock(g, row), EndBlock(g, row))
  }

  /** The alignment blocks touched by the requested rows `start .. end`. */
  ghost function Touched(g: Geometry, rows: seq<Row>, start: nat, end: nat): set<nat>
    requires g.Valid() && start <= end <= |rows|
  {
    if start == end then {} else Touched(g, rows, start, end - 1) + RowBlocks(g, rows[end - 1].id)
  }

  lemma {:induction false} TouchedBelow(g: Geometry, rows: seq<Row>, start: nat, end: nat, b: nat)
    requires g.Valid() && SortedBy(ById, rows) && start < end <= |rows| && b in Touched(g, rows, start, end)
    ensures b < EndBlock(g, rows[end - 1].id)
  {
    if start < end - 1 && b in Touched(g, rows, start, end - 1) {
      TouchedBelow(g, rows, start, end - 1, b);
      assert ById(rows[end - 2], rows[end - 1]);
      BlocksMono(g, rows[end - 2].id, rows[end - 1].id);
    }
  }

  /** The next row adds the blocks from the old end (or its own start) to its own end. */
  lemma TouchedNext(g: Geometry, rows: seq<Row>, start: nat, end: nat)
    requires g.Valid() && SortedBy(ById, rows) && start < end < |rows|
    ensures var was, next := EndBlock(g, rows[end - 1].id), rows[end].id;
            && was <= EndBlock(g, next)
            && |Touched(g, rows, start, end + 1)|
               == |Touched(g, rows, start, end)| + SubSat(EndBlock(g, next), MaxNat(was, FirstBlock(g, next)))
  {
    var before, last, next := Touched(g, rows, start, end), rows[end - 1].id, rows[end].id;
    var was, from, to := EndBlock(g, last), FirstBlock(g, next), EndBlock(g, next);
    var lo := MaxNat(was, from);
    assert ById(rows[end - 1], rows[end]);
    BlocksMono(g, last, next);
    BlocksNonEmpty(g, next);
    IntervalSize(lo, to);
    var all := Touched(g, rows, start, end + 1);
    assert all == before + RowBlocks(g, next);
    assert forall b :: b in RowBlocks(g, last) ==> b in before;
    forall b | b in before
      ensures b < was
    {
      TouchedBelow(g, rows, start, end, b);
    }
    assert FirstBlock(g, last) <= from;
    hide Touched, FirstBlock, EndBlock;
    forall b | b in RowBlocks(g, next)
      ensures b in before || b in Interval(lo, to)
    {
      if b < lo {
        assert b in RowBlocks(g, last);
      }
    }
    assert all == before + Interval(lo, to);
    assert before !! Interval(lo, to);
  }

  lemma TouchedFirst(g: Geometry, rows: seq<Row>, start: nat)
    requires g.Valid() && start < |rows|
    ensures var row := rows[start].id;
            |Touched(g, rows, start, start + 1)| == EndBlock(g, row) - FirstBlock(g, row) > 0
  {
    var row := rows[start].id;
    BlocksNonEmpty(g, row);
    IntervalSize(FirstBlock(g, row), EndBlock(g, row));
    assert Touched(g, rows, start, start) == {};
    assert Touched(g, rows, start, start + 1) == RowBlocks(g, row);
  }

  // ----- one window -----------------------------------------------------------------------------------

  function Shape(p: Planner, alignment: nat, header: nat): (g: Geometry)
    ensures g.Valid() && g.header == header
    ensures g.rowBytes == (if p.rowBytes < 1 then 1 else p.rowBytes) && g.alignment == if alignment < 1 then 1 else alignment
  {
    Geometry(RowBytes(p), MaxNat(alignment, 1), header)
  }

  function Limit(p: Planner, g: Geometry): (n: nat)
    ensures n >= p.maxWindowBytes && n >= g.rowBytes && n >= g.alignment
    ensures n == p.maxWindowBytes || n == g.rowBytes || n == g.alignment
  {
    MaxNat(MaxNat(p.maxWindowBytes, g.rowBytes), g.alignment)
  }

  /** The bytes of the blocks that requested rows `start .. end` need. */
  ghost function Mandatory(g: Geometry, rows: seq<Row>, start: nat, end: nat): nat
    requires g.Valid() && start <= end <= |rows|
  {
    |Touched(g, rows, start, end)| * g.alignment
  }

  /** A row may join: the window stays within the byte limit and the amplification over its own blocks. */
  ghost predicate MayJoin(p: Planner, g: Geometry, rows: seq<Row>, start: nat, end: nat)
    requires g.Valid() && start < end <= |rows|
  {
    var cost := Cost(g, rows[start].id, rows[end - 1].id);
    cost <= Limit(p, g) && Within(Amplification(p), cost, Mandatory(g, rows, start, end))
  }

  /**
   The greedy aligned window: within the amplification; within the byte limit unless it is a
   single row; and one more row may not join.
   */
  ghost predicate GreedyAligned(p: Planner, g: Geometry, rows: seq<Row>, start: nat, end: nat)
    requires g.Valid()
  {
    && start < end <= |rows|
    && Within(Amplification(p), Cost(g, rows[start].id, rows[end - 1].id), Mandatory(g, rows, start, end))
    && (end == start + 1 || Cost(g, rows[start].id, rows[end - 1].id) <= Limit(p, g))
    && (end < |rows| ==> !MayJoin(p, g, rows, start, end + 1))
  }

  method ExtendAligned(p: Planner, g: Geometry, rows: seq<Row>, start: nat) returns (bestEnd: nat, bestBytes: nat, touched: nat)
    requires g.Valid() && SortedBy(ById, rows) && start < |rows|
    ensures GreedyAligned(p, g, rows, start, bestEnd)
    ensures bestBytes == Cost(g, rows[start].id, rows[bestEnd - 1].id)
    ensures touched == |Touched(g, rows, start, bestEnd)|
  {
    hide Within, SortedBy, Cost, Touched, FirstBlock, EndBlock, Amplification, Limit, AlignedReadBytes;
    var startRow := rows[start].id;
    var end := start + 1;
    var touchedEnd := EndBlock(g, startRow);
    FirstWindow(p, g, rows, start);
    touched := EndBlock(g, startRow) - FirstBlock(g, startRow);
    bestEnd := end;
    bestBytes := AlignedReadBytes(g, startRow, startRow);
    while end < |rows|
      invariant start < end == bestEnd <= |rows|
      invariant touchedEnd == EndBlock(g, rows[end - 1].id)
      invariant touched == |Touched(g, rows, start, end)| && touched > 0
      invariant bestBytes == Cost(g, startRow, rows[end - 1].id)
      invariant end == start + 1 || bestBytes <= Limit(p, g)
      invariant Within(Amplification(p), bestBytes, Mandatory(g, rows, start, end))
    {
      var endRow := rows[end].id;
      var physical := AlignedReadBytes(g, startRow, endRow);
      assert physical == Cost(g, startRow, endRow) by {
        RowsAscend(rows, start, end + 1);
        ReadBytesAreBlocks(g, startRow, endRow);
      }
      if physical > Limit(p, g) {
        break;
      }
      var nextStart, nextEnd := FirstBlock(g, endRow), EndBlock(g, endRow);
      var extra := SubSat(nextEnd, MaxNat(touchedEnd, nextStart));
      var candidate := touched + extra;
      TouchedNext(g, rows, start, end);
      var mandatory := candidate * g.alignment;
      assert mandatory == Mandatory(g, rows, start, end + 1);
      PositiveProduct(candidate, g.alignment);
      RatioWithin(Amplification(p), physical, mandatory);
      var amplification := if mandatory == 0 then 1.0 else physical as real / mandatory as real;
      if amplification > Amplification(p) {
        break;
      }
      touchedEnd := MaxNat(touchedEnd, nextEnd);
      touched := candidate;
      end := end + 1;
      bestEnd := end;
      bestBytes := physical;
    }
  }

  lemma PositiveProduct(a: nat, b: nat)
    requires a > 0 && b > 0
    ensures a * b > 0
  {
  }

  lemma FirstWindow(p: Planner, g: Geometry, rows: seq<Row>, start: nat)
    requires g.Valid() && start < |rows|
    ensures var row := rows[start].id;
            && 0 < EndBlock(g, row) - FirstBlock(g, row) == |Touched(g, rows, start, start + 1)|
            && AlignedReadBytes(g, row, row) == Cost(g, row, row)
            && Within(Amplification(p), Cost(g, row, row), Mandatory(g, rows, start, start + 1))
  {
    var row := rows[start].id;
    TouchedFirst(g, rows, start);
    ReadBytesAreBlocks(g, row, row);
    assert Cost(g, row, row) == Mandatory(g, rows, start, start + 1);
    SelfWithin(Amplification(p), Cost(g, row, row));
  }

  lemma SelfWithin(amp: real, n: nat)
    requires amp >= 1.0
    ensures Within(amp, n, n)
  {
  }

  // ----- the plan -------------------------------------------------------------------------------------

  ghost predicate GreedyAlignedAt(p: Planner, g: Geometry, rows: seq<Row>, cuts: seq<nat>, w: nat)
    requires g.Valid()
  {
    w + 1 < |cuts| && GreedyAligned(p, g, rows, cuts[w], cuts[w + 1])
  }

  ghost predicate AllAligned(p: Planner, g: Geometry, rows: seq<Row>, cuts: seq<nat>)
    requires g.Valid()
  {
    forall w :: 0 <= w < |cuts| - 1 ==> GreedyAlignedAt(p, g, rows, cuts, w)
  }

  function SumSubmitted(g: Geometry, windows: seq<Window>): nat
    requires g.Valid()
  {
    if windows == [] then 0 else SumSubmitted(g, windows[..|windows| - 1]) + SubmittedBytes(g, windows[|windows| - 1])
  }

  /** No id whose row alone costs more than the window limit is requested twice. */
  ghost predicate NoOversizedRepeat(p: Planner, g: Geometry, ids: seq<nat>)
    requires g.Valid()
  {
    forall i, j :: 0 <= i < j < |ids| && ids[i] == ids[j] ==> Cost(g, ids[i], ids[i]) <= Limit(p, g)
  }

  /**
   The aligned planner. The planned bytes are exactly what the reader submits; windows are
   disjoint exactly when no oversized row is requested twice.
   */
  method PlanAligned(p: Planner, ids: seq<nat>, alignment: nat, header: nat)
    returns (plan: BoundedPlan, ghost rows: seq<Row>, ghost cuts: seq<nat>)
    ensures Ordered(ids, rows) && Built(plan.windows, plan.scatter, rows, cuts)
    ensures Scatters(ids, plan.windows, plan.scatter) && AllTight(ids, plan.windows)
    ensures var g := Shape(p, alignment, header);
            && AllAligned(p, g, rows, cuts)
            && plan.physicalBytes == SumSubmitted(g, plan.windows)
            && (Disjoint(plan.windows) <==> NoOversizedRepeat(p, g, ids))
    ensures plan.requestedRows == |ids| && plan.physicalRows == SumCounts(plan.windows)
  {
    hide *;
    IdOrder();
    var sorted := SortUnstable(ById, RowsOf(ids));
    rows := sorted;
    IsOrdered(ids, rows);
    var g := Shape(p, alignment, header);
    var windows, scatter, start := [], [], 0;
    var physicalRows, physicalBytes := 0, 0;
    cuts := [0];
    NothingBuilt(p, rows);
    NothingAligned(p, g, rows);
    while start < |sorted|
      invariant start == |scatter| <= |sorted|
      invariant 0 < |cuts| && cuts[0] == 0 && cuts[|cuts| - 1] == start
      invariant Built(windows, scatter, rows, cuts) && AllAligned(p, g, rows, cuts)
      invariant physicalRows == SumCounts(windows) && physicalBytes == SumSubmitted(g, windows)
      decreases |sorted| - start
    {
      var bestEnd, bestBytes, touched := ExtendAligned(p, g, sorted, start);
      AlignedBounds(p, g, rows, start, bestEnd);
      AddAligned(p, g, rows, cuts, start, bestEnd);
      var count: nat := sorted[bestEnd - 1].id - sorted[start].id + 1;
      AddWindow(g, windows, rows[start].id, rows[bestEnd - 1].id);
      physicalRows := physicalRows + count;
      physicalBytes := physicalBytes + bestBytes;
      windows, scatter := Emit(sorted, start, bestEnd, windows, scatter, cuts);
      cuts := cuts + [bestEnd];
      start := bestEnd;
    }
    plan := BoundedPlan(windows, scatter, |ids|, physicalRows, physicalBytes);
    BuiltScatters(ids, windows, scatter, rows, cuts);
    BuiltTight(ids, windows, scatter, rows, cuts);
    OrderedDistinct(ids, rows);
    DisjointIff(p, g, ids, windows, scatter, rows, cuts);
  }

  lemma AddWindow(g: Geometry, windows: seq<Window>, a: nat, b: nat)
    requires g.Valid() && a <= b
    ensures var next := windows + [Window(a, b - a + 1)];
            && SumCounts(next) == SumCounts(windows) + (b - a + 1)
            && SumSubmitted(g, next) == SumSubmitted(g, windows) + Cost(g, a, b)
  {
    hide *;
    SumAdd(windows, Window(a, b - a + 1));
    SubmittedAdd(g, windows, Window(a, b - a + 1));
    SubmittedIsCost(g, Window(a, b - a + 1));
    assert a + (b - a + 1 - 1) == b;
  }

  lemma NothingAligned(p: Planner, g: Geometry, rows: seq<Row>)
    requires g.Valid()
    ensures AllAligned(p, g, rows, [0]) && SumSubmitted(g, []) == 0
  {
  }

  lemma AlignedBounds(p: Planner, g: Geometry, rows: seq<Row>, start: nat, end: nat)
    requires g.Valid() && SortedBy(ById, rows) && GreedyAligned(p, g, rows, start, end)
    ensures start < end <= |rows| && rows[start].id <= rows[end - 1].id
  {
    RowsAscend(rows, start, end);
  }

  lemma AddAligned(p: Planner, g: Geometry, rows: seq<Row>, cuts: seq<nat>, start: nat, end: nat)
    requires g.Valid() && AllAligned(p, g, rows, cuts) && 0 < |cuts| && cuts[|cuts| - 1] == start
    requires GreedyAligned(p, g, rows, start, end)
    ensures AllAligned(p, g, rows, cuts + [end])
  {
    hide GreedyAligned;
    var next := cuts + [end];
    forall w | 0 <= w < |next| - 1
      ensures GreedyAlignedAt(p, g, rows, next, w)
    {
      if w + 1 < |cuts| {
        assert GreedyAlignedAt(p, g, rows, cuts, w);
      }
    }
  }

  lemma SubmittedAdd(g: Geometry, windows: seq<Window>, w: Window)
    requires g.Valid()
    ensures SumSubmitted(g, windows + [w]) == SumSubmitted(g, windows) + SubmittedBytes(g, w)
  {
    assert (windows + [w])[..|windows|] == windows;
  }

  // ----- what a plan reads ------------------------------------------------------------------------------

  /**
   Each window's submitted bytes are at most the amplification times the bytes of the distinct
   blocks its requested rows touch, and at most the window limit or one row's cost.
   */
  lemma WindowBytes(p: Planner, g: Geometry, windows: seq<Window>, scatter: seq<Scatter>, rows: seq<Row>, cuts: seq<nat>, w: nat)
    requires g.Valid() && SortedBy(ById, rows) && Built(windows, scatter, rows, cuts) && AllAligned(p, g, rows, cuts)
    requires w < |windows|
    ensures w + 1 < |cuts| && cuts[w] < cuts[w + 1] <= |rows|
    ensures SubmittedBytes(g, windows[w]) as real <= Amplification(p) * Mandatory(g, rows, cuts[w], cuts[w + 1]) as real
    ensures SubmittedBytes(g, windows[w]) <= MaxNat(Limit(p, g), Cost(g, windows[w].start, windows[w].start))
  {
    hide Cost, SubmittedBytes, Mandatory, Amplification, Limit, SortedBy, IsCuts;
    assert GroupAt(windows, scatter, rows, cuts, w) && GreedyAlignedAt(p, g, rows, cuts, w);
    RowsAscend(rows, cuts[w], cuts[w + 1]);
    SubmittedIsCost(g, windows[w]);
    assert windows[w].start + (windows[w].count - 1) == rows[cuts[w + 1] - 1].id;
  }

  lemma RepeatTouches(g: Geometry, rows: seq<Row>, start: nat, end: nat)
    requires g.Valid() && start < end < |rows| && rows[end - 1].id == rows[end].id
    ensures Mandatory(g, rows, start, end + 1) == Mandatory(g, rows, start, end)
  {
    hide RowBlocks;
    assert Touched(g, rows, start, end + 1) == Touched(g, rows, start, end);
  }

  lemma CutOversized(p: Planner, g: Geometry, ids: seq<nat>, rows: seq<Row>, start: nat, end: nat)
    requires g.Valid() && Ordered(ids, rows) && GreedyAligned(p, g, rows, start, end)
    requires NoOversizedRepeat(p, g, ids)
    ensures FreshCut(rows, end)
  {
    if end < |rows| && rows[end - 1].id == rows[end].id {
      RepeatTouches(g, rows, start, end);
      RepeatCost(p, g, ids, rows, end);
    } else if end < |rows| {
      assert ById(rows[end - 1], rows[end]);
    }
  }

  lemma RepeatCost(p: Planner, g: Geometry, ids: seq<nat>, rows: seq<Row>, i: nat)
    requires g.Valid() && Ordered(ids, rows) && 0 < i < |rows| && rows[i - 1].id == rows[i].id
    requires NoOversizedRepeat(p, g, ids)
    ensures Cost(g, rows[i].id, rows[i].id) <= Limit(p, g)
  {
    OrderedDistinct(ids, rows);
    OrderedRow(ids, rows, i - 1);
    OrderedRow(ids, rows, i);
    hide *;
    RepeatFits(p, g, ids, rows[i - 1].pos, rows[i].pos);
  }

  lemma RepeatFits(p: Planner, g: Geometry, ids: seq<nat>, i: nat, j: nat)
    requires g.Valid() && NoOversizedRepeat(p, g, ids) && i < |ids| && j < |ids| && i != j && ids[i] == ids[j]
    ensures Cost(g, ids[i], ids[i]) <= Limit(p, g)
  {
    if i < j {
      assert ids[i] == ids[j];
    } else {
      assert ids[j] == ids[i];
    }
  }

  lemma AlignedFresh(p: Planner, g: Geometry, ids: seq<nat>, rows: seq<Row>, cuts: seq<nat>)
    requires g.Valid() && Ordered(ids, rows) && AllAligned(p, g, rows, cuts) && NoOversizedRepeat(p, g, ids)
    requires 0 < |cuts| && cuts[0] == 0
    ensures FreshCuts(rows, cuts)
  {
    hide Ordered, GreedyAligned, NoOversizedRepeat;
    forall w | 0 <= w < |cuts|
      ensures FreshCut(rows, cuts[w])
    {
      if w > 0 {
        assert GreedyAlignedAt(p, g, rows, cuts, w - 1);
        CutOversized(p, g, ids, rows, cuts[w - 1], cuts[w]);
      }
    }
  }

  /** In disjoint windows, the two requests for one row share a window, which then keeps to the limit. */
  lemma DisjointFits(p: Planner, g: Geometry, ids: seq<nat>, windows: seq<Window>, scatter: seq<Scatter>, rows: seq<Row>, cuts: seq<nat>)
    requires g.Valid() && Ordered(ids, rows) && Built(windows, scatter, rows, cuts) && |scatter| == |rows|
    requires Scatters(ids, windows, scatter) && AllAligned(p, g, rows, cuts) && Disjoint(windows)
    ensures NoOversizedRepeat(p, g, ids)
  {
    hide Built, AllAligned, Ordered, Cost, Limit, Lands;
    forall i, j | 0 <= i < j < |ids| && ids[i] == ids[j]
      ensures Cost(g, ids[i], ids[i]) <= Limit(p, g)
    {
      assert Hit(scatter, i) && Hit(scatter, j);
      var a :| 0 <= a < |scatter| && scatter[a].pos == i;
      var b :| 0 <= b < |scatter| && scatter[b].pos == j;
      assert Lands(ids, windows, scatter[a]) && Lands(ids, windows, scatter[b]);
      SameWindow(ids, windows, scatter[a], scatter[b]);
      SharedWindow(p, g, ids, windows, scatter, rows, cuts, a, b);
    }
  }

  lemma DisjointIff(p: Planner, g: Geometry, ids: seq<nat>, windows: seq<Window>, scatter: seq<Scatter>, rows: seq<Row>, cuts: seq<nat>)
    requires g.Valid() && Ordered(ids, rows) && Built(windows, scatter, rows, cuts) && |scatter| == |rows|
    requires Scatters(ids, windows, scatter) && AllAligned(p, g, rows, cuts)
    requires 0 < |cuts| && cuts[0] == 0 && SortedBy(ById, rows)
    ensures Disjoint(windows) <==> NoOversizedRepeat(p, g, ids)
  {
    hide *;
    if NoOversizedRepeat(p, g, ids) {
      AlignedFresh(p, g, ids, rows, cuts);
      BuiltDisjoint(windows, scatter, rows, cuts);
    }
    if Disjoint(windows) {
      DisjointFits(p, g, ids, windows, scatter, rows, cuts);
    }
  }

  lemma SameWindow(ids: seq<nat>, windows: seq<Window>, s: Scatter, t: Scatter)
    requires Disjoint(windows) && Lands(ids, windows, s) && Lands(ids, windows, t) && ids[s.pos] == ids[t.pos]
    ensures s.window == t.window
  {
  }

  lemma SharedWindow(p: Planner, g: Geometry, ids: seq<nat>, windows: seq<Window>, scatter: seq<Scatter>, rows: seq<Row>,
                     cuts: seq<nat>, a: nat, b: nat)
    requires g.Valid() && Ordered(ids, rows) && Built(windows, scatter, rows, cuts) && |scatter| == |rows|
    requires AllAligned(p, g, rows, cuts)
    requires a < |scatter| && b < |scatter| && a != b && scatter[a].window == scatter[b].window
    requires scatter[a].pos < |ids|
    ensures Cost(g, ids[scatter[a].pos], ids[scatter[a].pos]) <= Limit(p, g)
  {
    hide IsCuts, Limit, Mandatory;
    var w := GroupOf(cuts, |scatter|, a);
    BuiltAt(windows, scatter, rows, cuts, a);
    BuiltAt(windows, scatter, rows, cuts, b);
    OrderedRow(ids, rows, a);
    assert GreedyAlignedAt(p, g, rows, cuts, w);
    RowsAscend(rows, cuts[w], cuts[w + 1]);
    var x := rows[a].id;
    hide Built, Ordered, AllAligned;
    CostMono(g, rows[cuts[w]].id, x, rows[cuts[w + 1] - 1].id);
  }

  lemma CostMono(g: Geometry, a: nat, x: nat, b: nat)
    requires g.Valid() && a <= x <= b
    ensures Cost(g, x, x) <= Cost(g, a, b)
  {
    BlocksMono(g, a, x);
    BlocksMono(g, x, b);
    var m, n := SubSat(EndBlock(g, x), FirstBlock(g, x)), SubSat(EndBlock(g, b), FirstBlock(g, a));
    hide FirstBlock, EndBlock;
    MulMono(m, n, g.alignment);
  }

  /**
   Disjointness does fail: with rows of 3 bytes read in blocks of 4, row 1 straddles two blocks,
   and asking for it twice within a limit of one block plans it twice.
   */
  method OversizedRepeat() returns (plan: BoundedPlan)
    ensures plan.requestedRows == 2 && !Disjoint(plan.windows)
    ensures forall w :: 0 <= w < |plan.windows| ==> plan.windows[w] == Window(1, 1)
  {
    var p := Planner(3, 1, None);
    var ids: seq<nat> := [1, 1];
    assert ids[0] == ids[1];
    assert Cost(Shape(p, 4, 0), 1, 1) == 8;
    assert !NoOversizedRepeat(p, Shape(p, 4, 0), ids);
    hide Disjoint, Built, Ordered, AllAligned, Scatters, NoOversizedRepeat, SumCounts, SumSubmitted, Cost, Shape;
    ghost var rows, cuts;
    plan, rows, cuts := PlanAligned(p, ids, 4, 0);
    forall w | 0 <= w < |plan.windows|
      ensures plan.windows[w] == Window(1, 1)
    {
      assert Tight(ids, plan.windows[w]);
    }
  }
}
