/**
 Reading the points of a batch through the window planner and the window cache, into one flat
 output buffer. The reference is to read each id directly.
 */
module PlannedGather {
  import opened Basics
  import opened ReadPlan
  import opened WindowCache

  /** A point store: rows of `dim` values, numbered from 0. */
  datatype Store = Store(dim: nat, rows: seq<seq<real>>) {
    ghost predicate Valid() {
      forall i :: 0 <= i < |rows| ==> |rows[i]| == dim
    }
  }

  datatype Outcome = Done | SizeMismatch | OutOfBounds

  // ----- flat buffers -----------------------------------------------------------------------------------

  function Start(dim: nat, p: nat): nat {
    p * dim
  }

  lemma Apart(dim: nat, p: nat, q: nat)
    requires p < q
    ensures Start(dim, p) + dim <= Start(dim, q)
  {
    MulMono(p + 1, q, dim);
  }

  function Flat(rows: seq<seq<real>>): seq<real> {
    if rows == [] then [] else Flat(rows[..|rows| - 1]) + rows[|rows| - 1]
  }

  /** Row `p` of a flat buffer is `row`. */
  ghost predicate Filled(buffer: seq<real>, dim: nat, p: nat, row: seq<real>) {
    Start(dim, p) + dim <= |buffer| && buffer[Start(dim, p)..Start(dim, p) + dim] == row
  }

  lemma {:induction false} FlatRow(dim: nat, rows: seq<seq<real>>, p: nat)
    requires (forall i :: 0 <= i < |rows| ==> |rows[i]| == dim) && p < |rows|
    ensures |Flat(rows)| == Start(dim, |rows|) && Filled(Flat(rows), dim, p, rows[p])
  {
    var front := rows[..|rows| - 1];
    assert Start(dim, |rows|) == Start(dim, |front|) + dim;
    if p < |front| {
      FlatRow(dim, front, p);
    } else if front != [] {
      FlatRow(dim, front, 0);
    }
  }

  ghost function Patched(s: seq<real>, at: nat, piece: seq<real>): seq<real>
    requires at + |piece| <= |s|
  {
    s[..at] + piece + s[at + |piece|..]
  }

  lemma PatchHere(s: seq<real>, dim: nat, p: nat, row: seq<real>)
    requires |row| == dim && Start(dim, p) + dim <= |s|
    ensures Filled(Patched(s, Start(dim, p), row), dim, p, row)
  {
  }

  lemma PatchOther(s: seq<real>, dim: nat, p: nat, row: seq<real>, q: nat, other: seq<real>)
    requires |row| == dim && Start(dim, p) + dim <= |s| && p != q && Filled(s, dim, q, other)
    ensures Filled(Patched(s, Start(dim, p), row), dim, q, other)
  {
    if p < q {
      Apart(dim, p, q);
    } else {
      Apart(dim, q, p);
    }
    hide Start;
    var r := Patched(s, Start(dim, p), row);
    var b := Start(dim, q);
    assert forall d :: b <= d < b + dim ==> r[d] == s[d];
  }

  /** `copy_from_slice` of one row. */
  method CopyRow(source: seq<real>, from: nat, out: array<real>, to: nat, dim: nat)
    requires from + dim <= |source| && to + dim <= out.Length
    modifies out
    ensures out[..] == Patched(old(out[..]), to, source[from..from + dim])
  {
    for d := 0 to dim
      invariant forall i :: 0 <= i < out.Length ==>
          out[i] == if to <= i < to + d then source[from + (i - to)] else old(out[i])
    {
      out[to + d] := source[from + d];
    }
  }

  // ----- the store and the cache --------------------------------------------------------------------------

  ghost predicate InStore(store: Store, w: Window) {
    w.start + w.count <= |store.rows|
  }

  function RangeData(store: Store, w: Window): seq<real>
    requires InStore(store, w)
  {
    Flat(store.rows[w.start..w.start + w.count])
  }

  /** `read_range_into`: the rows of a window, if they all exist. */
  function ReadRange(store: Store, w: Window): Option<seq<real>> {
    if w.start + w.count <= |store.rows| then Some(RangeData(store, w)) else None
  }

  /** A cached item holds its own window's rows. */
  ghost predicate TrueItem(store: Store, x: Item) {
    InStore(store, x.key) && x.data == RangeData(store, x.key)
  }

  ghost predicate TrueCache(store: Store, items: seq<Item>) {
    forall x :: x in items ==> TrueItem(store, x)
  }

  lemma StepTrue(store: Store, items: seq<Item>, budget: nat, op: Op)
    requires TrueCache(store, items)
    requires op.Insert? ==> TrueItem(store, Item(op.key, op.data))
    ensures TrueCache(store, Step(items, budget, op))
  {
    hide TrueItem;
    forall x | x in Step(items, budget, op)
      ensures TrueItem(store, x)
    {
      StepIn(items, budget, op, x);
    }
  }

  lemma HitTrue(store: Store, items: seq<Item>, key: Key)
    requires TrueCache(store, items) && Lookup(items, key).Some?
    ensures InStore(store, key) && Lookup(items, key).value == RangeData(store, key)
  {
    LookupIn(items, key);
  }

  lemma WindowRow(store: Store, w: Window, offset: nat)
    requires store.Valid() && InStore(store, w) && offset < w.count
    ensures var data := RangeData(store, w);
            Start(store.dim, offset) + store.dim <= |data|
            && data[Start(store.dim, offset)..Start(store.dim, offset) + store.dim] == store.rows[w.start + offset]
  {
    FlatRow(store.dim, store.rows[w.start..w.start + w.count], offset);
  }

  // ----- scatter --------------------------------------------------------------------------------------------

  /** Position `p` holds the row of its id. */
  ghost predicate Right(store: Store, ids: seq<nat>, buffer: seq<real>, p: nat) {
    p < |ids| && ids[p] < |store.rows| && Filled(buffer, store.dim, p, store.rows[ids[p]])
  }

  /** The first `c` scatter entries have been copied. */
  ghost predicate Copied(store: Store, ids: seq<nat>, scatter: seq<Scatter>, buffer: seq<real>, c: nat) {
    c <= |scatter| && forall i :: 0 <= i < c ==> Right(store, ids, buffer, scatter[i].pos)
  }

  lemma CopyNext(store: Store, ids: seq<nat>, scatter: seq<Scatter>, buffer: seq<real>, c: nat)
    requires store.Valid() && c < |scatter| && Bijection(|ids|, scatter)
    requires Copied(store, ids, scatter, buffer, c)
    requires var p := scatter[c].pos;
             p < |ids| && ids[p] < |store.rows| && Start(store.dim, p) + store.dim <= |buffer|
    ensures var p := scatter[c].pos;
            Copied(store, ids, scatter, Patched(buffer, Start(store.dim, p), store.rows[ids[p]]), c + 1)
  {
    var p := scatter[c].pos;
    var row := store.rows[ids[p]];
    var next := Patched(buffer, Start(store.dim, p), row);
    PatchHere(buffer, store.dim, p, row);
    forall i | 0 <= i < c
      ensures Right(store, ids, next, scatter[i].pos)
    {
      var q := scatter[i].pos;
      assert Right(store, ids, buffer, q);
      PatchOther(buffer, store.dim, p, row, q, store.rows[ids[q]]);
    }
  }

  lemma AllCopied(store: Store, ids: seq<nat>, scatter: seq<Scatter>, buffer: seq<real>)
    requires Bijection(|ids|, scatter) && Copied(store, ids, scatter, buffer, |scatter|)
    ensures forall p :: 0 <= p < |ids| ==> Right(store, ids, buffer, p)
  {
    forall p | 0 <= p < |ids|
      ensures Right(store, ids, buffer, p)
    {
      assert Hit(scatter, p);
      var i :| 0 <= i < |scatter| && scatter[i].pos == p;
    }
  }

  /** Copies a window's rows to the positions that asked for them. */
  method ScatterWindow(store: Store, ids: seq<nat>, windows: seq<Window>, scatter: seq<Scatter>, w: nat, lo: nat, hi: nat,
                       data: seq<real>, out: array<real>)
    requires store.Valid() && Scatters(ids, windows, scatter) && out.Length == Start(store.dim, |ids|)
    requires w < |windows| && InStore(store, windows[w]) && data == RangeData(store, windows[w])
    requires lo <= hi <= |scatter| && forall i :: lo <= i < hi ==> scatter[i].window == w
    requires Copied(store, ids, scatter, out[..], lo)
    modifies out
    ensures Copied(store, ids, scatter, out[..], hi)
  {
    hide *;
    var dim := store.dim;
    for i := lo to hi
      invariant Copied(store, ids, scatter, out[..], i)
    {
      var s := scatter[i];
      LandsAt(ids, windows, scatter, i);
      InRange(store, windows[w], s.offset);
      WindowRow(store, windows[w], s.offset);
      Apart(dim, s.pos, |ids|);
      CopyNext(store, ids, scatter, out[..], i);
      CopyRow(data, Start(dim, s.offset), out, Start(dim, s.pos), dim);
    }
  }

  lemma LandsAt(ids: seq<nat>, windows: seq<Window>, scatter: seq<Scatter>, i: nat)
    requires Scatters(ids, windows, scatter) && i < |scatter|
    ensures var s := scatter[i];
            && s.pos < |ids| && s.window < |windows|
            && s.offset < windows[s.window].count && windows[s.window].start + s.offset == ids[s.pos]
    ensures Bijection(|ids|, scatter)
  {
    assert Lands(ids, windows, scatter[i]);
  }

  lemma InRange(store: Store, w: Window, offset: nat)
    requires InStore(store, w) && offset < w.count
    ensures w.start + offset < |store.rows|
  {
  }

  // ----- the gather -------------------------------------------------------------------------------------------

  /** Walking the scatter from a window's first entry while entries name the window ends at its last. */
  lemma GroupRange(windows: seq<Window>, scatter: seq<Scatter>, rows: seq<Row>, cuts: seq<nat>, w: nat, c: nat)
    requires Built(windows, scatter, rows, cuts) && Sorting.SortedBy(ById, rows) && w < |windows|
    requires c < |scatter|
    ensures w + 1 < |cuts| && (scatter[c].window == w <==> cuts[w] <= c < cuts[w + 1])
  {
    BuiltAt(windows, scatter, rows, cuts, c);
    var v := GroupOf(cuts, |scatter|, c);
    hide Built, Sorting.SortedBy;
    if v < w {
      assert v + 1 == w || cuts[v + 1] < cuts[w];
    } else if w < v {
      assert w + 1 == v || cuts[w + 1] < cuts[v];
    }
  }

  method SkipGroup(windows: seq<Window>, scatter: seq<Scatter>, ghost rows: seq<Row>, ghost cuts: seq<nat>, w: nat, from: nat)
    returns (cursor: nat)
    requires Built(windows, scatter, rows, cuts) && Sorting.SortedBy(ById, rows) && w < |windows|
    requires w + 1 < |cuts| && from == cuts[w] <= cuts[w + 1] <= |scatter|
    ensures cursor == cuts[w + 1]
    ensures forall i :: from <= i < cursor ==> scatter[i].window == w
  {
    hide *;
    cursor := from;
    while cursor < |scatter| && scatter[cursor].window == w
      invariant from <= cursor <= cuts[w + 1]
      invariant forall i :: from <= i < cursor ==> scatter[i].window == w
    {
      GroupRange(windows, scatter, rows, cuts, w, cursor);
      cursor := cursor + 1;
    }
    if cursor < |scatter| {
      GroupRange(windows, scatter, rows, cuts, w, cursor);
    }
  }

  lemma CutBounds(windows: seq<Window>, scatter: seq<Scatter>, rows: seq<Row>, cuts: seq<nat>, w: nat)
    requires Built(windows, scatter, rows, cuts) && w < |windows|
    ensures |cuts| == |windows| + 1 && cuts[0] == 0 && cuts[w] < cuts[w + 1] <= |scatter| == cuts[|windows|]
  {
  }

  lemma NoWindows(windows: seq<Window>, scatter: seq<Scatter>, rows: seq<Row>, cuts: seq<nat>)
    requires Built(windows, scatter, rows, cuts)
    ensures |cuts| == |windows| + 1 && cuts[0] == 0 && cuts[|windows|] == |scatter|
  {
  }

  ghost predicate AllInRange(store: Store, ids: seq<nat>) {
    forall i :: 0 <= i < |ids| ==> ids[i] < |store.rows|
  }

  lemma WindowOut(store: Store, ids: seq<nat>, windows: seq<Window>, w: nat)
    requires AllTight(ids, windows) && w < |windows| && !InStore(store, windows[w])
    ensures !AllInRange(store, ids)
  {
    assert Tight(ids, windows[w]);
    var id := windows[w].start + (windows[w].count - 1);
    var i :| 0 <= i < |ids| && ids[i] == id;
  }

  lemma RightInRange(store: Store, ids: seq<nat>, buffer: seq<real>)
    requires forall p :: 0 <= p < |ids| ==> Right(store, ids, buffer, p)
    ensures AllInRange(store, ids)
  {
    forall p | 0 <= p < |ids|
      ensures ids[p] < |store.rows|
    {
      assert Right(store, ids, buffer, p);
    }
  }

  /** The cache is there, sound, and holds only its own windows' rows. */
  ghost predicate GoodCache(store: Store, cache: VectorWindowCache?)
    reads cache
  {
    cache != null ==> cache.Valid() && TrueCache(store, cache.items)
  }

  method Cached(store: Store, cache: VectorWindowCache?, key: Key) returns (hit: Option<seq<real>>)
    requires GoodCache(store, cache)
    modifies cache
    ensures GoodCache(store, cache)
    ensures hit.Some? ==> InStore(store, key) && hit.value == RangeData(store, key)
  {
    hit := None;
    if cache != null {
      hide TrueCache, InStore, RangeData, Touch, Lookup, VectorWindowCache.Valid;
      StepTrue(store, cache.items, cache.budget, Get(key));
      if Lookup(cache.items, key).Some? {
        HitTrue(store, cache.items, key);
      }
      hit := cache.Get(key);
    }
  }

  method Remember(store: Store, cache: VectorWindowCache?, key: Key, data: seq<real>)
    requires GoodCache(store, cache) && InStore(store, key) && data == RangeData(store, key)
    modifies cache
    ensures GoodCache(store, cache)
  {
    if cache != null {
      assert TrueItem(store, Item(key, data));
      hide TrueCache, InStore, RangeData, Put, TrueItem, VectorWindowCache.Valid;
      StepTrue(store, cache.items, cache.budget, Op.Insert(key, data));
      cache.Insert(key, data);
    }
  }

  /** Other workers use the shared cache between this one's locks: any lookups, and inserts of windows they read. */
  method OtherWorkers(store: Store, cache: VectorWindowCache?)
    requires GoodCache(store, cache)
    modifies cache
    ensures GoodCache(store, cache)
  {
    hide *;
    var calls: nat := *;
    while calls > 0
      invariant GoodCache(store, cache)
    {
      var key: Key := *;
      var hit := Cached(store, cache, key);
      ReadIff(store, key);
      var read := ReadRange(store, key);
      if read.Some? {
        Remember(store, cache, key, read.value);
      }
      calls := calls - 1;
    }
  }

  /** `read_points_into` of a resident store: each id is read on its own. */
  method ReadEach(store: Store, ids: seq<nat>, out: array<real>) returns (r: Outcome)
    requires store.Valid() && out.Length == Start(store.dim, |ids|)
    modifies out
    ensures r.Done? <==> AllInRange(store, ids)
    ensures r.Done? || r.OutOfBounds?
    ensures r.Done? ==> forall p :: 0 <= p < |ids| ==> Filled(out[..], store.dim, p, store.rows[ids[p]])
  {
    hide Start, Filled, Patched;
    for i := 0 to |ids|
      invariant forall p :: 0 <= p < i ==> ids[p] < |store.rows| && Filled(out[..], store.dim, p, store.rows[ids[p]])
    {
      if ids[i] >= |store.rows| {
        return OutOfBounds;
      }
      var row := store.rows[ids[i]];
      Apart(store.dim, i, |ids|);
      PatchHere(out[..], store.dim, i, row);
      forall p | 0 <= p < i
        ensures Filled(Patched(out[..], Start(store.dim, i), row), store.dim, p, store.rows[ids[p]])
      {
        PatchOther(out[..], store.dim, i, row, p, store.rows[ids[p]]);
      }
      assert row[0..store.dim] == row;
      CopyRow(row, 0, out, Start(store.dim, i), store.dim);
    }
    r := Done;
  }

  /**
   `read_points_planned_into_batch_stats`. For every id list and every cache that holds its own
   windows' rows, the call succeeds exactly when the sizes agree and all ids exist, and then row
   `i` of the output is the store's row `ids[i]`. The cache stays truthful, also on failure, and may
   be used by others between a lookup and the insert that follows it.
   */
  method Gather(store: Store, ids: seq<nat>, out: array<real>, planner: Planner, resident: bool, cache: VectorWindowCache?)
    returns (r: Outcome)
    requires store.Valid() && GoodCache(store, cache)
    modifies out, cache
    ensures GoodCache(store, cache)
    ensures r.Done? <==> out.Length == Start(store.dim, |ids|) && AllInRange(store, ids)
    ensures r.SizeMismatch? <==> out.Length != Start(store.dim, |ids|)
    ensures r.SizeMismatch? ==> out[..] == old(out[..])
    ensures r.Done? ==> forall p :: 0 <= p < |ids| ==> Filled(out[..], store.dim, p, store.rows[ids[p]])
  {
    if out.Length != Start(store.dim, |ids|) {
      return SizeMismatch;
    }
    hide *;
    if resident {
      r := ReadEach(store, ids, out);
      return;
    }
    var plan, rows, cuts := Plan(planner, ids);
    Sorted(ids, rows);
    NoWindows(plan.windows, plan.scatter, rows, cuts);
    NoneCopied(store, ids, plan.scatter, out[..]);
    var cursor := 0;
    for w := 0 to |plan.windows|
      invariant GoodCache(store, cache) && cursor == cuts[w] <= |plan.scatter|
      invariant Copied(store, ids, plan.scatter, out[..], cursor)
    {
      var window := plan.windows[w];
      CutBounds(plan.windows, plan.scatter, rows, cuts, w);
      var first := cursor;
      cursor := SkipGroup(plan.windows, plan.scatter, rows, cuts, w, cursor);
      OtherWorkers(store, cache);
      var hit := Cached(store, cache, window);
      var data;
      if hit.Some? {
        data := hit.value;
      } else {
        var read := ReadRange(store, window);
        ReadIff(store, window);
        if read.None? {
          WindowOut(store, ids, plan.windows, w);
          return OutOfBounds;
        }
        data := read.value;
        OtherWorkers(store, cache);
        Remember(store, cache, window, data);
      }
      ScatterWindow(store, ids, plan.windows, plan.scatter, w, first, cursor, data, out);
    }
    ScatterBijection(ids, plan.windows, plan.scatter);
    AllCopied(store, ids, plan.scatter, out[..]);
    RightInRange(store, ids, out[..]);
    RightFilled(store, ids, out[..]);
    r := Done;
  }

  lemma Sorted(ids: seq<nat>, rows: seq<Row>)
    requires Ordered(ids, rows)
    ensures Sorting.SortedBy(ById, rows)
  {
  }

  lemma NoneCopied(store: Store, ids: seq<nat>, scatter: seq<Scatter>, buffer: seq<real>)
    ensures Copied(store, ids, scatter, buffer, 0)
  {
  }

  lemma ReadIff(store: Store, w: Window)
    ensures ReadRange(store, w).Some? <==> InStore(store, w)
    ensures InStore(store, w) ==> ReadRange(store, w).value == RangeData(store, w)
  {
  }

  lemma ScatterBijection(ids: seq<nat>, windows: seq<Window>, scatter: seq<Scatter>)
    requires Scatters(ids, windows, scatter)
    ensures Bijection(|ids|, scatter) && |scatter| == |ids|
  {
  }

  lemma RightFilled(store: Store, ids: seq<nat>, buffer: seq<real>)
    requires forall p :: 0 <= p < |ids| ==> Right(store, ids, buffer, p)
    ensures forall p :: 0 <= p < |ids| ==> ids[p] < |store.rows| && Filled(buffer, store.dim, p, store.rows[ids[p]])
  {
    forall p | 0 <= p < |ids|
      ensures ids[p] < |store.rows| && Filled(buffer, store.dim, p, store.rows[ids[p]])
    {
      assert Right(store, ids, buffer, p);
    }
  }
}
