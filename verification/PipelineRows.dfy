/**
 What a pipelined read hands to its consumer, as data: each batch is gathered into its own buffer,
 and the buffers arrive in order.
 */
module PipelineRows {
  import opened PlannedGather
  import PointPipeline

  /** What a successful gather leaves in its output buffer. */
  ghost predicate Gathered(store: Store, chunk: seq<nat>, buffer: seq<real>) {
    && |buffer| == Start(store.dim, |chunk|)
    && AllInRange(store, chunk)
    && forall p :: 0 <= p < |chunk| ==> Filled(buffer, store.dim, p, store.rows[chunk[p]])
  }

  /** Reading one batch: the buffer of a successful call is its rows. */
  method ReadBatch(store: Store, chunk: seq<nat>, planner: ReadPlan.Planner, resident: bool, cache: WindowCache.VectorWindowCache?)
    returns (ok: bool, buffer: seq<real>)
    requires store.Valid() && GoodCache(store, cache)
    modifies cache
    ensures GoodCache(store, cache)
    ensures ok <==> AllInRange(store, chunk)
    ensures ok ==> Gathered(store, chunk, buffer)
  {
    var out := new real[Start(store.dim, |chunk|)];
    var r := Gather(store, chunk, out, planner, resident, cache);
    ok, buffer := r.Done?, out[..];
  }

  /** The store's rows of a list of ids. */
  ghost function RowsFor(store: Store, ids: seq<nat>): (rows: seq<seq<real>>)
    requires AllInRange(store, ids)
    ensures |rows| == |ids| && forall p :: 0 <= p < |ids| ==> rows[p] == store.rows[ids[p]]
  {
    seq(|ids|, p requires 0 <= p < |ids| => store.rows[ids[p]])
  }

  lemma {:induction false} PrefixIsFlat(store: Store, chunk: seq<nat>, buffer: seq<real>, p: nat)
    requires Gathered(store, chunk, buffer) && p <= |chunk|
    ensures Start(store.dim, p) <= |buffer| && buffer[..Start(store.dim, p)] == Flat(RowsFor(store, chunk)[..p])
  {
    var rows, at := RowsFor(store, chunk), Start(store.dim, p);
    if p > 0 {
      PrefixIsFlat(store, chunk, buffer, p - 1);
      var before := Start(store.dim, p - 1);
      assert at == before + store.dim;
      assert Filled(buffer, store.dim, p - 1, store.rows[chunk[p - 1]]);
      assert buffer[..at] == buffer[..before] + buffer[before..at];
      assert rows[..p][..p - 1] == rows[..p - 1];
    }
  }

  lemma BufferIsFlat(store: Store, chunk: seq<nat>, buffer: seq<real>)
    requires Gathered(store, chunk, buffer)
    ensures buffer == Flat(RowsFor(store, chunk))
  {
    PrefixIsFlat(store, chunk, buffer, |chunk|);
    assert buffer[..|buffer|] == buffer;
    assert RowsFor(store, chunk)[..|chunk|] == RowsFor(store, chunk);
  }

  lemma {:induction false} FlatConcat(a: seq<seq<real>>, b: seq<seq<real>>)
    ensures Flat(a + b) == Flat(a) + Flat(b)
  {
    if b == [] {
      assert a + b == a;
    } else {
      assert (a + b)[..|a + b| - 1] == a + b[..|b| - 1];
      FlatConcat(a, b[..|b| - 1]);
    }
  }

  /** The buffers in the order they are delivered. */
  ghost function Received(buffers: seq<seq<real>>, order: seq<nat>): seq<real>
    requires forall i :: 0 <= i < |order| ==> order[i] < |buffers|
  {
    if order == [] then [] else Received(buffers, order[..|order| - 1]) + buffers[order[|order| - 1]]
  }

  lemma ConcatSnoc(chunks: seq<seq<nat>>, d: nat)
    requires 0 < d <= |chunks|
    ensures PointPipeline.Concat(chunks[..d]) == PointPipeline.Concat(chunks[..d - 1]) + chunks[d - 1]
  {
    assert chunks[..d][..d - 1] == chunks[..d - 1];
  }

  lemma RangeSplit(store: Store, a: seq<nat>, b: seq<nat>)
    ensures AllInRange(store, a + b) <==> AllInRange(store, a) && AllInRange(store, b)
    ensures AllInRange(store, a + b) ==> RowsFor(store, a + b) == RowsFor(store, a) + RowsFor(store, b)
  {
    if AllInRange(store, a + b) {
      assert forall i :: 0 <= i < |a| ==> (a + b)[i] == a[i];
      assert forall i :: 0 <= i < |b| ==> (a + b)[|a| + i] == b[i];
    }
  }

  /** Batches 0 .. d-1, one after the other, are the rows of their ids. */
  lemma {:induction false} ReceivedRows(store: Store, chunks: seq<seq<nat>>, buffers: seq<seq<real>>, order: seq<nat>)
    requires |buffers| == |chunks| && |order| <= |chunks| && forall i :: 0 <= i < |order| ==> order[i] == i
    requires forall b :: 0 <= b < |order| ==> Gathered(store, chunks[b], buffers[b])
    ensures AllInRange(store, PointPipeline.Concat(chunks[..|order|]))
    ensures Received(buffers, order) == Flat(RowsFor(store, PointPipeline.Concat(chunks[..|order|])))
  {
    var d := |order|;
    if d > 0 {
      ReceivedRows(store, chunks, buffers, order[..d - 1]);
      ConcatSnoc(chunks, d);
      var before := PointPipeline.Concat(chunks[..d - 1]);
      assert Gathered(store, chunks[d - 1], buffers[d - 1]);
      hide Gathered, AllInRange;
      RangeOf(store, chunks[d - 1], buffers[d - 1]);
      RangeSplit(store, before, chunks[d - 1]);
      BufferIsFlat(store, chunks[d - 1], buffers[d - 1]);
      FlatConcat(RowsFor(store, before), RowsFor(store, chunks[d - 1]));
    }
  }

  lemma RangeOf(store: Store, chunk: seq<nat>, buffer: seq<real>)
    requires Gathered(store, chunk, buffer)
    ensures AllInRange(store, chunk)
  {
  }

  /** Batches came in order, and together they are the rows of a prefix of the ids, all of them at the end. */
  ghost predicate RowsDelivered(store: Store, ids: seq<nat>, chunks: seq<seq<nat>>, buffers: seq<seq<real>>, order: seq<nat>) {
    && |order| <= |chunks| == |buffers| && (forall i :: 0 <= i < |order| ==> order[i] == i)
    && var prefix := PointPipeline.Concat(chunks[..|order|]);
       && prefix <= ids && (|order| == |chunks| ==> prefix == ids)
       && AllInRange(store, prefix) && Received(buffers, order) == Flat(RowsFor(store, prefix))
  }

  /**
   In every interleaving, what the consumer has received is the flat rows of a prefix of the
   requested ids, and of all of them at the end.
   */
  lemma DeliveredRows(store: Store, z: PointPipeline.Sizing, ids: seq<nat>, buffers: seq<seq<real>>, steps: seq<PointPipeline.Step>)
    requires PointPipeline.IsRun(PointPipeline.CallConfig(z, ids), steps)
    requires AllGathered(store, PointPipeline.Chunks(ids, z.BatchRows()), buffers)
    ensures RowsDelivered(store, ids, PointPipeline.Chunks(ids, z.BatchRows()), buffers,
                          PointPipeline.Delivered(PointPipeline.CallConfig(z, ids), steps))
  {
    hide *;
    var c, chunks := PointPipeline.CallConfig(z, ids), PointPipeline.Chunks(ids, z.BatchRows());
    PointPipeline.CallFits(z, ids);
    PointPipeline.DeliveredInOrder(c, steps);
    PointPipeline.DeliveredPrefix(z, ids, steps);
    AreDelivered(store, ids, chunks, buffers, PointPipeline.Delivered(c, steps));
  }

  ghost predicate AllGathered(store: Store, chunks: seq<seq<nat>>, buffers: seq<seq<real>>) {
    |buffers| == |chunks| && forall b :: 0 <= b < |chunks| ==> Gathered(store, chunks[b], buffers[b])
  }

  lemma AreDelivered(store: Store, ids: seq<nat>, chunks: seq<seq<nat>>, buffers: seq<seq<real>>, order: seq<nat>)
    requires AllGathered(store, chunks, buffers) && |order| <= |chunks| && forall i :: 0 <= i < |order| ==> order[i] == i
    requires PointPipeline.Concat(chunks[..|order|]) <= ids
    requires |order| == |chunks| ==> PointPipeline.Concat(chunks[..|order|]) == ids
    ensures RowsDelivered(store, ids, chunks, buffers, order)
  {
    hide Gathered, Flat, Received, RowsFor;
    ReceivedRows(store, chunks, buffers, order);
  }
}
