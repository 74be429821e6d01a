/**
 The consumer of root-assignment chunks. Workers finish chunks in any order; the consumer parks
 each in `pending` and visits them by number, stopping the visits at the first error.
 */
module ChunkStream {
  import opened Basics
  import opened Sorting

  datatype Chunk<P, E> = Good(payload: P) | Bad(error: E)

  /** What the consumer has done: the chunks handed to the visitor, and the first error met. */
  datatype Progress<P, E> = Progress(visited: seq<P>, error: Option<E>)

  /** The visitor may fail, depending on what it has seen so far. */
  type Visitor<!P, !E> = (seq<P>, P) -> Option<E>

  function Take<P, E>(visit: Visitor<P, E>, done: Progress<P, E>, chunk: Chunk<P, E>): Progress<P, E> {
    if done.error.Some? then done
    else match chunk
      case Good(p) => Progress(done.visited + [p], visit(done.visited, p))
      case Bad(e) => Progress(done.visited, Some(e))
  }

  /** The reference: chunks taken one after the other. */
  function Sequential<P, E>(visit: Visitor<P, E>, chunks: seq<Chunk<P, E>>): Progress<P, E> {
    if chunks == [] then Progress([], None)
    else Take(visit, Sequential(visit, chunks[..|chunks| - 1]), chunks[|chunks| - 1])
  }

  // ----- what the sequential order promises -----------------------------------------------------

  function Payloads<P, E>(chunks: seq<Chunk<P, E>>): seq<P>
    requires forall i :: 0 <= i < |chunks| ==> chunks[i].Good?
  {
    seq(|chunks|, i requires 0 <= i < |chunks| => chunks[i].payload)
  }

  /** Chunk `i` is an error, or the visitor fails on it after the chunks before it. */
  ghost predicate Fails<P, E>(visit: Visitor<P, E>, chunks: seq<Chunk<P, E>>, i: nat, e: E)
    requires i < |chunks|
  {
    && (forall j :: 0 <= j < i ==> chunks[j].Good?)
    && match chunks[i]
       case Good(p) => visit(Payloads(chunks[..i]), p) == Some(e)
       case Bad(f) => f == e
  }

  ghost predicate Passes<P, E>(visit: Visitor<P, E>, chunks: seq<Chunk<P, E>>, i: nat)
    requires i <= |chunks|
  {
    && (forall j :: 0 <= j < i ==> chunks[j].Good?)
    && (forall j :: 0 <= j < i ==> visit(Payloads(chunks[..j]), chunks[j].payload) == None)
  }

  lemma {:induction false} PassingPrefix<P, E>(visit: Visitor<P, E>, chunks: seq<Chunk<P, E>>, i: nat)
    requires i <= |chunks| && Passes(visit, chunks, i)
    ensures Sequential(visit, chunks[..i]) == Progress(Payloads(chunks[..i]), None)
  {
    if i > 0 {
      PassingPrefix(visit, chunks, i - 1);
      assert chunks[..i][..i - 1] == chunks[..i - 1];
      assert Payloads(chunks[..i]) == Payloads(chunks[..i - 1]) + [chunks[i - 1].payload];
    } else {
      assert Payloads(chunks[..0]) == [];
    }
  }

  lemma {:induction false} ErrorSticks<P, E>(visit: Visitor<P, E>, chunks: seq<Chunk<P, E>>, i: nat)
    requires i <= |chunks| && Sequential(visit, chunks[..i]).error.Some?
    ensures Sequential(visit, chunks) == Sequential(visit, chunks[..i])
    decreases |chunks|
  {
    if i == |chunks| {
      assert chunks[..i] == chunks;
    } else {
      assert chunks[..|chunks| - 1][..i] == chunks[..i];
      ErrorSticks(visit, chunks[..|chunks| - 1], i);
    }
  }

  /** The error returned is that of the lowest-numbered failing chunk, and nothing after it is visited. */
  lemma LowestFailure<P, E>(visit: Visitor<P, E>, chunks: seq<Chunk<P, E>>, i: nat, e: E)
    requires i < |chunks| && Passes(visit, chunks, i) && Fails(visit, chunks, i, e)
    ensures Sequential(visit, chunks).error == Some(e)
    ensures Sequential(visit, chunks).visited == Payloads(chunks[..i]) + (if chunks[i].Good? then [chunks[i].payload] else [])
  {
    PassingPrefix(visit, chunks, i);
    assert chunks[..i + 1][..i] == chunks[..i];
    ErrorSticks(visit, chunks, i + 1);
  }

  /** No error exactly when every chunk is good and visited without failure, and then all are visited in order. */
  lemma {:induction false} NoErrorIff<P, E>(visit: Visitor<P, E>, chunks: seq<Chunk<P, E>>)
    ensures Sequential(visit, chunks).error == None <==> Passes(visit, chunks, |chunks|)
    ensures Sequential(visit, chunks).error == None ==> Sequential(visit, chunks).visited == Payloads(chunks)
  {
    assert chunks[..|chunks|] == chunks;
    if Passes(visit, chunks, |chunks|) {
      PassingPrefix(visit, chunks, |chunks|);
    } else {
      var front := chunks[..|chunks| - 1];
      NoErrorIff(visit, front);
      if Sequential(visit, chunks).error == None {
        assert forall j :: 0 <= j < |front| ==> front[..j] == chunks[..j] && front[j] == chunks[j];
        assert Passes(visit, chunks, |chunks|);
        assert false;
      }
    }
  }

  // ----- the reorder loop ----------------------------------------------------------------------------

  /** Every chunk below `next` has arrived. */
  ghost predicate UpTo(arrived: set<nat>, next: nat) {
    forall i :: 0 <= i < next ==> i in arrived
  }

  /** `next` is the least chunk number that has not arrived. */
  ghost predicate FirstGap(arrived: set<nat>, next: nat) {
    next !in arrived && UpTo(arrived, next)
  }

  ghost function Arrived(order: seq<nat>): set<nat> {
    set i | i in order
  }

  /** Arrived chunks are parked exactly when they have not been taken yet. */
  ghost predicate Parked<P, E>(pending: map<nat, Chunk<P, E>>, arrived: set<nat>, next: nat, chunks: seq<Chunk<P, E>>) {
    && (forall i :: i in pending <==> i in arrived && next <= i)
    && (forall i :: i in pending ==> i < |chunks| && pending[i] == chunks[i])
  }

  lemma Arrives<P, E>(pending: map<nat, Chunk<P, E>>, order: seq<nat>, j: nat, next: nat, chunks: seq<Chunk<P, E>>)
    requires NoRepeat(order) && j < |order| && order[j] < |chunks|
    requires Parked(pending, Arrived(order[..j]), next, chunks) && UpTo(Arrived(order[..j]), next)
    ensures Parked(pending[order[j] := chunks[order[j]]], Arrived(order[..j + 1]), next, chunks)
    ensures UpTo(Arrived(order[..j + 1]), next)
  {
    var was, now, x := Arrived(order[..j]), Arrived(order[..j + 1]), order[j];
    assert order[..j + 1] == order[..j] + [x];
    assert x !in was;
    assert forall i :: i in now <==> i in was || i == x;
    hide Arrived;
    assert x >= next;
  }

  lemma Taken<P, E>(pending: map<nat, Chunk<P, E>>, arrived: set<nat>, next: nat, chunks: seq<Chunk<P, E>>)
    requires Parked(pending, arrived, next, chunks) && UpTo(arrived, next) && next in pending
    ensures Parked(pending - {next}, arrived, next + 1, chunks) && UpTo(arrived, next + 1)
  {
  }

  /**
   Messages arrive in the order `order`, message `j` carrying chunk number `order[j]`. Whatever
   the order, the outcome is that of taking the chunks sequentially up to the first number that
   never arrives; when all arrive, that is all of them.
   */
  method Reorder<P, E>(visit: Visitor<P, E>, chunks: seq<Chunk<P, E>>, order: seq<nat>)
    returns (done: Progress<P, E>, next: nat)
    requires NoRepeat(order) && forall j :: 0 <= j < |order| ==> order[j] < |chunks|
    ensures FirstGap(Arrived(order), next) && next <= |chunks|
    ensures done == Sequential(visit, chunks[..next])
    ensures (forall i :: 0 <= i < |chunks| ==> i in order) ==> done == Sequential(visit, chunks)
  {
    hide NoRepeat, Parked, UpTo, Arrived;
    next := 0;
    var pending: map<nat, Chunk<P, E>> := map[];
    done := Progress([], None);
    assert Parked(pending, Arrived(order[..0]), 0, chunks) && UpTo(Arrived(order[..0]), 0) by {
      NothingYet(order, chunks);
    }
    for j := 0 to |order|
      invariant next <= |chunks| && next !in pending && UpTo(Arrived(order[..j]), next)
      invariant Parked(pending, Arrived(order[..j]), next, chunks)
      invariant done == Sequential(visit, chunks[..next])
    {
      Arrives(pending, order, j, next, chunks);
      pending := pending[order[j] := chunks[order[j]]];
      while next in pending
        invariant next <= |chunks| && UpTo(Arrived(order[..j + 1]), next)
        invariant Parked(pending, Arrived(order[..j + 1]), next, chunks)
        invariant done == Sequential(visit, chunks[..next])
        decreases |chunks| - next
      {
        Taken(pending, Arrived(order[..j + 1]), next, chunks);
        NextIs(pending, Arrived(order[..j + 1]), next, chunks);
        var chunk := pending[next];
        pending := pending - {next};
        assert chunks[..next + 1][..next] == chunks[..next];
        done := Take(visit, done, chunk);
        next := next + 1;
      }
    }
    assert order[..|order|] == order;
    GapFound(pending, order, next, chunks);
  }

  lemma NothingYet<P, E>(order: seq<nat>, chunks: seq<Chunk<P, E>>)
    ensures Parked(map[], Arrived(order[..0]), 0, chunks) && UpTo(Arrived(order[..0]), 0)
  {
  }

  lemma NextIs<P, E>(pending: map<nat, Chunk<P, E>>, arrived: set<nat>, next: nat, chunks: seq<Chunk<P, E>>)
    requires Parked(pending, arrived, next, chunks) && next in pending
    ensures next < |chunks| && pending[next] == chunks[next]
  {
  }

  lemma GapFound<P, E>(pending: map<nat, Chunk<P, E>>, order: seq<nat>, next: nat, chunks: seq<Chunk<P, E>>)
    requires Parked(pending, Arrived(order), next, chunks) && UpTo(Arrived(order), next) && next !in pending
    requires next <= |chunks|
    ensures FirstGap(Arrived(order), next)
    ensures (forall i :: 0 <= i < |chunks| ==> i in order) ==> chunks[..next] == chunks
  {
    if next < |chunks| && forall i :: 0 <= i < |chunks| ==> i in order {
      assert false;
    }
  }
}
