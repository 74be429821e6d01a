/**
 The point pipeline as a state machine over its interleaved steps: a producer feeds numbered
 batches to I/O workers through a bounded queue; a worker takes a byte permit, reads, and sends
 the batch to a bounded ready queue; the consumer parks out-of-order batches and consumes in
 order, which returns the permit.
 */
module PointPipeline {
  import opened Basics

  /** Sizes in bytes of the batches, and the limits of one call. */
  datatype Config = Config(workers: nat, depth: nat, capacity: nat, sizes: seq<nat>) {
    ghost predicate Valid() {
      && 0 < workers && 0 < depth
      && (forall b :: 0 <= b < |sizes| ==> 0 < sizes[b] <= capacity)
    }
  }

  datatype Phase = Idle | Waiting(batch: nat) | Holding(batch: nat)

  /**
   `produced` batches have entered the job queue, `done` have been consumed; `used` is the
   budget counter. `Waiting` is a worker inside `acquire`.
   */
  datatype State = State(produced: nat, jobs: seq<nat>, workers: seq<Phase>, ready: seq<nat>,
                         pending: set<nat>, consuming: Option<nat>, done: nat, used: nat)

  datatype Step = Produce | Take(w: nat) | Acquire(w: nat) | Send(w: nat) | Receive | Begin | Finish

  ghost predicate Enabled(c: Config, s: State, step: Step) {
    match step
    case Produce => s.produced < |c.sizes| && |s.jobs| < c.depth
    case Take(w) => w < |s.workers| && s.workers[w].Idle? && s.jobs != []
    case Acquire(w) =>
      && w < |s.workers| && s.workers[w].Waiting? && s.workers[w].batch < |c.sizes|
      && s.used + c.sizes[s.workers[w].batch] <= c.capacity
    case Send(w) => w < |s.workers| && s.workers[w].Holding? && |s.ready| < c.depth
    case Receive => s.consuming.None? && s.done < |c.sizes| && s.done !in s.pending && s.ready != []
    case Begin => s.consuming.None? && s.done in s.pending
    case Finish => s.consuming.Some? && s.consuming.value < |c.sizes|
  }

  ghost function Apply(c: Config, s: State, step: Step): State
    requires Enabled(c, s, step)
  {
    match step
    case Produce => s.(jobs := s.jobs + [s.produced], produced := s.produced + 1)
    case Take(w) => s.(workers := s.workers[w := Waiting(s.jobs[0])], jobs := s.jobs[1..])
    case Acquire(w) =>
      var b := s.workers[w].batch;
      s.(workers := s.workers[w := Holding(b)], used := s.used + c.sizes[b])
    case Send(w) => s.(workers := s.workers[w := Idle], ready := s.ready + [s.workers[w].batch])
    case Receive => s.(pending := s.pending + {s.ready[0]}, ready := s.ready[1..])
    case Begin => s.(pending := s.pending - {s.done}, consuming := Some(s.done))
    case Finish =>
      s.(consuming := None, done := s.done + 1, used := SubSat(s.used, c.sizes[s.consuming.value]))
  }

  ghost function Init(c: Config): State {
    State(0, [], seq(c.workers, _ => Idle), [], {}, None, 0, 0)
  }

  // ----- where a batch is ----------------------------------------------------------------------

  ghost predicate IsWaiting(s: State, b: nat) {
    exists w :: 0 <= w < |s.workers| && s.workers[w] == Waiting(b)
  }

  ghost predicate IsHeld(s: State, b: nat) {
    exists w :: 0 <= w < |s.workers| && s.workers[w] == Holding(b)
  }

  /** The number of steps a batch has taken through the pipeline. */
  ghost function Stage(s: State, b: nat): nat {
    if b < s.done then 7
    else if s.consuming == Some(b) then 6
    else if b in s.pending then 5
    else if b in s.ready then 4
    else if IsHeld(s, b) then 3
    else if IsWaiting(s, b) then 2
    else if b < s.produced then 1
    else 0
  }

  /** Batches [taken, produced) wait in the job queue, in order. */
  ghost predicate JobsOk(c: Config, s: State) {
    && |s.jobs| <= s.produced <= |c.sizes|
    && (forall i :: 0 <= i < |s.jobs| ==> s.jobs[i] == Taken(s) + i)
  }

  ghost function Taken(s: State): int {
    s.produced - |s.jobs|
  }

  /** A worker's batch is taken, not done, in no queue, and no other worker's. */
  ghost predicate WorkersOk(c: Config, s: State) {
    && |s.workers| == c.workers
    && (forall w :: 0 <= w < |s.workers| && !s.workers[w].Idle? ==>
          var b := s.workers[w].batch;
          s.done <= b < Taken(s) && b !in s.ready && b !in s.pending && s.consuming != Some(b))
    && (forall v, w :: 0 <= v < w < |s.workers| && !s.workers[v].Idle? && !s.workers[w].Idle? ==>
          s.workers[v].batch != s.workers[w].batch)
  }

  ghost predicate ReadyOk(s: State) {
    && (forall i :: 0 <= i < |s.ready| ==>
          s.done <= s.ready[i] < Taken(s) && s.ready[i] !in s.pending && s.consuming != Some(s.ready[i]))
    && (forall i, j :: 0 <= i < j < |s.ready| ==> s.ready[i] != s.ready[j])
  }

  ghost predicate ConsumerOk(s: State) {
    && (forall b :: b in s.pending ==> s.done <= b < Taken(s) && s.consuming != Some(b))
    && (s.consuming.Some? ==> s.consuming.value == s.done < Taken(s))
    && s.done <= Taken(s)
  }

  /** Every taken batch that is not done is somewhere. */
  ghost predicate NoneLost(s: State) {
    forall b: nat {:trigger Stage(s, b)} :: s.done <= b < Taken(s) ==> Stage(s, b) >= 2
  }

  ghost predicate PlacesOk(c: Config, s: State) {
    JobsOk(c, s) && WorkersOk(c, s) && ReadyOk(s) && ConsumerOk(s) && NoneLost(s)
  }

  // ----- every step moves one batch on by one stage ------------------------------------------------

  ghost predicate Moved(s: State, s': State, x: nat) {
    && Stage(s', x) == Stage(s, x) + 1
    && (forall b: nat {:trigger Stage(s', b)} :: b != x ==> Stage(s', b) == Stage(s, b))
  }

  ghost function Mover(c: Config, s: State, step: Step): nat
    requires Enabled(c, s, step)
  {
    match step
    case Produce => s.produced
    case Take(_) => s.jobs[0]
    case Acquire(w) => s.workers[w].batch
    case Send(w) => s.workers[w].batch
    case Receive => s.ready[0]
    case Begin => s.done
    case Finish => s.consuming.value
  }

  lemma ProduceMoves(c: Config, s: State)
    requires PlacesOk(c, s) && Enabled(c, s, Produce)
    ensures var s' := Apply(c, s, Produce); PlacesOk(c, s') && Moved(s, s', s.produced)
  {
    var s' := Apply(c, s, Produce);
    assert Taken(s') == Taken(s);
    forall b: nat
      ensures b != s.produced ==> Stage(s', b) == Stage(s, b)
      ensures b == s.produced ==> Stage(s, b) == 0 && Stage(s', b) == 1
    {
      assert IsHeld(s', b) == IsHeld(s, b) && IsWaiting(s', b) == IsWaiting(s, b);
    }
  }

  lemma TakeMoves(c: Config, s: State, w: nat)
    requires PlacesOk(c, s) && Enabled(c, s, Take(w))
    ensures var s' := Apply(c, s, Take(w)); PlacesOk(c, s') && Moved(s, s', s.jobs[0])
  {
    var s', x := Apply(c, s, Take(w)), s.jobs[0];
    assert x == Taken(s) && Taken(s') == Taken(s) + 1;
    WorkerChange(s, s', w);
    assert WorkersOk(c, s');
    assert s'.workers[w] == Waiting(x);
    forall b: nat
      ensures b != x ==> Stage(s', b) == Stage(s, b)
      ensures b == x ==> Stage(s, b) == 1 && Stage(s', b) == 2
    {
    }
  }

  /** Changing one worker changes only the batches it had or gets. */
  lemma WorkerChange(s: State, s': State, w: nat)
    requires w < |s.workers| == |s'.workers|
    requires forall v :: 0 <= v < |s.workers| && v != w ==> s'.workers[v] == s.workers[v]
    ensures forall b: nat {:trigger IsWaiting(s', b)} :: s.workers[w] != Waiting(b) && s'.workers[w] != Waiting(b)
              ==> IsWaiting(s', b) == IsWaiting(s, b)
    ensures forall b: nat {:trigger IsHeld(s', b)} :: s.workers[w] != Holding(b) && s'.workers[w] != Holding(b)
              ==> IsHeld(s', b) == IsHeld(s, b)
  {
    forall b: nat | s.workers[w] != Waiting(b) && s'.workers[w] != Waiting(b)
      ensures IsWaiting(s', b) == IsWaiting(s, b)
    {
      if IsWaiting(s, b) {
        var v :| 0 <= v < |s.workers| && s.workers[v] == Waiting(b);
        assert s'.workers[v] == Waiting(b);
      }
    }
    forall b: nat | s.workers[w] != Holding(b) && s'.workers[w] != Holding(b)
      ensures IsHeld(s', b) == IsHeld(s, b)
    {
      if IsHeld(s, b) {
        var v :| 0 <= v < |s.workers| && s.workers[v] == Holding(b);
        assert s'.workers[v] == Holding(b);
      }
    }
  }

  lemma AcquireMoves(c: Config, s: State, w: nat)
    requires PlacesOk(c, s) && Enabled(c, s, Acquire(w))
    ensures var s' := Apply(c, s, Acquire(w)); PlacesOk(c, s') && Moved(s, s', s.workers[w].batch)
  {
    var s', x := Apply(c, s, Acquire(w)), s.workers[w].batch;
    WorkerChange(s, s', w);
    assert s.workers[w] == Waiting(x) && s'.workers[w] == Holding(x);
    OnlyWorker(c, s, w);
    OnlyWorker(c, s', w);
    forall b: nat
      ensures b != x ==> Stage(s', b) == Stage(s, b)
      ensures b == x ==> Stage(s, b) == 2 && Stage(s', b) == 3
    {
    }
  }

  /** A worker's batch is held or waited for by that worker alone. */
  lemma OnlyWorker(c: Config, s: State, w: nat)
    requires WorkersOk(c, s) && w < |s.workers| && !s.workers[w].Idle?
    ensures var b := s.workers[w].batch;
            IsHeld(s, b) == s.workers[w].Holding? && IsWaiting(s, b) == s.workers[w].Waiting?
  {
    var b := s.workers[w].batch;
    assert forall v :: 0 <= v < |s.workers| && v != w && !s.workers[v].Idle? ==> s.workers[v].batch != b;
  }

  lemma SendMoves(c: Config, s: State, w: nat)
    requires PlacesOk(c, s) && Enabled(c, s, Send(w))
    ensures var s' := Apply(c, s, Send(w)); PlacesOk(c, s') && Moved(s, s', s.workers[w].batch)
  {
    var s', x := Apply(c, s, Send(w)), s.workers[w].batch;
    WorkerChange(s, s', w);
    OnlyWorker(c, s, w);
    assert s'.ready[|s.ready|] == x;
    assert forall b :: b in s'.ready <==> b in s.ready || b == x;
    SendWorkers(c, s, s', w);
    forall b: nat
      ensures b != x ==> Stage(s', b) == Stage(s, b)
      ensures b == x ==> Stage(s, b) == 3 && Stage(s', b) == 4
    {
    }
  }

  lemma SendWorkers(c: Config, s: State, s': State, w: nat)
    requires WorkersOk(c, s) && w < |s.workers| && s.workers[w].Holding?
    requires s' == s.(workers := s.workers[w := Idle], ready := s.ready + [s.workers[w].batch])
    ensures WorkersOk(c, s')
  {
  }

  lemma ReceiveMoves(c: Config, s: State)
    requires PlacesOk(c, s) && Enabled(c, s, Receive)
    ensures var s' := Apply(c, s, Receive); PlacesOk(c, s') && Moved(s, s', s.ready[0])
  {
    var s', x := Apply(c, s, Receive), s.ready[0];
    assert s.ready == [x] + s'.ready;
    assert x !in s'.ready;
    assert forall b :: b in s.ready <==> b in s'.ready || b == x;
    assert WorkersOk(c, s');
    forall b: nat
      ensures b != x ==> Stage(s', b) == Stage(s, b)
      ensures b == x ==> Stage(s, b) == 4 && Stage(s', b) == 5
    {
      assert IsHeld(s', b) == IsHeld(s, b) && IsWaiting(s', b) == IsWaiting(s, b);
    }
  }

  lemma BeginMoves(c: Config, s: State)
    requires PlacesOk(c, s) && Enabled(c, s, Begin)
    ensures var s' := Apply(c, s, Begin); PlacesOk(c, s') && Moved(s, s', s.done)
  {
    var s', x := Apply(c, s, Begin), s.done;
    forall b: nat
      ensures b != x ==> Stage(s', b) == Stage(s, b)
      ensures b == x ==> Stage(s, b) == 5 && Stage(s', b) == 6
    {
      assert IsHeld(s', b) == IsHeld(s, b) && IsWaiting(s', b) == IsWaiting(s, b);
    }
  }

  lemma FinishMoves(c: Config, s: State)
    requires PlacesOk(c, s) && Enabled(c, s, Finish)
    ensures var s' := Apply(c, s, Finish); PlacesOk(c, s') && Moved(s, s', s.consuming.value)
  {
    var s', x := Apply(c, s, Finish), s.done;
    assert forall b :: b in s.pending ==> b != x;
    forall b: nat
      ensures b != x ==> Stage(s', b) == Stage(s, b)
      ensures b == x ==> Stage(s, b) == 6 && Stage(s', b) == 7
    {
      assert IsHeld(s', b) == IsHeld(s, b) && IsWaiting(s', b) == IsWaiting(s, b);
    }
  }

  /** Every step keeps each batch in one place and moves exactly one batch one stage on. */
  lemma StepMoves(c: Config, s: State, step: Step)
    requires PlacesOk(c, s) && Enabled(c, s, step)
    ensures PlacesOk(c, Apply(c, s, step)) && Moved(s, Apply(c, s, step), Mover(c, s, step))
    ensures Mover(c, s, step) < |c.sizes|
  {
    hide PlacesOk, Moved;
    MoverInRange(c, s, step);
    match step
    case Produce => ProduceMoves(c, s);
    case Take(w) => TakeMoves(c, s, w);
    case Acquire(w) => AcquireMoves(c, s, w);
    case Send(w) => SendMoves(c, s, w);
    case Receive => ReceiveMoves(c, s);
    case Begin => BeginMoves(c, s);
    case Finish => FinishMoves(c, s);
  }

  lemma MoverInRange(c: Config, s: State, step: Step)
    requires PlacesOk(c, s) && Enabled(c, s, step)
    ensures Mover(c, s, step) < |c.sizes|
  {
  }

  // ----- the budget ------------------------------------------------------------------------------------

  /** A batch holds its permit from `Holding` until it is consumed. */
  ghost predicate Live(stage: nat) {
    3 <= stage <= 6
  }

  /** The permits held by the first n batches. */
  ghost function LiveBytes(c: Config, s: State, n: nat): nat
    requires n <= |c.sizes|
  {
    if n == 0 then 0
    else LiveBytes(c, s, n - 1) + if Live(Stage(s, n - 1)) then c.sizes[n - 1] else 0
  }

  ghost function TotalBytes(c: Config, n: nat): nat
    requires n <= |c.sizes|
  {
    if n == 0 then 0 else TotalBytes(c, n - 1) + c.sizes[n - 1]
  }

  /** The sum of all stages: how far the whole run has come. */
  ghost function Distance(s: State, n: nat): nat {
    if n == 0 then 0 else Distance(s, n - 1) + Stage(s, n - 1)
  }

  lemma {:induction false} DistanceBound(s: State, n: nat)
    ensures Distance(s, n) <= 7 * n
  {
    if n > 0 {
      DistanceBound(s, n - 1);
    }
  }

  lemma {:induction false} DistanceMoves(s: State, s': State, x: nat, n: nat)
    requires Moved(s, s', x)
    ensures Distance(s', n) == Distance(s, n) + if x < n then 1 else 0
  {
    if n > 0 {
      DistanceMoves(s, s', x, n - 1);
    }
  }

  ghost function Permit(c: Config, stage: nat, x: nat): nat
    requires x < |c.sizes|
  {
    if Live(stage) then c.sizes[x] else 0
  }

  lemma {:induction false} LiveMoves(c: Config, s: State, s': State, x: nat, n: nat)
    requires Moved(s, s', x) && x < |c.sizes| && n <= |c.sizes|
    ensures LiveBytes(c, s', n) ==
            LiveBytes(c, s, n) + if x < n then Permit(c, Stage(s', x), x) - Permit(c, Stage(s, x), x) else 0
  {
    if n > 0 {
      LiveMoves(c, s, s', x, n - 1);
    }
  }

  /** The invariant of every reachable state. */
  ghost predicate Inv(c: Config, s: State) {
    c.Valid() && PlacesOk(c, s) && s.used == LiveBytes(c, s, |c.sizes|) <= c.capacity
  }

  lemma StageOfMover(c: Config, s: State, step: Step)
    requires PlacesOk(c, s) && Enabled(c, s, step)
    ensures Stage(s, Mover(c, s, step)) ==
            match step
            case Produce => 0
            case Take(_) => 1
            case Acquire(_) => 2
            case Send(_) => 3
            case Receive => 4
            case Begin => 5
            case Finish => 6
  {
    match step
    case Take(w) => NotWithWorker(c, s, s.jobs[0]);
    case Produce => NotWithWorker(c, s, s.produced);
    case Acquire(w) => OnlyWorker(c, s, w);
    case Send(w) => OnlyWorker(c, s, w);
    case Receive =>
    case Begin =>
    case Finish =>
  }

  lemma NotWithWorker(c: Config, s: State, b: nat)
    requires WorkersOk(c, s) && b >= Taken(s)
    ensures !IsHeld(s, b) && !IsWaiting(s, b)
  {
  }

  /** Every step keeps the counter equal to the live permits and within capacity. */
  lemma StepKeeps(c: Config, s: State, step: Step)
    requires Inv(c, s) && Enabled(c, s, step)
    ensures Inv(c, Apply(c, s, step))
  {
    hide PlacesOk, Moved, Stage, LiveBytes;
    var s', x := Apply(c, s, step), Mover(c, s, step);
    StepMoves(c, s, step);
    StageOfMover(c, s, step);
    StageGrows(s, s', x);
    LiveMoves(c, s, s', x, |c.sizes|);
  }

  lemma StageGrows(s: State, s': State, x: nat)
    requires Moved(s, s', x)
    ensures Stage(s', x) == Stage(s, x) + 1
  {
  }

  lemma InitInv(c: Config)
    requires c.Valid()
    ensures Inv(c, Init(c))
  {
    var s := Init(c);
    assert forall b: nat :: Stage(s, b) == 0;
    NothingLive(c, s, |c.sizes|);
  }

  lemma {:induction false} NothingLive(c: Config, s: State, n: nat)
    requires n <= |c.sizes| && forall b: nat :: b < n ==> !Live(Stage(s, b))
    ensures LiveBytes(c, s, n) == 0
  {
    if n > 0 {
      NothingLive(c, s, n - 1);
    }
  }

  // ----- runs ------------------------------------------------------------------------------------------

  ghost predicate IsRun(c: Config, steps: seq<Step>) {
    steps == [] ||
    (IsRun(c, steps[..|steps| - 1]) && Enabled(c, After(c, steps[..|steps| - 1]), steps[|steps| - 1]))
  }

  /** The state after a run; a disabled step changes nothing. */
  ghost function After(c: Config, steps: seq<Step>): State {
    if steps == [] then Init(c)
    else
      var s := After(c, steps[..|steps| - 1]);
      if Enabled(c, s, steps[|steps| - 1]) then Apply(c, s, steps[|steps| - 1]) else s
  }

  lemma RunSnoc(c: Config, steps: seq<Step>, step: Step)
    requires IsRun(c, steps) && Enabled(c, After(c, steps), step)
    ensures IsRun(c, steps + [step]) && After(c, steps + [step]) == Apply(c, After(c, steps), step)
  {
    assert (steps + [step])[..|steps|] == steps;
  }

  /** Every reachable state satisfies the invariant, and a run is never longer than 7 steps per batch. */
  lemma {:induction false} RunInv(c: Config, steps: seq<Step>)
    requires c.Valid() && IsRun(c, steps)
    ensures Inv(c, After(c, steps))
    ensures Distance(After(c, steps), |c.sizes|) == |steps| <= 7 * |c.sizes|
  {
    if steps == [] {
      InitInv(c);
      NoDistance(c, |c.sizes|);
    } else {
      var front, step := steps[..|steps| - 1], steps[|steps| - 1];
      RunInv(c, front);
      var s := After(c, front);
      StepKeeps(c, s, step);
      StepMoves(c, s, step);
      DistanceMoves(s, After(c, steps), Mover(c, s, step), |c.sizes|);
      DistanceBound(After(c, steps), |c.sizes|);
    }
  }

  lemma {:induction false} NoDistance(c: Config, n: nat)
    ensures Distance(Init(c), n) == 0
  {
    if n > 0 {
      NoDistance(c, n - 1);
      assert !IsHeld(Init(c), n - 1) && !IsWaiting(Init(c), n - 1);
    }
  }

  /** Both queues keep to their depth in every run. */
  lemma {:induction false} QueuesBounded(c: Config, steps: seq<Step>)
    ensures var s := After(c, steps); |s.jobs| <= c.depth && |s.ready| <= c.depth && |s.workers| == c.workers
  {
    if steps != [] {
      QueuesBounded(c, steps[..|steps| - 1]);
    }
  }

  /** The job queue takes up to `depth` batches before any worker takes one. */
  lemma {:induction false} JobsFill(c: Config, n: nat) returns (steps: seq<Step>)
    requires n <= |c.sizes| && n <= c.depth
    ensures IsRun(c, steps) && After(c, steps).produced == n == |After(c, steps).jobs|
  {
    if n == 0 {
      steps := [];
    } else {
      var front := JobsFill(c, n - 1);
      steps := front + [Produce];
      RunSnoc(c, front, Produce);
    }
  }

  /** In every reachable state each batch is in exactly one place. */
  lemma OnePlace(c: Config, steps: seq<Step>, b: nat)
    requires c.Valid() && IsRun(c, steps) && b < |c.sizes|
    ensures var s := After(c, steps);
            Count(b >= s.produced) + Count(b in s.jobs) + Count(IsWaiting(s, b)) + Count(IsHeld(s, b))
            + Count(b in s.ready) + Count(b in s.pending) + Count(s.consuming == Some(b)) + Count(b < s.done) == 1
  {
    RunInv(c, steps);
    var s := After(c, steps);
    assert b in s.jobs <==> Taken(s) <= b < s.produced by {
      if Taken(s) <= b < s.produced {
        assert s.jobs[b - Taken(s)] == b;
      }
    }
    if Taken(s) <= b {
      NotWithWorker(c, s, b);
    } else if s.done <= b {
      assert Stage(s, b) >= 2;
      if w :| 0 <= w < |s.workers| && !s.workers[w].Idle? && s.workers[w].batch == b {
        OnlyWorker(c, s, w);
      }
    }
  }

  function Count(p: bool): nat {
    if p then 1 else 0
  }

  // ----- delivery ----------------------------------------------------------------------------------------

  /** The batches handed to the caller, in order of delivery. */
  ghost function Delivered(c: Config, steps: seq<Step>): seq<nat> {
    if steps == [] then []
    else
      var front, step := steps[..|steps| - 1], steps[|steps| - 1];
      var s := After(c, front);
      Delivered(c, front) + if step.Finish? && Enabled(c, s, step) then [s.consuming.value] else []
  }

  /** Delivery is always the prefix 0, 1, 2, ... whatever the interleaving. */
  lemma {:induction false} DeliveredInOrder(c: Config, steps: seq<Step>)
    requires c.Valid() && IsRun(c, steps)
    ensures |Delivered(c, steps)| == After(c, steps).done
    ensures forall i :: 0 <= i < |Delivered(c, steps)| ==> Delivered(c, steps)[i] == i
  {
    if steps != [] {
      var front := steps[..|steps| - 1];
      DeliveredInOrder(c, front);
      RunInv(c, front);
    }
  }

  // ----- progress ------------------------------------------------------------------------------------------

  ghost predicate Stuck(c: Config, s: State) {
    s.done < |c.sizes| && forall step :: !Enabled(c, s, step)
  }

  /** A single worker's batch is the last one taken. */
  ghost predicate LastTaken(c: Config, s: State) {
    c.workers == 1 ==> |s.workers| == 1 && (!s.workers[0].Idle? ==> s.workers[0].batch == Taken(s) - 1)
  }

  lemma {:induction false} RunLastTaken(c: Config, steps: seq<Step>)
    requires c.Valid() && IsRun(c, steps)
    ensures LastTaken(c, After(c, steps))
  {
    if steps != [] {
      var front := steps[..|steps| - 1];
      RunLastTaken(c, front);
      RunInv(c, front);
    }
  }

  /** When nothing but a permit could move, the expected batch is waiting for one. */
  lemma OnlyAcquireLeft(c: Config, s: State) returns (w: nat)
    requires Inv(c, s) && s.done < |c.sizes|
    requires forall step :: Enabled(c, s, step) ==> step.Acquire?
    ensures w < |s.workers| && s.workers[w] == Waiting(s.done)
    ensures s.ready == [] && s.consuming == None && forall b :: !IsHeld(s, b)
  {
    assert !Enabled(c, s, Finish) && !Enabled(c, s, Begin) && !Enabled(c, s, Receive) && !Enabled(c, s, Produce);
    assert s.consuming == None && s.done !in s.pending && s.ready == [];
    forall v | 0 <= v < |s.workers|
      ensures !s.workers[v].Holding? && (s.workers[v].Idle? ==> s.jobs == [])
    {
      assert !Enabled(c, s, Send(v)) && !Enabled(c, s, Take(v));
    }
    assert s.done < Taken(s) by {
      if s.jobs != [] {
        assert !s.workers[0].Idle?;
      }
    }
    assert Stage(s, s.done) >= 2;
    w :| 0 <= w < |s.workers| && s.workers[w] == Waiting(s.done);
  }

  lemma {:induction false} LiveWithin(c: Config, s: State, n: nat, b: nat)
    requires b < |c.sizes| && n <= |c.sizes| && !Live(Stage(s, b))
    ensures LiveBytes(c, s, n) + (if b < n then c.sizes[b] else 0) <= TotalBytes(c, n)
  {
    if n > 0 {
      LiveWithin(c, s, n - 1, b);
    }
  }

  /** With one worker, or with a budget for all batches at once, some step is always possible. */
  lemma CanMove(c: Config, s: State) returns (step: Step)
    requires Inv(c, s) && LastTaken(c, s) && s.done < |c.sizes|
    requires c.workers == 1 || TotalBytes(c, |c.sizes|) <= c.capacity
    ensures Enabled(c, s, step)
  {
    if other :| Enabled(c, s, other) && !other.Acquire? {
      return other;
    }
    var w := OnlyAcquireLeft(c, s);
    OnlyWorker(c, s, w);
    if c.workers == 1 {
      forall b: nat | b < |c.sizes|
        ensures !Live(Stage(s, b))
      {
        assert !IsHeld(s, b);
      }
      NothingLive(c, s, |c.sizes|);
    } else {
      assert Stage(s, s.done) == 2;
      LiveWithin(c, s, |c.sizes|, s.done);
    }
    step := Acquire(w);
  }

  // ----- the deadlock ----------------------------------------------------------------------------------------

  /** The expected batch waits for bytes that only its own delivery could free. */
  ghost predicate Doomed(c: Config, s: State) {
    && s.done == 0 < |c.sizes| && s.consuming == None && 0 !in s.pending
    && 0 < |s.workers| && s.workers[0] == Waiting(0)
    && s.used + c.sizes[0] > c.capacity
  }

  lemma DoomedStays(c: Config, s: State, step: Step)
    requires Inv(c, s) && Doomed(c, s) && Enabled(c, s, step)
    ensures Doomed(c, Apply(c, s, step))
  {
  }

  lemma DoomedSticks(c: Config, steps: seq<Step>) returns (all: seq<Step>)
    requires c.Valid() && IsRun(c, steps) && Doomed(c, After(c, steps))
    ensures IsRun(c, all) && Stuck(c, After(c, all))
    decreases 7 * |c.sizes| - |steps|
  {
    RunInv(c, steps);
    var s := After(c, steps);
    if step :| Enabled(c, s, step) {
      DoomedStays(c, s, step);
      RunSnoc(c, steps, step);
      RunInv(c, steps + [step]);
      all := DoomedSticks(c, steps + [step]);
    } else {
      all := steps;
    }
  }

  ghost function Between(lo: nat, hi: nat): (r: set<nat>)
    ensures forall b: nat :: b in r <==> lo <= b < hi
  {
    if hi <= lo then {} else Between(lo, hi - 1) + {hi - 1}
  }

  /** Worker 0 has batch 0 and no permit; worker 1 has delivered 1..m to the parking map. */
  ghost function LeadState(c: Config, m: nat): State
    requires 2 <= c.workers && 1 <= m <= |c.sizes|
  {
    State(m, [], seq(c.workers, w => if w == 0 then Waiting(0) else Idle), [], Between(1, m), None, 0,
          SubSat(TotalBytes(c, m), c.sizes[0]))
  }

  lemma LeadFirst(c: Config) returns (steps: seq<Step>)
    requires c.Valid() && 2 <= c.workers && 1 <= |c.sizes|
    ensures IsRun(c, steps) && After(c, steps) == LeadState(c, 1)
  {
    RunSnoc(c, [], Produce);
    RunSnoc(c, [Produce], Take(0));
    assert [] + [Produce] == [Produce] && [Produce] + [Take(0)] == [Produce, Take(0)];
    steps := [Produce, Take(0)];
    var s := After(c, steps);
    assert s.workers == LeadState(c, 1).workers;
    assert s.pending == Between(1, 1);
    assert TotalBytes(c, 0) == 0;
  }

  /** One more batch overtakes batch 0. */
  lemma LeadNext(c: Config, steps: seq<Step>, m: nat) returns (more: seq<Step>)
    requires c.Valid() && 2 <= c.workers && 1 <= m < |c.sizes|
    requires IsRun(c, steps) && After(c, steps) == LeadState(c, m)
    requires LeadState(c, m).used + c.sizes[m] <= c.capacity
    ensures IsRun(c, more) && After(c, more) == LeadState(c, m + 1)
  {
    var s := LeadState(c, m);
    var s1 := s.(jobs := [m], produced := m + 1);
    var s2 := s1.(jobs := [], workers := s.workers[1 := Waiting(m)]);
    var s3 := s2.(workers := s.workers[1 := Holding(m)], used := s.used + c.sizes[m]);
    var s4 := s3.(workers := s.workers, ready := [m]);
    var s5 := s4.(ready := [], pending := s.pending + {m});
    var p := steps;
    RunSnoc(c, p, Produce);
    p := p + [Produce];
    assert After(c, p) == s1;
    RunSnoc(c, p, Take(1));
    p := p + [Take(1)];
    assert After(c, p) == s2;
    RunSnoc(c, p, Acquire(1));
    p := p + [Acquire(1)];
    assert After(c, p) == s3;
    RunSnoc(c, p, Send(1));
    p := p + [Send(1)];
    assert After(c, p) == s4 by {
      assert s.workers[1 := Holding(m)][1 := Idle] == s.workers;
    }
    RunSnoc(c, p, Receive);
    more := p + [Receive];
    assert After(c, more) == s5;
    assert Between(1, m + 1) == s.pending + {m};
    TotalGrows(c, 1, m);
  }

  lemma {:induction false} TotalGrows(c: Config, m: nat, n: nat)
    requires m <= n <= |c.sizes|
    ensures TotalBytes(c, m) <= TotalBytes(c, n)
  {
    if m < n {
      TotalGrows(c, m, n - 1);
    }
  }

  lemma ReachDoomed(c: Config, steps: seq<Step>, m: nat) returns (more: seq<Step>)
    requires c.Valid() && 2 <= c.workers && 1 <= m <= |c.sizes| && TotalBytes(c, |c.sizes|) > c.capacity
    requires forall b :: 0 <= b < |c.sizes| ==> c.sizes[b] <= c.sizes[0]
    requires IsRun(c, steps) && After(c, steps) == LeadState(c, m)
    ensures IsRun(c, more) && Doomed(c, After(c, more))
    decreases |c.sizes| - m
  {
    TotalGrows(c, 1, m);
    assert TotalBytes(c, 1) == TotalBytes(c, 0) + c.sizes[0] == c.sizes[0];
    if LeadState(c, m).used + c.sizes[0] > c.capacity {
      more := steps;
    } else {
      more := LeadNext(c, steps, m);
      more := ReachDoomed(c, more, m + 1);
    }
  }

  /**
   Deadlock is possible just when there are two or more I/O workers and the batches together
   need more bytes than the budget; otherwise every run that cannot continue has delivered all.
   */
  lemma DeadlockIff(c: Config)
    requires c.Valid() && 0 < |c.sizes|
    requires forall b :: 0 <= b < |c.sizes| ==> c.sizes[b] <= c.sizes[0]
    ensures (exists steps :: RunsStuck(c, steps)) <==> (2 <= c.workers && TotalBytes(c, |c.sizes|) > c.capacity)
  {
    hide IsRun, After, Inv, LastTaken, Stuck, TotalBytes;
    if 2 <= c.workers && TotalBytes(c, |c.sizes|) > c.capacity {
      var first := LeadFirst(c);
      var doomed := ReachDoomed(c, first, 1);
      var all := DoomedSticks(c, doomed);
      assert RunsStuck(c, all);
    } else {
      forall steps | IsRun(c, steps)
        ensures !RunsStuck(c, steps)
      {
        RunNotStuck(c, steps);
      }
    }
  }

  ghost predicate RunsStuck(c: Config, steps: seq<Step>) {
    IsRun(c, steps) && Stuck(c, After(c, steps))
  }

  lemma RunNotStuck(c: Config, steps: seq<Step>)
    requires c.Valid() && IsRun(c, steps)
    requires c.workers == 1 || TotalBytes(c, |c.sizes|) <= c.capacity
    ensures !Stuck(c, After(c, steps))
  {
    hide IsRun, After, Inv, LastTaken;
    RunInv(c, steps);
    RunLastTaken(c, steps);
    if After(c, steps).done < |c.sizes| {
      var step := CanMove(c, After(c, steps));
    }
  }

  // ----- the batches of one call -------------------------------------------------------------------------------

  function Quot(n: nat, d: nat): (q: nat)
    requires 0 < d
  {
    n / d
  }

  /** The sizing of `for_each_pipelined_point_batch`. */
  datatype Sizing = Sizing(dim: nat, batchPoints: nat, ioThreads: nat, queueDepth: nat, budgetBytes: nat) {
    function RowBytes(): (r: nat)
      ensures 0 < r
    {
      MaxNat(4 * dim, 1)
    }

    function Threads(): (r: nat)
      ensures 0 < r
    {
      MaxNat(ioThreads, 1)
    }

    function Budget(): nat {
      MaxNat(budgetBytes, RowBytes() * Threads())
    }

    /** `effective_batch_points` */
    function BatchRows(): (r: nat)
      ensures 0 < r
    {
      MinNat(MaxNat(batchPoints, 1), MaxNat(Quot(Quot(Budget(), RowBytes()), Threads()), 1))
    }

    function BatchBytes(rows: nat): nat {
      MaxNat(4 * (rows * dim), 1)
    }
  }

  /** `ids.chunks(rows)` */
  function Chunks(ids: seq<nat>, rows: nat): (r: seq<seq<nat>>)
    requires 0 < rows
    ensures ids != [] ==> r != []
    ensures forall i :: 0 <= i < |r| ==> 0 < |r[i]| <= |r[0]| <= rows
    ensures forall i :: 0 <= i < |r| - 1 ==> |r[i]| == rows
    ensures Concat(r) == ids
    decreases |ids|
  {
    if ids == [] then []
    else if |ids| <= rows then
      assert Concat([ids]) == Concat([]) + ids;
      [ids]
    else
      var rest := Chunks(ids[rows..], rows);
      ConcatCons(ids[..rows], rest);
      assert ids == ids[..rows] + ids[rows..];
      [ids[..rows]] + rest
  }

  function Concat(r: seq<seq<nat>>): seq<nat> {
    if r == [] then [] else Concat(r[..|r| - 1]) + r[|r| - 1]
  }

  lemma {:induction false} ConcatCons(x: seq<nat>, r: seq<seq<nat>>)
    ensures Concat([x] + r) == x + Concat(r)
  {
    if r == [] {
      assert [x] + r == [x];
      assert Concat([x]) == Concat([]) + x;
    } else {
      ConcatCons(x, r[..|r| - 1]);
      assert ([x] + r)[..|r|] == [x] + r[..|r| - 1];
    }
  }

  function CallConfig(z: Sizing, ids: seq<nat>): Config {
    var chunks := Chunks(ids, z.BatchRows());
    Config(z.Threads(), MaxNat(z.queueDepth, 1), MaxNat(z.Budget(), 1),
           seq(|chunks|, i requires 0 <= i < |chunks| => z.BatchBytes(|chunks[i]|)))
  }

  /** No batch is ever over budget on its own: even one per thread fits, and the first is the largest. */
  lemma CallFits(z: Sizing, ids: seq<nat>)
    ensures CallConfig(z, ids).Valid()
    ensures forall b :: 0 <= b < |CallConfig(z, ids).sizes| ==>
              && CallConfig(z, ids).sizes[b] <= CallConfig(z, ids).sizes[0]
              && z.Threads() * CallConfig(z, ids).sizes[b] <= CallConfig(z, ids).capacity
  {
    var c, chunks := CallConfig(z, ids), Chunks(ids, z.BatchRows());
    forall b | 0 <= b < |c.sizes|
      ensures 0 < c.sizes[b] <= c.sizes[0]
      ensures z.Threads() * c.sizes[b] <= c.capacity && c.sizes[b] <= c.capacity
    {
      BatchFits(z, |chunks[b]|);
      MulMono(|chunks[b]|, |chunks[0]|, z.dim);
    }
  }

  /** In numbers: the largest batch that the request allows and that fits the budget once per thread. */
  lemma BatchRowsIs(z: Sizing)
    ensures var row := if z.dim == 0 then 1 else 4 * z.dim; var io := if z.ioThreads < 1 then 1 else z.ioThreads;
            var budget := if z.budgetBytes < row * io then row * io else z.budgetBytes;
            var asked := if z.batchPoints < 1 then 1 else z.batchPoints; var rows := z.BatchRows();
            && 1 <= rows <= asked && rows * (row * io) <= budget
            && (rows == asked || budget < (rows + 1) * (row * io))
  {
    var row, io, budget := z.RowBytes(), z.Threads(), z.Budget();
    QuotQuot(budget, row, io);
    QuotMost(budget, row, io);
    var q, rows := Quot(Quot(budget, row), io), z.BatchRows();
    hide Quot;
    MulMono(rows, MaxNat(q, 1), row * io);
  }

  lemma QuotMost(n: nat, a: nat, b: nat)
    requires 0 < a && 0 < b
    ensures n < (Quot(Quot(n, a), b) + 1) * (a * b)
  {
    var q := Quot(n, a);
    var r := Quot(q, b);
    QuotNext(n, a);
    QuotNext(q, b);
    hide Quot;
    MulMono(q + 1, (r + 1) * b, a);
    assert (r + 1) * b * a == (r + 1) * (a * b) by {
      Assoc(r + 1, b, a);
    }
  }

  lemma QuotNext(n: nat, d: nat)
    requires 0 < d
    ensures n < (Quot(n, d) + 1) * d
  {
  }

  /** What a call's machine is, in numbers. */
  lemma CallIs(z: Sizing, ids: seq<nat>)
    ensures var c, chunks := CallConfig(z, ids), Chunks(ids, z.BatchRows());
            && c.workers == (if z.ioThreads < 1 then 1 else z.ioThreads)
            && c.depth == (if z.queueDepth < 1 then 1 else z.queueDepth)
            && |c.sizes| == |chunks|
            && forall b :: 0 <= b < |chunks| ==> c.sizes[b] == if |chunks[b]| * z.dim == 0 then 1 else 4 * (|chunks[b]| * z.dim)
    ensures var row := if z.dim == 0 then 1 else 4 * z.dim; var io := if z.ioThreads < 1 then 1 else z.ioThreads;
            CallConfig(z, ids).capacity == if z.budgetBytes < row * io then row * io else z.budgetBytes
  {
    var row, io := z.RowBytes(), z.Threads();
    MulMono(1, row, io);
  }

  lemma BatchFits(z: Sizing, rows: nat)
    requires rows <= z.BatchRows()
    ensures z.Threads() * z.BatchBytes(rows) <= z.Budget()
    ensures z.BatchBytes(rows) <= z.Budget()
  {
    var row, io, budget := z.RowBytes(), z.Threads(), z.Budget();
    QuotQuot(budget, row, io);
    var q := Quot(Quot(budget, row), io);
    hide Quot;
    var most := MaxNat(q, 1);
    assert most * (row * io) <= budget;
    RowsFit(rows, most, z.dim, row);
    ThreadsFit(z.BatchBytes(rows), most * row, io);
    assert most * row * io == most * (row * io) by {
      Assoc(most, row, io);
    }
  }

  lemma Assoc(a: nat, b: nat, c: nat)
    ensures a * b * c == a * (b * c)
  {
  }

  lemma RowsFit(rows: nat, most: nat, dim: nat, row: nat)
    requires rows <= most && 1 <= most && row == MaxNat(4 * dim, 1)
    ensures MaxNat(4 * (rows * dim), 1) <= most * row
  {
    MulMono(rows, most, dim);
    Assoc(4, most, dim);
    MulMono(4 * dim, row, most);
    MulMono(1, most, row);
  }

  lemma ThreadsFit(bytes: nat, most: nat, io: nat)
    requires bytes <= most && 1 <= io
    ensures io * bytes <= most * io && bytes <= most * io
  {
    MulMono(bytes, most, io);
    MulMono(1, io, bytes);
  }

  lemma QuotQuot(n: nat, a: nat, b: nat)
    requires 0 < a && 0 < b
    ensures Quot(Quot(n, a), b) * (a * b) <= n
  {
    var q := Quot(n, a);
    var r := Quot(q, b);
    QuotTimes(n, a);
    QuotTimes(q, b);
    hide Quot;
    MulMono(r * b, q, a);
    Assoc(r, b, a);
  }

  lemma QuotTimes(n: nat, d: nat)
    requires 0 < d
    ensures Quot(n, d) * d <= n
  {
  }

  /** What the caller has received after a run: the concatenation of the first chunks, a prefix of the ids. */
  lemma DeliveredPrefix(z: Sizing, ids: seq<nat>, steps: seq<Step>)
    requires IsRun(CallConfig(z, ids), steps)
    ensures var done := After(CallConfig(z, ids), steps).done;
            var chunks := Chunks(ids, z.BatchRows());
            done <= |chunks| && Concat(chunks[..done]) <= ids && (done == |chunks| ==> Concat(chunks[..done]) == ids)
  {
    var c, chunks := CallConfig(z, ids), Chunks(ids, z.BatchRows());
    CallFits(z, ids);
    RunInv(c, steps);
    assert chunks[..|chunks|] == chunks;
    ConcatPrefix(chunks, After(c, steps).done);
  }

  lemma {:induction false} ConcatPrefix(r: seq<seq<nat>>, n: nat)
    requires n <= |r|
    ensures Concat(r[..n]) <= Concat(r)
  {
    if n == |r| {
      assert r[..n] == r;
    } else {
      ConcatPrefix(r[..|r| - 1], n);
      assert r[..|r| - 1][..n] == r[..n];
    }
  }

  /** The exact condition for one call, in terms of what the caller passes. */
  lemma CallDeadlockIff(z: Sizing, ids: seq<nat>)
    requires ids != []
    ensures var c := CallConfig(z, ids);
            (exists steps :: RunsStuck(c, steps)) <==> (2 <= z.ioThreads && TotalBytes(c, |c.sizes|) > c.capacity)
  {
    CallFits(z, ids);
    DeadlockIff(CallConfig(z, ids));
  }
}
