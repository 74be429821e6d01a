/**
 Two budgets kept in atomics: worker slots (`reserve_workers`, which takes what is left and
 records a peak) and temporary bytes (`try_reserve_temp`, all or nothing). A reservation loads
 the counter, decides on the value it read, and tries a weak compare-exchange, which fails when
 the counter has moved and may fail spuriously. Every load and every exchange is one step, and
 any threads' steps may come between them.
 */
module CasBudget {
  import opened Basics

  datatype Policy = Workers(budget: nat) | Temp(budget: nat)

  /**
   Where a thread is; `amount` is its request, `seen` the counter value it decides on and, once
   granted, the value the grant was added to.
   */
  datatype Phase =
    | Idle
    | Wanting(amount: nat)
    | Loaded(amount: nat, seen: nat)
    | Raising(amount: nat, seen: nat, grant: nat)
    | Comparing(amount: nat, seen: nat, grant: nat, current: nat)
    | Holding(amount: nat, seen: nat, grant: nat)
    | Alone
    | AloneComparing(current: nat)

  /**
   `peak` is the recorded peak; `high` is the most workers there ever were: the highest value of the
   counter, or 1 for a work-graph run, which uses one worker without reserving it.
   */
  datatype State = State(reserved: nat, peak: nat, high: nat, threads: seq<Phase>)

  datatype Step =
    | Request(t: nat, amount: nat)
    | Load(t: nat)
    | Exchange(t: nat)
    | ExchangeFails(t: nat)
    | GiveUp(t: nat)
    | PeakLoad(t: nat)
    | PeakExchange(t: nat)
    | PeakExchangeFails(t: nat)
    | PeakStands(t: nat)
    | Release(t: nat)
    | StartAlone(t: nat)

  /** What a thread asks for. */
  function Asked(p: Policy, amount: nat): nat {
    match p
    case Workers(budget) => MinNat(MaxNat(amount, 1), MaxNat(budget, 1))
    case Temp(_) => amount
  }

  /** The reservation goes ahead on the value read. */
  predicate Affordable(p: Policy, amount: nat, seen: nat) {
    match p
    case Workers(budget) => seen < budget
    case Temp(budget) => seen + amount <= budget
  }

  function Grant(p: Policy, amount: nat, seen: nat): nat
    requires Affordable(p, amount, seen)
  {
    match p
    case Workers(budget) => MaxNat(MinNat(Asked(p, amount), budget - seen), 1)
    case Temp(_) => amount
  }

  predicate Compares(ph: Phase) {
    ph.Comparing? || ph.AloneComparing?
  }

  /** What the thread is recording in the peak. */
  function Value(ph: Phase): nat {
    if ph.Raising? || ph.Comparing? then ph.seen + ph.grant else 1
  }

  ghost predicate Enabled(p: Policy, s: State, step: Step) {
    && step.t < |s.threads|
    && var ph := s.threads[step.t];
       match step
       case Request(_, _) => ph.Idle?
       case Load(_) => ph.Wanting?
       case Exchange(_) => ph.Loaded? && Affordable(p, ph.amount, ph.seen) && s.reserved == ph.seen
       case ExchangeFails(_) => ph.Loaded? && Affordable(p, ph.amount, ph.seen)
       case GiveUp(_) => ph.Loaded? && !Affordable(p, ph.amount, ph.seen)
       case PeakLoad(_) => ph.Raising? || ph.Alone?
       case PeakExchange(_) => Compares(ph) && Value(ph) > ph.current && s.peak == ph.current
       case PeakExchangeFails(_) => Compares(ph) && Value(ph) > ph.current
       case PeakStands(_) => Compares(ph) && Value(ph) <= ph.current
       case Release(_) => ph.Holding? && ph.grant <= s.reserved
       case StartAlone(_) => ph.Idle? && p.Workers?
  }

  function Compare(ph: Phase, peak: nat): Phase {
    if ph.Raising? || ph.Comparing? then Comparing(ph.amount, ph.seen, ph.grant, peak) else AloneComparing(peak)
  }

  function Recorded(ph: Phase): Phase {
    if ph.Raising? || ph.Comparing? then Holding(ph.amount, ph.seen, ph.grant) else Idle
  }

  /** The stepping thread's next phase. */
  ghost function NextPhase(p: Policy, s: State, step: Step): Phase
    requires Enabled(p, s, step)
  {
    var ph := s.threads[step.t];
    match step
    case Request(_, amount) => if p.Temp? && amount == 0 then Holding(0, 0, 0) else Wanting(amount)
    case Load(_) => Loaded(ph.amount, s.reserved)
    case Exchange(_) =>
      var grant := Grant(p, ph.amount, ph.seen);
      if p.Workers? then Raising(ph.amount, ph.seen, grant) else Holding(ph.amount, ph.seen, grant)
    case ExchangeFails(_) => if p.Workers? then Wanting(ph.amount) else Loaded(ph.amount, s.reserved)
    case GiveUp(_) => if p.Workers? then Wanting(ph.amount) else Idle
    case PeakLoad(_) => Compare(ph, s.peak)
    case PeakExchange(_) => Recorded(ph)
    case PeakExchangeFails(_) => Compare(ph, s.peak)
    case PeakStands(_) => Recorded(ph)
    case Release(_) => Idle
    case StartAlone(_) => Alone
  }

  ghost function NextReserved(p: Policy, s: State, step: Step): nat
    requires Enabled(p, s, step)
  {
    var ph := s.threads[step.t];
    match step
    case Exchange(_) => s.reserved + Grant(p, ph.amount, ph.seen)
    case Release(_) => s.reserved - ph.grant
    case _ => s.reserved
  }

  ghost function Apply(p: Policy, s: State, step: Step): State
    requires Enabled(p, s, step)
  {
    var reserved := NextReserved(p, s, step);
    State(reserved,
          if step.PeakExchange? then Value(s.threads[step.t]) else s.peak,
          MaxNat(s.high, if step.StartAlone? then MaxNat(reserved, 1) else reserved),
          s.threads[step.t := NextPhase(p, s, step)])
  }

  ghost function Init(threads: nat): State {
    State(0, 0, 0, seq(threads, _ => Idle))
  }

  // ----- the invariant -------------------------------------------------------------------------------------

  /** What a thread has taken from the counter. */
  ghost function Taken(ph: Phase): nat {
    match ph
    case Raising(_, _, grant) => grant
    case Comparing(_, _, grant, _) => grant
    case Holding(_, _, grant) => grant
    case _ => 0
  }

  ghost function Total(threads: seq<Phase>): nat {
    if threads == [] then 0 else Total(threads[..|threads| - 1]) + Taken(threads[|threads| - 1])
  }

  lemma {:induction false} TotalUpdate(threads: seq<Phase>, t: nat, ph: Phase)
    requires t < |threads|
    ensures Total(threads[t := ph]) + Taken(threads[t]) == Total(threads) + Taken(ph)
    ensures Taken(threads[t]) <= Total(threads)
  {
    hide Taken;
    var front := threads[..|threads| - 1];
    if t == |threads| - 1 {
      assert threads[t := ph][..|threads| - 1] == front;
    } else {
      TotalUpdate(front, t, ph);
      assert threads[t := ph][..|threads| - 1] == front[t := ph];
    }
  }

  /**
   A grant fits what was left of the budget. Workers get at least one and at most what was requested
   (or one), and either all of that or all that was left; temp bytes are granted in full.
   */
  ghost predicate FairGrant(p: Policy, amount: nat, seen: nat, grant: nat) {
    && seen + grant <= p.budget
    && match p
       case Workers(budget) =>
         var asked := if amount < 1 then 1 else amount;
         1 <= grant <= asked && (grant == asked || seen + grant == budget)
       case Temp(_) => grant == amount
  }

  lemma GrantFair(p: Policy, amount: nat, seen: nat)
    requires Affordable(p, amount, seen)
    ensures FairGrant(p, amount, seen, Grant(p, amount, seen))
  {
  }

  /**
   A request that nobody interferes with is served exactly when there is room, one free slot for
   workers and the whole amount for temp bytes, and the counter then grows by a fair grant.
   */
  lemma Undisturbed(p: Policy, s: State, t: nat)
    requires t < |s.threads| && s.threads[t].Wanting?
    ensures var amount, room := s.threads[t].amount, SubSat(p.budget, s.reserved);
            var served := if p.Workers? then 1 <= room else s.reserved + amount <= p.budget;
            && Enabled(p, s, Load(t))
            && var s1 := Apply(p, s, Load(t));
            && (Enabled(p, s1, Exchange(t)) <==> served) && (Enabled(p, s1, GiveUp(t)) <==> !served)
            && (served ==> var s2 := Apply(p, s1, Exchange(t)); FairGrant(p, amount, s.reserved, s2.reserved - s.reserved))
  {
    var amount := s.threads[t].amount;
    if Affordable(p, amount, s.reserved) {
      GrantFair(p, amount, s.reserved);
    }
  }

  ghost predicate PhaseOk(p: Policy, s: State, ph: Phase) {
    match ph
    case Idle => true
    case Wanting(_) => true
    case Loaded(_, seen) => seen <= s.high
    case Raising(amount, seen, grant) => FairGrant(p, amount, seen, grant) && seen + grant <= s.high
    case Comparing(amount, seen, grant, current) => FairGrant(p, amount, seen, grant) && seen + grant <= s.high && current <= s.peak
    case Holding(amount, seen, grant) => FairGrant(p, amount, seen, grant)
    case Alone => p.Workers? && 1 <= s.high
    case AloneComparing(current) => p.Workers? && 1 <= s.high && current <= s.peak
  }

  /** A thread that still has to record `value`. */
  ghost predicate Recording(ph: Phase, value: nat) {
    (ph.Raising? || ph.Alone? || Compares(ph)) && Value(ph) == value
  }

  ghost predicate HighPending(s: State) {
    exists t :: 0 <= t < |s.threads| && Recording(s.threads[t], s.high)
  }

  /** The highest value is recorded, or somebody is about to record it. */
  ghost predicate HighKnown(p: Policy, s: State) {
    p.Workers? ==> s.high <= s.peak || HighPending(s)
  }

  /** A work-graph run is one worker even of an empty budget. */
  function MostWorkers(p: Policy): nat {
    if p.Workers? then MaxNat(p.budget, 1) else p.budget
  }

  ghost predicate Counted(p: Policy, s: State) {
    && s.reserved == Total(s.threads) <= p.budget
    && s.reserved <= s.high <= MostWorkers(p)
    && s.peak <= s.high
  }

  ghost predicate AllOk(p: Policy, s: State) {
    forall t :: 0 <= t < |s.threads| ==> PhaseOk(p, s, s.threads[t])
  }

  ghost predicate Inv(p: Policy, s: State) {
    Counted(p, s) && AllOk(p, s) && HighKnown(p, s)
  }

  lemma StepCounts(p: Policy, s: State, step: Step)
    requires Inv(p, s) && Enabled(p, s, step)
    ensures Counted(p, Apply(p, s, step))
  {
    hide Total, HighKnown;
    assert PhaseOk(p, s, s.threads[step.t]);
    if step.Exchange? {
      GrantFair(p, s.threads[step.t].amount, s.threads[step.t].seen);
    }
    TotalUpdate(s.threads, step.t, NextPhase(p, s, step));
  }

  lemma PhaseMoves(p: Policy, s: State, step: Step)
    requires Inv(p, s) && Enabled(p, s, step)
    ensures PhaseOk(p, Apply(p, s, step), NextPhase(p, s, step))
  {
    hide Total, HighKnown;
    assert PhaseOk(p, s, s.threads[step.t]);
    if step.Exchange? {
      GrantFair(p, s.threads[step.t].amount, s.threads[step.t].seen);
    }
  }

  lemma PeakGrows(p: Policy, s: State, step: Step)
    requires Enabled(p, s, step)
    ensures s.peak <= Apply(p, s, step).peak && s.high <= Apply(p, s, step).high
  {
  }

  lemma StepOk(p: Policy, s: State, step: Step)
    requires Inv(p, s) && Enabled(p, s, step)
    ensures AllOk(p, Apply(p, s, step))
  {
    var s' := Apply(p, s, step);
    PhaseMoves(p, s, step);
    PeakGrows(p, s, step);
    forall t | 0 <= t < |s'.threads|
      ensures PhaseOk(p, s', s'.threads[t])
    {
      if t != step.t {
        assert PhaseOk(p, s, s.threads[t]);
      }
    }
  }

  lemma StepHigh(p: Policy, s: State, step: Step)
    requires Inv(p, s) && Enabled(p, s, step) && p.Workers?
    ensures HighKnown(p, Apply(p, s, step))
  {
    hide Total;
    var s', t := Apply(p, s, step), step.t;
    PeakGrows(p, s, step);
    assert PhaseOk(p, s, s.threads[t]);
    if s.high < s'.high {
      assert step.Exchange? || step.StartAlone?;
      assert Recording(s'.threads[t], s'.high);
    } else if s.high > s.peak {
      assert HighPending(s);
      var u :| 0 <= u < |s.threads| && Recording(s.threads[u], s.high);
      if u == t {
        assert Recording(s'.threads[t], s'.high) || s'.high <= s'.peak;
      } else {
        assert s'.threads[u] == s.threads[u];
        assert Recording(s'.threads[u], s'.high);
      }
    }
  }

  lemma StepKeeps(p: Policy, s: State, step: Step)
    requires Inv(p, s) && Enabled(p, s, step)
    ensures Inv(p, Apply(p, s, step))
  {
    StepCounts(p, s, step);
    StepOk(p, s, step);
    if p.Workers? {
      StepHigh(p, s, step);
    }
    hide Counted, AllOk, Apply;
  }

  // ----- runs ----------------------------------------------------------------------------------------------

  ghost function After(p: Policy, threads: nat, steps: seq<Step>): State {
    if steps == [] then Init(threads)
    else
      var s := After(p, threads, steps[..|steps| - 1]);
      if Enabled(p, s, steps[|steps| - 1]) then Apply(p, s, steps[|steps| - 1]) else s
  }

  lemma {:induction false} NothingTaken(threads: seq<Phase>)
    requires forall t :: 0 <= t < |threads| ==> threads[t].Idle?
    ensures Total(threads) == 0
  {
    if threads != [] {
      NothingTaken(threads[..|threads| - 1]);
    }
  }

  lemma {:induction false} RunInv(p: Policy, threads: nat, steps: seq<Step>)
    ensures Inv(p, After(p, threads, steps))
  {
    if steps == [] {
      NothingTaken(Init(threads).threads);
    } else {
      hide Inv, Apply, Enabled;
      RunInv(p, threads, steps[..|steps| - 1]);
      var s := After(p, threads, steps[..|steps| - 1]);
      if Enabled(p, s, steps[|steps| - 1]) {
        StepKeeps(p, s, steps[|steps| - 1]);
      }
    }
  }

  /**
   In every interleaving the counter is the sum of the live reservations and never exceeds the
   budget, every grant is fair, and the recorded peak never exceeds the true one, which is at most
   the budget (or the one worker of a work-graph run).
   */
  lemma BudgetHeld(p: Policy, threads: nat, steps: seq<Step>)
    ensures var s := After(p, threads, steps);
            && s.reserved == Total(s.threads) <= p.budget
            && s.peak <= s.high <= MostWorkers(p)
            && forall t :: 0 <= t < |s.threads| && s.threads[t].Holding? ==> FairGrant(p, s.threads[t].amount, s.threads[t].seen, s.threads[t].grant)
  {
    RunInv(p, threads, steps);
    var s := After(p, threads, steps);
    forall t | 0 <= t < |s.threads| && s.threads[t].Holding?
      ensures FairGrant(p, s.threads[t].amount, s.threads[t].seen, s.threads[t].grant)
    {
      assert PhaseOk(p, s, s.threads[t]);
    }
  }

  /** Whenever no thread is in the middle of recording, the recorded peak is exact. */
  lemma PeakExact(p: Policy, threads: nat, steps: seq<Step>)
    requires p.Workers?
    requires var s := After(p, threads, steps);
             forall t :: 0 <= t < |s.threads| ==> s.threads[t].Idle? || s.threads[t].Wanting? || s.threads[t].Loaded? || s.threads[t].Holding?
    ensures After(p, threads, steps).peak == After(p, threads, steps).high
  {
    RunInv(p, threads, steps);
    var s := After(p, threads, steps);
    assert !HighPending(s);
  }

  ghost predicate Quiet(s: State) {
    forall t :: 0 <= t < |s.threads| ==> s.threads[t].Idle?
  }

  /** When every reservation has been released the counter is back at zero: nothing leaks. */
  lemma NothingLeaks(p: Policy, threads: nat, steps: seq<Step>)
    requires Quiet(After(p, threads, steps))
    ensures After(p, threads, steps).reserved == 0
  {
    RunInv(p, threads, steps);
    NothingTaken(After(p, threads, steps).threads);
  }

  /** A holder can always release: its share is in the counter. */
  lemma CanRelease(p: Policy, threads: nat, steps: seq<Step>, t: nat)
    requires t < |After(p, threads, steps).threads| && After(p, threads, steps).threads[t].Holding?
    ensures Enabled(p, After(p, threads, steps), Release(t))
  {
    RunInv(p, threads, steps);
    TotalUpdate(After(p, threads, steps).threads, t, Idle);
  }
}
