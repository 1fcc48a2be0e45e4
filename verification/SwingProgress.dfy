/** No push is stuck on the swing path by itself: with the other threads at rest, a thread takes its
    tick through the registry, the lock and both candles in a bounded number of steps. */
module SwingProgress {
  import opened Market
  import opened SwingPath
  import opened Wrappers
  import R = RegistryProtocol

  /** No other thread is at work. */
  predicate Alone(s: State, t: nat) {
    t < |s.workers| && forall u :: 0 <= u < |s.workers| && u != t ==> s.workers[u].Resting?
  }

  function Due(s: State, t: nat): Step
    requires WellFormed(s) && t < |s.workers| && !s.workers[t].Resting?
  {
    match s.workers[t]
    case Looking(_) => InRegistry(t, R.Due(s.registry, t))
    case AtLock(_, _) => Lock(t)
    case AtQuarter(_, _) => Quarter(t)
    case AtHour(_, _) => Hour(t)
    case AtUnlock(_, _) => Unlock(t)
  }

  function Remaining(s: State, t: nat): nat
    requires WellFormed(s) && t < |s.workers|
  {
    match s.workers[t]
    case Resting => 0
    case Looking(_) => 4 + R.Remaining(s.registry, t)
    case AtLock(_, _) => 4
    case AtQuarter(_, _) => 3
    case AtHour(_, _) => 2
    case AtUnlock(_, _) => 1
  }

  lemma OthersOutside(s: State, t: nat)
    requires WellFormed(s) && Alone(s, t)
    ensures forall u :: 0 <= u < |s.workers| && u != t ==> s.registry.callers[u].Outside?
  {
    forall u | 0 <= u < |s.workers| && u != t ensures s.registry.callers[u].Outside? {
      assert Agrees(s.workers[u], s.registry.callers[u]);
    }
  }

  lemma NobodyHinders(r: R.State, t: nat)
    requires R.LockInv(r) && t < |r.callers|
    requires forall u :: 0 <= u < |r.callers| && u != t ==> r.callers[u].Outside?
    ensures R.Unhindered(r, t)
  {
    if r.writer.Some? {
      assert r.writer == Some(r.writer.value);
    }
  }

  lemma MutexIsFree(s: State, t: nat)
    requires MutexInv(s) && Alone(s, t) && s.workers[t].AtLock?
    ensures s.workers[t].slot !in s.mutexes
  {
    forall i: nat | i in s.mutexes
      ensures s.mutexes[i] < |s.workers| && s.workers[s.mutexes[i]].Holds(i)
    {
      HolderInside(s, i);
    }
  }

  lemma DueIsEnabled(s: State, t: nat)
    requires ControlInv(s) && Alone(s, t) && !s.workers[t].Resting?
    ensures Enabled(s, Due(s, t))
    ensures s.workers[t].Looking? ==>
               R.Remaining(R.Apply(s.registry, R.Due(s.registry, t)), t) < R.Remaining(s.registry, t)
  {
    if s.workers[t].Looking? {
      assert Agrees(s.workers[t], s.registry.callers[t]);
      OthersOutside(s, t);
      NobodyHinders(s.registry, t);
      R.DueStep(s.registry, t);
    } else if s.workers[t].AtLock? {
      MutexIsFree(s, t);
    }
  }

  /** The tick ends up in its state, or dropped; once it is in the state nothing is left to do. */
  predicate Passed(s: State, s': State, tick: Tick) {
    || (s'.taken == s.taken + [tick] && s'.dropped == s.dropped)
    || (s'.taken == s.taken && s'.dropped == s.dropped + [tick])
  }

  predicate Advances(s: State, s': State, t: nat, tick: Tick)
    requires WellFormed(s) && WellFormed(s') && t < |s.workers| == |s'.workers|
  {
    && Alone(s', t) && Remaining(s', t) < Remaining(s, t) && s'.pushed == s.pushed
    && (!s'.workers[t].Resting? ==> s'.workers[t].tick == tick)
    && (if s.workers[t].AtUnlock? then s'.workers[t].Resting? && s'.taken == s.taken && s'.dropped == s.dropped
        else if s'.workers[t].Resting? || s'.workers[t].AtUnlock? then Passed(s, s', tick)
        else s'.taken == s.taken && s'.dropped == s.dropped)
  }

  lemma DueAdvances(s: State, t: nat, tick: Tick)
    requires WellFormed(s) && Alone(s, t) && !s.workers[t].Resting? && s.workers[t].tick == tick
    requires Enabled(s, Due(s, t))
    requires s.workers[t].Looking? ==>
               R.Remaining(R.Apply(s.registry, R.Due(s.registry, t)), t) < R.Remaining(s.registry, t)
    ensures Advances(s, Apply(s, Due(s, t)), t, tick)
  {
  }

  /** The thread's next step takes it from `s` to `s'`. */
  ghost predicate Takes(s: State, step: Step, s': State, t: nat) {
    step.t == t && WellFormed(s) && Enabled(s, step) && s' == Apply(s, step)
  }

  lemma DueStep(s: State, t: nat, tick: Tick) returns (step: Step, s': State)
    requires Inv(s) && Alone(s, t) && !s.workers[t].Resting? && s.workers[t].tick == tick
    ensures Takes(s, step, s', t) && Inv(s') && |s'.workers| == |s.workers| && Advances(s, s', t, tick)
  {
    step, s' := Due(s, t), s;
    DueIsEnabled(s, t);
    s' := Apply(s, step);
    StepInv(s, step);
    DueAdvances(s, t, tick);
  }

  /** What a thread that was at work leaves behind. */
  predicate Finished(s: State, end: State, t: nat, tick: Tick)
    requires t < |s.workers|
  {
    && Quiet(end) && end.pushed == s.pushed
    && (if s.workers[t].AtUnlock? then end.taken == s.taken && end.dropped == s.dropped else Passed(s, end, tick))
  }

  lemma FinishedLater(s: State, s': State, end: State, t: nat, tick: Tick)
    requires WellFormed(s) && WellFormed(s') && t < |s.workers| == |s'.workers| && Advances(s, s', t, tick)
    requires if s'.workers[t].Resting? then end == s' else Finished(s', end, t, tick)
    ensures Finished(s, end, t, tick)
  {
  }

  lemma RunCons(s: State, step: Step, s': State, t: nat, rest: seq<Step>)
    requires Takes(s, step, s', t) && IsRun(s', rest) && forall k :: 0 <= k < |rest| ==> rest[k].t == t
    ensures IsRun(s, [step] + rest) && Run(s, [step] + rest) == Run(s', rest)
    ensures forall k :: 0 <= k < |[step] + rest| ==> ([step] + rest)[k].t == t
  {
    assert ([step] + rest)[1..] == rest;
  }

  /** A thread at work, with the others at rest, comes to rest. */
  lemma {:induction false} Finishes(s: State, t: nat, tick: Tick) returns (steps: seq<Step>)
    requires Inv(s) && Alone(s, t) && !s.workers[t].Resting? && s.workers[t].tick == tick
    ensures IsRun(s, steps) && |steps| <= Remaining(s, t) && (forall k :: 0 <= k < |steps| ==> steps[k].t == t)
    ensures Finished(s, Run(s, steps), t, tick)
    decreases Remaining(s, t)
  {
    var step, s' := DueStep(s, t, tick);
    var rest := [];
    if !s'.workers[t].Resting? {
      rest := Finishes(s', t, tick);
    }
    steps := [step] + rest;
    RunCons(s, step, s', t, rest);
    FinishedLater(s, s', Run(s', rest), t, tick);
  }

  lemma PushStarts(s: State, t: nat, tick: Tick)
    requires WellFormed(s) && Quiet(s) && t < |s.workers|
    ensures Enabled(s, Push(t, tick))
    ensures var s' := Apply(s, Push(t, tick));
            && Alone(s', t) && s'.workers[t] == Looking(tick) && Remaining(s', t) == 18
            && s'.pushed == s.pushed + [tick] && s'.taken == s.taken && s'.dropped == s.dropped
  {
  }

  lemma WhereItIs(s: State, end: State, tick: Tick)
    requires Inv(end) && Passed(s, end, tick)
    ensures if tick.ticker in end.registry.registry then end.taken == s.taken + [tick] && end.dropped == s.dropped
            else end.taken == s.taken && end.dropped == s.dropped + [tick]
  {
    DroppedMeansRefused(end);
    ProjectsOwn(end.taken, tick.ticker);
    assert TickerInv(end, tick.ticker);
    assert (s.taken + [tick])[|s.taken|] == tick && (s.dropped + [tick])[|s.dropped|] == tick;
  }

  /** A push with every thread at rest: at most nineteen steps of its own thread bring it to rest,
      with the tick taken in by its ticker's state, or dropped because there is none. */
  lemma PushFinishes(s: State, t: nat, tick: Tick) returns (steps: seq<Step>)
    requires Inv(s) && Quiet(s) && t < |s.workers|
    ensures IsRun(s, steps) && |steps| <= 19 && (forall k :: 0 <= k < |steps| ==> steps[k].t == t)
    ensures var end := Run(s, steps);
            && Quiet(end) && end.pushed == s.pushed + [tick]
            && (if tick.ticker in end.registry.registry then end.taken == s.taken + [tick] && end.dropped == s.dropped
                else end.taken == s.taken && end.dropped == s.dropped + [tick])
  {
    PushStarts(s, t, tick);
    StepInv(s, Push(t, tick));
    var rest := Finishes(Apply(s, Push(t, tick)), t, tick);
    RunInv(Apply(s, Push(t, tick)), rest);
    steps := [Push(t, tick)] + rest;
    RunCons(s, Push(t, tick), Apply(s, Push(t, tick)), t, rest);
    WhereItIs(s, Run(s, steps), tick);
  }
}
