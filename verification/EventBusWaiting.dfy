/** The dispatcher's wait. Events are pushed under the mutex the wait tests its condition with, so no
    publish is slept on; the destructor clears the flag and notifies without it, so its one
    notification can fall between the test and the sleep and be lost. */
module EventBusWaiting {
  import opened EventBusProtocol
  import opened Wrappers

  /** In every interleaving: a dispatcher asleep and not notified, with no publisher in a call, has
      nothing to do, every handler having seen every event. */
  lemma NoPublishIsSleptOn<T>(publishers: nat, handlers: nat, steps: seq<Step<T>>)
    requires IsRun(Init(publishers, handlers), steps)
    ensures var s := Run(Init(publishers, handlers), steps);
            s.dispatcher == Asleep(false) && (forall p :: 0 <= p < publishers ==> s.publishers[p].Idle?) ==>
              s.queue == [] && forall h :: 0 <= h < handlers ==> s.seen[h] == s.published
  {
    InitInv<T>(publishers, handlers);
    RunInv(Init(publishers, handlers), steps);
    CaughtUp(publishers, handlers, steps);
    var s := Run(Init(publishers, handlers), steps);
    assert forall p: nat :: Notifying(s, p) ==> !s.publishers[p].Idle?;
  }

  /* ---- the dispatcher's own steps ---- */

  /** A step of the dispatcher that is not a waking without cause. */
  predicate Own<T>(step: Step<T>) {
    match step
    case LoadRunning => true
    case Lock => true
    case Test => true
    case Sleep => true
    case Wake(spurious) => !spurious
    case Pop => true
    case Unlock => true
    case CallHandler => true
    case Relock => true
    case _ => false
  }

  ghost predicate OwnRun<T>(s: State<T>, steps: seq<Step<T>>) {
    IsRun(s, steps) && forall k :: 0 <= k < |steps| ==> Own(steps[k])
  }

  /** Left to itself, the dispatcher can reach its end. */
  ghost predicate CanStop<T(!new)>(s: State<T>) {
    exists steps :: OwnRun(s, steps) && Run(s, steps).dispatcher.Stopped?
  }

  /** No publisher holds the mutex. */
  predicate MutexFree<T>(s: State<T>) {
    forall p :: 0 <= p < |s.publishers| ==> !s.publishers[p].Holds()
  }

  /** Not about to sleep, and not asleep without having been notified. */
  predicate Attentive<T>(s: State<T>) {
    !s.dispatcher.AtSleep? && s.dispatcher != Asleep(false)
  }

  /** What this many events cost, at `each` steps an event. */
  function Backlog(events: nat, each: nat): nat {
    if events == 0 then 0 else each + Backlog(events - 1, each)
  }

  /** The steps the dispatcher is from its end once the flag is cleared. */
  function Remaining<T>(s: State<T>): int {
    var n := |s.seen|;
    var rest := 2 + Backlog(|s.queue|, n + 5);
    match s.dispatcher
    case AtLoad => 1
    case AtLock => rest + 2
    case AtTest => rest + 1
    case AtSleep => rest
    case Asleep(_) => rest + 2
    case AtPop => rest
    case Popped(_) => rest + n + 4
    case Calling(_, next) => rest + n - next + 2
    case AtRelock => rest + 1
    case Stopped => 0
  }

  function Due<T>(s: State<T>): Step<T> {
    match s.dispatcher
    case AtLoad => LoadRunning
    case AtLock => Lock
    case AtTest => Test
    case AtSleep => Sleep
    case Asleep(_) => Wake(false)
    case AtPop => Pop
    case Popped(_) => Unlock
    case Calling(_, _) => CallHandler
    case AtRelock => Relock
    case Stopped => LoadRunning
  }

  lemma HolderOf(mutex: Option<Holder>)
    ensures mutex.None? || mutex == Some(Dispatch) || exists p: nat :: mutex == Some(Publish(p))
  {
    match mutex
    case Some(Publish(p)) => assert mutex == Some(Publish(p));
    case _ =>
  }

  lemma DueStep<T>(s: State<T>)
    requires Inv(s) && !s.running && MutexFree(s) && Attentive(s) && !s.dispatcher.Stopped?
    ensures Own(Due(s)) && Enabled(s, Due(s))
    ensures var s' := Apply(s, Due(s));
            Inv(s') && !s'.running && MutexFree(s') && Attentive(s') && 0 <= Remaining(s') < Remaining(s)
  {
    HolderOf(s.mutex);
    StepInv(s, Due(s));
  }

  /** With the flag cleared, no publisher in the way and its wits about it, the dispatcher stops by
      itself, in no more steps than remain. */
  lemma {:induction false} StopsAlone<T>(s: State<T>) returns (steps: seq<Step<T>>)
    requires Inv(s) && !s.running && MutexFree(s) && Attentive(s)
    ensures OwnRun(s, steps) && Run(s, steps).dispatcher.Stopped? && |steps| <= Remaining(s)
    decreases Remaining(s)
  {
    if s.dispatcher.Stopped? {
      steps := [];
    } else {
      DueStep(s);
      var rest := StopsAlone(Apply(s, Due(s)));
      steps := [Due(s)] + rest;
      assert steps[1..] == rest;
    }
  }

  /** Asleep without having been notified, or about to be, it never does. */
  lemma {:induction false} SleepsOn<T>(s: State<T>, steps: seq<Step<T>>)
    requires OwnRun(s, steps) && !Attentive(s)
    ensures !Attentive(Run(s, steps)) && !Run(s, steps).dispatcher.Stopped?
    decreases |steps|
  {
    if steps != [] {
      assert Own(steps[0]);
      assert forall k :: 0 <= k < |steps[1..]| ==> steps[1..][k] == steps[k + 1];
      SleepsOn(Apply(s, steps[0]), steps[1..]);
    }
  }

  lemma CannotStop<T(!new)>(s: State<T>)
    requires !Attentive(s)
    ensures !CanStop(s)
  {
    forall steps | OwnRun(s, steps) ensures !Run(s, steps).dispatcher.Stopped? {
      SleepsOn(s, steps);
    }
  }

  /** Once the flag is cleared nothing puts an attentive dispatcher to sleep. */
  lemma {:induction false} StaysAttentive<T>(s: State<T>, steps: seq<Step<T>>)
    requires Inv(s) && IsRun(s, steps) && !s.running && Attentive(s)
    ensures Inv(Run(s, steps)) && !Run(s, steps).running && Attentive(Run(s, steps))
    decreases |steps|
  {
    if steps != [] {
      StepInv(s, steps[0]);
      StaysAttentive(Apply(s, steps[0]), steps[1..]);
    }
  }

  /* ---- the destructor's join ---- */

  lemma {:induction false} NotifyingUntilNotified<T>(s: State<T>, steps: seq<Step<T>>)
    requires Inv(s) && IsRun(s, steps) && Step<T>.NotifyAll !in steps && s.destructor.AtNotifyAll?
    ensures Inv(Run(s, steps)) && Run(s, steps).destructor.AtNotifyAll?
    decreases |steps|
  {
    if steps != [] {
      StepInv(s, steps[0]);
      NotifyingUntilNotified(Apply(s, steps[0]), steps[1..]);
    }
  }

  /** Where the destructor notifies: after a run without its store, the store, and a run without its
      notification. */
  function AtNotify<T>(publishers: nat, handlers: nat, before: seq<Step<T>>, between: seq<Step<T>>): (at: State<T>)
    requires IsRun(Init(publishers, handlers), before) && Step<T>.Stop !in before
    requires IsRun(AtStop(publishers, handlers, before), between) && Step<T>.NotifyAll !in between
    ensures Inv(at) && at.destructor.AtNotifyAll?
  {
    AtStopInv(publishers, handlers, before);
    NotifyingUntilNotified(AtStop(publishers, handlers, before), between);
    Run(AtStop(publishers, handlers, before), between)
  }

  /** Whatever else happens, the dispatcher can stop by itself whenever no publisher holds the mutex. */
  ghost predicate AlwaysCanStop<T(!new)>(s: State<T>) {
    forall after :: IsRun(s, after) && MutexFree(Run(s, after)) ==> CanStop(Run(s, after))
  }

  lemma CanAlwaysStop<T(!new)>(s: State<T>)
    requires Inv(s) && !s.running && Attentive(s)
    ensures AlwaysCanStop(s)
  {
    forall after | IsRun(s, after) && MutexFree(Run(s, after)) ensures CanStop(Run(s, after)) {
      StaysAttentive(s, after);
      var steps := StopsAlone(Run(s, after));
    }
  }

  lemma CannotAlwaysStop<T(!new)>(s: State<T>)
    requires !Attentive(s) && MutexFree(s)
    ensures !AlwaysCanStop(s)
  {
    CannotStop(s);
    var none: seq<Step<T>> := [];
    assert IsRun(s, none) && Run(s, none) == s;
  }

  /** The destructor's join can return if and only if the notification does not fall between the
      dispatcher's test and its sleep; otherwise it sleeps on. */
  lemma JoinReturnsIff<T(!new)>(publishers: nat, handlers: nat, before: seq<Step<T>>, between: seq<Step<T>>)
    requires IsRun(Init(publishers, handlers), before) && Step<T>.Stop !in before
    requires IsRun(AtStop(publishers, handlers, before), between) && Step<T>.NotifyAll !in between
    ensures var at := AtNotify(publishers, handlers, before, between);
            AlwaysCanStop(Apply(at, NotifyAll)) <==> !at.dispatcher.AtSleep?
  {
    var at := AtNotify(publishers, handlers, before, between);
    StepInv(at, NotifyAll);
    if at.dispatcher.AtSleep? {
      CannotAlwaysStop(Apply(at, NotifyAll));
    } else {
      CanAlwaysStop(Apply(at, NotifyAll));
    }
  }

  /** Everyone is done but the destructor, which waits for a dispatcher that sleeps. */
  predicate Hangs<T>(s: State<T>) {
    && s.destructor.Joining? && s.dispatcher == Asleep(false) && s.mutex.None?
    && forall p :: 0 <= p < |s.publishers| ==> s.publishers[p].Idle?
  }

  /** From there nothing can happen but a new publish, or a waking without cause. */
  lemma HangsIsFinal<T>(s: State<T>, step: Step<T>)
    requires Hangs(s) && Enabled(s, step)
    ensures step.LockPublish? || step == Wake(true)
  {
  }

  /** The failing case is reached: the flag is cleared and the notification sent while the dispatcher
      is between its test and its sleep, and the join waits with everyone done. */
  lemma JoinMayHang<T>(publishers: nat, handlers: nat) returns (steps: seq<Step<T>>)
    ensures IsRun(Init(publishers, handlers), steps) && Hangs(Run(Init(publishers, handlers), steps))
  {
    var s0 := Init<T>(publishers, handlers);
    steps := [];
    assert Run(s0, steps) == s0;
    RunSnoc(s0, steps, LoadRunning);
    steps := steps + [LoadRunning];
    RunSnoc(s0, steps, Lock);
    steps := steps + [Lock];
    RunSnoc(s0, steps, Test);
    steps := steps + [Test];
    RunSnoc(s0, steps, Stop);
    steps := steps + [Stop];
    RunSnoc(s0, steps, NotifyAll);
    steps := steps + [NotifyAll];
    RunSnoc(s0, steps, Sleep);
    steps := steps + [Sleep];
  }
}
