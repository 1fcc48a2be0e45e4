/** One event type's queue and dispatch thread. Publishers push under the queue's mutex and notify
    without it; the dispatcher pops under it and drops it around the handler calls; shutdown clears
    the running flag and notifies without it. A notification wakes a dispatcher that is asleep and
    is lost on one that is not yet; a dispatcher may also wake without cause. */
module EventBusProtocol {
  import opened Wrappers

  datatype Publisher<T> =
    | Idle
    | AtPush(event: T)  // holds the mutex
    | AtUnlock          // still holds it
    | AtNotify          // holds nothing
  {
    predicate Holds() { AtPush? || AtUnlock? }
  }

  datatype Dispatcher<T> =
    | AtLoad                      // is about to read the running flag
    | AtLock
    | AtTest                      // holds the mutex, and is about to test whether to wait
    | AtSleep                     // holds it, having found nothing to do
    | Asleep(woken: bool)         // waits without it
    | AtPop                       // holds the mutex
    | Popped(event: T)            // still holds it
    | Calling(event: T, next: nat)  // holds nothing; handler `next` is due
    | AtRelock
    | Stopped
  {
    predicate Holds() { AtTest? || AtSleep? || AtPop? || Popped? }

    /** What a notification does. */
    function Notified(): Dispatcher<T> { if Asleep? then Asleep(true) else this }
  }

  datatype Destructor = NotCalled | AtNotifyAll | Joining

  datatype Holder = Dispatch | Publish(p: nat)

  /** Histories ride along: the events in the order they were pushed, how many were popped, and
      what each handler was called with. */
  datatype State<T> = State(
    queue: seq<T>, running: bool, mutex: Option<Holder>,
    publishers: seq<Publisher<T>>, dispatcher: Dispatcher<T>, destructor: Destructor,
    published: seq<T>, popped: nat, seen: seq<seq<T>>)

  datatype Step<T> =
    | LockPublish(p: nat, event: T)
    | Push(p: nat)
    | UnlockPublish(p: nat)
    | NotifyOne(p: nat)
    | LoadRunning
    | Lock
    | Test
    | Sleep
    | Wake(spurious: bool)
    | Pop
    | Unlock
    | CallHandler
    | Relock
    | Stop
    | NotifyAll

  function Init<T>(publishers: nat, handlers: nat): State<T> {
    State([], true, None, seq(publishers, i => Idle), AtLoad, NotCalled, [], 0, seq(handlers, i => []))
  }

  predicate Enabled<T>(s: State<T>, step: Step<T>) {
    match step
    case LockPublish(p, _) => p < |s.publishers| && s.publishers[p].Idle? && s.mutex.None?
    case Push(p) => p < |s.publishers| && s.publishers[p].AtPush?
    case UnlockPublish(p) => p < |s.publishers| && s.publishers[p].AtUnlock?
    case NotifyOne(p) => p < |s.publishers| && s.publishers[p].AtNotify?
    case LoadRunning => s.dispatcher.AtLoad?
    case Lock => s.dispatcher.AtLock? && s.mutex.None?
    case Test => s.dispatcher.AtTest?
    case Sleep => s.dispatcher.AtSleep?
    case Wake(spurious) => s.dispatcher == Asleep(!spurious) && s.mutex.None?
    case Pop => s.dispatcher.AtPop?
    case Unlock => s.dispatcher.Popped?
    case CallHandler => s.dispatcher.Calling?
    case Relock => s.dispatcher.AtRelock? && s.mutex.None?
    case Stop => s.destructor.NotCalled?
    case NotifyAll => s.destructor.AtNotifyAll?
  }

  function Apply<T>(s: State<T>, step: Step<T>): (s': State<T>)
    requires Enabled(s, step)
    ensures |s'.publishers| == |s.publishers| && |s'.seen| == |s.seen|
  {
    match step
    case LockPublish(p, event) => s.(publishers := s.publishers[p := AtPush(event)], mutex := Some(Publish(p)))
    case Push(p) =>
      var event := s.publishers[p].event;
      s.(publishers := s.publishers[p := AtUnlock], queue := s.queue + [event], published := s.published + [event])
    case UnlockPublish(p) => s.(publishers := s.publishers[p := AtNotify], mutex := None)
    case NotifyOne(p) => s.(publishers := s.publishers[p := Idle], dispatcher := s.dispatcher.Notified())
    case LoadRunning => s.(dispatcher := if s.running then AtLock else Stopped)
    case Lock => s.(dispatcher := AtTest, mutex := Some(Dispatch))
    case Test => s.(dispatcher := if s.queue != [] || !s.running then AtPop else AtSleep)
    case Sleep => s.(dispatcher := Asleep(false), mutex := None)
    case Wake(_) => s.(dispatcher := AtTest, mutex := Some(Dispatch))
    case Pop =>
      if s.queue == [] then s.(dispatcher := AtLoad, mutex := None)
      else s.(dispatcher := Popped(s.queue[0]), queue := s.queue[1..], popped := s.popped + 1)
    case Unlock => s.(dispatcher := Calling(s.dispatcher.event, 0), mutex := None)
    case CallHandler =>
      var Calling(event, next) := s.dispatcher;
      if next < |s.seen| then s.(dispatcher := Calling(event, next + 1), seen := s.seen[next := s.seen[next] + [event]])
      else s.(dispatcher := AtRelock)
    case Relock => s.(dispatcher := AtPop, mutex := Some(Dispatch))
    case Stop => s.(running := false, destructor := AtNotifyAll)
    case NotifyAll => s.(destructor := Joining, dispatcher := s.dispatcher.Notified())
  }

  predicate IsRun<T>(s: State<T>, steps: seq<Step<T>>)
    decreases |steps|
  {
    steps == [] || (Enabled(s, steps[0]) && IsRun(Apply(s, steps[0]), steps[1..]))
  }

  function Run<T>(s: State<T>, steps: seq<Step<T>>): (s': State<T>)
    requires IsRun(s, steps)
    ensures |s'.publishers| == |s.publishers| && |s'.seen| == |s.seen|
    decreases |steps|
  {
    if steps == [] then s else Run(Apply(s, steps[0]), steps[1..])
  }

  /* ---- the invariant ---- */

  ghost predicate MutexInv<T>(s: State<T>) {
    && (s.mutex == Some(Dispatch) <==> s.dispatcher.Holds())
    && (forall p: nat :: s.mutex == Some(Publish(p)) <==> p < |s.publishers| && s.publishers[p].Holds())
  }

  /** How many events handler `h` has been called with. */
  function Delivered<T>(s: State<T>, h: nat): int {
    match s.dispatcher
    case Popped(_) => s.popped - 1
    case Calling(_, next) => if h < next then s.popped else s.popped - 1
    case _ => s.popped
  }

  ghost predicate OrderInv<T>(s: State<T>) {
    && s.popped <= |s.published| && s.queue == s.published[s.popped..]
    && (s.dispatcher.Popped? || s.dispatcher.Calling? ==>
          s.popped > 0 && s.dispatcher.event == s.published[s.popped - 1])
    && (s.dispatcher.Calling? ==> s.dispatcher.next <= |s.seen|)
    && (forall h: nat :: h < |s.seen| ==>
          0 <= Delivered(s, h) <= |s.published| && s.seen[h] == s.published[..Delivered(s, h)])
  }

  /** The publisher has pushed and has yet to notify. */
  predicate Notifying<T>(s: State<T>, p: nat) {
    p < |s.publishers| && (s.publishers[p].AtUnlock? || s.publishers[p].AtNotify?)
  }

  /** The dispatcher goes to sleep on an empty queue, and sleeps on a queue with events in it only
      until a publisher has notified it; the flag is cleared by the destructor alone. */
  ghost predicate WakeInv<T>(s: State<T>) {
    && (s.dispatcher.AtSleep? ==> s.queue == [])
    && (s.dispatcher == Asleep(false) && s.queue != [] ==> exists p: nat :: Notifying(s, p))
    && (s.running <==> s.destructor.NotCalled?)
  }

  ghost predicate Inv<T>(s: State<T>) {
    MutexInv(s) && OrderInv(s) && WakeInv(s)
  }

  lemma InitInv<T>(publishers: nat, handlers: nat)
    ensures Inv(Init<T>(publishers, handlers))
  {
  }

  lemma PushInv<T>(s: State<T>, p: nat)
    requires Inv(s) && Enabled(s, Push(p))
    ensures OrderInv(Apply(s, Push(p)))
  {
    var s' := Apply(s, Push(p));
    assert s.mutex == Some(Publish(p));
    assert s'.queue == s'.published[s'.popped..];
    forall h: nat | h < |s.seen| ensures s'.seen[h] == s'.published[..Delivered(s', h)] {
      assert s.seen[h] == s.published[..Delivered(s, h)];
    }
  }

  lemma PopInv<T>(s: State<T>)
    requires Inv(s) && Enabled(s, Pop) && s.queue != []
    ensures OrderInv(Apply(s, Pop))
  {
    var s' := Apply(s, Pop);
    assert s.queue[0] == s.published[s.popped];
    assert s'.queue == s'.published[s'.popped..];
    forall h: nat | h < |s.seen| ensures s'.seen[h] == s'.published[..Delivered(s', h)] {
      assert s.seen[h] == s.published[..Delivered(s, h)];
    }
  }

  lemma CallHandlerInv<T>(s: State<T>)
    requires Inv(s) && Enabled(s, CallHandler)
    ensures OrderInv(Apply(s, CallHandler))
  {
    var s' := Apply(s, CallHandler);
    forall h: nat | h < |s.seen| ensures s'.seen[h] == s'.published[..Delivered(s', h)] {
      assert s.seen[h] == s.published[..Delivered(s, h)];
    }
  }

  lemma OrderStep<T>(s: State<T>, step: Step<T>)
    requires Inv(s) && Enabled(s, step)
    ensures OrderInv(Apply(s, step))
  {
    if step.Push? {
      PushInv(s, step.p);
    } else if step.Pop? && s.queue != [] {
      PopInv(s);
    } else if step.CallHandler? {
      CallHandlerInv(s);
    } else {
      var s' := Apply(s, step);
      forall h: nat | h < |s.seen| ensures Delivered(s', h) == Delivered(s, h) {
      }
    }
  }

  lemma WakeStep<T>(s: State<T>, step: Step<T>)
    requires Inv(s) && Enabled(s, step)
    ensures WakeInv(Apply(s, step))
  {
    var s' := Apply(s, step);
    assert step.Push? ==> s.mutex == Some(Publish(step.p));
    if s'.dispatcher == Asleep(false) && s'.queue != [] {
      if step.Push? {
        assert Notifying(s', step.p);
      } else {
        var p: nat :| Notifying(s, p);
        assert Notifying(s', p);
      }
    }
  }

  lemma StepInv<T>(s: State<T>, step: Step<T>)
    requires Inv(s) && Enabled(s, step)
    ensures Inv(Apply(s, step))
  {
    OrderStep(s, step);
    WakeStep(s, step);
  }

  lemma {:induction false} RunInv<T>(s: State<T>, steps: seq<Step<T>>)
    requires Inv(s) && IsRun(s, steps)
    ensures Inv(Run(s, steps))
    decreases |steps|
  {
    if steps != [] {
      StepInv(s, steps[0]);
      RunInv(Apply(s, steps[0]), steps[1..]);
    }
  }

  /* ---- what the invariant says about every run ---- */

  /** In every interleaving of any number of publishers with the dispatcher, each handler is called
      with a prefix of the events in the order they were pushed, each of them once; a handler is
      never ahead of one subscribed before it, nor more than one event behind; and no two threads
      touch the queue at once. */
  lemma Ordering<T>(publishers: nat, handlers: nat, steps: seq<Step<T>>)
    requires IsRun(Init(publishers, handlers), steps)
    ensures var s := Run(Init(publishers, handlers), steps);
            && |s.seen| == handlers
            && (forall h :: 0 <= h < handlers ==> s.seen[h] <= s.published)
            && (forall g, h :: 0 <= g < h < handlers ==>
                  s.seen[h] <= s.seen[g] && |s.seen[g]| <= |s.seen[h]| + 1)
            && (forall p :: 0 <= p < publishers && s.publishers[p].AtPush? ==>
                  !s.dispatcher.Holds() && forall q :: 0 <= q < publishers && q != p ==> !s.publishers[q].AtPush?)
  {
    InitInv<T>(publishers, handlers);
    RunInv(Init(publishers, handlers), steps);
    var s := Run(Init(publishers, handlers), steps);
    forall p: nat | p < publishers && s.publishers[p].AtPush?
      ensures !s.dispatcher.Holds() && forall q :: 0 <= q < publishers && q != p ==> !s.publishers[q].AtPush?
    {
      assert s.mutex == Some(Publish(p));
      forall q: nat | q < publishers && q != p ensures !s.publishers[q].AtPush? {
        assert s.mutex != Some(Publish(q));
      }
    }
  }

  /** In every interleaving: with no event in hand, the dispatcher is exactly as far behind as the
      queue is long; asleep, stopped or about to look, every handler has seen everything if and only
      if the queue is empty. */
  lemma CaughtUp<T>(publishers: nat, handlers: nat, steps: seq<Step<T>>)
    requires IsRun(Init(publishers, handlers), steps)
    ensures var s := Run(Init(publishers, handlers), steps);
            !s.dispatcher.Popped? && !s.dispatcher.Calling? ==>
              forall h :: 0 <= h < handlers ==>
                |s.published| - |s.seen[h]| == |s.queue| && (s.seen[h] == s.published <==> s.queue == [])
  {
    InitInv<T>(publishers, handlers);
    RunInv(Init(publishers, handlers), steps);
  }

  /* ---- shutdown ---- */

  /** Past its last look at the queue, if the flag is cleared. */
  predicate Ended<T>(s: State<T>) { s.dispatcher.AtLoad? || s.dispatcher.Stopped? }

  /** The flag is cleared and the dispatcher will not look at the queue again, with events in it. */
  predicate Abandoned<T>(s: State<T>) { Ended(s) && s.queue != [] }

  lemma AbandonedStep<T>(s: State<T>, step: Step<T>)
    requires Inv(s) && !s.running && Enabled(s, step)
    ensures !Apply(s, step).running
    ensures Abandoned(Apply(s, step)) <==> Abandoned(s) || (step.Push? && Ended(s))
  {
  }

  /** Some event is pushed when the dispatcher will not look at the queue again. */
  predicate PushedTooLate<T>(s: State<T>, steps: seq<Step<T>>)
    requires IsRun(s, steps)
    decreases |steps|
  {
    steps != [] && ((steps[0].Push? && Ended(s)) || PushedTooLate(Apply(s, steps[0]), steps[1..]))
  }

  lemma {:induction false} AbandonedRun<T>(s: State<T>, steps: seq<Step<T>>)
    requires Inv(s) && !s.running && IsRun(s, steps)
    ensures Inv(Run(s, steps)) && (Abandoned(Run(s, steps)) <==> Abandoned(s) || PushedTooLate(s, steps))
    decreases |steps|
  {
    if steps != [] {
      StepInv(s, steps[0]);
      AbandonedStep(s, steps[0]);
      AbandonedRun(Apply(s, steps[0]), steps[1..]);
    }
  }

  ghost predicate SeenBy<T>(s: State<T>, events: seq<T>) {
    forall h :: 0 <= h < |s.seen| ==> events <= s.seen[h]
  }

  lemma {:induction false} RunningUntilStop<T>(s: State<T>, steps: seq<Step<T>>)
    requires IsRun(s, steps) && Step<T>.Stop !in steps
    requires s.running && s.destructor.NotCalled? && !s.dispatcher.Stopped?
    ensures Run(s, steps).running && Run(s, steps).destructor.NotCalled? && !Run(s, steps).dispatcher.Stopped?
    decreases |steps|
  {
    if steps != [] {
      RunningUntilStop(Apply(s, steps[0]), steps[1..]);
    }
  }

  /** The state in which the destructor has just cleared the flag, after a run without that. */
  function AtStop<T>(publishers: nat, handlers: nat, before: seq<Step<T>>): State<T>
    requires IsRun(Init(publishers, handlers), before) && Step<T>.Stop !in before
  {
    RunningUntilStop(Init(publishers, handlers), before);
    Apply(Run(Init(publishers, handlers), before), Stop)
  }

  lemma AtStopInv<T>(publishers: nat, handlers: nat, before: seq<Step<T>>)
    requires IsRun(Init(publishers, handlers), before) && Step<T>.Stop !in before
    ensures var s := AtStop(publishers, handlers, before);
            Inv(s) && !s.running && !s.dispatcher.Stopped? && |s.seen| == handlers
  {
    InitInv<T>(publishers, handlers);
    RunInv(Init(publishers, handlers), before);
    RunningUntilStop(Init(publishers, handlers), before);
    StepInv(Run(Init(publishers, handlers), before), Stop);
  }

  /** Every shutdown: when the dispatcher has stopped, the handlers have seen everything pushed, late
      pushes included, if and only if the flag was not cleared at the dispatcher's look at it with
      events waiting, and no event was pushed after its last look at the queue. */
  lemma DeliveredIff<T>(publishers: nat, handlers: nat, before: seq<Step<T>>, after: seq<Step<T>>)
    requires handlers > 0 && IsRun(Init(publishers, handlers), before) && Step<T>.Stop !in before
    requires IsRun(AtStop(publishers, handlers, before), after)
    requires Run(AtStop(publishers, handlers, before), after).dispatcher.Stopped?
    ensures var s := AtStop(publishers, handlers, before);
            var end := Run(s, after);
            SeenBy(end, end.published) <==> !(s.dispatcher.AtLoad? && s.queue != []) && !PushedTooLate(s, after)
  {
    var s := AtStop(publishers, handlers, before);
    AtStopInv(publishers, handlers, before);
    AbandonedRun(s, after);
    var end := Run(s, after);
    assert |end.seen| == handlers && end.seen[0] == end.published[..end.popped];
  }

  /** A dispatcher that can still stop has popped the first `n` events. */
  predicate Covers<T>(s: State<T>, n: nat) {
    !s.running && n <= |s.published| && (Ended(s) ==> n <= s.popped)
  }

  lemma {:induction false} CoversRun<T>(s: State<T>, steps: seq<Step<T>>, n: nat)
    requires Inv(s) && IsRun(s, steps) && Covers(s, n)
    ensures Inv(Run(s, steps)) && Covers(Run(s, steps), n) && s.published <= Run(s, steps).published
    decreases |steps|
  {
    if steps != [] {
      StepInv(s, steps[0]);
      CoversRun(Apply(s, steps[0]), steps[1..], n);
    }
  }

  /** Whatever comes after the stop, everything pushed before it has been seen by every handler once
      the dispatcher has stopped. */
  ghost predicate Drains<T(!new)>(s: State<T>) {
    forall after :: IsRun(s, after) && Run(s, after).dispatcher.Stopped? ==> SeenBy(Run(s, after), s.published)
  }

  /** Shutdown delivers what was pushed before it if and only if the flag is not cleared just before
      the dispatcher looks at it with events waiting. */
  lemma DrainsIff<T(!new)>(publishers: nat, handlers: nat, before: seq<Step<T>>)
    requires handlers > 0 && IsRun(Init(publishers, handlers), before) && Step<T>.Stop !in before
    ensures var s := AtStop(publishers, handlers, before);
            Drains(s) <==> !(s.dispatcher.AtLoad? && s.queue != [])
  {
    var s := AtStop(publishers, handlers, before);
    AtStopInv(publishers, handlers, before);
    if s.dispatcher.AtLoad? && s.queue != [] {
      var after := [LoadRunning];
      var end := Apply(s, LoadRunning);
      assert after[1..] == [] && Run(end, after[1..]) == end && Run(s, after) == end;
      assert |end.seen| == handlers && end.seen[0] == s.published[..s.popped];
      assert !SeenBy(end, s.published);
    } else {
      forall after | IsRun(s, after) && Run(s, after).dispatcher.Stopped? ensures SeenBy(Run(s, after), s.published) {
        CoversRun(s, after, |s.published|);
        var end := Run(s, after);
        forall h: nat | h < |end.seen| ensures s.published <= end.seen[h] {
          assert end.seen[h] == end.published[..end.popped];
        }
      }
    }
  }

  lemma {:induction false} RunSnoc<T>(s: State<T>, steps: seq<Step<T>>, step: Step<T>)
    requires IsRun(s, steps) && Enabled(Run(s, steps), step)
    ensures IsRun(s, steps + [step])
    ensures Run(s, steps + [step]) == Apply(Run(s, steps), step)
    decreases |steps|
  {
    if steps == [] {
      assert steps + [step] == [step];
    } else {
      assert (steps + [step])[1..] == steps[1..] + [step];
      RunSnoc(Apply(s, steps[0]), steps[1..], step);
    }
  }

  /** The failing case is reached: a run in which an event is pushed, the flag is cleared before the
      dispatcher's first look at it, and no handler is ever called. */
  lemma TailMayBeLost<T>(event: T, handlers: nat) returns (steps: seq<Step<T>>)
    ensures IsRun(Init(1, handlers), steps)
    ensures var s := Run(Init(1, handlers), steps);
            s.dispatcher.Stopped? && s.published == [event] && s.seen == seq(handlers, h => [])
  {
    var s0 := Init<T>(1, handlers);
    steps := [];
    assert Run(s0, steps) == s0;
    RunSnoc(s0, steps, LockPublish(0, event));
    steps := steps + [LockPublish(0, event)];
    RunSnoc(s0, steps, Push(0));
    steps := steps + [Push(0)];
    RunSnoc(s0, steps, Stop);
    steps := steps + [Stop];
    RunSnoc(s0, steps, LoadRunning);
    steps := steps + [LoadRunning];
  }
}
