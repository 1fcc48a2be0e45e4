/** `publish` and the dispatch loop over the real queue, running flag and mutex. Every statement on
    shared fields is a protocol step, with the other threads running before each, inside the
    critical sections too. A call that finds the mutex taken ends there as still waiting: what the
    others do before is any number of steps, so nothing is lost by looking once. */
module EventBus {
  import opened EventBusProtocol
  import opened Wrappers

  /** What the dispatcher relies on: the others push, and only while it does not hold the mutex; and
      they wake it only from its sleep. */
  ghost predicate DispatcherRely<T>(s: State<T>, s': State<T>) {
    && (if s.dispatcher.Asleep? then s'.dispatcher.Asleep? else s'.dispatcher == s.dispatcher)
    && s'.popped == s.popped && s'.seen == s.seen
    && s.published <= s'.published
    && (s.dispatcher.Holds() ==> s'.published == s.published)
  }

  /** What publisher `p` relies on: nobody acts for it, or pushes or pops while it holds the mutex. */
  ghost predicate PublisherRely<T>(p: nat, s: State<T>, s': State<T>) {
    && p < |s.publishers| == |s'.publishers| && s'.publishers[p] == s.publishers[p]
    && s.published <= s'.published
    && (s.publishers[p].Holds() ==> s'.published == s.published && s'.queue == s.queue)
  }

  predicate OfDispatcher<T>(step: Step<T>) {
    !step.LockPublish? && !step.Push? && !step.UnlockPublish? && !step.NotifyOne? && !step.Stop? && !step.NotifyAll?
  }

  predicate OfPublisher<T>(p: nat, step: Step<T>) {
    (step.LockPublish? || step.Push? || step.UnlockPublish? || step.NotifyOne?) && step.p == p
  }

  lemma {:induction false} OthersMeetDispatcherRely<T>(s: State<T>, steps: seq<Step<T>>)
    requires Inv(s) && IsRun(s, steps) && forall k :: 0 <= k < |steps| ==> !OfDispatcher(steps[k])
    ensures Inv(Run(s, steps)) && DispatcherRely(s, Run(s, steps))
    decreases |steps|
  {
    if steps != [] {
      StepInv(s, steps[0]);
      assert steps[0].Push? ==> s.mutex == Some(Publish(steps[0].p));
      assert DispatcherRely(s, Apply(s, steps[0]));
      OthersMeetDispatcherRely(Apply(s, steps[0]), steps[1..]);
    }
  }

  lemma {:induction false} OthersMeetPublisherRely<T>(p: nat, s: State<T>, steps: seq<Step<T>>)
    requires Inv(s) && IsRun(s, steps) && p < |s.publishers|
    requires forall k :: 0 <= k < |steps| ==> !OfPublisher(p, steps[k])
    ensures Inv(Run(s, steps)) && PublisherRely(p, s, Run(s, steps))
    decreases |steps|
  {
    if steps != [] {
      StepInv(s, steps[0]);
      assert s.publishers[p].Holds() ==> s.mutex == Some(Publish(p));
      assert steps[0].Push? ==> s.mutex == Some(Publish(steps[0].p));
      assert PublisherRely(p, s, Apply(s, steps[0]));
      OthersMeetPublisherRely(p, Apply(s, steps[0]), steps[1..]);
    }
  }

  class EventBus<T> {
    const handlers: nat
    var queue: seq<T>
    var running: bool
    var locked: bool  // the queue's mutex
    ghost var protocol: State<T>

    ghost predicate Valid()
      reads this
    {
      && protocol.queue == queue && protocol.running == running
      && (locked <==> protocol.mutex.Some?)
      && |protocol.seen| == handlers && Inv(protocol)
    }

    constructor (handlers: nat, ghost publishers: nat)
      ensures Valid() && this.handlers == handlers && protocol == Init(publishers, handlers)
    {
      this.handlers := handlers;
      queue, running, locked := [], true, false;
      protocol := Init(publishers, handlers);
      InitInv<T>(publishers, handlers);
    }

    /** Publishers, and the destructor, run for a while. */
    method PreemptDispatcher()
      requires Valid()
      modifies this
      ensures Valid() && DispatcherRely(old(protocol), protocol)
    {
    }

    /** The dispatcher, the other publishers and the destructor run for a while. */
    method PreemptPublisher(ghost p: nat)
      requires Valid() && p < |protocol.publishers|
      modifies this
      ensures Valid() && PublisherRely(p, old(protocol), protocol)
    {
    }

    method TakeMutex(ghost step: Step<T>)
      requires Valid() && !locked && Enabled(protocol, step) && (step.LockPublish? || step.Relock?)
      modifies this`protocol, this`locked
      ensures Valid() && protocol == Apply(old(protocol), step)
    {
      StepInv(protocol, step);
      locked := true;
      protocol := Apply(protocol, step);
    }

    method DropMutex(ghost step: Step<T>)
      requires Valid() && Enabled(protocol, step) && (step.UnlockPublish? || step.Unlock?)
      modifies this`protocol, this`locked
      ensures Valid() && protocol == Apply(old(protocol), step)
    {
      StepInv(protocol, step);
      locked := false;
      protocol := Apply(protocol, step);
    }

    method PushBack(ghost p: nat, event: T)
      requires Valid() && p < |protocol.publishers| && protocol.publishers[p] == AtPush(event)
      modifies this`protocol, this`queue
      ensures Valid() && protocol == Apply(old(protocol), Push(p))
    {
      StepInv(protocol, Push(p));
      queue := queue + [event];
      protocol := Apply(protocol, Push(p));
    }

    /** Wakes the dispatcher if it is asleep. */
    ghost method Notify(p: nat)
      requires Valid() && Enabled(protocol, NotifyOne(p))
      modifies this`protocol
      ensures Valid() && protocol == Apply(old(protocol), NotifyOne(p))
    {
      StepInv(protocol, NotifyOne(p));
      protocol := Apply(protocol, NotifyOne(p));
    }

    /** `publish`: pushes the event right after everything pushed before `at`, where it took the
        mutex, and after letting go of it leaves the dispatcher no longer asleep unnoticed; `pushed` is
        the state at the push. Or, with the mutex taken by another, it is still waiting for it. */
    method Publish(ghost p: nat, event: T) returns (done: bool, ghost at: State<T>, ghost pushed: State<T>)
      requires Valid() && p < |protocol.publishers| && protocol.publishers[p].Idle?
      modifies this
      ensures Valid() && PublisherRely(p, old(protocol), at)
      ensures |protocol.publishers| == old(|protocol.publishers|) && protocol.publishers[p].Idle?
      ensures done <==> at.mutex.None?
      ensures done ==> pushed.published == at.published + [event] && pushed.queue == at.queue + [event]
      ensures done ==> pushed.published <= protocol.published && protocol.dispatcher != Asleep(false)
      ensures !done ==> protocol == at
    {
      PreemptPublisher(p);
      done, at, pushed := !locked, protocol, protocol;
      if done {
        TakeMutex(LockPublish(p, event));
        PreemptPublisher(p);
        PushBack(p, event);
        pushed := protocol;
        PreemptPublisher(p);
        DropMutex(UnlockPublish(p));
        PreemptPublisher(p);
        Notify(p);
      }
    }

    /** The pop itself; on an empty queue it is the end of the inner loop, and of the lock. */
    method TakeFront() returns (event: Option<T>)
      requires Valid() && protocol.dispatcher.AtPop?
      modifies this
      ensures Valid() && protocol == Apply(old(protocol), Pop)
      ensures event == if old(queue) == [] then None else Some(old(queue)[0])
    {
      StepInv(protocol, Pop);
      if queue == [] {
        event, locked := None, false;
      } else {
        event := Some(queue[0]);
        queue := queue[1..];
      }
      protocol := Apply(protocol, Pop);
    }

    /** Takes the event at the front, if there is one, and lets go of the mutex. */
    method PopFront() returns (event: Option<T>)
      requires Valid() && protocol.dispatcher.AtPop?
      modifies this
      ensures Valid() && protocol.seen == old(protocol).seen && protocol.published == old(protocol).published
      ensures match event
              case None => old(queue) == [] && protocol.dispatcher.AtLoad? && protocol.popped == old(protocol).popped
              case Some(e) =>
                && old(queue) != [] && e == old(queue)[0] && protocol.popped == old(protocol).popped + 1
                && protocol.dispatcher == Calling(e, 0)
    {
      PreemptDispatcher();
      event := TakeFront();
      if event.Some? {
        PreemptDispatcher();
        DropMutex(Unlock);
      }
    }

    /** One handler call, or the end of the calls. */
    ghost method Call()
      requires Valid() && protocol.dispatcher.Calling?
      modifies this`protocol
      ensures Valid() && protocol == Apply(old(protocol), CallHandler)
    {
      StepInv(protocol, CallHandler);
      protocol := Apply(protocol, CallHandler);
    }

    /** Calls every handler in turn, without the mutex. */
    method CallHandlers(ghost event: T)
      requires Valid() && protocol.dispatcher == Calling(event, 0)
      modifies this
      ensures Valid() && protocol.dispatcher.AtRelock?
      ensures old(protocol).published <= protocol.published && protocol.popped == old(protocol).popped
      ensures forall h :: 0 <= h < handlers ==> protocol.seen[h] == old(protocol).seen[h] + [event]
    {
      for h := 0 to handlers
        invariant Valid() && protocol.dispatcher == Calling(event, h)
        invariant old(protocol).published <= protocol.published && protocol.popped == old(protocol).popped
        invariant forall g :: 0 <= g < h ==> protocol.seen[g] == old(protocol).seen[g] + [event]
        invariant forall g :: h <= g < handlers ==> protocol.seen[g] == old(protocol).seen[g]
      {
        PreemptDispatcher();
        Call();
      }
      PreemptDispatcher();
      Call();
    }

    /** One pass of the inner loop: pops an event, hands it to every handler while others publish,
        and takes the mutex back, or is still waiting for it; or finds the queue empty and lets go. */
    method DispatchOne() returns (event: Option<T>, back: bool)
      requires Valid() && protocol.dispatcher.AtPop?
      modifies this
      ensures Valid() && old(protocol).published <= protocol.published
      ensures protocol.popped == old(protocol).popped + (if event.Some? then 1 else 0)
      ensures match event
              case None =>
                && old(queue) == [] && protocol.dispatcher.AtLoad?
                && forall h :: 0 <= h < handlers ==> protocol.seen[h] == protocol.published
              case Some(e) =>
                && old(queue) != [] && e == old(queue)[0]
                && (if back then protocol.dispatcher.AtPop? else protocol.dispatcher.AtRelock? && locked)
                && forall h :: 0 <= h < handlers ==> protocol.seen[h] == old(protocol).seen[h] + [e]
    {
      event := PopFront();
      back := false;
      if event.Some? {
        CallHandlers(event.value);
        PreemptDispatcher();
        back := !locked;
        if back {
          TakeMutex(Relock);
        }
      }
    }

    /** The inner loop, for at most `rounds` events: when it ends by itself, every handler has seen
        everything pushed up to then; else it has popped that many, or is waiting for the mutex. */
    method Drain(rounds: nat) returns (done: bool)
      requires Valid() && protocol.dispatcher.AtPop?
      modifies this
      ensures Valid() && old(protocol).published <= protocol.published
      ensures done ==> protocol.dispatcher.AtLoad?
                       && forall h :: 0 <= h < handlers ==> protocol.seen[h] == protocol.published
      ensures !done ==> (protocol.dispatcher.AtPop? && protocol.popped == old(protocol).popped + rounds)
                        || (protocol.dispatcher.AtRelock? && locked)
    {
      done := false;
      var left := rounds;
      while left > 0
        invariant Valid() && old(protocol).published <= protocol.published
        invariant protocol.dispatcher.AtPop? && protocol.popped == old(protocol).popped + rounds - left
      {
        var event, back := DispatchOne();
        if event.None? {
          return true;
        }
        if !back {
          return false;
        }
        left := left - 1;
      }
    }
  }
}
