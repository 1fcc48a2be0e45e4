/** `acquire` and `release` of the pool over its real fields. Every atomic statement is a protocol
    step, with any number of other threads running before each; how callers use the pool is one of
    the disciplines under which the protocol is safe. */
module ObjectPool {
  import opened Wrappers
  import P = PoolProtocol

  /** What thread `t` relies on while others run: its own place in the code, and the pool's size.
      With no other thread there is nothing they can do. */
  ghost predicate Rely(t: nat, s: P.State, s': P.State) {
    && t < |s.threads| == |s'.threads| && s'.threads[t] == s.threads[t] && s'.Size() == s.Size()
    && (|s.threads| == 1 ==> s' == s)
  }

  lemma {:induction false} OthersMeetRely(d: P.Discipline, t: nat, s: P.State, free: seq<nat>, steps: seq<P.Step>)
    returns (free': seq<nat>)
    requires t < |s.threads| && P.Inv(d, s, free) && P.IsRun(d, s, steps)
    requires forall k :: 0 <= k < |steps| ==> steps[k].t != t
    ensures P.Inv(d, P.Run(d, s, steps), free') && Rely(t, s, P.Run(d, s, steps))
    ensures |s.threads| == 1 ==> free' == free
    decreases |steps|
  {
    free' := free;
    if steps != [] {
      var s1 := P.Apply(s, steps[0]);
      var free1 := P.StepInv(d, s, free, steps[0]);
      assert s1.threads[t] == s.threads[t];
      free' := OthersMeetRely(d, t, s1, free1, steps[1..]);
    }
  }

  /** From `s` and its free list, thread `t` has come away with the front slot, which had no owner,
      or with nothing because there was none. */
  ghost predicate Acquired(t: nat, s: P.State, free: seq<nat>, slot: Option<nat>, s': P.State, free': seq<nat>) {
    && t < |s.threads| && s'.threads == s.threads[t := P.Idle]
    && match slot
       case None => free == free' == [] && s'.owned == s.owned
       case Some(i) => free == [i] + free' && i < |s.owned| && s.owned[i] == 0 && s'.owned == s.owned[i := 1]
  }

  /** From `s`, thread `t` has put the slot, which was nobody's, in front of the free list. */
  ghost predicate Released(t: nat, i: nat, s: P.State, free: seq<nat>, s': P.State, free': seq<nat>) {
    && t < |s.threads| && s'.threads == s.threads[t := P.Idle]
    && free' == [i] + free && i !in free && i < |s.owned| && s.owned[i] == 0 && s'.owned == s.owned
  }

  /** An exchange of thread `t` that failed: at `at` it expected head to be `idx`, and either another
      thread had moved head on, or it failed for no reason. */
  datatype Loss = Loss(at: P.State, idx: nat, spurious: bool)

  ghost predicate Lost(d: P.Discipline, t: nat, acquiring: bool, loss: Loss, list: seq<nat>) {
    && P.Inv(d, loss.at, list) && t < |loss.at.threads|
    && (if acquiring then loss.at.threads[t].AtSwap? && loss.at.threads[t].idx == loss.idx
        else loss.at.threads[t].AtPush? && loss.at.threads[t].current == loss.idx)
    && (loss.spurious <==> loss.at.head == loss.idx)
  }

  ghost predicate WasLost(d: P.Discipline, t: nat, acquiring: bool, loss: Loss) {
    exists list :: Lost(d, t, acquiring, loss, list)
  }

  /** The exchanges a call has lost, in order: each expected what the one before had found, and the
      last found `head`. */
  ghost predicate Losses(d: P.Discipline, t: nat, acquiring: bool, losses: seq<Loss>, head: nat) {
    losses == [] ||
    var last := losses[|losses| - 1];
    WasLost(d, t, acquiring, last) && last.at.head == head
    && Losses(d, t, acquiring, losses[..|losses| - 1], last.idx)
  }

  function SpuriousIn(losses: seq<Loss>): nat {
    if losses == [] then 0
    else SpuriousIn(losses[..|losses| - 1]) + (if losses[|losses| - 1].spurious then 1 else 0)
  }

  lemma LossesSnoc(d: P.Discipline, t: nat, acquiring: bool, losses: seq<Loss>, loss: Loss)
    requires Losses(d, t, acquiring, losses, loss.idx) && WasLost(d, t, acquiring, loss)
    ensures Losses(d, t, acquiring, losses + [loss], loss.at.head)
    ensures SpuriousIn(losses + [loss]) == SpuriousIn(losses) + (if loss.spurious then 1 else 0)
  {
    assert (losses + [loss])[..|losses|] == losses;
  }

  /** A call is still retrying only after as many lost exchanges as it was given, all but `flakes`
      of them lost to other threads. */
  ghost predicate Earned(d: P.Discipline, t: nat, acquiring: bool, losses: seq<Loss>, rounds: nat, flakes: nat,
                         done: bool) {
    && (exists head :: Losses(d, t, acquiring, losses, head)) && SpuriousIn(losses) <= flakes && |losses| <= rounds
    && (!done ==> |losses| == rounds)
  }

  class ObjectPool {
    const size: nat
    const next: array<nat>
    var head: nat
    ghost const discipline: P.Discipline
    ghost var protocol: P.State
    ghost var free: seq<nat>  // the list from head

    ghost predicate Valid()
      reads this, next
    {
      && next.Length == size
      && protocol.next == next[..] && protocol.head == head
      && P.Inv(discipline, protocol, free)
    }

    constructor (size: nat, ghost threads: nat, ghost discipline: P.Discipline)
      requires discipline.SerialAcquires? || discipline.NoReleases?
      ensures Valid() && fresh(next) && this.size == size && this.discipline == discipline
      ensures protocol == P.Init(size, threads)
      ensures |free| == size && forall i :: 0 <= i < size ==> free[i] == i
    {
      this.size := size;
      this.discipline := discipline;
      next := new nat[size];
      head := 0;
      protocol := P.Init(size, threads);
      new;
      for i := 0 to size
        modifies next
        invariant forall j :: 0 <= j < i ==> next[j] == j + 1
      {
        next[i] := i + 1;
      }
      assert protocol.next == next[..];
      free := P.FreshChain(size, 0);
      P.FreshInv(discipline, size, threads, free);
    }

    /** The other threads run for a while. */
    method Preempt(ghost t: nat)
      requires Valid() && t < |protocol.threads|
      modifies this, next
      ensures Valid() && Rely(t, old(protocol), protocol)
      ensures |protocol.threads| == 1 ==> free == old(free)
    {
    }

    /** A step that writes no shared field. */
    ghost method LocalStep(step: P.Step)
      requires Valid() && P.Enabled(protocol, step) && P.Allowed(discipline, protocol, step) && !step.StoreNext?
      requires step.Swap? ==> step.spurious || head != protocol.threads[step.t].idx
      requires step.Push? ==> step.spurious || head != protocol.threads[step.t].current
      modifies this`protocol
      ensures Valid() && protocol == P.Apply(old(protocol), step)
    {
      P.QuietStepInv(discipline, protocol, free, step);
      protocol := P.Apply(protocol, step);
    }

    /** A winning compare-exchange of acquire. */
    method Unlink(ghost t: nat, idx: nat, link: nat)
      requires Valid() && t < |protocol.threads| && protocol.threads[t] == P.AtSwap(idx, link) && head == idx
      modifies this`head, this`protocol, this`free
      ensures Valid() && Acquired(t, old(protocol), old(free), Some(idx), protocol, free)
    {
      assert P.ThreadInv(discipline, protocol, free, t);
      assert P.OnePlace(protocol, free, idx);
      free := P.SwapInv(discipline, protocol, free, t);
      protocol := P.Apply(protocol, P.Swap(t, false));
      head := link;
    }

    /** Acquire's compare-exchange, which may fail for no reason if `flaky`. A failure loads head. */
    method TrySwap(ghost t: nat, idx: nat, link: nat, flaky: bool)
      returns (won: bool, found: nat, flaked: bool, ghost at: P.State, ghost list: seq<nat>)
      requires Valid() && t < |protocol.threads| && protocol.threads[t] == P.AtSwap(idx, link)
      modifies this, next
      ensures Valid() && Rely(t, old(protocol), at) && P.Inv(discipline, at, list) && at.Size() == size
      ensures if won then Acquired(t, at, list, Some(idx), protocol, free)
              else found == at.head && protocol == P.Goto(at, t, P.Candidate(at)) && free == list
      ensures !won ==> Lost(discipline, t, true, Loss(at, idx, flaked), list)
      ensures flaked ==> flaky
      ensures |at.threads| == 1 && idx == old(head) ==> list == old(free) && (won || flaked)
    {
      Preempt(t);
      at, list, found := protocol, free, head;
      var spurious: bool := *;
      flaked := head == idx && flaky && spurious;
      won := head == idx && !flaked;
      if won {
        Unlink(t, idx, link);
      } else {
        LocalStep(P.Swap(t, head == idx));
      }
    }

    /** The call, and the load of head. */
    method Enter(ghost t: nat) returns (idx: nat, ghost at: P.State)
      requires Valid() && P.Enabled(protocol, P.CallAcquire(t))
      requires P.Allowed(discipline, protocol, P.CallAcquire(t))
      modifies this, next
      ensures Valid() && P.Inv(discipline, at, free) && |at.threads| == old(|protocol.threads|) && at.Size() == size
      ensures t < |at.threads| && idx == at.head && protocol == P.Goto(at, t, P.Candidate(at))
      ensures |at.threads| == 1 ==> free == old(free) && at.owned == old(protocol.owned)
    {
      LocalStep(P.CallAcquire(t));
      Preempt(t);
      idx, at := head, protocol;
      LocalStep(P.LoadHead(t));
    }

    /** One round of the loop, on a candidate. */
    method Round(ghost t: nat, idx: nat, flaky: bool)
      returns (won: bool, found: nat, flaked: bool, ghost at: P.State, ghost list: seq<nat>)
      requires Valid() && t < |protocol.threads| && protocol.threads[t] == P.AtNext(idx)
      modifies this, next
      ensures Valid() && P.Inv(discipline, at, list) && at.Size() == size && |at.threads| == old(|protocol.threads|)
      ensures if won then Acquired(t, at, list, Some(idx), protocol, free)
              else found == at.head && protocol == P.Goto(at, t, P.Candidate(at)) && free == list
      ensures !won ==> Lost(discipline, t, true, Loss(at, idx, flaked), list)
      ensures flaked ==> flaky
      ensures |at.threads| == 1 && idx == old(head) ==>
                list == old(free) && at.owned == old(protocol.owned) && (won || flaked)
    {
      Preempt(t);
      var link := next[idx];
      LocalStep(P.LoadNext(t));
      won, found, flaked, at, list := TrySwap(t, idx, link, flaky);
    }

    /** `acquire`: hands out the slot at the front of the list at `at`, or nothing when the list is
        empty there. `losses` are the exchanges it lost, of which no more than `flakes` for no
        reason; it is still retrying only once it has lost as many as `rounds`, and with one thread
        and a round to spare it never is. */
    method Acquire(ghost t: nat, rounds: nat, flakes: nat)
      returns (slot: Option<nat>, done: bool, ghost at: P.State, ghost list: seq<nat>, ghost losses: seq<Loss>)
      requires Valid() && P.Enabled(protocol, P.CallAcquire(t))
      requires P.Allowed(discipline, protocol, P.CallAcquire(t))
      modifies this, next
      ensures Valid() && P.Inv(discipline, at, list) && |at.threads| == old(|protocol.threads|)
      ensures done ==> Acquired(t, at, list, slot, protocol, free)
      ensures !done ==> slot.None? && protocol == P.Goto(at, t, P.AtNext(at.head)) && at.head < size
      ensures Earned(discipline, t, true, losses, rounds, flakes, done)
      ensures |at.threads| == 1 ==> list == old(free) && at.owned == old(protocol.owned)
      ensures |at.threads| == 1 && flakes < rounds ==> done
    {
      var idx;
      idx, at := Enter(t);
      list, losses := free, [];
      var left, spare := rounds, flakes;
      while idx != size && left > 0
        invariant Valid() && P.Inv(discipline, at, list) && idx == at.head && at.Size() == size && free == list
        invariant t < |at.threads| == old(|protocol.threads|) && protocol == P.Goto(at, t, P.Candidate(at))
        invariant |at.threads| == 1 ==> free == old(free) && at.owned == old(protocol.owned)
        invariant Losses(discipline, t, true, losses, idx) && |losses| + left == rounds
        invariant SpuriousIn(losses) + spare == flakes && (|at.threads| == 1 ==> |losses| == SpuriousIn(losses))
        decreases left
      {
        var won, found, flaked;
        won, found, flaked, at, list := Round(t, idx, spare > 0);
        if won {
          return Some(idx), true, at, list, losses;
        }
        LossesSnoc(discipline, t, true, losses, Loss(at, idx, flaked));
        losses := losses + [Loss(at, idx, flaked)];
        idx, left, spare := found, left - 1, if flaked then spare - 1 else spare;
      }
      P.ChainInRange(at.next, at.head, list);
      slot, done := None, idx == size;
    }

    /** The store of the link. */
    method Link(ghost t: nat, idx: nat, current: nat)
      requires Valid() && t < |protocol.threads| && protocol.threads[t] == P.AtStore(idx, current)
      modifies this, next
      ensures Valid() && |protocol.threads| == old(|protocol.threads|) && protocol.threads[t] == P.AtPush(idx, current)
      ensures |protocol.threads| == 1 ==>
                free == old(free) && protocol.owned == old(protocol.owned) && head == old(head)
    {
      Preempt(t);
      P.StoreNextInv(discipline, protocol, free, t);
      next[idx] := current;
      protocol := P.Apply(protocol, P.StoreNext(t));
    }

    /** A winning compare-exchange of release. */
    method PushFront(ghost t: nat, idx: nat, current: nat)
      requires Valid() && t < |protocol.threads| && protocol.threads[t] == P.AtPush(idx, current) && head == current
      modifies this`head, this`protocol, this`free
      ensures Valid() && Released(t, idx, old(protocol), old(free), protocol, free)
    {
      assert P.ThreadInv(discipline, protocol, free, t);
      assert P.OnePlace(protocol, free, idx);
      free := P.PushInv(discipline, protocol, free, t);
      protocol := P.Apply(protocol, P.Push(t, false));
      head := idx;
    }

    /** Release's compare-exchange, in the same way. */
    method TryPush(ghost t: nat, idx: nat, current: nat, flaky: bool)
      returns (won: bool, found: nat, flaked: bool, ghost at: P.State, ghost list: seq<nat>)
      requires Valid() && t < |protocol.threads| && protocol.threads[t] == P.AtPush(idx, current)
      modifies this, next
      ensures Valid() && Rely(t, old(protocol), at) && P.Inv(discipline, at, list)
      ensures if won then Released(t, idx, at, list, protocol, free)
              else found == at.head && protocol == P.Goto(at, t, P.AtStore(idx, found)) && free == list
      ensures !won ==> Lost(discipline, t, false, Loss(at, current, flaked), list)
      ensures flaked ==> flaky
      ensures |at.threads| == 1 && current == old(head) ==> list == old(free) && (won || flaked)
    {
      Preempt(t);
      at, list, found := protocol, free, head;
      var spurious: bool := *;
      flaked := head == current && flaky && spurious;
      won := head == current && !flaked;
      if won {
        PushFront(t, idx, current);
      } else {
        LocalStep(P.Push(t, head == current));
      }
    }

    /** One round of the loop. */
    method Relink(ghost t: nat, idx: nat, current: nat, flaky: bool)
      returns (won: bool, found: nat, flaked: bool, ghost at: P.State, ghost list: seq<nat>)
      requires Valid() && t < |protocol.threads| && protocol.threads[t] == P.AtStore(idx, current)
      modifies this, next
      ensures Valid() && P.Inv(discipline, at, list) && |at.threads| == old(|protocol.threads|)
      ensures if won then Released(t, idx, at, list, protocol, free)
              else found == at.head && protocol == P.Goto(at, t, P.AtStore(idx, found)) && free == list
      ensures !won ==> Lost(discipline, t, false, Loss(at, current, flaked), list)
      ensures flaked ==> flaky
      ensures |at.threads| == 1 && current == old(head) ==>
                list == old(free) && at.owned == old(protocol.owned) && (won || flaked)
    {
      Link(t, idx, current);
      won, found, flaked, at, list := TryPush(t, idx, current, flaky);
    }

    /** The call, and the load of head. */
    method EnterRelease(ghost t: nat, idx: nat) returns (current: nat, ghost at: P.State)
      requires Valid() && P.Enabled(protocol, P.CallRelease(t, idx))
      requires P.Allowed(discipline, protocol, P.CallRelease(t, idx))
      modifies this, next
      ensures Valid() && P.Inv(discipline, at, free) && |at.threads| == old(|protocol.threads|)
      ensures t < |at.threads| && current == at.head && protocol == P.Goto(at, t, P.AtStore(idx, current))
      ensures |at.threads| == 1 ==> free == old(free) && at.owned == old(protocol.owned)[idx := 0]
    {
      assert P.OnePlace(protocol, free, idx);
      LocalStep(P.CallRelease(t, idx));
      Preempt(t);
      current, at := head, protocol;
      LocalStep(P.LoadCurrent(t));
    }

    /** `release` of a slot that is out: puts it in front of the list there is at `at`, or is still
        retrying, as in `acquire`. */
    method Release(ghost t: nat, idx: nat, rounds: nat, flakes: nat)
      returns (done: bool, ghost at: P.State, ghost list: seq<nat>, ghost losses: seq<Loss>)
      requires Valid() && P.Enabled(protocol, P.CallRelease(t, idx))
      requires P.Allowed(discipline, protocol, P.CallRelease(t, idx))
      modifies this, next
      ensures Valid() && P.Inv(discipline, at, list) && |at.threads| == old(|protocol.threads|)
      ensures if done then Released(t, idx, at, list, protocol, free)
              else t < |at.threads| && protocol == P.Goto(at, t, P.AtStore(idx, at.head)) && free == list
      ensures Earned(discipline, t, false, losses, rounds, flakes, done)
      ensures |at.threads| == 1 ==> list == old(free) && at.owned == old(protocol.owned)[idx := 0]
      ensures |at.threads| == 1 && flakes < rounds ==> done
    {
      var current;
      current, at := EnterRelease(t, idx);
      list, losses, done := free, [], false;
      var left, spare := rounds, flakes;
      while left > 0
        invariant Valid() && P.Inv(discipline, at, list) && current == at.head && free == list
        invariant t < |at.threads| == old(|protocol.threads|) && protocol == P.Goto(at, t, P.AtStore(idx, current))
        invariant |at.threads| == 1 ==> free == old(free) && at.owned == old(protocol.owned)[idx := 0]
        invariant Losses(discipline, t, false, losses, current) && |losses| + left == rounds && !done
        invariant SpuriousIn(losses) + spare == flakes && (|at.threads| == 1 ==> |losses| == SpuriousIn(losses))
        decreases left
      {
        var found, flaked;
        done, found, flaked, at, list := Relink(t, idx, current, spare > 0);
        if done {
          return;
        }
        LossesSnoc(discipline, t, false, losses, Loss(at, current, flaked));
        losses := losses + [Loss(at, current, flaked)];
        current, left, spare := found, left - 1, if flaked then spare - 1 else spare;
      }
    }
  }
}
