/** The fixed-size object pool as a transition system: an index-linked free list whose head is
    swung by compare-exchange, without a version tag. One step is one atomic load, store or
    compare-exchange. `next == size` and `head == size` are the null index. */
module PoolProtocol {

  datatype Thread =
    | Idle
    // inside acquire
    | AtHead                           // is about to load head
    | AtNext(idx: nat)                 // has a candidate
    | AtSwap(idx: nat, next: nat)      // has loaded the candidate's next
    // inside release
    | AtLoad(idx: nat)                 // is about to load head
    | AtStore(idx: nat, current: nat)  // is about to link the slot
    | AtPush(idx: nat, current: nat)   // has linked the slot
  {
    predicate Acquiring() { AtHead? || AtNext? || AtSwap? }
    predicate Releasing() { AtLoad? || AtStore? || AtPush? }
  }

  /** Two histories ride along: how often each slot is handed out and not yet passed back to
      `release`, and which thread passed it back last. */
  datatype State = State(
    next: seq<nat>, head: nat, threads: seq<Thread>, owned: seq<nat>, releasedBy: seq<nat>)
  {
    function Size(): nat { |next| }
  }

  datatype Step =
    | CallAcquire(t: nat)
    | LoadHead(t: nat)
    | LoadNext(t: nat)
    | Swap(t: nat, spurious: bool)
    | CallRelease(t: nat, idx: nat)
    | LoadCurrent(t: nat)
    | StoreNext(t: nat)
    | Push(t: nat, spurious: bool)

  function Init(size: nat, threads: nat): State {
    State(seq(size, i => i + 1), 0, seq(threads, i => Idle),
          seq(size, i => 0), seq(size, i => 0))
  }

  predicate WellFormed(s: State) {
    && |s.owned| == |s.releasedBy| == s.Size()
    && (forall t :: 0 <= t < |s.threads| && s.threads[t] != Idle && s.threads[t] != AtHead
                    ==> s.threads[t].idx < s.Size())
    && (forall t :: 0 <= t < |s.threads| && s.threads[t].AtSwap? ==> s.threads[t].next <= s.Size())
    && (forall t :: 0 <= t < |s.threads| && (s.threads[t].AtStore? || s.threads[t].AtPush?)
                    ==> s.threads[t].current <= s.Size())
    && s.head <= s.Size()
    && (forall i :: 0 <= i < s.Size() ==> s.next[i] <= s.Size())
  }

  /** A caller releases only what it was handed. */
  predicate Enabled(s: State, step: Step) {
    match step
    case CallAcquire(t) => t < |s.threads| && s.threads[t].Idle?
    case LoadHead(t) => t < |s.threads| && s.threads[t].AtHead?
    case LoadNext(t) => t < |s.threads| && s.threads[t].AtNext?
    case Swap(t, _) => t < |s.threads| && s.threads[t].AtSwap?
    case CallRelease(t, idx) => t < |s.threads| && s.threads[t].Idle? && idx < |s.owned| && s.owned[idx] > 0
    case LoadCurrent(t) => t < |s.threads| && s.threads[t].AtLoad?
    case StoreNext(t) => t < |s.threads| && s.threads[t].AtStore?
    case Push(t, _) => t < |s.threads| && s.threads[t].AtPush?
  }

  function Goto(s: State, t: nat, to: Thread): State
    requires t < |s.threads|
  {
    s.(threads := s.threads[t := to])
  }

  /** The top of acquire's loop: give up on the null index, else go on with the candidate. */
  function Candidate(s: State): Thread {
    if s.head == s.Size() then Idle else AtNext(s.head)
  }

  function Apply(s: State, step: Step): (s': State)
    requires WellFormed(s) && Enabled(s, step)
    ensures WellFormed(s') && s'.Size() == s.Size() && |s'.threads| == |s.threads|
  {
    match step
    case CallAcquire(t) => Goto(s, t, AtHead)
    case LoadHead(t) => Goto(s, t, Candidate(s))
    case LoadNext(t) =>
      var idx := s.threads[t].idx;
      Goto(s, t, AtSwap(idx, s.next[idx]))
    case Swap(t, spurious) =>
      var AtSwap(idx, next) := s.threads[t];
      if spurious || s.head != idx then Goto(s, t, Candidate(s))
      else Goto(s, t, Idle).(head := next, owned := s.owned[idx := s.owned[idx] + 1])  // hands out idx
    case CallRelease(t, idx) =>
      Goto(s, t, AtLoad(idx)).(
        owned := s.owned[idx := s.owned[idx] - 1], releasedBy := s.releasedBy[idx := t])
    case LoadCurrent(t) => Goto(s, t, AtStore(s.threads[t].idx, s.head))
    case StoreNext(t) =>
      var AtStore(idx, current) := s.threads[t];
      Goto(s, t, AtPush(idx, current)).(next := s.next[idx := current])
    case Push(t, spurious) =>
      var AtPush(idx, current) := s.threads[t];
      if spurious || s.head != current then Goto(s, t, AtStore(idx, s.head))
      else Goto(s, t, Idle).(head := idx)
  }

  /** How callers may use a pool. `OneSlot` restricts the pool instead of its callers. */
  datatype Discipline = SerialAcquires | NoReleases | OneSlot | Unrestricted

  predicate Allowed(d: Discipline, s: State, step: Step) {
    match d
    case SerialAcquires =>
      step.CallAcquire? ==> forall t :: 0 <= t < |s.threads| ==> !s.threads[t].Acquiring()
    case NoReleases => !step.CallRelease?
    case OneSlot => s.Size() == 1
    case Unrestricted => true
  }

  predicate IsRun(d: Discipline, s: State, steps: seq<Step>)
    requires WellFormed(s)
    decreases |steps|
  {
    steps == [] ||
    (Enabled(s, steps[0]) && Allowed(d, s, steps[0]) && IsRun(d, Apply(s, steps[0]), steps[1..]))
  }

  function Run(d: Discipline, s: State, steps: seq<Step>): (s': State)
    requires WellFormed(s) && IsRun(d, s, steps)
    ensures WellFormed(s') && s'.Size() == s.Size() && |s'.threads| == |s.threads|
    decreases |steps|
  {
    if steps == [] then s else Run(d, Apply(s, steps[0]), steps[1..])
  }

  /* ---- safety ---- */

  /** `free` is the whole list that starts at `head`: it ends at the null index. */
  predicate Chain(next: seq<nat>, head: nat, free: seq<nat>)
    decreases free
  {
    if free == [] then head == |next|
    else head == free[0] && head < |next| && Chain(next, next[head], free[1..])
  }

  /** Slot `i` is being released by the thread that last passed it back. */
  predicate Returning(s: State, i: nat)
    requires WellFormed(s) && i < s.Size()
  {
    var t := s.releasedBy[i];
    t < |s.threads| && s.threads[t].Releasing() && s.threads[t].idx == i
  }

  /** The slot is in exactly one place, once: in the list, handed out, or on its way back. */
  predicate OnePlace(s: State, free: seq<nat>, i: nat)
    requires WellFormed(s) && i < s.Size()
  {
    if i in free then s.owned[i] == 0 && !Returning(s, i)
    else if s.owned[i] == 0 then Returning(s, i)
    else s.owned[i] == 1 && !Returning(s, i)
  }

  /** The list from head is finite and without repetition, every slot is in one place, and no two
      threads release the same slot. */
  ghost predicate Partition(s: State, free: seq<nat>) {
    && WellFormed(s)
    && Chain(s.next, s.head, free)
    && (forall i, j :: 0 <= i < j < |free| ==> free[i] != free[j])
    && (forall i: nat :: i < s.Size() ==> OnePlace(s, free, i))
    && (forall t: nat :: t < |s.threads| && s.threads[t].Releasing() ==> s.releasedBy[s.threads[t].idx] == t)
  }

  ghost predicate Safe(s: State) {
    exists free :: Partition(s, free)
  }

  /* ---- the invariant ---- */

  ghost predicate ThreadInv(d: Discipline, s: State, free: seq<nat>, t: nat)
    requires t < |s.threads|
  {
    match s.threads[t]
    case Idle => true
    case AtHead => true
    case AtNext(idx) => idx < s.Size() && (d.SerialAcquires? ==> idx in free)
    case AtSwap(idx, next) => idx < s.Size() && s.next[idx] == next && (d.SerialAcquires? ==> idx in free)
    case AtLoad(_) => true
    case AtStore(_, current) => current <= s.Size() && (d.OneSlot? ==> current == 1)
    case AtPush(idx, current) => idx < s.Size() && s.next[idx] == current
  }

  ghost predicate DisciplineInv(d: Discipline, s: State) {
    match d
    case SerialAcquires =>
      forall t, u :: 0 <= t < u < |s.threads| ==> !(s.threads[t].Acquiring() && s.threads[u].Acquiring())
    case NoReleases => forall t :: 0 <= t < |s.threads| ==> !s.threads[t].Releasing()
    case OneSlot => s.next == [1]
    case Unrestricted => false
  }

  ghost predicate Inv(d: Discipline, s: State, free: seq<nat>) {
    && Partition(s, free)
    && DisciplineInv(d, s)
    && forall t :: 0 <= t < |s.threads| ==> ThreadInv(d, s, free, t)
  }

  /* ---- facts about lists ---- */

  lemma {:induction false} ChainInRange(next: seq<nat>, head: nat, free: seq<nat>)
    requires Chain(next, head, free)
    ensures head == |next| <==> free == []
    ensures forall k :: 0 <= k < |free| ==> free[k] < |next|
    decreases |free|
  {
    if free != [] {
      ChainInRange(next, next[head], free[1..]);
    }
  }

  lemma {:induction false} ChainUnique(next: seq<nat>, head: nat, a: seq<nat>, b: seq<nat>)
    requires Chain(next, head, a) && Chain(next, head, b)
    ensures a == b
    decreases |a|
  {
    if a != [] {
      ChainUnique(next, next[head], a[1..], b[1..]);
    }
  }

  lemma {:induction false} ChainSuffix(next: seq<nat>, head: nat, free: seq<nat>, k: nat)
    requires Chain(next, head, free) && k < |free|
    ensures Chain(next, free[k], free[k..])
    decreases k
  {
    if k > 0 {
      ChainSuffix(next, next[head], free[1..], k - 1);
      assert free[1..][k - 1..] == free[k..];
    }
  }

  /** Relinking a slot outside the list does not change the list. */
  lemma {:induction false} ChainFrame(next: seq<nat>, head: nat, free: seq<nat>, idx: nat, to: nat)
    requires Chain(next, head, free) && idx < |next| && idx !in free
    ensures Chain(next[idx := to], head, free)
    decreases |free|
  {
    if free != [] {
      ChainFrame(next, next[head], free[1..], idx, to);
    }
  }

  /** In a new pool, the list from `i` counts up to the last slot. */
  lemma {:induction false} FreshChain(size: nat, i: nat) returns (free: seq<nat>)
    requires i <= size
    ensures Chain(seq(size, j => j + 1), i, free)
    ensures |free| == size - i && forall k :: 0 <= k < |free| ==> free[k] == i + k
    decreases size - i
  {
    if i == size {
      free := [];
    } else {
      var rest := FreshChain(size, i + 1);
      free := [i] + rest;
      assert free[1..] == rest;
    }
  }

  /* ---- preservation ---- */

  lemma InitInv(d: Discipline, size: nat, threads: nat)
    requires !d.Unrestricted? && (d.OneSlot? ==> size == 1)
    ensures exists free :: Inv(d, Init(size, threads), free)
  {
    var free := FreshChain(size, 0);
    FreshInv(d, size, threads, free);
  }

  lemma FreshInv(d: Discipline, size: nat, threads: nat, free: seq<nat>)
    requires !d.Unrestricted? && (d.OneSlot? ==> size == 1)
    requires Chain(seq(size, j => j + 1), 0, free)
    requires |free| == size && forall k :: 0 <= k < size ==> free[k] == k
    ensures Inv(d, Init(size, threads), free)
  {
    var s := Init(size, threads);
    forall i: nat | i < size ensures OnePlace(s, free, i) {
      assert free[i] == i;
    }
  }

  /** The steps that leave the list and the slots' whereabouts alone. */
  lemma MoveInv(d: Discipline, s: State, free: seq<nat>, t: nat, to: Thread)
    requires Inv(d, s, free) && t < |s.threads|
    requires WellFormed(Goto(s, t, to))
    requires to.Releasing() == s.threads[t].Releasing()
    requires to.Releasing() ==> to.idx == s.threads[t].idx
    requires d.SerialAcquires? && to.Acquiring() ==>
               forall u :: 0 <= u < |s.threads| && u != t ==> !s.threads[u].Acquiring()
    requires ThreadInv(d, Goto(s, t, to), free, t)
    ensures Inv(d, Goto(s, t, to), free)
  {
    var s' := Goto(s, t, to);
    forall i: nat | i < s.Size() ensures OnePlace(s', free, i) {
      assert OnePlace(s, free, i);
    }
    forall u | 0 <= u < |s'.threads| ensures ThreadInv(d, s', free, u) {
      assert u != t ==> ThreadInv(d, s, free, u);
    }
  }

  lemma SwapInv(d: Discipline, s: State, free: seq<nat>, t: nat) returns (free': seq<nat>)
    requires Inv(d, s, free) && Enabled(s, Swap(t, false)) && s.head == s.threads[t].idx
    ensures Inv(d, Apply(s, Swap(t, false)), free')
    ensures free == [s.head] + free'
  {
    var s' := Apply(s, Swap(t, false));
    assert ThreadInv(d, s, free, t);
    assert free != [];
    free' := free[1..];
    forall i: nat | i < s.Size() ensures OnePlace(s', free', i) {
      assert OnePlace(s, free, i);
      assert i in free <==> i == free[0] || i in free';
      assert i in free' ==> i != free[0];
    }
    forall u | 0 <= u < |s'.threads| ensures ThreadInv(d, s', free', u) {
      assert u != t ==> ThreadInv(d, s, free, u);
    }
  }

  lemma CallReleaseInv(d: Discipline, s: State, free: seq<nat>, t: nat, idx: nat)
    requires Inv(d, s, free) && Enabled(s, CallRelease(t, idx)) && Allowed(d, s, CallRelease(t, idx))
    ensures Inv(d, Apply(s, CallRelease(t, idx)), free)
  {
    var s' := Apply(s, CallRelease(t, idx));
    assert OnePlace(s, free, idx);
    forall i: nat | i < s.Size() ensures OnePlace(s', free, i) {
      assert OnePlace(s, free, i);
    }
    forall u | 0 <= u < |s'.threads| ensures ThreadInv(d, s', free, u) {
      assert u != t ==> ThreadInv(d, s, free, u);
    }
  }

  lemma StoreNextInv(d: Discipline, s: State, free: seq<nat>, t: nat)
    requires Inv(d, s, free) && Enabled(s, StoreNext(t))
    ensures Inv(d, Apply(s, StoreNext(t)), free)
  {
    var s' := Apply(s, StoreNext(t));
    var AtStore(idx, current) := s.threads[t];
    assert ThreadInv(d, s, free, t);
    assert OnePlace(s, free, idx);
    assert idx !in free;
    ChainFrame(s.next, s.head, free, idx, current);
    forall i: nat | i < s.Size() ensures OnePlace(s', free, i) {
      assert OnePlace(s, free, i);
    }
    forall u | 0 <= u < |s'.threads| ensures ThreadInv(d, s', free, u) {
      assert u != t ==> ThreadInv(d, s, free, u);
    }
  }

  lemma PushInv(d: Discipline, s: State, free: seq<nat>, t: nat) returns (free': seq<nat>)
    requires Inv(d, s, free) && Enabled(s, Push(t, false)) && s.head == s.threads[t].current
    ensures Inv(d, Apply(s, Push(t, false)), free')
    ensures free' == [s.threads[t].idx] + free
  {
    var s' := Apply(s, Push(t, false));
    var AtPush(idx, current) := s.threads[t];
    assert ThreadInv(d, s, free, t);
    assert OnePlace(s, free, idx);
    free' := [idx] + free;
    assert free'[1..] == free;
    forall i: nat | i < s.Size() ensures OnePlace(s', free', i) {
      assert OnePlace(s, free, i);
      assert i in free' <==> i == idx || i in free;
    }
    forall u | 0 <= u < |s'.threads| ensures ThreadInv(d, s', free', u) {
      assert u != t ==> ThreadInv(d, s, free, u);
    }
  }

  /** A releasing thread's fresh reading of head. */
  lemma ReloadInv(d: Discipline, s: State, free: seq<nat>, t: nat)
    requires Inv(d, s, free) && t < |s.threads| && s.threads[t].Releasing()
    ensures Inv(d, Goto(s, t, AtStore(s.threads[t].idx, s.head)), free)
  {
    ChainInRange(s.next, s.head, free);
    assert OnePlace(s, free, s.threads[t].idx);
    assert d.OneSlot? ==> free == [] by {
      assert free != [] ==> free[0] in free;
    }
    MoveInv(d, s, free, t, AtStore(s.threads[t].idx, s.head));
  }

  /** An acquiring thread's fresh reading of head. */
  lemma CandidateInv(d: Discipline, s: State, free: seq<nat>, t: nat)
    requires Inv(d, s, free) && t < |s.threads| && (s.threads[t].AtHead? || s.threads[t].AtSwap?)
    ensures Inv(d, Goto(s, t, Candidate(s)), free)
  {
    ChainInRange(s.next, s.head, free);
    MoveInv(d, s, free, t, Candidate(s));
  }

  lemma LoadNextInv(d: Discipline, s: State, free: seq<nat>, t: nat)
    requires Inv(d, s, free) && Enabled(s, LoadNext(t))
    ensures Inv(d, Apply(s, LoadNext(t)), free)
  {
    assert ThreadInv(d, s, free, t);
    MoveInv(d, s, free, t, AtSwap(s.threads[t].idx, s.next[s.threads[t].idx]));
  }

  lemma CallAcquireInv(d: Discipline, s: State, free: seq<nat>, t: nat)
    requires Inv(d, s, free) && Enabled(s, CallAcquire(t)) && Allowed(d, s, CallAcquire(t))
    ensures Inv(d, Apply(s, CallAcquire(t)), free)
  {
    MoveInv(d, s, free, t, AtHead);
  }

  /** The steps that leave the list itself alone. */
  lemma QuietStepInv(d: Discipline, s: State, free: seq<nat>, step: Step)
    requires Inv(d, s, free) && Enabled(s, step) && Allowed(d, s, step)
    requires step.Swap? ==> step.spurious || s.head != s.threads[step.t].idx
    requires step.Push? ==> step.spurious || s.head != s.threads[step.t].current
    ensures Inv(d, Apply(s, step), free)
  {
    match step
    case CallAcquire(t) => CallAcquireInv(d, s, free, t);
    case LoadHead(t) => CandidateInv(d, s, free, t);
    case LoadNext(t) => LoadNextInv(d, s, free, t);
    case Swap(t, _) => CandidateInv(d, s, free, t);
    case CallRelease(t, idx) => CallReleaseInv(d, s, free, t, idx);
    case LoadCurrent(t) => ReloadInv(d, s, free, t);
    case StoreNext(t) => StoreNextInv(d, s, free, t);
    case Push(t, _) => ReloadInv(d, s, free, t);
  }

  lemma StepInv(d: Discipline, s: State, free: seq<nat>, step: Step) returns (free': seq<nat>)
    requires Inv(d, s, free) && Enabled(s, step) && Allowed(d, s, step)
    ensures Inv(d, Apply(s, step), free')
  {
    if step.Swap? && !step.spurious && s.head == s.threads[step.t].idx {
      free' := SwapInv(d, s, free, step.t);
    } else if step.Push? && !step.spurious && s.head == s.threads[step.t].current {
      free' := PushInv(d, s, free, step.t);
    } else {
      free' := free;
      QuietStepInv(d, s, free, step);
    }
  }

  lemma {:induction false} RunInv(d: Discipline, s: State, free: seq<nat>, steps: seq<Step>)
    returns (free': seq<nat>)
    requires Inv(d, s, free) && IsRun(d, s, steps)
    ensures Inv(d, Run(d, s, steps), free')
    decreases |steps|
  {
    if steps == [] {
      free' := free;
    } else {
      var mid := StepInv(d, s, free, steps[0]);
      free' := RunInv(d, Apply(s, steps[0]), mid, steps[1..]);
    }
  }

  /* ---- what the invariant says about every run ---- */

  lemma SafeOwnedOnce(s: State)
    requires WellFormed(s)
    ensures Safe(s) ==> forall i :: 0 <= i < s.Size() ==> s.owned[i] <= 1
  {
    if Safe(s) {
      var free :| Partition(s, free);
      forall i | 0 <= i < s.Size() ensures s.owned[i] <= 1 {
        assert OnePlace(s, free, i);
      }
    }
  }

  /** A run that meets one of the other disciplines ends in a safe state. */
  lemma DisciplinedRun(d: Discipline, size: nat, threads: nat, steps: seq<Step>)
    requires !d.Unrestricted? && (d.OneSlot? ==> size == 1)
    requires IsRun(d, Init(size, threads), steps)
    ensures Safe(Run(d, Init(size, threads), steps))
  {
    InitInv(d, size, threads);
    var free :| Inv(d, Init(size, threads), free);
    var free' := RunInv(d, Init(size, threads), free, steps);
  }

  /** With acquires one at a time among any releases, or with no releases at all, every
      interleaving keeps the list finite and each slot in one place: none is handed out twice. */
  lemma GuardedSafety(d: Discipline, size: nat, threads: nat, steps: seq<Step>)
    requires d.SerialAcquires? || d.NoReleases?
    requires IsRun(d, Init(size, threads), steps)
    ensures var s := Run(d, Init(size, threads), steps);
            && Safe(s)
            && forall i :: 0 <= i < size ==> s.owned[i] <= 1
  {
    DisciplinedRun(d, size, threads, steps);
    SafeOwnedOnce(Run(d, Init(size, threads), steps));
  }

  /** `acquire` gives up, at a reading of head, exactly when no slot is free. */
  lemma NullVerdict(d: Discipline, s: State, free: seq<nat>, t: nat, spurious: bool)
    requires Inv(d, s, free)
    ensures Enabled(s, LoadHead(t)) ==> (Apply(s, LoadHead(t)).threads[t].Idle? <==> free == [])
    ensures Enabled(s, Swap(t, spurious)) && (spurious || s.head != s.threads[t].idx) ==>
              (Apply(s, Swap(t, spurious)).threads[t].Idle? <==> free == [])
  {
    ChainInRange(s.next, s.head, free);
  }

  /** Under no discipline at all, a winning compare-exchange of `acquire` keeps the pool safe
      exactly when the link it saved is still the slot's link. */
  lemma SwapSafeIff(s: State, t: nat)
    requires Safe(s) && Enabled(s, Swap(t, false)) && s.head == s.threads[t].idx
    ensures Safe(Apply(s, Swap(t, false))) <==> s.threads[t].next == s.next[s.head]
  {
    var free :| Partition(s, free);
    var s' := Apply(s, Swap(t, false));
    assert free != [] && free[0] == s.head;
    var rest := free[1..];
    if s.threads[t].next == s.next[s.head] {
      SwapKeepsPartition(s, t, free);
    } else if Safe(s') {
      var free' :| Partition(s', free');
      SwapLosesSlot(s, t, free, free');
    }
  }

  lemma SwapKeepsPartition(s: State, t: nat, free: seq<nat>)
    requires Partition(s, free) && Enabled(s, Swap(t, false)) && s.head == s.threads[t].idx
    requires s.threads[t].next == s.next[s.head]
    ensures free != [] && Partition(Apply(s, Swap(t, false)), free[1..])
  {
    var s' := Apply(s, Swap(t, false));
    assert free != [];
    forall i: nat | i < s.Size() ensures OnePlace(s', free[1..], i) {
      assert OnePlace(s, free, i);
      assert i in free <==> i == free[0] || i in free[1..];
      assert i in free[1..] ==> i != free[0];
    }
  }

  lemma NothingIn(a: seq<nat>)
    ensures (forall i: nat :: i !in a) ==> a == []
  {
    assert a != [] ==> a[0] in a;
  }

  /** The two lists would have to hold the same slots, so the second starts where the first goes on. */
  lemma SwapLosesSlot(s: State, t: nat, free: seq<nat>, free': seq<nat>)
    requires Partition(s, free) && Enabled(s, Swap(t, false)) && s.head == s.threads[t].idx
    requires Partition(Apply(s, Swap(t, false)), free')
    ensures s.threads[t].next == s.next[s.head]
  {
    var s' := Apply(s, Swap(t, false));
    assert free != [] && free[0] == s.head;
    forall i: nat | i < s.Size() ensures i in free' <==> i in free && i != s.head {
      assert OnePlace(s, free, i) && OnePlace(s', free', i);
    }
    SameSlotsLess(s.next, s.head, free, s'.head, free');
  }

  /** Two lists over the same links, the second of all the first's slots but its head: then it
      starts where the first goes on. */
  lemma SameSlotsLess(next: seq<nat>, head: nat, free: seq<nat>, head': nat, free': seq<nat>)
    requires free != [] && Chain(next, head, free) && Chain(next, head', free')
    requires forall i, j :: 0 <= i < j < |free| ==> free[i] != free[j]
    requires forall i: nat :: i < |next| ==> (i in free' <==> i in free && i != head)
    ensures head' == next[head]
  {
    assert Chain(next, next[head], free[1..]);
    ChainInRange(next, head, free);
    ChainInRange(next, head', free');
    if |free| > 1 {
      assert free[1] in free && free[1] != head;
      assert free' != [] && free'[0] in free';
      var k :| 0 <= k < |free| && free[k] == free'[0];
      ChainSuffix(next, head, free, k);
      ChainUnique(next, free[k], free[k..], free');
      assert free[1] in free';
      var j :| 0 <= j < |free'| && free'[j] == free[1];
      assert free[k..][j] == free[k + j];
    } else {
      NothingIn(free');
    }
  }

  /* ---- without a discipline ---- */

  /** Every interleaving of this many threads keeps a pool of this size safe. */
  ghost predicate AlwaysSafe(size: nat, threads: nat) {
    forall steps: seq<Step> ::
      IsRun(Unrestricted, Init(size, threads), steps) ==> Safe(Run(Unrestricted, Init(size, threads), steps))
  }

  /** What one thread alone does is acquires one at a time. */
  lemma {:induction false} OneThreadRuns(s: State, steps: seq<Step>)
    requires WellFormed(s) && |s.threads| <= 1 && IsRun(Unrestricted, s, steps)
    ensures IsRun(SerialAcquires, s, steps) && Run(SerialAcquires, s, steps) == Run(Unrestricted, s, steps)
    decreases |steps|
  {
    if steps != [] {
      OneThreadRuns(Apply(s, steps[0]), steps[1..]);
    }
  }

  lemma {:induction false} OneSlotRuns(s: State, steps: seq<Step>)
    requires WellFormed(s) && s.Size() == 1 && IsRun(Unrestricted, s, steps)
    ensures IsRun(OneSlot, s, steps) && Run(OneSlot, s, steps) == Run(Unrestricted, s, steps)
    decreases |steps|
  {
    if steps != [] {
      OneSlotRuns(Apply(s, steps[0]), steps[1..]);
    }
  }

  lemma {:induction false} RunSnoc(s: State, steps: seq<Step>, step: Step)
    requires WellFormed(s) && IsRun(Unrestricted, s, steps) && Enabled(Run(Unrestricted, s, steps), step)
    ensures IsRun(Unrestricted, s, steps + [step])
    ensures Run(Unrestricted, s, steps + [step]) == Apply(Run(Unrestricted, s, steps), step)
    decreases |steps|
  {
    if steps == [] {
      assert steps + [step] == [step];
    } else {
      assert (steps + [step])[1..] == steps[1..] + [step];
      RunSnoc(Apply(s, steps[0]), steps[1..], step);
    }
  }

  /** These steps take a new pool to `s`. */
  ghost predicate Reaches(size: nat, threads: nat, steps: seq<Step>, s: State) {
    IsRun(Unrestricted, Init(size, threads), steps) && Run(Unrestricted, Init(size, threads), steps) == s
  }

  /** A state some interleaving of a new pool reaches. */
  ghost predicate Reachable(size: nat, threads: nat, s: State) {
    exists steps :: Reaches(size, threads, steps, s)
  }

  lemma ReachStep(size: nat, threads: nat, s: State, step: Step)
    requires Reachable(size, threads, s) && WellFormed(s) && Enabled(s, step)
    ensures Reachable(size, threads, Apply(s, step))
  {
    var steps :| Reaches(size, threads, steps, s);
    RunSnoc(Init(size, threads), steps, step);
    assert Reaches(size, threads, steps + [step], Apply(s, step));
  }

  /** What the first three steps of an undisturbed acquire come to. */
  lemma ReachSwap(size: nat, threads: nat, s: State, t: nat) returns (s': State)
    requires Reachable(size, threads, s) && WellFormed(s)
    requires t < |s.threads| && s.threads[t].Idle? && s.head < s.Size()
    ensures Reachable(size, threads, s') && WellFormed(s')
    ensures s' == Goto(s, t, AtSwap(s.head, s.next[s.head]))
  {
    ReachStep(size, threads, s, CallAcquire(t));
    var s1 := Apply(s, CallAcquire(t));
    ReachStep(size, threads, s1, LoadHead(t));
    var s2 := Apply(s1, LoadHead(t));
    assert s2 == Goto(s, t, AtNext(s.head));
    ReachStep(size, threads, s2, LoadNext(t));
    s' := Apply(s2, LoadNext(t));
  }

  lemma SwapWins(s: State, t: nat, s1: State)
    requires WellFormed(s) && t < |s.threads| && s.threads[t].Idle? && s.head < s.Size()
    requires s1 == Goto(s, t, AtSwap(s.head, s.next[s.head])) && WellFormed(s1)
    ensures Apply(s1, Swap(t, false))
            == s.(head := s.next[s.head], owned := s.owned[s.head := s.owned[s.head] + 1])
  {
    assert s1.threads[t := Idle] == s.threads;
  }

  /** An idle thread acquires the head of the list with nobody in its way. */
  lemma AcquireAlone(size: nat, threads: nat, s: State, t: nat) returns (s': State)
    requires Reachable(size, threads, s) && WellFormed(s)
    requires t < |s.threads| && s.threads[t].Idle? && s.head < s.Size()
    ensures Reachable(size, threads, s') && WellFormed(s')
    ensures s' == s.(head := s.next[s.head], owned := s.owned[s.head := s.owned[s.head] + 1])
  {
    var s1 := ReachSwap(size, threads, s, t);
    ReachStep(size, threads, s1, Swap(t, false));
    SwapWins(s, t, s1);
    s' := Apply(s1, Swap(t, false));
  }

  lemma ReachStore(size: nat, threads: nat, s: State, t: nat, idx: nat) returns (s': State)
    requires Reachable(size, threads, s) && WellFormed(s) && Enabled(s, CallRelease(t, idx))
    ensures Reachable(size, threads, s') && WellFormed(s')
    ensures s' == Goto(s, t, AtStore(idx, s.head)).(
                    owned := s.owned[idx := s.owned[idx] - 1], releasedBy := s.releasedBy[idx := t])
  {
    ReachStep(size, threads, s, CallRelease(t, idx));
    var s1 := Apply(s, CallRelease(t, idx));
    ReachStep(size, threads, s1, LoadCurrent(t));
    s' := Apply(s1, LoadCurrent(t));
  }

  /** An idle thread releases a slot with nobody in its way. */
  lemma ReleaseAlone(size: nat, threads: nat, s: State, t: nat, idx: nat) returns (s': State)
    requires Reachable(size, threads, s) && WellFormed(s) && Enabled(s, CallRelease(t, idx))
    ensures Reachable(size, threads, s') && WellFormed(s')
    ensures s' == s.(head := idx, next := s.next[idx := s.head], owned := s.owned[idx := s.owned[idx] - 1],
                     releasedBy := s.releasedBy[idx := t])
  {
    var s2 := ReachStore(size, threads, s, t, idx);
    ReachStep(size, threads, s2, StoreNext(t));
    var s3 := Apply(s2, StoreNext(t));
    ReachStep(size, threads, s3, Push(t, false));
    s' := Apply(s3, Push(t, false));
    assert s'.threads == s.threads;
  }

  /** Thread 0 reads the head 0 and its link 1 and is preempted; thread 1 takes slots 0 and 1 and
      gives 0 back, so the head is 0 again while its link is no longer 1. */
  lemma StaleLink(size: nat, threads: nat) returns (s: State)
    requires size >= 2 && threads >= 2
    ensures Reachable(size, threads, s) && WellFormed(s) && s.Size() == size && |s.threads| == threads
    ensures s.threads[0] == AtSwap(0, 1) && s.threads[1].Idle? && s.head == 0 && s.next[0] != 1 && s.owned[1] == 1
  {
    var s0 := Init(size, threads);
    assert Reaches(size, threads, [], s0);
    var s1 := ReachSwap(size, threads, s0, 0);
    var s3 := TakeTwo(size, threads, s1);
    s := ReleaseAlone(size, threads, s3, 1, 0);
  }

  /** Thread 1 takes the first two slots. */
  lemma TakeTwo(size: nat, threads: nat, s: State) returns (s': State)
    requires size >= 2 && threads >= 2 && Reachable(size, threads, s)
    requires s == Goto(Init(size, threads), 0, AtSwap(0, 1))
    ensures Reachable(size, threads, s') && WellFormed(s') && s'.Size() == size
    ensures s' == s.(head := 2, owned := s'.owned) && s'.owned[0] == 1 && s'.owned[1] == 1
  {
    var s2 := AcquireAlone(size, threads, s, 1);
    s' := AcquireAlone(size, threads, s2, 1);
  }

  /** Thread 0's compare-exchange then installs the stale link, and the next acquire is handed
      slot 1, which is still out. */
  lemma HandedOutTwice(size: nat, threads: nat) returns (s: State)
    requires size >= 2 && threads >= 2
    ensures Reachable(size, threads, s) && WellFormed(s) && s.Size() == size
    ensures s.owned[1] == 2
  {
    var s1 := StaleLink(size, threads);
    ReachStep(size, threads, s1, Swap(0, false));
    var s2 := Apply(s1, Swap(0, false));
    s := AcquireAlone(size, threads, s2, 1);
  }

  /** Without any discipline on its callers, the pool is safe in every interleaving exactly when
      it has a single slot or no more than one caller. */
  lemma AlwaysSafeIff(size: nat, threads: nat)
    requires size > 0
    ensures AlwaysSafe(size, threads) <==> size == 1 || threads <= 1
  {
    var s0 := Init(size, threads);
    if size == 1 || threads <= 1 {
      forall steps: seq<Step> | IsRun(Unrestricted, s0, steps) ensures Safe(Run(Unrestricted, s0, steps)) {
        if size == 1 {
          OneSlotRuns(s0, steps);
          DisciplinedRun(OneSlot, size, threads, steps);
        } else {
          OneThreadRuns(s0, steps);
          DisciplinedRun(SerialAcquires, size, threads, steps);
        }
      }
    } else {
      var s := HandedOutTwice(size, threads);
      var steps :| Reaches(size, threads, steps, s);
      SafeOwnedOnce(s);
      assert !Safe(Run(Unrestricted, s0, steps));
    }
  }
}
