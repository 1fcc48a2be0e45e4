/** The ticker registry: a map under double-checked locking, filled from the state pool. Callers
    interleave at every lock operation, map access and atomic access of the pool. */
module RegistryProtocol {
  import opened Wrappers
  import P = PoolProtocol

  datatype Caller =
    | Outside
    | Wanting(key: string)                         // is about to take the shared lock
    | Reading(key: string)                         // holds the shared lock
    | Read(key: string, found: Option<nat>)        // still holds it, has looked
    | Missed(key: string)                          // holds nothing
    | Checking(key: string)                        // holds the exclusive lock
    | Acquiring(key: string)                       // has missed again; is in the pool's acquire
    | Storing(key: string, slot: nat)              // has a slot
    | Inserting(key: string, slot: nat)            // the map is half changed
    | Leaving(key: string, result: Option<nat>)    // still holds the exclusive lock
  {
    predicate Shares() { Reading? || Read? }
    predicate Excludes() { Checking? || Acquiring? || Storing? || Inserting? || Leaving? }
  }

  datatype Answer = Answer(key: string, slot: Option<nat>)

  /** Two histories ride along: the ticker each slot was acquired for, and the answers given. */
  datatype State = State(
    registry: map<string, nat>, readers: set<nat>, writer: Option<nat>, callers: seq<Caller>,
    pool: P.State, holder: map<nat, string>, answers: seq<Answer>)

  datatype Step =
    | Call(t: nat, key: string)
    | LockShared(t: nat)
    | FindShared(t: nat)
    | UnlockShared(t: nat)
    | LockExclusive(t: nat)
    | FindAgain(t: nat)
    | InPool(t: nat, step: P.Step)
    | BeginInsert(t: nat)
    | EndInsert(t: nat)
    | UnlockExclusive(t: nat)

  function Init(size: nat, callers: nat): State {
    State(map[], {}, None, seq(callers, i => Outside), P.Init(size, callers), map[], [])
  }

  predicate WellFormed(s: State) {
    P.WellFormed(s.pool) && |s.pool.threads| == |s.callers|
  }

  /** The pool is never given a slot back. */
  predicate Enabled(s: State, step: Step) {
    step.t < |s.callers| &&
    var c := s.callers[step.t];
    match step
    case Call(_, _) => c.Outside?
    case LockShared(_) => c.Wanting? && s.writer.None?
    case FindShared(_) => c.Reading?
    case UnlockShared(_) => c.Read?
    case LockExclusive(_) => c.Missed? && s.writer.None? && s.readers == {}
    case FindAgain(_) => c.Checking?
    case InPool(t, p) =>
      c.Acquiring? && p.t == t && (p.CallAcquire? || p.LoadHead? || p.LoadNext? || p.Swap?) && P.Enabled(s.pool, p)
    case BeginInsert(_) => c.Storing?
    case EndInsert(_) => c.Inserting?
    case UnlockExclusive(_) => c.Leaving?
  }

  function Find(s: State, key: string): Option<nat> {
    if key in s.registry then Some(s.registry[key]) else None
  }

  function Goto(s: State, t: nat, to: Caller): State
    requires t < |s.callers|
  {
    s.(callers := s.callers[t := to])
  }

  /** The compare-exchange that hands out its candidate. */
  predicate Wins(pool: P.State, p: P.Step)
    requires P.WellFormed(pool) && P.Enabled(pool, p)
  {
    p.Swap? && !p.spurious && pool.head == pool.threads[p.t].idx
  }

  function ApplyInPool(s: State, t: nat, p: P.Step): State
    requires WellFormed(s) && Enabled(s, InPool(t, p))
  {
    var key, pool := s.callers[t].key, P.Apply(s.pool, p);
    if Wins(s.pool, p) then
      var slot := s.pool.head;
      Goto(s, t, Storing(key, slot)).(pool := pool, holder := s.holder[slot := key])
    else
      Goto(s, t, if pool.threads[t].Idle? then Leaving(key, None) else Acquiring(key)).(pool := pool)
  }

  function Apply(s: State, step: Step): (s': State)
    requires WellFormed(s) && Enabled(s, step)
    ensures WellFormed(s') && |s'.callers| == |s.callers| && s'.pool.Size() == s.pool.Size()
  {
    match step
    case Call(t, key) => Goto(s, t, Wanting(key))
    case LockShared(t) => Goto(s, t, Reading(s.callers[t].key)).(readers := s.readers + {t})
    case FindShared(t) => Goto(s, t, Read(s.callers[t].key, Find(s, s.callers[t].key)))
    case UnlockShared(t) =>
      var Read(key, found) := s.callers[t];
      var s1 := s.(readers := s.readers - {t});
      if found.Some? then Goto(s1, t, Outside).(answers := s.answers + [Answer(key, found)])
      else Goto(s1, t, Missed(key))
    case LockExclusive(t) => Goto(s, t, Checking(s.callers[t].key)).(writer := Some(t))
    case FindAgain(t) =>
      var key := s.callers[t].key;
      var found := Find(s, key);
      Goto(s, t, if found.Some? then Leaving(key, found) else Acquiring(key))
    case InPool(t, p) => ApplyInPool(s, t, p)
    case BeginInsert(t) => Goto(s, t, Inserting(s.callers[t].key, s.callers[t].slot))
    case EndInsert(t) =>
      var Inserting(key, slot) := s.callers[t];
      Goto(s, t, Leaving(key, Some(slot))).(registry := s.registry[key := slot])
    case UnlockExclusive(t) =>
      var Leaving(key, result) := s.callers[t];
      Goto(s, t, Outside).(writer := None, answers := s.answers + [Answer(key, result)])
  }

  /** A step moves its own caller only, which keeps its ticker until it leaves with an answer. */
  lemma OneCallerMoves(s: State, step: Step)
    requires WellFormed(s) && Enabled(s, step)
    ensures forall u :: 0 <= u < |s.callers| && u != step.t ==> Apply(s, step).callers[u] == s.callers[u]
    ensures var c, c' := s.callers[step.t], Apply(s, step).callers[step.t];
            if step.Call? then !c'.Outside? && c'.key == step.key
            else !c.Outside? && (!c'.Outside? ==> c'.key == c.key)
    ensures var s' := Apply(s, step);
            if s'.callers[step.t].Outside?
            then |s'.answers| == |s.answers| + 1 && s'.answers[..|s.answers|] == s.answers
                 && s'.answers[|s.answers|].key == s.callers[step.t].key
            else s'.answers == s.answers
  {
  }

  predicate IsRun(s: State, steps: seq<Step>)
    requires WellFormed(s)
    decreases |steps|
  {
    steps == [] || (Enabled(s, steps[0]) && IsRun(Apply(s, steps[0]), steps[1..]))
  }

  function Run(s: State, steps: seq<Step>): (s': State)
    requires WellFormed(s) && IsRun(s, steps)
    ensures WellFormed(s') && s'.pool.Size() == s.pool.Size()
    decreases |steps|
  {
    if steps == [] then s else Run(Apply(s, steps[0]), steps[1..])
  }

  /* ---- the invariant ---- */

  ghost predicate LockInv(s: State) {
    && (forall t: nat :: t in s.readers <==> t < |s.callers| && s.callers[t].Shares())
    && (forall t: nat :: s.writer == Some(t) <==> t < |s.callers| && s.callers[t].Excludes())
    && (s.writer.Some? ==> s.readers == {})
  }

  ghost predicate PoolInv(s: State) {
    && WellFormed(s)
    && (exists free :: P.Inv(P.NoReleases, s.pool, free))
    && (forall t :: 0 <= t < |s.callers| && !s.callers[t].Acquiring? ==> s.pool.threads[t].Idle?)
    && (forall i: nat :: i in s.holder <==> i < s.pool.Size() && s.pool.owned[i] > 0)
  }

  /** The exclusive holder has slot `i` for `key` and has yet to enter it. */
  predicate Carries(s: State, i: nat, key: string) {
    && s.writer.Some? && s.writer.value < |s.callers|
    && var c := s.callers[s.writer.value];
       (c.Storing? || c.Inserting?) && c.slot == i && c.key == key
  }

  ghost predicate MapInv(s: State) {
    && (forall key :: key in s.registry ==> s.registry[key] in s.holder && s.holder[s.registry[key]] == key)
    && (forall i :: i in s.holder ==>
          (s.holder[i] in s.registry && s.registry[s.holder[i]] == i) || Carries(s, i, s.holder[i]))
  }

  /** Every slot is registered, and not to `key`. */
  ghost predicate Refused(s: State, key: string) {
    && key !in s.registry
    && forall i: nat :: i < s.pool.Size() ==>
         i in s.holder && s.holder[i] in s.registry && s.registry[s.holder[i]] == i
  }

  ghost predicate Right(s: State, key: string, result: Option<nat>) {
    match result
    case Some(slot) => key in s.registry && s.registry[key] == slot
    case None => Refused(s, key)
  }

  ghost predicate CallerInv(s: State, c: Caller) {
    match c
    case Read(key, found) => found.Some? ==> Right(s, key, found)
    case Acquiring(key) => key !in s.registry
    case Storing(key, slot) => key !in s.registry && slot in s.holder && s.holder[slot] == key
    case Inserting(key, slot) => key !in s.registry && slot in s.holder && s.holder[slot] == key
    case Leaving(key, result) => Right(s, key, result)
    case _ => true
  }

  ghost predicate HistoryInv(s: State) {
    && (forall t :: 0 <= t < |s.callers| ==> CallerInv(s, s.callers[t]))
    && (forall k :: 0 <= k < |s.answers| ==> Right(s, s.answers[k].key, s.answers[k].slot))
  }

  ghost predicate Inv(s: State) {
    LockInv(s) && PoolInv(s) && MapInv(s) && HistoryInv(s)
  }

  lemma InitInv(size: nat, callers: nat)
    ensures Inv(Init(size, callers))
  {
    P.InitInv(P.NoReleases, size, callers);
  }

  /** The steps that touch neither the map nor the pool. */
  predicate Quiet(step: Step) {
    !step.InPool? && !step.EndInsert?
  }

  lemma QuietLock(s: State, step: Step)
    requires LockInv(s) && WellFormed(s) && Enabled(s, step) && Quiet(step)
    ensures LockInv(Apply(s, step))
  {
  }

  lemma QuietPool(s: State, step: Step)
    requires PoolInv(s) && Enabled(s, step) && Quiet(step)
    ensures PoolInv(Apply(s, step))
  {
    assert Apply(s, step).pool == s.pool;
  }

  lemma QuietMap(s: State, step: Step)
    requires LockInv(s) && WellFormed(s) && MapInv(s) && Enabled(s, step) && Quiet(step)
    ensures MapInv(Apply(s, step))
  {
    var s' := Apply(s, step);
    assert s'.registry == s.registry && s'.holder == s.holder;
    forall i | i in s.holder && Carries(s, i, s.holder[i]) ensures Carries(s', i, s.holder[i]) {
    }
  }

  /** Without a change to the map or the pool, what was right stays right. */
  lemma SameAnswers(s: State, s': State)
    requires HistoryInv(s) && s'.registry == s.registry && s'.holder == s.holder
    requires s'.pool.Size() == s.pool.Size()
    ensures forall c :: CallerInv(s, c) ==> CallerInv(s', c)
    ensures forall key, result :: Right(s, key, result) ==> Right(s', key, result)
  {
  }

  lemma QuietHistory(s: State, step: Step)
    requires WellFormed(s) && HistoryInv(s) && Enabled(s, step) && Quiet(step)
    ensures HistoryInv(Apply(s, step))
  {
    var s' := Apply(s, step);
    SameAnswers(s, s');
    assert CallerInv(s, s.callers[step.t]);
    forall u | 0 <= u < |s'.callers| ensures CallerInv(s', s'.callers[u]) {
      assert CallerInv(s, s.callers[u]);
    }
  }

  lemma EndInsertInv(s: State, t: nat)
    requires Inv(s) && Enabled(s, EndInsert(t))
    ensures Inv(Apply(s, EndInsert(t)))
  {
    var s' := Apply(s, EndInsert(t));
    var Inserting(key, slot) := s.callers[t];
    assert CallerInv(s, s.callers[t]) && s.writer == Some(t);
    forall u | 0 <= u < |s'.callers| ensures CallerInv(s', s'.callers[u]) {
      assert CallerInv(s, s.callers[u]);
      assert u != t ==> !s.callers[u].Excludes();
    }
    forall k | 0 <= k < |s'.answers| ensures Right(s', s'.answers[k].key, s'.answers[k].slot) {
      assert Right(s, s.answers[k].key, s.answers[k].slot);
    }
  }

  /** What a step inside the pool does to the slots out. */
  lemma PoolStep(pool: P.State, p: P.Step)
    requires exists free :: P.Inv(P.NoReleases, pool, free)
    requires P.Enabled(pool, p) && (p.CallAcquire? || p.LoadHead? || p.LoadNext? || p.Swap?)
    ensures exists free :: P.Inv(P.NoReleases, P.Apply(pool, p), free)
    ensures Wins(pool, p) ==> pool.head < pool.Size() && pool.owned[pool.head] == 0
                              && P.Apply(pool, p).owned == pool.owned[pool.head := 1]
                              && P.Apply(pool, p).threads[p.t].Idle?
    ensures !Wins(pool, p) ==> P.Apply(pool, p).owned == pool.owned
    ensures !Wins(pool, p) ==>
              (P.Apply(pool, p).threads[p.t].Idle? <==>
               (p.LoadHead? || p.Swap?) && forall i: nat :: i < pool.Size() ==> pool.owned[i] > 0)
  {
    var free :| P.Inv(P.NoReleases, pool, free);
    var free' := P.StepInv(P.NoReleases, pool, free, p);
    P.ChainInRange(pool.next, pool.head, free);
    forall i: nat | i < pool.Size() ensures i in free <==> pool.owned[i] == 0 {
      assert P.OnePlace(pool, free, i);
    }
    assert free != [] ==> free[0] in free;
    if Wins(pool, p) {
      assert P.ThreadInv(P.NoReleases, pool, free, p.t);
    }
  }

  lemma InPoolLock(s: State, t: nat, p: P.Step)
    requires Inv(s) && Enabled(s, InPool(t, p))
    ensures LockInv(Apply(s, InPool(t, p)))
  {
    assert Apply(s, InPool(t, p)).callers[t].Excludes();
  }

  lemma InPoolPool(s: State, t: nat, p: P.Step)
    requires Inv(s) && Enabled(s, InPool(t, p))
    ensures PoolInv(Apply(s, InPool(t, p)))
  {
    PoolStep(s.pool, p);
  }

  /** While one caller is in the pool, every slot out is registered. */
  lemma AllRegistered(s: State, t: nat)
    requires Inv(s) && t < |s.callers| && s.callers[t].Acquiring?
    ensures s.writer == Some(t)
    ensures forall i :: i in s.holder ==> s.holder[i] in s.registry && s.registry[s.holder[i]] == i
  {
    forall i | i in s.holder ensures s.holder[i] in s.registry && s.registry[s.holder[i]] == i {
      assert !Carries(s, i, s.holder[i]);
    }
  }

  lemma WinInv(s: State, t: nat, p: P.Step)
    requires Inv(s) && Enabled(s, InPool(t, p)) && Wins(s.pool, p)
    ensures MapInv(Apply(s, InPool(t, p))) && HistoryInv(Apply(s, InPool(t, p)))
  {
    var s' := Apply(s, InPool(t, p));
    PoolStep(s.pool, p);
    AllRegistered(s, t);
    assert CallerInv(s, s.callers[t]);
    assert s.pool.head !in s.holder;
    forall u | 0 <= u < |s'.callers| ensures CallerInv(s', s'.callers[u]) {
      assert CallerInv(s, s.callers[u]);
    }
    forall k | 0 <= k < |s'.answers| ensures Right(s', s'.answers[k].key, s'.answers[k].slot) {
      assert Right(s, s.answers[k].key, s.answers[k].slot);
    }
  }

  lemma TryInv(s: State, t: nat, p: P.Step)
    requires Inv(s) && Enabled(s, InPool(t, p)) && !Wins(s.pool, p)
    ensures MapInv(Apply(s, InPool(t, p))) && HistoryInv(Apply(s, InPool(t, p)))
  {
    var s' := Apply(s, InPool(t, p));
    PoolStep(s.pool, p);
    AllRegistered(s, t);
    SameAnswers(s, s');
    assert CallerInv(s, s.callers[t]);
    forall u | 0 <= u < |s'.callers| ensures CallerInv(s', s'.callers[u]) {
      assert CallerInv(s, s.callers[u]);
    }
  }

  lemma StepInv(s: State, step: Step)
    requires Inv(s) && Enabled(s, step)
    ensures Inv(Apply(s, step))
  {
    match step
    case InPool(t, p) =>
      InPoolLock(s, t, p);
      InPoolPool(s, t, p);
      if Wins(s.pool, p) {
        WinInv(s, t, p);
      } else {
        TryInv(s, t, p);
      }
    case EndInsert(t) => EndInsertInv(s, t);
    case _ =>
      QuietLock(s, step);
      QuietPool(s, step);
      QuietMap(s, step);
      QuietHistory(s, step);
  }

  lemma {:induction false} RunInv(s: State, steps: seq<Step>)
    requires Inv(s) && IsRun(s, steps)
    ensures Inv(Run(s, steps))
    decreases |steps|
  {
    if steps != [] {
      StepInv(s, steps[0]);
      RunInv(Apply(s, steps[0]), steps[1..]);
    }
  }

  /* ---- what the invariant says about every run ---- */

  /** Distinct tickers have distinct slots. */
  ghost predicate Injective(registry: map<string, nat>) {
    forall a, b :: a in registry && b in registry && registry[a] == registry[b] ==> a == b
  }

  ghost predicate Given(registry: map<string, nat>, slot: nat) {
    exists key :: key in registry && registry[key] == slot
  }

  lemma {:induction false} InjectiveSize(registry: map<string, nat>, size: nat)
    requires Injective(registry) && forall key :: key in registry ==> registry[key] < size
    ensures |registry| <= size
    ensures (forall i: nat :: i < size ==> Given(registry, i)) ==> |registry| == size
  {
    if size == 0 {
      assert registry.Keys == {};
    } else if Given(registry, size - 1) {
      var last :| last in registry && registry[last] == size - 1;
      var rest := registry - {last};
      InjectiveSize(rest, size - 1);
      assert |registry| == |rest| + 1 by {
        assert registry.Keys == rest.Keys + {last};
      }
      if forall i: nat :: i < size ==> Given(registry, i) {
        forall i: nat | i < size - 1 ensures Given(rest, i) {
          assert Given(registry, i);
          var key :| key in registry && registry[key] == i;
          assert key in rest;
        }
      }
    } else {
      assert forall key :: key in registry ==> registry[key] != size - 1;
      InjectiveSize(registry, size - 1);
    }
  }

  lemma MapFacts(s: State)
    requires PoolInv(s) && MapInv(s)
    ensures Injective(s.registry) && |s.registry| <= s.pool.Size()
    ensures forall key :: Refused(s, key) ==> key !in s.registry && |s.registry| == s.pool.Size()
  {
    forall key | key in s.registry ensures s.registry[key] < s.pool.Size() {
      assert s.registry[key] in s.holder;
    }
    InjectiveSize(s.registry, s.pool.Size());
    forall key | Refused(s, key) ensures |s.registry| == s.pool.Size() {
      forall i: nat | i < s.pool.Size() ensures Given(s.registry, i) {
        assert i in s.holder && s.registry[s.holder[i]] == i;
      }
    }
  }

  /** Every answer given so far for one ticker is the same, whoever asked and however they raced;
      answers for different tickers never share a state; and no answer means that each state
      there is belongs to another ticker, for good. */
  lemma Agreement(size: nat, callers: nat, steps: seq<Step>)
    requires IsRun(Init(size, callers), steps)
    ensures var s := Run(Init(size, callers), steps);
            && (forall i, j :: 0 <= i < |s.answers| && 0 <= j < |s.answers| && s.answers[i].key == s.answers[j].key
                               ==> s.answers[i].slot == s.answers[j].slot)
            && (forall i, j :: 0 <= i < |s.answers| && 0 <= j < |s.answers| && s.answers[i].key != s.answers[j].key
                               ==> s.answers[i].slot == None || s.answers[i].slot != s.answers[j].slot)
            && (forall i :: 0 <= i < |s.answers| ==> s.answers[i].slot == Find(s, s.answers[i].key))
            && (forall i :: 0 <= i < |s.answers| && s.answers[i].slot == None ==> |s.registry| == size)
            && Injective(s.registry) && |s.registry| <= size
  {
    InitInv(size, callers);
    RunInv(Init(size, callers), steps);
    var s := Run(Init(size, callers), steps);
    MapFacts(s);
    forall i | 0 <= i < |s.answers|
      ensures s.answers[i].slot == Find(s, s.answers[i].key)
      ensures s.answers[i].slot == None ==> |s.registry| == size
    {
      assert Right(s, s.answers[i].key, s.answers[i].slot);
    }
  }

  ghost predicate Extends(s: State, s': State) {
    && (forall key :: key in s.registry ==> key in s'.registry && s'.registry[key] == s.registry[key])
    && s.answers <= s'.answers
  }

  lemma StepGrows(s: State, step: Step)
    requires Inv(s) && Enabled(s, step)
    ensures Extends(s, Apply(s, step))
  {
    assert CallerInv(s, s.callers[step.t]);
  }

  /** The map only grows: no ticker is ever dropped or given another state. */
  lemma {:induction false} OnlyGrows(s: State, steps: seq<Step>)
    requires Inv(s) && IsRun(s, steps)
    ensures Extends(s, Run(s, steps))
    decreases |steps|
  {
    if steps != [] {
      StepGrows(s, steps[0]);
      StepInv(s, steps[0]);
      OnlyGrows(Apply(s, steps[0]), steps[1..]);
    }
  }

  /** A caller inside the pool comes away with nothing exactly when, at its reading of the list's
      head, every slot is registered. */
  lemma AcquireVerdict(s: State, t: nat, p: P.Step)
    requires Inv(s) && Enabled(s, InPool(t, p)) && (p.LoadHead? || p.Swap?) && !Wins(s.pool, p)
    ensures Apply(s, InPool(t, p)).callers[t].Leaving? <==> Refused(s, s.callers[t].key)
  {
    PoolStep(s.pool, p);
    AllRegistered(s, t);
    assert CallerInv(s, s.callers[t]);
  }

  /** In every interleaving, while the map is being changed no other caller is about to look at it
      or changing it too. */
  lemma MapIsRaceFree(size: nat, callers: nat, steps: seq<Step>, t: nat, u: nat)
    requires IsRun(Init(size, callers), steps)
    ensures var s := Run(Init(size, callers), steps);
            t < |s.callers| && u < |s.callers| && t != u && s.callers[t].Inserting? ==>
              !s.callers[u].Reading? && !s.callers[u].Checking? && !s.callers[u].Inserting?
  {
    InitInv(size, callers);
    RunInv(Init(size, callers), steps);
  }

  /* ---- the pool meets its guard ---- */

  /** The pool's own steps in a run. */
  function PoolSteps(steps: seq<Step>): seq<P.Step> {
    if steps == [] then []
    else if steps[0].InPool? then [steps[0].step] + PoolSteps(steps[1..]) else PoolSteps(steps[1..])
  }

  lemma InPoolIsSerial(s: State, t: nat, p: P.Step)
    requires Inv(s) && Enabled(s, InPool(t, p))
    ensures P.Allowed(P.SerialAcquires, s.pool, p) && P.Allowed(P.NoReleases, s.pool, p)
  {
    forall u | 0 <= u < |s.pool.threads| && p.CallAcquire? ensures !s.pool.threads[u].Acquiring() {
      assert s.writer == Some(t);
      assert u != t ==> !s.callers[u].Excludes();
    }
  }

  lemma PoolRunCons(d: P.Discipline, pool: P.State, p: P.Step, ps: seq<P.Step>)
    requires P.WellFormed(pool) && P.Enabled(pool, p) && P.Allowed(d, pool, p)
    requires P.IsRun(d, P.Apply(pool, p), ps)
    ensures P.IsRun(d, pool, [p] + ps)
    ensures P.Run(d, pool, [p] + ps) == P.Run(d, P.Apply(pool, p), ps)
  {
    assert ([p] + ps)[1..] == ps;
  }

  lemma PoolOfApply(s: State, s': State, step: Step)
    requires WellFormed(s) && Enabled(s, step) && s' == Apply(s, step)
    ensures s'.pool == if step.InPool? then P.Apply(s.pool, step.step) else s.pool
  {
  }

  lemma GuardedStep(d: P.Discipline, s: State, s': State, step: Step, rest: seq<Step>, end: P.State)
    requires Inv(s) && Enabled(s, step) && s' == Apply(s, step) && (d.SerialAcquires? || d.NoReleases?)
    requires P.IsRun(d, s'.pool, PoolSteps(rest)) && P.Run(d, s'.pool, PoolSteps(rest)) == end
    ensures P.IsRun(d, s.pool, PoolSteps([step] + rest)) && P.Run(d, s.pool, PoolSteps([step] + rest)) == end
  {
    PoolOfApply(s, s', step);
    assert ([step] + rest)[1..] == rest;
    if step.InPool? {
      InPoolIsSerial(s, step.t, step.step);
      PoolRunCons(d, s.pool, step.step, PoolSteps(rest));
    }
  }

  /** Whatever the callers do, what the state pool sees is a run in which acquires come one at a
      time and nothing is released: both guards under which the pool is safe. */
  lemma {:induction false} PoolIsGuarded(s: State, steps: seq<Step>, d: P.Discipline)
    requires Inv(s) && IsRun(s, steps) && (d.SerialAcquires? || d.NoReleases?)
    ensures P.IsRun(d, s.pool, PoolSteps(steps))
    ensures P.Run(d, s.pool, PoolSteps(steps)) == Run(s, steps).pool
    decreases |steps|
  {
    if steps != [] {
      var step, rest := steps[0], steps[1..];
      var s' := Apply(s, step);
      StepInv(s, step);
      PoolIsGuarded(s', rest, d);
      GuardedStep(d, s, s', step, rest, Run(s', rest).pool);
      assert steps == [step] + rest;
    }
  }

  /* ---- the fast path ---- */

  /** The caller is served under the shared lock, or has left. */
  predicate OnFastPath(c: Caller, key: string) {
    c.Outside? || ((c.Wanting? || c.Reading? || (c.Read? && c.found.Some?)) && c.key == key)
  }

  /** A caller that asks for a registered ticker never takes the exclusive lock, whatever the others
      do meanwhile. */
  lemma {:induction false} FastPath(s: State, steps: seq<Step>, t: nat, key: string)
    requires Inv(s) && IsRun(s, steps) && t < |s.callers| && key in s.registry && OnFastPath(s.callers[t], key)
    requires forall k :: 0 <= k < |steps| && steps[k].t == t ==> !steps[k].Call?
    ensures t < |Run(s, steps).callers| && OnFastPath(Run(s, steps).callers[t], key)
    decreases |steps|
  {
    if steps != [] {
      StepInv(s, steps[0]);
      StepGrows(s, steps[0]);
      OneCallerMoves(s, steps[0]);
      assert forall k :: 0 <= k < |steps[1..]| ==> steps[1..][k] == steps[k + 1];
      FastPath(Apply(s, steps[0]), steps[1..], t, key);
    }
  }

  /* ---- a caller left alone ---- */

  /** No other caller holds a lock. */
  predicate Unhindered(s: State, t: nat) {
    t < |s.callers| && s.readers <= {t} && (s.writer.None? || s.writer == Some(t))
  }

  /** The caller's next step; in the pool, one that does not fail for no reason. */
  function Due(s: State, t: nat): Step
    requires WellFormed(s) && t < |s.callers|
  {
    match s.callers[t]
    case Outside => Call(t, "")
    case Wanting(_) => LockShared(t)
    case Reading(_) => FindShared(t)
    case Read(_, _) => UnlockShared(t)
    case Missed(_) => LockExclusive(t)
    case Checking(_) => FindAgain(t)
    case Acquiring(_) =>
      InPool(t, match s.pool.threads[t]
                case AtHead => P.LoadHead(t)
                case AtNext(_) => P.LoadNext(t)
                case AtSwap(_, _) => P.Swap(t, false)
                case _ => P.CallAcquire(t))
    case Storing(_, _) => BeginInsert(t)
    case Inserting(_, _) => EndInsert(t)
    case Leaving(_, _) => UnlockExclusive(t)
  }

  /** How many steps a caller is from leaving; a candidate that is no longer the head costs two more. */
  function Remaining(s: State, t: nat): nat
    requires WellFormed(s) && t < |s.callers|
  {
    match s.callers[t]
    case Outside => 0
    case Wanting(_) => 14
    case Reading(_) => 13
    case Read(_, _) => 12
    case Missed(_) => 11
    case Checking(_) => 10
    case Acquiring(_) =>
      (match s.pool.threads[t]
       case AtHead => 8
       case AtNext(idx) => if idx == s.pool.head then 5 else 7
       case AtSwap(idx, _) => if idx == s.pool.head then 4 else 6
       case _ => 9)
    case Storing(_, _) => 3
    case Inserting(_, _) => 2
    case Leaving(_, _) => 1
  }

  /** Inside the pool's acquire, and not in its release. */
  lemma InAcquire(s: State, t: nat)
    requires Inv(s) && t < |s.callers| && s.callers[t].Acquiring?
    ensures !s.pool.threads[t].Releasing()
  {
    var free :| P.Inv(P.NoReleases, s.pool, free);
    assert P.ThreadInv(P.NoReleases, s.pool, free, t);
  }

  /** Where a caller is tells which locks it holds. */
  lemma LocksOf(s: State, t: nat)
    requires LockInv(s) && Unhindered(s, t)
    ensures s.callers[t].Excludes() <==> s.writer == Some(t)
    ensures s.readers == if s.callers[t].Shares() then {t} else {}
  {
  }

  lemma DueIsEnabled(s: State, t: nat)
    requires Inv(s) && Unhindered(s, t) && !s.callers[t].Outside?
    ensures Due(s, t).t == t && !Due(s, t).Call? && Enabled(s, Due(s, t))
  {
    LocksOf(s, t);
    if s.callers[t].Acquiring? {
      InAcquire(s, t);
    }
  }

  lemma DueAdvances(s: State, t: nat)
    requires WellFormed(s) && Unhindered(s, t) && !s.callers[t].Outside? && Enabled(s, Due(s, t)) && Due(s, t).t == t
    ensures Unhindered(Apply(s, Due(s, t)), t) && Remaining(Apply(s, Due(s, t)), t) < Remaining(s, t)
  {
  }

  lemma DueStep(s: State, t: nat)
    requires Inv(s) && Unhindered(s, t) && !s.callers[t].Outside?
    ensures Due(s, t).t == t && !Due(s, t).Call? && Enabled(s, Due(s, t))
    ensures var s' := Apply(s, Due(s, t));
            Inv(s') && Unhindered(s', t) && Remaining(s', t) < Remaining(s, t)
  {
    DueIsEnabled(s, t);
    DueAdvances(s, t);
    StepInv(s, Due(s, t));
  }

  /** The newest answer is the one the map gives. */
  lemma NewestAnswer(s: State, before: seq<Answer>, key: string)
    requires Inv(s) && |s.answers| == |before| + 1 && s.answers[..|before|] == before
    requires s.answers[|before|].key == key
    ensures s.answers == before + [Answer(key, Find(s, key))]
    ensures key in s.registry || |s.registry| == s.pool.Size()
  {
    MapFacts(s);
    assert Right(s, key, s.answers[|before|].slot);
  }

  /** A caller that no other hinders leaves by itself in at most fourteen steps, with an answer for
      its ticker: the state the map then has for it, or nothing with every state another's. */
  lemma LeavesAlone(s: State, t: nat, key: string) returns (steps: seq<Step>)
    requires Inv(s) && Unhindered(s, t) && !s.callers[t].Outside? && s.callers[t].key == key
    ensures IsRun(s, steps) && |steps| <= 14 && (forall k :: 0 <= k < |steps| ==> steps[k].t == t)
    ensures var end := Run(s, steps);
            && t < |end.callers| && end.callers[t].Outside?
            && end.answers == s.answers + [Answer(key, Find(end, key))]
            && (key in end.registry || |end.registry| == s.pool.Size())
  {
    steps := LeavesFrom(s, t, key);
    NewestAnswer(Run(s, steps), s.answers, key);
  }

  lemma {:induction false} LeavesFrom(s: State, t: nat, key: string) returns (steps: seq<Step>)
    requires Inv(s) && Unhindered(s, t) && !s.callers[t].Outside? && s.callers[t].key == key
    ensures IsRun(s, steps) && |steps| <= Remaining(s, t) && (forall k :: 0 <= k < |steps| ==> steps[k].t == t)
    ensures var end := Run(s, steps);
            && Inv(end) && t < |end.callers| && end.callers[t].Outside?
            && |end.answers| == |s.answers| + 1 && end.answers[..|s.answers|] == s.answers
            && end.answers[|s.answers|].key == key
    decreases Remaining(s, t)
  {
    var step := Due(s, t);
    DueStep(s, t);
    OneCallerMoves(s, step);
    var s' := Apply(s, step);
    var rest := [];
    if !s'.callers[t].Outside? {
      rest := LeavesFrom(s', t, key);
    }
    steps := [step] + rest;
    assert steps[1..] == rest;
  }
}
