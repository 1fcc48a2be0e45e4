/** The swing path from end to end as a transition system: any number of threads push ticks of any
    tickers, look their state up in the shared registry, and update both candles of it under its
    mutex. One step is a step of the registry, a lock operation, or the update of one candle. */
module SwingPath {
  import opened Candle
  import opened Market
  import opened Wrappers
  import A = SwingAggregation
  import R = RegistryProtocol

  datatype Worker =
    | Resting
    | Looking(tick: Tick)              // is in the registry
    | AtLock(tick: Tick, slot: nat)    // has a state, and is about to take its mutex
    | AtQuarter(tick: Tick, slot: nat) // holds it
    | AtHour(tick: Tick, slot: nat)    // has updated the 15-minute candle
    | AtUnlock(tick: Tick, slot: nat)  // has updated both
  {
    predicate Holds(i: nat) {
      (AtQuarter? || AtHour? || AtUnlock?) && slot == i
    }
  }

  /** A ticker's two aggregators. */
  datatype Slot = Slot(quarters: A.Cuts, hours: A.Cuts)

  const FRESH := Slot(A.Cuts([], []), A.Cuts([], []))

  /** States are made fresh; `mutexes` are the ones taken, with their holders. Three histories ride
      along: the ticks pushed, those a state has taken in, and those dropped. */
  datatype State = State(
    registry: R.State, workers: seq<Worker>, mutexes: map<nat, nat>, slots: map<nat, Slot>, log: seq<Bar>,
    pushed: seq<Tick>, taken: seq<Tick>, dropped: seq<Tick>)

  datatype Step =
    | Push(t: nat, tick: Tick)
    | InRegistry(t: nat, step: R.Step)
    | Lock(t: nat)
    | Quarter(t: nat)
    | Hour(t: nat)
    | Unlock(t: nat)

  function Init(size: nat, workers: nat): State {
    State(R.Init(size, workers), seq(workers, i => Resting), map[], map[], [], [], [], [])
  }

  /** A worker is in the registry exactly while it looks its state up there, for its tick's ticker. */
  predicate Agrees(w: Worker, caller: R.Caller) {
    if w.Looking? then !caller.Outside? && caller.key == w.tick.ticker else caller.Outside?
  }

  predicate WellFormed(s: State) {
    && R.WellFormed(s.registry) && |s.workers| == |s.registry.callers|
    && forall t :: 0 <= t < |s.workers| ==> Agrees(s.workers[t], s.registry.callers[t])
  }

  predicate Enabled(s: State, step: Step) {
    step.t < |s.workers| &&
    var w := s.workers[step.t];
    match step
    case Push(_, _) => w.Resting?
    case InRegistry(t, r) => w.Looking? && r.t == t && !r.Call? && R.Enabled(s.registry, r)
    case Lock(_) => w.AtLock? && w.slot !in s.mutexes
    case Quarter(_) => w.AtQuarter?
    case Hour(_) => w.AtHour?
    case Unlock(_) => w.AtUnlock?
  }

  function SlotOf(s: State, i: nat): Slot {
    if i in s.slots then s.slots[i] else FRESH
  }

  function Goto(s: State, t: nat, to: Worker): State
    requires t < |s.workers|
  {
    s.(workers := s.workers[t := to])
  }

  /** The caller has left the registry: with a state, or with nothing, and then the tick is dropped. */
  function Return(s: State, t: nat, tick: Tick, slot: Option<nat>): State
    requires t < |s.workers|
  {
    match slot
    case None => Goto(s, t, Resting).(dropped := s.dropped + [tick])
    case Some(i) => Goto(s, t, AtLock(tick, i))
  }

  function ApplyPush(s: State, t: nat, tick: Tick): (s': State)
    requires WellFormed(s) && Enabled(s, Push(t, tick))
    ensures WellFormed(s')
  {
    var call := R.Call(t, tick.ticker);
    assert Agrees(s.workers[t], s.registry.callers[t]);
    R.OneCallerMoves(s.registry, call);
    Goto(s, t, Looking(tick)).(registry := R.Apply(s.registry, call), pushed := s.pushed + [tick])
  }

  function ApplyInRegistry(s: State, t: nat, r: R.Step): (s': State)
    requires WellFormed(s) && Enabled(s, InRegistry(t, r))
    ensures WellFormed(s')
  {
    assert Agrees(s.workers[t], s.registry.callers[t]);
    R.OneCallerMoves(s.registry, r);
    var registry := R.Apply(s.registry, r);
    var s1 := s.(registry := registry);
    if registry.callers[t].Outside?
    then Return(s1, t, s.workers[t].tick, registry.answers[|registry.answers| - 1].slot)
    else s1
  }

  function Apply(s: State, step: Step): (s': State)
    requires WellFormed(s) && Enabled(s, step)
    ensures WellFormed(s') && |s'.workers| == |s.workers|
  {
    match step
    case Push(t, tick) => ApplyPush(s, t, tick)
    case InRegistry(t, r) => ApplyInRegistry(s, t, r)
    case Lock(t) =>
      var AtLock(tick, slot) := s.workers[t];
      Goto(s, t, AtQuarter(tick, slot)).(mutexes := s.mutexes[slot := t])
    case Quarter(t) =>
      var AtQuarter(tick, slot) := s.workers[t];
      var cuts := SlotOf(s, slot).quarters;
      Goto(s, t, AtHour(tick, slot)).(
        slots := s.slots[slot := SlotOf(s, slot).(quarters := A.Add(cuts, tick, A.QUARTER))],
        log := s.log + A.Closing(cuts, tick, A.QUARTER))
    case Hour(t) =>
      var AtHour(tick, slot) := s.workers[t];
      var cuts := SlotOf(s, slot).hours;
      Goto(s, t, AtUnlock(tick, slot)).(
        slots := s.slots[slot := SlotOf(s, slot).(hours := A.Add(cuts, tick, A.HOUR))],
        log := s.log + A.Closing(cuts, tick, A.HOUR), taken := s.taken + [tick])
    case Unlock(t) =>
      Goto(s, t, Resting).(mutexes := s.mutexes - {s.workers[t].slot})
  }

  predicate IsRun(s: State, steps: seq<Step>)
    requires WellFormed(s)
    decreases |steps|
  {
    steps == [] || (Enabled(s, steps[0]) && IsRun(Apply(s, steps[0]), steps[1..]))
  }

  function Run(s: State, steps: seq<Step>): (s': State)
    requires WellFormed(s) && IsRun(s, steps)
    ensures WellFormed(s') && |s'.workers| == |s.workers|
    decreases |steps|
  {
    if steps == [] then s else Run(Apply(s, steps[0]), steps[1..])
  }

  /* ---- one ticker's view ---- */

  /** The candles of one ticker among those emitted. */
  function OfTicker(log: seq<Bar>, ticker: string): seq<Bar> {
    if log == [] then []
    else
      var n := |log| - 1;
      OfTicker(log[..n], ticker) + (if log[n].ticker == ticker then [log[n]] else [])
  }

  lemma OfTickerGrows(log: seq<Bar>, more: seq<Bar>, owner: string, ticker: string)
    requires |more| <= 1 && forall bar :: bar in more ==> bar.ticker == owner
    ensures OfTicker(log + more, ticker) == OfTicker(log, ticker) + (if owner == ticker then more else [])
  {
    if more == [] {
      assert log + more == log;
    } else {
      assert more == [more[0]] && (log + more)[..|log|] == log;
    }
  }

  /** What a ticker has been sent when it has taken in `mine`, and of `half` the 15-minute part. */
  function Sent(mine: seq<Tick>, half: seq<Tick>): seq<Bar> {
    A.Log(mine) + (if half == [] then [] else A.Closing(A.CutsOf(mine, A.QUARTER), half[0], A.QUARTER))
  }

  /** A ticker that has taken in `mine`, and of `half` the 15-minute part, is cut as if it were alone
      in the world, and has been sent just those candles. */
  ghost predicate View(mine: seq<Tick>, half: seq<Tick>, slot: Slot, sent: seq<Bar>) {
    && slot.hours == A.CutsOf(mine, A.HOUR)
    && slot.quarters == A.CutsOf(mine + half, A.QUARTER)
    && sent == Sent(mine, half)
  }

  lemma QuarterView(mine: seq<Tick>, tick: Tick, slot: Slot, sent: seq<Bar>)
    requires View(mine, [], slot, sent)
    ensures View(mine, [tick], slot.(quarters := A.Add(slot.quarters, tick, A.QUARTER)),
                 sent + A.Closing(slot.quarters, tick, A.QUARTER))
  {
    assert mine + [] == mine;
    A.CutsSnoc(mine, tick, A.QUARTER);
  }

  /** What one more tick makes a ticker emit depends on how its ticks are cut. */
  lemma EmittedByCuts(mine: seq<Tick>, tick: Tick)
    ensures A.Emitted(A.StateOf(mine), tick)
            == A.Closing(A.CutsOf(mine, A.QUARTER), tick, A.QUARTER) + A.Closing(A.CutsOf(mine, A.HOUR), tick, A.HOUR)
  {
    A.StateIsCuts(mine);
  }

  lemma Associate<T>(a: seq<T>, b: seq<T>, c: seq<T>)
    ensures a + (b + c) == (a + b) + c
  {
  }

  lemma LogGrows(mine: seq<Tick>, tick: Tick)
    ensures A.Log(mine + [tick]) == Sent(mine, [tick]) + A.Closing(A.CutsOf(mine, A.HOUR), tick, A.HOUR)
  {
    A.OneMore(mine, tick);
    EmittedByCuts(mine, tick);
    Associate(A.Log(mine), A.Closing(A.CutsOf(mine, A.QUARTER), tick, A.QUARTER),
              A.Closing(A.CutsOf(mine, A.HOUR), tick, A.HOUR));
  }

  lemma HourView(mine: seq<Tick>, tick: Tick, slot: Slot, sent: seq<Bar>)
    requires View(mine, [tick], slot, sent)
    ensures View(mine + [tick], [], slot.(hours := A.Add(slot.hours, tick, A.HOUR)),
                 sent + A.Closing(slot.hours, tick, A.HOUR))
  {
    A.CutsSnoc(mine, tick, A.HOUR);
    LogGrows(mine, tick);
    assert (mine + [tick]) + [] == mine + [tick];
  }

  lemma FreshView()
    ensures View([], [], FRESH, [])
  {
    var none: seq<Tick> := [];
    assert none + none == none;
  }

  /** A candle bears the ticker of its ticks. */
  lemma ClosingTicker(mine: seq<Tick>, ticker: string, tick: Tick, minutes: int)
    requires minutes > 0 && forall x :: x in mine ==> x.ticker == ticker
    ensures var closing := A.Closing(A.CutsOf(mine, minutes), tick, minutes);
            |closing| <= 1 && forall bar :: bar in closing ==> bar.ticker == ticker
  {
    var cuts := A.CutsOf(mine, minutes);
    A.CutsPartition(mine, minutes);
    if cuts.open != [] {
      assert cuts.open[0] in mine by {
        assert mine[|A.Flatten(cuts.closed)|] == cuts.open[0];
      }
    }
  }

  /* ---- the invariant ---- */

  ghost predicate Owns(s: State, ticker: string, i: nat) {
    ticker in s.registry.registry && s.registry.registry[ticker] == i
  }

  ghost predicate WorkerInv(s: State, w: Worker) {
    w.AtLock? || w.AtQuarter? || w.AtHour? || w.AtUnlock? ==> Owns(s, w.tick.ticker, w.slot)
  }

  /** Whoever is inside a state holds its mutex. */
  ghost predicate MutexInv(s: State) {
    forall t: nat, i: nat :: HeldRight(s, t, i)
  }

  predicate HeldRight(s: State, t: nat, i: nat) {
    i in s.mutexes && s.mutexes[i] == t <==> t < |s.workers| && s.workers[t].Holds(i)
  }

  /** The tick of which state `i` has taken in the 15-minute part only. */
  function Half(s: State, i: nat): seq<Tick> {
    if i in s.mutexes && s.mutexes[i] < |s.workers| && s.workers[s.mutexes[i]].AtHour?
    then [s.workers[s.mutexes[i]].tick] else []
  }

  ghost predicate TickerInv(s: State, ticker: string) {
    var mine, sent := Project(s.taken, ticker), OfTicker(s.log, ticker);
    if ticker in s.registry.registry then
      var i := s.registry.registry[ticker];
      View(mine, Half(s, i), SlotOf(s, i), sent)
    else mine == [] && sent == []
  }

  /** Only states that belong to some ticker have been touched. */
  ghost predicate SlotsInv(s: State) {
    && (forall i :: i in s.slots ==> R.Given(s.registry.registry, i))
    && (forall i :: i in s.mutexes ==> R.Given(s.registry.registry, i))
  }

  ghost predicate DroppedInv(s: State) {
    forall tick :: tick in s.dropped ==> R.Answer(tick.ticker, None) in s.registry.answers
  }

  /** The tick a worker carries that no state has fully taken in. */
  function Carried(w: Worker): multiset<Tick> {
    if w.Looking? || w.AtLock? || w.AtQuarter? || w.AtHour? then multiset{w.tick} else multiset{}
  }

  function Hands(workers: seq<Worker>): (parts: seq<multiset<Tick>>)
    ensures |parts| == |workers|
  {
    seq(|workers|, t requires 0 <= t < |workers| => Carried(workers[t]))
  }

  function Sum<T>(parts: seq<multiset<T>>): multiset<T> {
    if parts == [] then multiset{} else Sum(parts[..|parts| - 1]) + parts[|parts| - 1]
  }

  function InFlight(workers: seq<Worker>): multiset<Tick> {
    Sum(Hands(workers))
  }

  ghost predicate Conserved(s: State) {
    multiset(s.pushed) == multiset(s.taken) + multiset(s.dropped) + InFlight(s.workers)
  }

  ghost predicate ControlInv(s: State) {
    && WellFormed(s) && R.Inv(s.registry)
    && (forall t :: 0 <= t < |s.workers| ==> WorkerInv(s, s.workers[t]))
    && MutexInv(s) && SlotsInv(s) && DroppedInv(s)
  }

  ghost predicate Inv(s: State) {
    ControlInv(s) && (forall ticker :: TickerInv(s, ticker)) && Conserved(s)
  }

  lemma {:induction false} NothingToSum<T>(parts: seq<multiset<T>>)
    requires forall t :: 0 <= t < |parts| ==> parts[t] == multiset{}
    ensures Sum(parts) == multiset{}
  {
    if parts != [] {
      NothingToSum(parts[..|parts| - 1]);
    }
  }

  lemma NoneInFlight(workers: seq<Worker>)
    requires forall t :: 0 <= t < |workers| ==> workers[t].Resting?
    ensures InFlight(workers) == multiset{}
  {
    NothingToSum(Hands(workers));
  }

  lemma InitInv(size: nat, workers: nat)
    ensures WellFormed(Init(size, workers)) && Inv(Init(size, workers))
  {
    var s := Init(size, workers);
    R.InitInv(size, workers);
    NoneInFlight(s.workers);
  }

  /* ---- conservation ---- */

  lemma Regroup<T>(before: multiset<T>, after: multiset<T>, was: multiset<T>, now: multiset<T>, last: multiset<T>)
    requires after + was == before + now
    ensures (after + last) + was == (before + last) + now
  {
    assert (after + last) + was == (after + was) + last;
    assert (before + last) + now == (before + now) + last;
  }

  lemma {:induction false} SumUpdate<T>(parts: seq<multiset<T>>, t: nat, part: multiset<T>)
    requires t < |parts|
    ensures Sum(parts[t := part]) + parts[t] == Sum(parts) + part
    decreases |parts|
  {
    var n := |parts| - 1;
    if t < n {
      SumUpdate(parts[..n], t, part);
      assert parts[t := part][..n] == parts[..n][t := part];
      Regroup(Sum(parts[..n]), Sum(parts[..n][t := part]), parts[t], part, parts[n]);
    } else {
      assert parts[t := part][..n] == parts[..n];
    }
  }

  lemma InFlightUpdate(workers: seq<Worker>, t: nat, w: Worker)
    requires t < |workers|
    ensures InFlight(workers[t := w]) + Carried(workers[t]) == InFlight(workers) + Carried(w)
  {
    assert Hands(workers[t := w]) == Hands(workers)[t := Carried(w)];
    SumUpdate(Hands(workers), t, Carried(w));
  }

  /** How a step moves its worker's tick: in, to a state, away, or not at all. */
  ghost predicate Moved(s: State, s': State, w: Worker, w': Worker) {
    || (s'.pushed == s.pushed && s'.taken == s.taken && s'.dropped == s.dropped && Carried(w') == Carried(w))
    || (w'.Looking? && s'.pushed == s.pushed + [w'.tick] && s'.taken == s.taken && s'.dropped == s.dropped
        && Carried(w) == multiset{})
    || (w.AtHour? && s'.pushed == s.pushed && s'.taken == s.taken + [w.tick] && s'.dropped == s.dropped
        && Carried(w') == multiset{})
    || (w.Looking? && s'.pushed == s.pushed && s'.taken == s.taken && s'.dropped == s.dropped + [w.tick]
        && Carried(w') == multiset{})
  }

  lemma ReturnMoves(s: State, t: nat, tick: Tick, slot: Option<nat>)
    requires t < |s.workers| && s.workers[t] == Looking(tick)
    ensures var s' := Return(s, t, tick, slot);
            s'.workers == s.workers[t := s'.workers[t]] && Moved(s, s', s.workers[t], s'.workers[t])
  {
  }

  lemma RegistryMoves(s: State, t: nat, r: R.Step)
    requires WellFormed(s) && Enabled(s, InRegistry(t, r))
    ensures var s' := ApplyInRegistry(s, t, r);
            s'.workers == s.workers[t := s'.workers[t]] && Moved(s, s', s.workers[t], s'.workers[t])
  {
    R.OneCallerMoves(s.registry, r);
    var registry := R.Apply(s.registry, r);
    if registry.callers[t].Outside? {
      ReturnMoves(s.(registry := registry), t, s.workers[t].tick, registry.answers[|registry.answers| - 1].slot);
    }
  }

  lemma PushMoves(s: State, t: nat, tick: Tick)
    requires WellFormed(s) && Enabled(s, Push(t, tick))
    ensures var s' := ApplyPush(s, t, tick);
            s'.workers == s.workers[t := s'.workers[t]] && Moved(s, s', s.workers[t], s'.workers[t])
  {
  }

  lemma StepMoves(s: State, step: Step)
    requires WellFormed(s) && Enabled(s, step)
    ensures var s' := Apply(s, step);
            && s'.workers == s.workers[step.t := s'.workers[step.t]]
            && Moved(s, s', s.workers[step.t], s'.workers[step.t])
  {
    match step
    case Push(t, tick) => PushMoves(s, t, tick);
    case InRegistry(t, r) => RegistryMoves(s, t, r);
    case _ =>
  }

  lemma CancelSum<T>(a: multiset<T>, b: multiset<T>, c: multiset<T>)
    requires a + c == b + c
    ensures a == b
  {
    forall x ensures a[x] == b[x] {
      assert (a + c)[x] == (b + c)[x];
    }
  }

  /** What is pushed and not yet taken or dropped is in flight, before a step and after. */
  lemma MovedConserves(s: State, s': State, w: Worker, w': Worker, f: multiset<Tick>, f': multiset<Tick>)
    requires Moved(s, s', w, w') && f' + Carried(w) == f + Carried(w')
    requires multiset(s.pushed) == multiset(s.taken) + multiset(s.dropped) + f
    ensures multiset(s'.pushed) == multiset(s'.taken) + multiset(s'.dropped) + f'
  {
    var taken, dropped := multiset(s.taken), multiset(s.dropped);
    if s'.pushed != s.pushed {
      var x := multiset{w'.tick};
      assert f' == f + x;
      assert (taken + dropped + f) + x == taken + dropped + (f + x);
    } else if s'.taken != s.taken {
      var x := multiset{w.tick};
      assert f' + x == f;
      assert taken + dropped + (f' + x) == (taken + x) + dropped + f';
    } else if s'.dropped != s.dropped {
      var x := multiset{w.tick};
      assert f' + x == f;
      assert taken + dropped + (f' + x) == taken + (dropped + x) + f';
    } else {
      CancelSum(f', f, Carried(w));
    }
  }

  lemma StepConserves(s: State, step: Step)
    requires WellFormed(s) && Enabled(s, step) && Conserved(s)
    ensures Conserved(Apply(s, step))
  {
    var s' := Apply(s, step);
    var w, w' := s.workers[step.t], s'.workers[step.t];
    StepMoves(s, step);
    InFlightUpdate(s.workers, step.t, w');
    MovedConserves(s, s', w, w', InFlight(s.workers), InFlight(s'.workers));
  }

  /* ---- each step keeps the invariant ---- */

  /** A step in the registry: states and candles stay as they are, and tickers may be entered. */
  ghost predicate Enters(s: State, s': State, t: nat) {
    && s'.slots == s.slots && s'.mutexes == s.mutexes && s'.log == s.log && s'.taken == s.taken
    && R.Inv(s'.registry) && R.Extends(s.registry, s'.registry)
    && t < |s.workers| && |s'.workers| == |s.workers|
    && (forall u :: 0 <= u < |s.workers| && u != t ==> s'.workers[u] == s.workers[u])
    && (forall i: nat :: !s.workers[t].Holds(i) && !s'.workers[t].Holds(i))
  }

  lemma PushEnters(s: State, t: nat, tick: Tick)
    requires WellFormed(s) && R.Inv(s.registry) && Enabled(s, Push(t, tick))
    ensures Enters(s, ApplyPush(s, t, tick), t)
  {
    assert Agrees(s.workers[t], s.registry.callers[t]);
    R.StepInv(s.registry, R.Call(t, tick.ticker));
    R.StepGrows(s.registry, R.Call(t, tick.ticker));
  }

  /** Only the worker, the registry and what is dropped change in the registry. */
  lemma InRegistryFrame(s: State, t: nat, r: R.Step)
    requires WellFormed(s) && Enabled(s, InRegistry(t, r))
    ensures var s' := ApplyInRegistry(s, t, r);
            && s'.registry == R.Apply(s.registry, r) && s'.workers == s.workers[t := s'.workers[t]]
            && s'.slots == s.slots && s'.mutexes == s.mutexes && s'.log == s.log && s'.taken == s.taken
            && forall i: nat :: !s'.workers[t].Holds(i)
  {
    var registry := R.Apply(s.registry, r);
    if registry.callers[t].Outside? {
      R.OneCallerMoves(s.registry, r);
      var slot := registry.answers[|registry.answers| - 1].slot;
      ReturnMoves(s.(registry := registry), t, s.workers[t].tick, slot);
    }
  }

  lemma InRegistryEnters(s: State, s': State, t: nat, r: R.Step)
    requires WellFormed(s) && R.Inv(s.registry) && Enabled(s, InRegistry(t, r)) && s' == ApplyInRegistry(s, t, r)
    ensures Enters(s, s', t)
  {
    InRegistryFrame(s, t, r);
    R.StepInv(s.registry, r);
    R.StepGrows(s.registry, r);
  }

  lemma RegistryEnters(s: State, step: Step)
    requires WellFormed(s) && R.Inv(s.registry) && Enabled(s, step) && (step.Push? || step.InRegistry?)
    ensures Enters(s, Apply(s, step), step.t)
  {
    match step
    case Push(t, tick) => PushEnters(s, t, tick);
    case InRegistry(t, r) => InRegistryEnters(s, Apply(s, step), t, r);
  }

  lemma GivenStays(s: R.State, s': R.State, i: nat)
    requires R.Extends(s, s') && R.Given(s.registry, i)
    ensures R.Given(s'.registry, i)
  {
    var key :| key in s.registry && s.registry[key] == i;
    assert key in s'.registry && s'.registry[key] == i;
  }

  /** A state that no ticker had is as it was made. */
  lemma Untouched(s: State, s': State, t: nat, ticker: string)
    requires ControlInv(s) && Enters(s, s', t)
    requires ticker !in s.registry.registry && ticker in s'.registry.registry
    ensures s'.registry.registry[ticker] !in s.slots && s'.registry.registry[ticker] !in s.mutexes
  {
    var i := s'.registry.registry[ticker];
    R.MapFacts(s'.registry);
    forall key | key in s.registry.registry ensures s.registry.registry[key] != i {
      assert key in s'.registry.registry && s'.registry.registry[key] == s.registry.registry[key];
    }
  }

  lemma HolderInside(s: State, i: nat)
    requires MutexInv(s) && i in s.mutexes
    ensures s.mutexes[i] < |s.workers| && s.workers[s.mutexes[i]].Holds(i)
  {
    assert HeldRight(s, s.mutexes[i], i);
  }

  /** A ticker that has a state keeps it as it is. */
  lemma EntersKnown(s: State, s': State, t: nat, ticker: string)
    requires MutexInv(s) && Enters(s, s', t) && TickerInv(s, ticker) && ticker in s.registry.registry
    ensures TickerInv(s', ticker)
  {
    var i := s.registry.registry[ticker];
    if i in s.mutexes {
      HolderInside(s, i);
    }
    assert Half(s', i) == Half(s, i) && SlotOf(s', i) == SlotOf(s, i);
  }

  lemma EntersTicker(s: State, s': State, t: nat, ticker: string)
    requires ControlInv(s) && Enters(s, s', t) && TickerInv(s, ticker)
    ensures TickerInv(s', ticker)
  {
    if ticker in s.registry.registry {
      EntersKnown(s, s', t, ticker);
    } else if ticker in s'.registry.registry {
      Untouched(s, s', t, ticker);
      FreshView();
    }
  }

  /** A caller that leaves the registry has the right answer, and it is among those given. */
  lemma LastAnswer(s: R.State, step: R.Step)
    requires R.WellFormed(s) && R.Inv(s) && R.Enabled(s, step) && R.Apply(s, step).callers[step.t].Outside?
    ensures var s', key := R.Apply(s, step), s.callers[step.t].key;
            |s'.answers| > 0 &&
            var slot := s'.answers[|s'.answers| - 1].slot;
            R.Answer(key, slot) in s'.answers && R.Right(s', key, slot)
  {
    var s' := R.Apply(s, step);
    R.StepInv(s, step);
    R.OneCallerMoves(s, step);
    var answer := s'.answers[|s'.answers| - 1];
    assert R.Right(s', answer.key, answer.slot);
    assert answer in s'.answers;
  }

  ghost predicate ReturnRight(s: State, s': State, t: nat, tick: Tick)
    requires t < |s'.workers|
  {
    && WorkerInv(s', s'.workers[t])
    && (s'.dropped == s.dropped
        || (s'.dropped == s.dropped + [tick] && R.Answer(tick.ticker, None) in s'.registry.answers))
  }

  lemma RightReturn(s: State, t: nat, tick: Tick, slot: Option<nat>)
    requires t < |s.workers| && R.Right(s.registry, tick.ticker, slot)
    requires R.Answer(tick.ticker, slot) in s.registry.answers
    ensures ReturnRight(s, Return(s, t, tick, slot), t, tick)
  {
  }

  /** What the registry gives its worker is right. */
  lemma ReturnIsRight(s: State, t: nat, r: R.Step)
    requires WellFormed(s) && R.Inv(s.registry) && Enabled(s, InRegistry(t, r))
    ensures var s' := ApplyInRegistry(s, t, r); ReturnRight(s, s', t, s.workers[t].tick)
  {
    var registry := R.Apply(s.registry, r);
    if registry.callers[t].Outside? {
      assert Agrees(s.workers[t], s.registry.callers[t]);
      LastAnswer(s.registry, r);
      var slot := registry.answers[|registry.answers| - 1].slot;
      RightReturn(s.(registry := registry), t, s.workers[t].tick, slot);
    }
  }

  lemma EntersMutex(s: State, s': State, t: nat)
    requires MutexInv(s) && Enters(s, s', t)
    ensures MutexInv(s')
  {
    forall u: nat, i: nat ensures HeldRight(s', u, i) {
      assert HeldRight(s, u, i);
    }
  }

  lemma EntersSlots(s: State, s': State, t: nat)
    requires SlotsInv(s) && Enters(s, s', t)
    ensures SlotsInv(s')
  {
    forall i | i in s'.slots || i in s'.mutexes ensures R.Given(s'.registry.registry, i) {
      GivenStays(s.registry, s'.registry, i);
    }
  }

  lemma EntersWorkers(s: State, s': State, t: nat)
    requires Enters(s, s', t) && WorkerInv(s', s'.workers[t])
    requires forall u :: 0 <= u < |s.workers| ==> WorkerInv(s, s.workers[u])
    ensures forall u :: 0 <= u < |s'.workers| ==> WorkerInv(s', s'.workers[u])
  {
    forall u | 0 <= u < |s'.workers| ensures WorkerInv(s', s'.workers[u]) {
      assert WorkerInv(s, s.workers[u]);
    }
  }

  lemma EntersDropped(s: State, s': State, t: nat, tick: Tick)
    requires DroppedInv(s) && Enters(s, s', t) && ReturnRight(s, s', t, tick)
    ensures DroppedInv(s')
  {
    forall x | x in s'.dropped ensures R.Answer(x.ticker, None) in s'.registry.answers {
      if x in s.dropped {
        assert R.Answer(x.ticker, None) in s.registry.answers;
      }
    }
  }

  lemma EntersControl(s: State, s': State, t: nat, tick: Tick)
    requires ControlInv(s) && Enters(s, s', t) && WellFormed(s') && ReturnRight(s, s', t, tick)
    ensures ControlInv(s')
  {
    EntersMutex(s, s', t);
    EntersSlots(s, s', t);
    EntersWorkers(s, s', t);
    EntersDropped(s, s', t, tick);
  }

  lemma RegistryControl(s: State, step: Step)
    requires ControlInv(s) && Enabled(s, step) && (step.Push? || step.InRegistry?)
    ensures ControlInv(Apply(s, step))
  {
    RegistryEnters(s, step);
    match step
    case Push(t, tick) => EntersControl(s, Apply(s, step), t, tick);
    case InRegistry(t, r) =>
      ReturnIsRight(s, t, r);
      EntersControl(s, Apply(s, step), t, s.workers[t].tick);
  }

  /** A step of a worker that has a state: the others' states stay as they are. */
  ghost predicate Works(s: State, s': State, t: nat) {
    && s'.registry == s.registry && s'.dropped == s.dropped
    && t < |s.workers| && |s'.workers| == |s.workers|
    && (forall u :: 0 <= u < |s.workers| && u != t ==> s'.workers[u] == s.workers[u])
    && var w, w' := s.workers[t], s'.workers[t];
       && (w.AtLock? || w.AtQuarter? || w.AtHour? || w.AtUnlock?)
       && (w'.Resting? || ((w'.AtQuarter? || w'.AtHour? || w'.AtUnlock?) && w'.tick == w.tick && w'.slot == w.slot))
       && (forall i: nat :: i != w.slot ==> SlotOf(s', i) == SlotOf(s, i))
       && s'.slots.Keys <= s.slots.Keys + {w.slot}
       && s'.mutexes == (if w'.Resting? then s.mutexes - {w.slot} else s.mutexes[w.slot := t])
       && (w.AtLock? ==> w.slot !in s.mutexes)
  }

  lemma InsideHolds(s: State, t: nat)
    requires MutexInv(s) && t < |s.workers|
    requires s.workers[t].AtQuarter? || s.workers[t].AtHour? || s.workers[t].AtUnlock?
    ensures s.workers[t].slot in s.mutexes && s.mutexes[s.workers[t].slot] == t
  {
    assert HeldRight(s, t, s.workers[t].slot);
  }

  lemma WorkerWorks(s: State, step: Step)
    requires WellFormed(s) && MutexInv(s) && Enabled(s, step) && !step.Push? && !step.InRegistry?
    ensures Works(s, Apply(s, step), step.t)
  {
    var w := s.workers[step.t];
    if !step.Lock? {
      InsideHolds(s, step.t);
      assert s.mutexes[w.slot := step.t] == s.mutexes;
    }
  }

  lemma WorksControl(s: State, s': State, t: nat)
    requires ControlInv(s) && WellFormed(s') && Works(s, s', t)
    ensures ControlInv(s')
  {
    assert WorkerInv(s, s.workers[t]);
    assert R.Given(s.registry.registry, s.workers[t].slot);
    forall u | 0 <= u < |s'.workers| ensures WorkerInv(s', s'.workers[u]) {
      assert WorkerInv(s, s.workers[u]);
    }
    WorksMutex(s, s', t);
  }

  lemma WorksMutex(s: State, s': State, t: nat)
    requires MutexInv(s) && Works(s, s', t)
    ensures MutexInv(s')
  {
    var j := s.workers[t].slot;
    assert HeldRight(s, t, j);
    forall u: nat, i: nat ensures HeldRight(s', u, i) {
      assert HeldRight(s, u, i);
    }
  }

  lemma OtherHalf(s: State, s': State, t: nat, i: nat)
    requires MutexInv(s) && Works(s, s', t) && i != s.workers[t].slot
    ensures Half(s', i) == Half(s, i)
  {
    if i in s.mutexes {
      HolderInside(s, i);
    }
  }

  /** The other tickers see nothing of it. */
  lemma OtherTicker(s: State, s': State, t: nat, ticker: string)
    requires ControlInv(s) && Works(s, s', t) && TickerInv(s, ticker) && ticker != s.workers[t].tick.ticker
    requires Project(s'.taken, ticker) == Project(s.taken, ticker)
    requires OfTicker(s'.log, ticker) == OfTicker(s.log, ticker)
    ensures TickerInv(s', ticker)
  {
    if ticker in s.registry.registry {
      assert WorkerInv(s, s.workers[t]);
      R.MapFacts(s.registry);
      OtherHalf(s, s', t, s.registry.registry[ticker]);
    }
  }

  /** A worker's own ticker is the one its state belongs to. */
  ghost predicate Own(s: State, t: nat) {
    && t < |s.workers|
    && var w := s.workers[t];
       && (w.AtLock? || w.AtQuarter? || w.AtHour? || w.AtUnlock?)
       && Owns(s, w.tick.ticker, w.slot) && TickerInv(s, w.tick.ticker)
  }

  /** The half-done part of a worker's own state, before a step and after. */
  lemma OwnHalf(s: State, step: Step)
    requires ControlInv(s) && Enabled(s, step) && !step.Push? && !step.InRegistry?
    ensures var w := s.workers[step.t];
            && Half(s, w.slot) == (if step.Hour? then [w.tick] else [])
            && Half(Apply(s, step), w.slot) == (if step.Quarter? then [w.tick] else [])
  {
    var w := s.workers[step.t];
    if !w.AtLock? {
      InsideHolds(s, step.t);
    }
  }

  /** The candle a step sends. */
  function Shut(s: State, step: Step): seq<Bar>
    requires WellFormed(s) && Enabled(s, step)
  {
    match step
    case Quarter(t) => A.Closing(SlotOf(s, s.workers[t].slot).quarters, s.workers[t].tick, A.QUARTER)
    case Hour(t) => A.Closing(SlotOf(s, s.workers[t].slot).hours, s.workers[t].tick, A.HOUR)
    case _ => []
  }

  lemma ShutTicker(s: State, step: Step)
    requires WellFormed(s) && Enabled(s, step) && !step.Push? && !step.InRegistry? && Own(s, step.t)
    requires Half(s, s.workers[step.t].slot) == (if step.Hour? then [s.workers[step.t].tick] else [])
    ensures |Shut(s, step)| <= 1 && forall bar :: bar in Shut(s, step) ==> bar.ticker == s.workers[step.t].tick.ticker
  {
    var w := s.workers[step.t];
    var mine := Project(s.taken, w.tick.ticker);
    ProjectsOwn(s.taken, w.tick.ticker);
    match step
    case Quarter(_) =>
      assert mine + [] == mine;
      ClosingTicker(mine, w.tick.ticker, w.tick, A.QUARTER);
    case Hour(_) => ClosingTicker(mine, w.tick.ticker, w.tick, A.HOUR);
    case _ =>
  }

  lemma StepProjections(s: State, step: Step, ticker: string)
    requires WellFormed(s) && Enabled(s, step) && !step.Push? && !step.InRegistry? && Own(s, step.t)
    requires Half(s, s.workers[step.t].slot) == (if step.Hour? then [s.workers[step.t].tick] else [])
    ensures var s', w := Apply(s, step), s.workers[step.t];
            && Project(s'.taken, ticker)
               == Project(s.taken, ticker) + (if step.Hour? && w.tick.ticker == ticker then [w.tick] else [])
            && OfTicker(s'.log, ticker)
               == OfTicker(s.log, ticker) + (if w.tick.ticker == ticker then Shut(s, step) else [])
  {
    var w := s.workers[step.t];
    ShutTicker(s, step);
    ProjectSnoc(s.taken, w.tick, ticker);
    OfTickerGrows(s.log, Shut(s, step), w.tick.ticker, ticker);
    assert Apply(s, step).log == s.log + Shut(s, step);
  }

  lemma OwnQuarter(s: State, s': State, t: nat)
    requires Own(s, t) && s.workers[t].AtQuarter? && Half(s, s.workers[t].slot) == []
    requires s'.registry == s.registry && s'.taken == s.taken
    requires var w := s.workers[t];
             && SlotOf(s', w.slot)
                == SlotOf(s, w.slot).(quarters := A.Add(SlotOf(s, w.slot).quarters, w.tick, A.QUARTER))
             && Half(s', w.slot) == [w.tick]
             && OfTicker(s'.log, w.tick.ticker)
                == OfTicker(s.log, w.tick.ticker) + A.Closing(SlotOf(s, w.slot).quarters, w.tick, A.QUARTER)
    ensures TickerInv(s', s.workers[t].tick.ticker)
  {
    var w := s.workers[t];
    QuarterView(Project(s.taken, w.tick.ticker), w.tick, SlotOf(s, w.slot), OfTicker(s.log, w.tick.ticker));
  }

  lemma OwnHour(s: State, s': State, t: nat)
    requires Own(s, t) && s.workers[t].AtHour? && Half(s, s.workers[t].slot) == [s.workers[t].tick]
    requires s'.registry == s.registry
    requires var w := s.workers[t];
             && Project(s'.taken, w.tick.ticker) == Project(s.taken, w.tick.ticker) + [w.tick]
             && SlotOf(s', w.slot) == SlotOf(s, w.slot).(hours := A.Add(SlotOf(s, w.slot).hours, w.tick, A.HOUR))
             && Half(s', w.slot) == []
             && OfTicker(s'.log, w.tick.ticker)
                == OfTicker(s.log, w.tick.ticker) + A.Closing(SlotOf(s, w.slot).hours, w.tick, A.HOUR)
    ensures TickerInv(s', s.workers[t].tick.ticker)
  {
    var w := s.workers[t];
    HourView(Project(s.taken, w.tick.ticker), w.tick, SlotOf(s, w.slot), OfTicker(s.log, w.tick.ticker));
  }

  lemma OwnTicker(s: State, step: Step)
    requires ControlInv(s) && Enabled(s, step) && !step.Push? && !step.InRegistry? && Own(s, step.t)
    ensures TickerInv(Apply(s, step), s.workers[step.t].tick.ticker)
  {
    OwnHalf(s, step);
    StepProjections(s, step, s.workers[step.t].tick.ticker);
    match step
    case Quarter(t) => OwnQuarter(s, Apply(s, step), t);
    case Hour(t) => OwnHour(s, Apply(s, step), t);
    case _ =>
  }

  lemma StepTicker(s: State, step: Step, ticker: string)
    requires ControlInv(s) && Enabled(s, step) && forall k :: TickerInv(s, k)
    ensures TickerInv(Apply(s, step), ticker)
  {
    if step.Push? || step.InRegistry? {
      RegistryEnters(s, step);
      EntersTicker(s, Apply(s, step), step.t, ticker);
      return;
    }
    assert WorkerInv(s, s.workers[step.t]) && TickerInv(s, s.workers[step.t].tick.ticker);
    if ticker == s.workers[step.t].tick.ticker {
      OwnTicker(s, step);
    } else {
      WorkerWorks(s, step);
      OwnHalf(s, step);
      StepProjections(s, step, ticker);
      OtherTicker(s, Apply(s, step), step.t, ticker);
    }
  }

  lemma StepInv(s: State, step: Step)
    requires Inv(s) && Enabled(s, step)
    ensures Inv(Apply(s, step))
  {
    if step.Push? || step.InRegistry? {
      RegistryControl(s, step);
    } else {
      WorkerWorks(s, step);
      WorksControl(s, Apply(s, step), step.t);
    }
    forall ticker ensures TickerInv(Apply(s, step), ticker) {
      StepTicker(s, step, ticker);
    }
    StepConserves(s, step);
  }

  lemma {:induction false} RunInv(s: State, steps: seq<Step>)
    requires Inv(s) && IsRun(s, steps)
    ensures Inv(Run(s, steps))
    decreases |steps|
  {
    if steps != [] {
      StepInv(s, steps[0]);
      RunInv(Apply(s, steps[0]), steps[1..]);
    }
  }

  /* ---- what the invariant says about every run ---- */

  predicate IsInside(s: State, t: nat, i: nat) {
    t < |s.workers| && s.workers[t].Holds(i)
  }

  ghost predicate OneInside(s: State) {
    forall t, u, i :: IsInside(s, t, i) && IsInside(s, u, i) ==> t == u
  }

  /** In every interleaving of any number of threads: at most one is inside a ticker's state, no two
      tickers share one, and each ticker's state and candles are those it would have alone, over the
      ticks it has taken in so far in the order it took them. */
  lemma EachTickerAlone(size: nat, workers: nat, steps: seq<Step>, ticker: string)
    requires IsRun(Init(size, workers), steps)
    ensures var s := Run(Init(size, workers), steps);
            && OneInside(s)
            && R.Injective(s.registry.registry)
            && (ticker in s.registry.registry ==>
                  var i := s.registry.registry[ticker];
                  View(Project(s.taken, ticker), Half(s, i), SlotOf(s, i), OfTicker(s.log, ticker)))
            && (ticker !in s.registry.registry ==> Project(s.taken, ticker) == [] && OfTicker(s.log, ticker) == [])
  {
    InitInv(size, workers);
    RunInv(Init(size, workers), steps);
    var s := Run(Init(size, workers), steps);
    R.MapFacts(s.registry);
    assert TickerInv(s, ticker);
    forall t: nat, u: nat, i: nat | IsInside(s, t, i) && IsInside(s, u, i) ensures t == u {
      assert HeldRight(s, t, i) && HeldRight(s, u, i);
    }
  }

  lemma DroppedMeansRefused(s: State)
    requires Inv(s)
    ensures forall tick :: tick in s.dropped ==> R.Refused(s.registry, tick.ticker)
  {
    forall tick | tick in s.dropped ensures R.Refused(s.registry, tick.ticker) {
      var answer := R.Answer(tick.ticker, None);
      var k :| 0 <= k < |s.registry.answers| && s.registry.answers[k] == answer;
      assert R.Right(s.registry, answer.key, answer.slot);
    }
  }

  /** Every tick pushed has been taken in by its ticker's state, or dropped, or is in some thread's
      hands, and in one of these only; and the dropped ones are those of tickers that the registry
      refuses. */
  lemma EveryTickOnce(size: nat, workers: nat, steps: seq<Step>)
    requires IsRun(Init(size, workers), steps)
    ensures var s := Run(Init(size, workers), steps);
            && multiset(s.pushed) == multiset(s.taken) + multiset(s.dropped) + InFlight(s.workers)
            && (forall tick :: tick in s.taken ==> tick.ticker in s.registry.registry)
            && (forall tick :: tick in s.dropped ==> R.Refused(s.registry, tick.ticker))
  {
    InitInv(size, workers);
    RunInv(Init(size, workers), steps);
    var s := Run(Init(size, workers), steps);
    DroppedMeansRefused(s);
    forall tick | tick in s.taken ensures tick.ticker in s.registry.registry {
      ProjectsOwn(s.taken, tick.ticker);
      assert TickerInv(s, tick.ticker);
    }
  }

  predicate Quiet(s: State) {
    forall t :: 0 <= t < |s.workers| ==> s.workers[t].Resting?
  }

  /** When no thread is at work, a registered ticker has taken in each of its ticks, and any other
      has had each of them dropped. */
  lemma AtRest(s: State, ticker: string)
    requires Inv(s) && Quiet(s)
    ensures multiset(Project(s.pushed, ticker))
            == multiset(Project(if ticker in s.registry.registry then s.taken else s.dropped, ticker))
  {
    NoneInFlight(s.workers);
    if ticker in s.registry.registry {
      DroppedMeansRefused(s);
      ProjectsOther(s.pushed, s.taken, s.dropped, ticker);
    } else {
      assert TickerInv(s, ticker);
      ProjectsOwn(s.taken, ticker);
      assert multiset(s.taken) + multiset(s.dropped) == multiset(s.dropped) + multiset(s.taken);
      ProjectsOther(s.pushed, s.dropped, s.taken, ticker);
    }
  }

  function CutsIn(slot: Slot, minutes: int): A.Cuts {
    if minutes == A.QUARTER then slot.quarters else slot.hours
  }

  /** The candles, emitted and open, are of these ticks: each tick is in exactly one. */
  ghost predicate Holding(ticks: seq<Tick>, cuts: A.Cuts, sent: seq<Bar>, minutes: int)
    requires minutes > 0
  {
    && A.Partition(cuts, ticks) && sent == A.Bars(cuts.closed, minutes)
    && A.VolumeOf(sent) + (if cuts.open == [] then 0.0 else BarOf(cuts.open, minutes).volume) == TotalVolume(ticks)
    && A.CountOf(sent) + (if cuts.open == [] then 0 else BarOf(cuts.open, minutes).tickCount) == |ticks|
  }

  lemma AllHeld(ticks: seq<Tick>, minutes: int)
    requires minutes == A.QUARTER || minutes == A.HOUR
    ensures Holding(ticks, A.CutsOf(ticks, minutes), A.OfWindow(A.Log(ticks), minutes), minutes)
  {
    A.LogOfWindow(ticks, minutes);
    if ticks != [] {
      A.Conservation(ticks, minutes);
    }
  }

  lemma Settled(s: State, ticker: string, minutes: int)
    requires TickerInv(s, ticker) && Quiet(s)
    requires ticker in s.registry.registry && (minutes == A.QUARTER || minutes == A.HOUR)
    ensures var mine := Project(s.taken, ticker);
            && OfTicker(s.log, ticker) == A.Log(mine)
            && CutsIn(SlotOf(s, s.registry.registry[ticker]), minutes) == A.CutsOf(mine, minutes)
  {
    var mine := Project(s.taken, ticker);
    assert Half(s, s.registry.registry[ticker]) == [] && mine + [] == mine;
  }

  /** At rest, a registered ticker's candles of one size hold every tick pushed for it. */
  lemma AllTaken(s: State, ticker: string, minutes: int)
    requires Inv(s) && Quiet(s)
    requires ticker in s.registry.registry && (minutes == A.QUARTER || minutes == A.HOUR)
    ensures var mine, pushed := Project(s.taken, ticker), Project(s.pushed, ticker);
            && multiset(mine) == multiset(pushed) && TotalVolume(mine) == TotalVolume(pushed) && |mine| == |pushed|
            && Holding(mine, CutsIn(SlotOf(s, s.registry.registry[ticker]), minutes),
                       A.OfWindow(OfTicker(s.log, ticker), minutes), minutes)
  {
    var mine := Project(s.taken, ticker);
    AtRest(s, ticker);
    A.VolumeOfPermutation(mine, Project(s.pushed, ticker));
    Settled(s, ticker, minutes);
    AllHeld(mine, minutes);
  }

  /** At rest, a ticker that is not registered and was ever sent a tick is refused. */
  lemma NoneTaken(s: State, ticker: string)
    requires Inv(s) && Quiet(s)
    requires ticker !in s.registry.registry
    ensures OfTicker(s.log, ticker) == []
    ensures multiset(Project(s.dropped, ticker)) == multiset(Project(s.pushed, ticker))
    ensures Project(s.pushed, ticker) != [] ==> R.Refused(s.registry, ticker)
  {
    AtRest(s, ticker);
    assert TickerInv(s, ticker);
    if Project(s.pushed, ticker) != [] {
      var tick := Project(s.pushed, ticker)[0];
      assert tick in multiset(Project(s.dropped, ticker));
      ProjectsOwn(s.dropped, ticker);
      DroppedMeansRefused(s);
    }
  }

  /** Nothing is lost, in any interleaving of any number of threads on any tickers. Once no thread is
      at work, the 15-minute candles of a registered ticker, emitted and open, hold every tick pushed
      for it exactly once, with all its volume, and so do its hours. A ticker that is not registered
      has no candle, every tick pushed for it was dropped, and if there was one the registry refuses
      the ticker. */
  lemma NothingLost(size: nat, workers: nat, steps: seq<Step>, ticker: string, minutes: int)
    requires IsRun(Init(size, workers), steps) && (minutes == A.QUARTER || minutes == A.HOUR)
    requires Quiet(Run(Init(size, workers), steps))
    ensures var s := Run(Init(size, workers), steps);
            var mine, pushed := Project(s.taken, ticker), Project(s.pushed, ticker);
            if ticker in s.registry.registry then
              && multiset(mine) == multiset(pushed) && TotalVolume(mine) == TotalVolume(pushed)
              && |mine| == |pushed|
              && Holding(mine, CutsIn(SlotOf(s, s.registry.registry[ticker]), minutes),
                         A.OfWindow(OfTicker(s.log, ticker), minutes), minutes)
            else
              && OfTicker(s.log, ticker) == [] && multiset(Project(s.dropped, ticker)) == multiset(pushed)
              && (pushed != [] ==> R.Refused(s.registry, ticker))
  {
    InitInv(size, workers);
    RunInv(Init(size, workers), steps);
    var s := Run(Init(size, workers), steps);
    if ticker in s.registry.registry {
      AllTaken(s, ticker, minutes);
    } else {
      NoneTaken(s, ticker);
    }
  }
}
