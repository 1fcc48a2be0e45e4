/** The scalping drain loop: one z-score calculator and one price tracker per ticker, fed by the
    interleaved pops of one queue, and the signals that come out. */
module ScalpingDrain {
  import opened Wrappers
  import opened Market
  import ZScore
  import PriceChange

  const WINDOW: nat := 20
  const SCALPING_Z := 5.0
  const SCALPING_PCT := 3.0
  const MEDIUM_Z := 3.0
  const MEDIUM_PCT := 1.5
  const LOW_Z := 2.0

  datatype Kind = Scalping | AlertMedium | AlertLow

  datatype Signal = Signal(kind: Kind, ticker: string, zscore: real, pct: real, price: real, timestamp: int)

  function Classify(z: real, pct: real): Option<Kind> {
    var absPct := if pct < 0.0 then -pct else pct;
    if z >= SCALPING_Z && absPct >= SCALPING_PCT then Some(Scalping)
    else if z >= MEDIUM_Z && absPct >= MEDIUM_PCT then Some(AlertMedium)
    else if z >= LOW_Z then Some(AlertLow)
    else None
  }

  /** The signal on a tick with these readings, once its calculators are warm. */
  function SignalWith(tick: Tick, z: real, pct: real): Option<Signal> {
    match Classify(z, pct)
    case None => None
    case Some(kind) => Some(Signal(kind, tick.ticker, z, pct, tick.price, tick.timestamp))
  }

  /** A tier of signals is given by the z-score and by the size of the price change, up or down: one
      that meets a higher tier meets the lower ones too. */
  predicate Tiered(signal: Option<Signal>, warm: bool, z: real, pct: real) {
    var atLeastMedium := signal.Some? && signal.value.kind != AlertLow;
    && (signal.Some? <==> warm && z >= 2.0)
    && (atLeastMedium <==> warm && z >= 3.0 && (pct >= 1.5 || pct <= -1.5))
    && (signal.Some? && signal.value.kind == Scalping <==> warm && z >= 5.0 && (pct >= 3.0 || pct <= -3.0))
  }

  /** A signal carries its tick and the two readings. */
  predicate Carries(s: Signal, tick: Tick, z: real, pct: real) {
    && s.ticker == tick.ticker && s.price == tick.price && s.timestamp == tick.timestamp
    && s.zscore == z && s.pct == pct
  }

  lemma SignalIsTiered(tick: Tick, z: real, pct: real, warm: bool, signal: Option<Signal>)
    requires signal == if warm then SignalWith(tick, z, pct) else None
    ensures Tiered(signal, warm, z, pct) && (signal.Some? ==> Carries(signal.value, tick, z, pct))
  {
  }

  function Rank(kind: Option<Kind>): nat {
    match kind
    case None => 0
    case Some(AlertLow) => 1
    case Some(AlertMedium) => 2
    case Some(Scalping) => 3
  }

  /** A fall counts as much as a rise, and neither a higher z-score nor a larger change in either
      direction ever lowers the tier. */
  lemma TierFollowsReadings(z: real, pct: real, z': real, pct': real)
    ensures Classify(z, -pct) == Classify(z, pct)
    ensures z <= z' && -pct' <= pct <= pct' ==> Rank(Classify(z, pct)) <= Rank(Classify(z', pct'))
  {
  }

  /** The signal on the newest of one ticker's ticks, by recomputation over that ticker alone. */
  function SignalOn(sqrt: real -> real, window: nat, mine: seq<Tick>): Option<Signal>
    requires window > 0 && mine != []
  {
    if |mine| < window then None
    else SignalWith(mine[|mine| - 1], ZScore.Score(sqrt, ZScore.Window(Volumes(mine), window)),
                    PriceChange.Change(Prices(mine), window))
  }

  function Emit(signal: Option<Signal>): seq<Signal> {
    if signal.Some? then [signal.value] else []
  }

  /** The signal on the newest of an interleaved stream. */
  function SignalAt(sqrt: real -> real, ticks: seq<Tick>): Option<Signal>
    requires ticks != []
  {
    var tick := ticks[|ticks| - 1];
    var mine := Project(ticks, tick.ticker);
    assert mine[|mine| - 1] == tick;
    SignalOn(sqrt, WINDOW, mine)
  }

  lemma NewestSignal(sqrt: real -> real, ticks: seq<Tick>, tick: Tick, mine: seq<Tick>, z: real, pct: real)
    requires ticks != [] && tick == ticks[|ticks| - 1] && mine == Project(ticks, tick.ticker) && mine != []
    requires z == ZScore.Score(sqrt, ZScore.Window(Volumes(mine), WINDOW))
    requires pct == PriceChange.Change(Prices(mine), WINDOW)
    ensures SignalAt(sqrt, ticks) == if |mine| >= WINDOW then SignalWith(tick, z, pct) else None
  {
    assert mine[|mine| - 1] == tick;
  }

  /** Everything emitted over an interleaved stream. */
  function Signals(sqrt: real -> real, ticks: seq<Tick>): seq<Signal> {
    if ticks == [] then [] else Signals(sqrt, ticks[..|ticks| - 1]) + Emit(SignalAt(sqrt, ticks))
  }

  /** Everything a fresh pair of calculators emits over the ticks of one ticker. */
  function SignalsAlone(sqrt: real -> real, mine: seq<Tick>): seq<Signal> {
    if mine == [] then []
    else SignalsAlone(sqrt, mine[..|mine| - 1]) + Emit(SignalOn(sqrt, WINDOW, mine))
  }

  function SignalsFor(signals: seq<Signal>, ticker: string): seq<Signal> {
    if signals == [] then []
    else
      var n := |signals| - 1;
      SignalsFor(signals[..n], ticker) + (if signals[n].ticker == ticker then [signals[n]] else [])
  }

  /* ---- the per-ticker pair ---- */

  class TickerStats {
    const zscore: ZScore.ZScoreCalculator
    const price: PriceChange.PriceChangeTracker
    ghost var ticks: seq<Tick>  // what the pair has been fed

    ghost function Footprint(): set<object> {
      {this, zscore, zscore.buffer, price, price.buffer}
    }

    ghost predicate Valid()
      reads Footprint()
    {
      && zscore.Valid() && zscore.window == WINDOW && zscore.history == Volumes(ticks)
      && price.Valid() && price.window == WINDOW && price.history == Prices(ticks)
      && zscore.buffer != price.buffer
    }

    /** The pair has been fed exactly `mine`. */
    ghost predicate FedBy(sqrt: real -> real, mine: seq<Tick>)
      reads Footprint()
    {
      Valid() && zscore.sqrt == sqrt && ticks == mine
    }

    constructor (sqrt: real -> real)
      requires ZScore.IsSqrt(sqrt)
      ensures FedBy(sqrt, []) && fresh(Footprint())
    {
      zscore := new ZScore.ZScoreCalculator(WINDOW, sqrt);
      price := new PriceChange.PriceChangeTracker(WINDOW);
      ticks := [];
    }

    method Push(tick: Tick) returns (z: real, pct: real)
      requires Valid()
      modifies Footprint()
      ensures Valid() && ticks == old(ticks) + [tick]
      ensures z == ZScore.Score(zscore.sqrt, ZScore.Window(Volumes(ticks), WINDOW))
      ensures pct == PriceChange.Change(Prices(ticks), WINDOW)
    {
      var score, _, _ := zscore.Push(tick.volume);
      z := score;
      pct := price.Push(tick.price);
      ticks := ticks + [tick];
      assert zscore.history == Volumes(ticks);
      assert price.history == Prices(ticks);
    }
  }

  /* ---- the loop ---- */

  class Drainer {
    const sqrt: real -> real
    var stats: map<string, TickerStats>
    ghost var seen: seq<Tick>  // every tick popped so far
    ghost var Repr: set<object>

    /** The pairs are separate objects. */
    ghost predicate Separate()
      reads this
    {
      && this in Repr
      && (forall t :: t in stats ==> this !in stats[t].Footprint() && stats[t].Footprint() <= Repr)
      && (forall t, u :: t in stats && u in stats && t != u ==> stats[t].Footprint() !! stats[u].Footprint())
    }

    /** Ticker `t`'s pair has been fed exactly `mine`, and there is none before the first tick. */
    ghost predicate FedWith(t: string, mine: seq<Tick>)
      reads this`stats, if t in stats then stats[t].Footprint() else {}
    {
      if t in stats then stats[t].FedBy(sqrt, mine) else mine == []
    }

    /** Each ticker's pair has been fed that ticker's share of `ticks`. */
    ghost predicate AllFed(ticks: seq<Tick>)
      requires Separate()
      reads this, Repr
    {
      forall t :: FedWith(t, Project(ticks, t))
    }

    ghost predicate Valid()
      reads this, Repr
    {
      ZScore.IsSqrt(sqrt) && Separate() && AllFed(seen)
    }

    constructor (sqrt: real -> real)
      requires ZScore.IsSqrt(sqrt)
      ensures Valid() && seen == [] && this.sqrt == sqrt && fresh(Repr)
    {
      this.sqrt := sqrt;
      stats := map[];
      seen := [];
      Repr := {this};
    }

    /** Enters a pair that has been fed nothing. */
    method Insert(ticker: string, pair: TickerStats)
      requires Valid() && ticker !in stats && pair.FedBy(sqrt, []) && pair.Footprint() !! Repr
      modifies this`stats, this`Repr
      ensures Valid() && stats == old(stats)[ticker := pair] && Repr == old(Repr) + pair.Footprint()
    {
      assert FedWith(ticker, Project(seen, ticker));
      stats := stats[ticker := pair];
      Repr := Repr + pair.Footprint();
      forall t ensures FedWith(t, Project(seen, t)) {
        assert t != ticker ==> old(FedWith(t, Project(seen, t)));
      }
    }

    /** The map's access by key, which inserts a fresh pair for a ticker not seen before. */
    method Lookup(ticker: string) returns (pair: TickerStats)
      requires Valid()
      modifies this`stats, this`Repr
      ensures Valid() && ticker in stats && stats[ticker] == pair
      ensures fresh(Repr - old(Repr))
    {
      if ticker in stats {
        pair := stats[ticker];
      } else {
        pair := new TickerStats(sqrt);
        Insert(ticker, pair);
      }
    }

    /** The pair's own update, which no other pair sees. */
    method FeedPair(pair: TickerStats, tick: Tick) returns (z: real, pct: real, warm: bool)
      requires Valid() && tick.ticker in stats && stats[tick.ticker] == pair
      modifies pair.Footprint()
      ensures Separate() && AllFed(seen + [tick]) && pair.ticks != []
      ensures z == ZScore.Score(sqrt, ZScore.Window(Volumes(pair.ticks), WINDOW))
      ensures pct == PriceChange.Change(Prices(pair.ticks), WINDOW)
      ensures warm <==> |pair.ticks| >= WINDOW
    {
      assert FedWith(tick.ticker, Project(seen, tick.ticker));
      z, pct := pair.Push(tick);
      warm := pair.zscore.WarmedUp();
      forall t ensures FedWith(t, Project(seen + [tick], t)) {
        assert old(FedWith(t, Project(seen, t)));
        ProjectSnoc(seen, tick, t);
      }
    }

    /** Feeds a tick to its ticker's pair. */
    method Feed(pair: TickerStats, tick: Tick) returns (z: real, pct: real, warm: bool)
      requires Valid() && tick.ticker in stats && stats[tick.ticker] == pair
      modifies this`seen, pair.Footprint()
      ensures Valid() && seen == old(seen) + [tick]
      ensures var mine := Project(seen, tick.ticker);
              && mine != []
              && z == ZScore.Score(sqrt, ZScore.Window(Volumes(mine), WINDOW))
              && pct == PriceChange.Change(Prices(mine), WINDOW)
              && (warm <==> |mine| >= WINDOW)
    {
      z, pct, warm := FeedPair(pair, tick);
      assert FedWith(tick.ticker, Project(seen + [tick], tick.ticker));
      ProjectSnoc(seen, tick, tick.ticker);
      seen := seen + [tick];
    }

    /** One popped tick: its signal is given by its readings within its own ticker's ticks, and
        carries them. */
    method OnTick(tick: Tick) returns (signal: Option<Signal>, ghost z: real, ghost pct: real)
      requires Valid()
      modifies Repr
      ensures Valid() && fresh(Repr - old(Repr))
      ensures seen == old(seen) + [tick]
      ensures signal == SignalAt(sqrt, seen)
      ensures var mine := Project(seen, tick.ticker);
              && mine != []
              && z == ZScore.Score(sqrt, ZScore.Window(Volumes(mine), 20))
              && pct == PriceChange.Change(Prices(mine), 20)
              && Tiered(signal, |mine| >= 20, z, pct)
              && (signal.Some? ==> Carries(signal.value, tick, z, pct))
    {
      var pair := Lookup(tick.ticker);
      var score, change, warm := Feed(pair, tick);
      z, pct := score, change;
      signal := if warm then SignalWith(tick, score, change) else None;
      SignalIsTiered(tick, z, pct, warm, signal);
      NewestSignal(sqrt, seen, tick, Project(seen, tick.ticker), z, pct);
    }

    /** One round of the loop; a pop that finds nothing is skipped. */
    method Round(pop: Option<Tick>, signals: seq<Signal>) returns (signals': seq<Signal>)
      requires Valid() && signals == Signals(sqrt, seen)
      modifies Repr
      ensures Valid() && fresh(Repr - old(Repr))
      ensures seen == old(seen) + (if pop.Some? then [pop.value] else [])
      ensures signals' == Signals(sqrt, seen)
    {
      signals' := signals;
      if pop.Some? {
        SignalsSnoc(sqrt, seen, pop.value);
        var signal, _, _ := OnTick(pop.value);
        signals' := signals + Emit(signal);
      }
    }

    /** The loop over the pops of a run. */
    method Drain(pops: seq<Option<Tick>>) returns (signals: seq<Signal>)
      requires Valid() && seen == []
      modifies Repr
      ensures Valid()
      ensures seen == Present(pops) && signals == Signals(sqrt, seen)
    {
      signals := [];
      for i := 0 to |pops|
        invariant Valid() && fresh(Repr - old(Repr))
        invariant seen == Present(pops[..i]) && signals == Signals(sqrt, seen)
      {
        assert pops[..i + 1] == pops[..i] + [pops[i]];
        PresentSnoc(pops[..i], pops[i]);
        signals := Round(pops[i], signals);
      }
      assert pops[..|pops|] == pops;
    }
  }

  /* ---- isolation ---- */

  lemma SignalsForEmit(a: seq<Signal>, signal: Option<Signal>, ticker: string)
    ensures SignalsFor(a + Emit(signal), ticker)
            == SignalsFor(a, ticker)
               + (if signal.Some? && signal.value.ticker == ticker then [signal.value] else [])
  {
    if signal.Some? {
      assert (a + [signal.value])[..|a|] == a;
    } else {
      assert a + [] == a;
    }
  }

  /** One more tick of the ticker's own. */
  lemma OwnTick(sqrt: real -> real, before: seq<Tick>, tick: Tick)
    ensures var ticks := before + [tick];
            SignalsAlone(sqrt, Project(ticks, tick.ticker))
            == SignalsAlone(sqrt, Project(before, tick.ticker)) + Emit(SignalAt(sqrt, ticks))
  {
    ProjectSnoc(before, tick, tick.ticker);
    var mine := Project(before + [tick], tick.ticker);
    assert mine[..|mine| - 1] == Project(before, tick.ticker);
  }

  lemma SignalsSnoc(sqrt: real -> real, before: seq<Tick>, tick: Tick)
    ensures Signals(sqrt, before + [tick]) == Signals(sqrt, before) + Emit(SignalAt(sqrt, before + [tick]))
  {
    assert (before + [tick])[..|before|] == before;
  }

  /** What one more tick adds to a ticker's signals, on either side. */
  lemma SnocFor(sqrt: real -> real, before: seq<Tick>, tick: Tick, ticker: string, added: seq<Signal>)
    requires added == if tick.ticker == ticker then Emit(SignalAt(sqrt, before + [tick])) else []
    ensures SignalsFor(Signals(sqrt, before + [tick]), ticker) == SignalsFor(Signals(sqrt, before), ticker) + added
  {
    SignalsSnoc(sqrt, before, tick);
    SignalsForEmit(Signals(sqrt, before), SignalAt(sqrt, before + [tick]), ticker);
    SignalCarriesTicker(sqrt, before + [tick]);
  }

  lemma SnocAlone(sqrt: real -> real, before: seq<Tick>, tick: Tick, ticker: string, added: seq<Signal>)
    requires added == if tick.ticker == ticker then Emit(SignalAt(sqrt, before + [tick])) else []
    ensures SignalsAlone(sqrt, Project(before + [tick], ticker))
            == SignalsAlone(sqrt, Project(before, ticker)) + added
  {
    if tick.ticker == ticker {
      OwnTick(sqrt, before, tick);
    } else {
      ProjectSnoc(before, tick, ticker);
      assert Project(before + [tick], ticker) == Project(before, ticker);
      assert SignalsAlone(sqrt, Project(before, ticker)) + [] == SignalsAlone(sqrt, Project(before, ticker));
    }
  }

  /** The signals a ticker gets out of an interleaved stream are those of running a fresh pair on
      that ticker's ticks alone. */
  lemma {:induction false} Isolation(sqrt: real -> real, ticks: seq<Tick>, ticker: string)
    ensures SignalsFor(Signals(sqrt, ticks), ticker) == SignalsAlone(sqrt, Project(ticks, ticker))
    decreases |ticks|
  {
    if ticks != [] {
      var before, tick := ticks[..|ticks| - 1], ticks[|ticks| - 1];
      assert ticks == before + [tick];
      Isolation(sqrt, before, ticker);
      var added := if tick.ticker == ticker then Emit(SignalAt(sqrt, before + [tick])) else [];
      SnocFor(sqrt, before, tick, ticker, added);
      SnocAlone(sqrt, before, tick, ticker, added);
    }
  }

  /** A signal bears the ticker of its tick. */
  lemma SignalCarriesTicker(sqrt: real -> real, ticks: seq<Tick>)
    requires ticks != []
    ensures var signal := SignalAt(sqrt, ticks);
            signal.Some? ==> signal.value.ticker == ticks[|ticks| - 1].ticker
  {
    var tick := ticks[|ticks| - 1];
    var mine := Project(ticks, tick.ticker);
    assert mine[|mine| - 1] == tick;
  }

  /** Tick by tick, the signal each gives: the one on the stream up to it. */
  function PerTick(sqrt: real -> real, ticks: seq<Tick>): (given: seq<Option<Signal>>)
    ensures |given| == |ticks|
  {
    seq(|ticks|, i requires 0 <= i < |ticks| => SignalAt(sqrt, ticks[..i + 1]))
  }

  lemma PerTickPrefix(sqrt: real -> real, ticks: seq<Tick>, n: nat)
    requires n <= |ticks|
    ensures PerTick(sqrt, ticks)[..n] == PerTick(sqrt, ticks[..n])
  {
    forall i | 0 <= i < n ensures PerTick(sqrt, ticks)[i] == PerTick(sqrt, ticks[..n])[i] {
      assert ticks[..n][..i + 1] == ticks[..i + 1];
    }
  }

  lemma {:induction false} SignalsPerTick(sqrt: real -> real, ticks: seq<Tick>)
    ensures Signals(sqrt, ticks) == Present(PerTick(sqrt, ticks))
    decreases |ticks|
  {
    if ticks != [] {
      var n := |ticks| - 1;
      SignalsPerTick(sqrt, ticks[..n]);
      PerTickPrefix(sqrt, ticks, n);
      assert ticks[..n + 1] == ticks;
    }
  }

  /** A signal has its tick's own ticker, price and timestamp. */
  predicate Bears(s: Signal, tick: Tick) {
    s.ticker == tick.ticker && s.price == tick.price && s.timestamp == tick.timestamp
  }

  lemma BearsItsTick(sqrt: real -> real, ticks: seq<Tick>)
    requires ticks != [] && SignalAt(sqrt, ticks).Some?
    ensures Bears(SignalAt(sqrt, ticks).value, ticks[|ticks| - 1])
  {
    var tick := ticks[|ticks| - 1];
    var mine := Project(ticks, tick.ticker);
    assert mine[|mine| - 1] == tick;
  }

  lemma BearsAt(sqrt: real -> real, ticks: seq<Tick>, i: nat)
    requires i < |ticks| && PerTick(sqrt, ticks)[i].Some?
    ensures Bears(PerTick(sqrt, ticks)[i].value, ticks[i])
  {
    BearsItsTick(sqrt, ticks[..i + 1]);
  }

  /** The signals of a stream are those on distinct ticks, `at`, in order, each with its tick's own
      ticker, price and timestamp; and no other tick has one. */
  lemma OneSignalPerTick(sqrt: real -> real, ticks: seq<Tick>) returns (at: seq<nat>)
    ensures Located(PerTick(sqrt, ticks), Signals(sqrt, ticks), at)
    ensures forall j :: 0 <= j < |at| ==> Bears(Signals(sqrt, ticks)[j], ticks[at[j]])
  {
    SignalsPerTick(sqrt, ticks);
    at := Locate(PerTick(sqrt, ticks));
    forall j | 0 <= j < |at| ensures Bears(Signals(sqrt, ticks)[j], ticks[at[j]]) {
      BearsAt(sqrt, ticks, at[j]);
    }
  }

  /** A ticker's first 19 ticks give no signal, and its 20th none above LOW: the price tracker
      still compares with its initial zero. */
  lemma {:induction false} WarmUp(sqrt: real -> real, mine: seq<Tick>)
    ensures |mine| < WINDOW ==> SignalsAlone(sqrt, mine) == []
    ensures |mine| <= WINDOW ==> forall s :: s in SignalsAlone(sqrt, mine) ==> s.kind == AlertLow
    decreases |mine|
  {
    if mine != [] && |mine| <= WINDOW {
      WarmUp(sqrt, mine[..|mine| - 1]);
      PriceChange.NoChangeYet(Prices(mine), WINDOW);
      forall s | s in Emit(SignalOn(sqrt, WINDOW, mine)) ensures s.kind == AlertLow {
      }
    }
  }

  /* ---- the scalping branch ---- */

  /** Some history of one ticker makes a window of this size emit a scalping signal. */
  ghost predicate ScalpingReachable(sqrt: real -> real, window: nat)
    requires window > 0
  {
    exists mine: seq<Tick> :: mine != [] && Scalps(sqrt, window, mine)
  }

  predicate Scalps(sqrt: real -> real, window: nat, mine: seq<Tick>)
    requires window > 0 && mine != []
  {
    var signal := SignalOn(sqrt, window, mine);
    signal.Some? && signal.value.kind == Scalping
  }

  /** A full window's volumes never carry the newest z-score past the ceiling. */
  lemma ScalpsOnlyBelowCeiling(sqrt: real -> real, window: nat, mine: seq<Tick>)
    requires ZScore.IsSqrt(sqrt) && window >= 2 && mine != [] && Scalps(sqrt, window, mine)
    ensures window as real * (SCALPING_Z * SCALPING_Z) <= (window - 1) as real * (window - 1) as real
  {
    var xs, n, k := ZScore.Window(Volumes(mine), window), window as real, (window - 1) as real;
    ZScore.ReachableThreshold(sqrt, window, n, k, SCALPING_Z);
    assert |xs| == window && ZScore.Score(sqrt, xs) >= SCALPING_Z;
  }

  /** Ticks with the given volumes, all at price 1 but the newest, at price 2. */
  function Doubling(volumes: seq<real>): (ticks: seq<Tick>)
    requires volumes != []
    ensures |ticks| == |volumes| && Volumes(ticks) == volumes
  {
    seq(|volumes|, i requires 0 <= i < |volumes| =>
      Tick("", if i == |volumes| - 1 then 2.0 else 1.0, volumes[i], 0))
  }

  lemma DoublingChange(volumes: seq<real>, window: nat)
    requires window > 0 && |volumes| == window + 1
    ensures PriceChange.Change(Prices(Doubling(volumes)), window) == 100.0
  {
    var ps := Prices(Doubling(volumes));
    assert PriceChange.PriceBefore(ps, window) == 1.0 && ps[|ps| - 1] == 2.0;
  }

  lemma DoublingScalps(sqrt: real -> real, window: nat, xs: seq<real>)
    requires window >= 2 && |xs| == window && ZScore.Score(sqrt, xs) >= SCALPING_Z
    ensures Scalps(sqrt, window, Doubling([0.0] + xs))
  {
    var mine := Doubling([0.0] + xs);
    assert ZScore.Window(Volumes(mine), window) == xs;
    DoublingChange([0.0] + xs, window);
  }

  lemma CeilingReached(sqrt: real -> real, window: nat)
    requires ZScore.IsSqrt(sqrt) && window >= 2
    requires window as real * (SCALPING_Z * SCALPING_Z) <= (window - 1) as real * (window - 1) as real
    ensures ScalpingReachable(sqrt, window)
  {
    ZScore.ReachableThreshold(sqrt, window, window as real, (window - 1) as real, SCALPING_Z);
    var xs :| |xs| == window && ZScore.Score(sqrt, xs) >= SCALPING_Z;
    DoublingScalps(sqrt, window, xs);
  }

  /** For any window size, a scalping signal can be emitted exactly when 25 W <= (W-1)^2. */
  lemma ScalpingReachableIff(sqrt: real -> real, window: nat)
    requires ZScore.IsSqrt(sqrt) && window >= 2
    ensures ScalpingReachable(sqrt, window) <==> 25 * window <= (window - 1) * (window - 1)
  {
    assert SCALPING_Z * SCALPING_Z == 25.0;
    RealSquares(window);
    if ScalpingReachable(sqrt, window) {
      var mine: seq<Tick> :| mine != [] && Scalps(sqrt, window, mine);
      ScalpsOnlyBelowCeiling(sqrt, window, mine);
    }
    if 25 * window <= (window - 1) * (window - 1) {
      CeilingReached(sqrt, window);
    }
  }

  lemma RealSquares(window: nat)
    requires window >= 1
    ensures window as real * 25.0 <= (window - 1) as real * (window - 1) as real
            <==> 25 * window <= (window - 1) * (window - 1)
  {
    assert ((window - 1) * (window - 1)) as real == (window - 1) as real * (window - 1) as real;
  }

  /** With the window of 20 the engine runs with, no stream of ticks whatever makes the loop emit a
      scalping signal. */
  lemma {:induction false} NeverScalping(sqrt: real -> real, ticks: seq<Tick>)
    requires ZScore.IsSqrt(sqrt)
    ensures forall s :: s in Signals(sqrt, ticks) ==> s.kind != Scalping
    decreases |ticks|
  {
    if ticks != [] {
      NeverScalping(sqrt, ticks[..|ticks| - 1]);
      ScalpingReachableIff(sqrt, WINDOW);
      var tick := ticks[|ticks| - 1];
      var mine := Project(ticks, tick.ticker);
      assert mine != [] && !Scalps(sqrt, WINDOW, mine);
    }
  }
}
