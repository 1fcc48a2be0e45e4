/** The scalping order handler as a transition system. `on_event` is not one critical section: the
    staleness test, the position check, the order and the entry are separate steps, between which
    `check_exit` callers, each atomic under the mutex, and other dispatchers run. */
module ScalpingProtocol {
  import opened Orders

  const SIGNAL_TTL_MS := 10000
  const EXIT_DROP_PCT := -1.5
  const MAX_HOLD_MS := 60000

  datatype Event = Event(ticker: string, price: real, timestamp: int)
  datatype Position = Position(entryPrice: real, entryMs: int)

  datatype Dispatcher =
    | Resting
    | AtCheck(event: Event, now: int)  // the signal is fresh
    | AtOrder(event: Event, now: int)  // the ticker was not held
    | AtEntry(event: Event, now: int)  // the buy has filled

  /** A buy that filled; a sell, with the position it closes, whether or not it filled. */
  datatype Trade =
    | Entry(event: Event, now: int)
    | Exit(ticker: string, price: real, timestamp: int, position: Position)
  {
    function Ticker(): string { if Entry? then event.ticker else ticker }
  }

  datatype State = State(positions: map<string, Position>, dispatchers: seq<Dispatcher>, log: seq<Trade>)

  datatype Step =
    | Start(d: nat, event: Event, now: int)
    | Check(d: nat)
    | Order(d: nat, fills: bool)
    | Enter(d: nat)
    | CheckExit(ticker: string, price: real, timestamp: int)

  function Init(dispatchers: nat): State {
    State(map[], seq(dispatchers, i => Resting), [])
  }

  predicate Stale(event: Event, now: int) {
    now - event.timestamp > SIGNAL_TTL_MS
  }

  /** The exit test. Floating-point division by a zero entry gives an infinity of the price's
      sign, or no number, which fails the comparison. */
  predicate Hit(price: real, timestamp: int, p: Position) {
    || (if p.entryPrice != 0.0 then (price - p.entryPrice) / p.entryPrice * 100.0 <= EXIT_DROP_PCT else price < 0.0)
    || timestamp - p.entryMs > MAX_HOLD_MS
  }

  /** The stop is 1.5% from the entry, below a positive and above a negative one, or any price under
      a zero one; and the holding time is a minute. */
  lemma ExitPrices(price: real, timestamp: int, p: Position)
    ensures Hit(price, timestamp, p) <==>
            || timestamp > p.entryMs + 60000
            || (if p.entryPrice > 0.0 then price <= 0.985 * p.entryPrice
                else if p.entryPrice < 0.0 then price >= 0.985 * p.entryPrice
                else price < 0.0)
  {
    if p.entryPrice != 0.0 {
      ScaleOrder((price - p.entryPrice) / p.entryPrice, p.entryPrice, price - p.entryPrice, -0.015);
    }
  }

  predicate Enabled(s: State, step: Step) {
    match step
    case Start(d, _, _) => d < |s.dispatchers| && s.dispatchers[d].Resting?
    case Check(d) => d < |s.dispatchers| && s.dispatchers[d].AtCheck?
    case Order(d, _) => d < |s.dispatchers| && s.dispatchers[d].AtOrder?
    case Enter(d) => d < |s.dispatchers| && s.dispatchers[d].AtEntry?
    case CheckExit(_, _, _) => true
  }

  function Goto(s: State, d: nat, to: Dispatcher): State
    requires d < |s.dispatchers|
  {
    s.(dispatchers := s.dispatchers[d := to])
  }

  function Apply(s: State, step: Step): (s': State)
    requires Enabled(s, step)
    ensures |s'.dispatchers| == |s.dispatchers|
  {
    match step
    case Start(d, event, now) => if Stale(event, now) then s else Goto(s, d, AtCheck(event, now))
    case Check(d) =>
      var AtCheck(event, now) := s.dispatchers[d];
      Goto(s, d, if event.ticker in s.positions then Resting else AtOrder(event, now))
    case Order(d, fills) =>
      var AtOrder(event, now) := s.dispatchers[d];
      if fills then Goto(s, d, AtEntry(event, now)).(log := s.log + [Entry(event, now)]) else Goto(s, d, Resting)
    case Enter(d) =>
      var AtEntry(event, now) := s.dispatchers[d];
      Goto(s, d, Resting).(positions := s.positions[event.ticker := Position(event.price, now)])
    case CheckExit(ticker, price, timestamp) =>
      if ticker in s.positions && Hit(price, timestamp, s.positions[ticker])
      then s.(positions := s.positions - {ticker},
              log := s.log + [Exit(ticker, price, timestamp, s.positions[ticker])])
      else s
  }

  predicate IsRun(s: State, steps: seq<Step>)
    decreases |steps|
  {
    steps == [] || (Enabled(s, steps[0]) && IsRun(Apply(s, steps[0]), steps[1..]))
  }

  function Run(s: State, steps: seq<Step>): (s': State)
    requires IsRun(s, steps)
    ensures |s'.dispatchers| == |s.dispatchers|
    decreases |steps|
  {
    if steps == [] then s else Run(Apply(s, steps[0]), steps[1..])
  }

  /* ---- alternation ---- */

  /** One ticker's trades, in order. */
  function Trades(log: seq<Trade>, ticker: string): seq<Trade> {
    if log == [] then []
    else
      var n := |log| - 1;
      Trades(log[..n], ticker) + (if log[n].Ticker() == ticker then [log[n]] else [])
  }

  lemma TradesSnoc(log: seq<Trade>, trade: Trade, ticker: string)
    ensures Trades(log + [trade], ticker)
            == if trade.Ticker() == ticker then Trades(log, ticker) + [trade] else Trades(log, ticker)
  {
    assert (log + [trade])[..|log|] == log;
    assert Trades(log, ticker) + [] == Trades(log, ticker);
  }

  /** `exit` closes the position that `entry` opened, at a price that calls for it. */
  predicate Closes(exit: Trade, entry: Trade) {
    && entry.Entry? && exit.Exit?
    && exit.position == Position(entry.event.price, entry.now)
    && Hit(exit.price, exit.timestamp, exit.position)
  }

  /** A buy on a signal no older than ten seconds in the even places, in the odd ones the exit that closes it. */
  predicate InTurn(trades: seq<Trade>, i: nat)
    requires i < |trades|
  {
    if i % 2 == 0 then trades[i].Entry? && trades[i].now <= trades[i].event.timestamp + 10000
    else Closes(trades[i], trades[i - 1])
  }

  /** Buys and exits take turns, a buy first. */
  predicate Alternates(trades: seq<Trade>) {
    forall i: nat :: i < |trades| ==> InTurn(trades, i)
  }

  lemma AlternatesSnoc(trades: seq<Trade>, trade: Trade)
    requires Alternates(trades) && InTurn(trades + [trade], |trades|)
    ensures Alternates(trades + [trade])
  {
    forall i: nat | i <= |trades| ensures InTurn(trades + [trade], i) {
      if i < |trades| {
        assert InTurn(trades, i);
      }
    }
  }

  /** The dispatcher has bought the ticker and has yet to note it. */
  predicate Entering(s: State, ticker: string) {
    |s.dispatchers| == 1 && s.dispatchers[0].AtEntry? && s.dispatchers[0].event.ticker == ticker
  }

  ghost predicate TickerInv(s: State, ticker: string) {
    var trades := Trades(s.log, ticker);
    && Alternates(trades)
    && (|trades| % 2 == 1 <==> ticker in s.positions || Entering(s, ticker))
    && (ticker in s.positions ==>
          |trades| > 0 && trades[|trades| - 1].Entry? && !Entering(s, ticker)
          && s.positions[ticker] == Position(trades[|trades| - 1].event.price, trades[|trades| - 1].now))
    && (Entering(s, ticker) ==>
          |trades| > 0 && trades[|trades| - 1] == Entry(s.dispatchers[0].event, s.dispatchers[0].now))
  }

  /** With one dispatcher. */
  ghost predicate Inv(s: State) {
    && |s.dispatchers| <= 1
    && (forall ticker :: TickerInv(s, ticker))
    && (|s.dispatchers| == 1 ==>
          var d := s.dispatchers[0];
          && (!d.Resting? ==> !Stale(d.event, d.now))
          && (d.AtOrder? ==> d.event.ticker !in s.positions))
  }

  lemma InitInv(dispatchers: nat)
    requires dispatchers <= 1
    ensures Inv(Init(dispatchers))
  {
  }

  /** A step that is about another ticker. */
  lemma TickerFrame(s: State, s': State, ticker: string)
    requires TickerInv(s, ticker) && Trades(s'.log, ticker) == Trades(s.log, ticker)
    requires ticker in s'.positions <==> ticker in s.positions
    requires ticker in s.positions ==> s'.positions[ticker] == s.positions[ticker]
    requires Entering(s', ticker) <==> Entering(s, ticker)
    requires Entering(s, ticker) ==> s'.dispatchers[0] == s.dispatchers[0]
    ensures TickerInv(s', ticker)
  {
  }

  /** A filled buy, as its ticker sees it. */
  lemma BuyTicker(s: State, s': State, event: Event, now: int)
    requires TickerInv(s, event.ticker) && event.ticker !in s.positions && !Entering(s, event.ticker)
    requires !Stale(event, now) && s'.log == s.log + [Entry(event, now)] && s'.positions == s.positions
    requires s'.dispatchers == [AtEntry(event, now)]
    ensures TickerInv(s', event.ticker)
  {
    TradesSnoc(s.log, Entry(event, now), event.ticker);
    AlternatesSnoc(Trades(s.log, event.ticker), Entry(event, now));
  }

  lemma OrderInv(s: State, d: nat, fills: bool)
    requires Inv(s) && Enabled(s, Order(d, fills))
    ensures Inv(Apply(s, Order(d, fills)))
  {
    var s', at := Apply(s, Order(d, fills)), s.dispatchers[0];
    forall ticker ensures TickerInv(s', ticker) {
      if fills && ticker == at.event.ticker {
        assert TickerInv(s, ticker);
        BuyTicker(s, s', at.event, at.now);
      } else {
        assert TickerInv(s, ticker);
        TradesSnoc(s.log, Entry(at.event, at.now), ticker);
        TickerFrame(s, s', ticker);
      }
    }
  }

  /** An exit, as its ticker sees it. */
  lemma ExitTicker(s: State, s': State, exit: Trade)
    requires exit.Exit? && TickerInv(s, exit.ticker)
    requires exit.ticker in s.positions && exit.position == s.positions[exit.ticker]
    requires Hit(exit.price, exit.timestamp, exit.position)
    requires s' == s.(positions := s.positions - {exit.ticker}, log := s.log + [exit])
    ensures TickerInv(s', exit.ticker)
  {
    TradesSnoc(s.log, exit, exit.ticker);
    AlternatesSnoc(Trades(s.log, exit.ticker), exit);
  }

  lemma ExitInv(s: State, ticker: string, price: real, timestamp: int)
    requires Inv(s)
    ensures Inv(Apply(s, CheckExit(ticker, price, timestamp)))
  {
    var s' := Apply(s, CheckExit(ticker, price, timestamp));
    if ticker in s.positions && Hit(price, timestamp, s.positions[ticker]) {
      var exit := Exit(ticker, price, timestamp, s.positions[ticker]);
      assert TickerInv(s, ticker);
      ExitTicker(s, s', exit);
      forall other | other != ticker ensures TickerInv(s', other) {
        assert TickerInv(s, other);
        TradesSnoc(s.log, exit, other);
        TickerFrame(s, s', other);
      }
    }
  }

  lemma StepInv(s: State, step: Step)
    requires Inv(s) && Enabled(s, step)
    ensures Inv(Apply(s, step))
  {
    match step
    case Order(d, fills) => OrderInv(s, d, fills);
    case CheckExit(ticker, price, timestamp) => ExitInv(s, ticker, price, timestamp);
    case _ =>
      forall ticker ensures TickerInv(Apply(s, step), ticker) {
        assert TickerInv(s, ticker);
      }
  }

  lemma {:induction false} RunInv(s: State, steps: seq<Step>)
    requires Inv(s) && IsRun(s, steps)
    ensures Inv(Run(s, steps))
    decreases |steps|
  {
    if steps != [] {
      StepInv(s, steps[0]);
      RunInv(Apply(s, steps[0]), steps[1..]);
    }
  }

  /** Every interleaving of this many dispatchers with any callers of `check_exit` makes each
      ticker's trades alternate. */
  ghost predicate AlwaysAlternates(dispatchers: nat) {
    forall steps, ticker ::
      IsRun(Init(dispatchers), steps) ==> Alternates(Trades(Run(Init(dispatchers), steps).log, ticker))
  }

  lemma {:induction false} RunSnoc(s: State, steps: seq<Step>, step: Step)
    requires IsRun(s, steps) && Enabled(Run(s, steps), step)
    ensures IsRun(s, steps + [step])
    ensures Run(s, steps + [step]) == Apply(Run(s, steps), step)
    decreases |steps|
  {
    if steps == [] {
      assert steps + [step] == [step];
    } else {
      assert (steps + [step])[1..] == steps[1..] + [step];
      RunSnoc(Apply(s, steps[0]), steps[1..], step);
    }
  }

  ghost predicate Reachable(dispatchers: nat, s: State) {
    exists steps :: IsRun(Init(dispatchers), steps) && Run(Init(dispatchers), steps) == s
  }

  lemma ReachStep(dispatchers: nat, s: State, step: Step)
    requires Reachable(dispatchers, s) && Enabled(s, step)
    ensures Reachable(dispatchers, Apply(s, step))
  {
    var steps :| IsRun(Init(dispatchers), steps) && Run(Init(dispatchers), steps) == s;
    RunSnoc(Init(dispatchers), steps, step);
  }

  /** A dispatcher gets a fresh signal and finds its ticker free. */
  lemma ReachOrder(dispatchers: nat, s: State, d: nat, event: Event, now: int) returns (s': State)
    requires Reachable(dispatchers, s) && d < |s.dispatchers| && s.dispatchers[d].Resting?
    requires !Stale(event, now) && event.ticker !in s.positions
    ensures Reachable(dispatchers, s') && s' == Goto(s, d, AtOrder(event, now))
  {
    ReachStep(dispatchers, s, Start(d, event, now));
    var s1 := Apply(s, Start(d, event, now));
    ReachStep(dispatchers, s1, Check(d));
    s' := Apply(s1, Check(d));
  }

  /** Two dispatchers may both find the ticker free before either notes its buy. */
  lemma BoughtTwice(dispatchers: nat, event: Event) returns (s: State)
    requires dispatchers >= 2
    ensures Reachable(dispatchers, s)
    ensures s.log == [Entry(event, event.timestamp), Entry(event, event.timestamp)]
  {
    var now, s0 := event.timestamp, Init(dispatchers);
    assert IsRun(s0, []) && Run(s0, []) == s0;
    var s1 := ReachOrder(dispatchers, s0, 0, event, now);
    var s2 := ReachOrder(dispatchers, s1, 1, event, now);
    ReachStep(dispatchers, s2, Order(0, true));
    var s3 := Apply(s2, Order(0, true));
    ReachStep(dispatchers, s3, Order(1, true));
    s := Apply(s3, Order(1, true));
  }

  /** The split critical sections keep buys and exits alternating in every interleaving exactly
      when there is no more than one dispatcher. */
  lemma AlternatesIff(dispatchers: nat)
    ensures AlwaysAlternates(dispatchers) <==> dispatchers <= 1
  {
    if dispatchers <= 1 {
      forall steps, ticker | IsRun(Init(dispatchers), steps)
        ensures Alternates(Trades(Run(Init(dispatchers), steps).log, ticker))
      {
        InitInv(dispatchers);
        RunInv(Init(dispatchers), steps);
        assert TickerInv(Run(Init(dispatchers), steps), ticker);
      }
    } else {
      var entry := Entry(Event("", 1.0, 0), 0);
      var s := BoughtTwice(dispatchers, entry.event);
      TradesSnoc([], entry, "");
      TradesSnoc([entry], entry, "");
      var steps :| IsRun(Init(dispatchers), steps) && Run(Init(dispatchers), steps) == s;
      assert s.log == [entry] + [entry];
      assert !InTurn(Trades(Run(Init(dispatchers), steps).log, ""), 1);
    }
  }

  /** When no one calls `check_exit`, one dispatcher buys each ticker at most once in the whole run. */
  lemma BoughtOnceWithoutExits(steps: seq<Step>, ticker: string)
    requires IsRun(Init(1), steps) && forall k :: 0 <= k < |steps| ==> !steps[k].CheckExit?
    ensures |Trades(Run(Init(1), steps).log, ticker)| <= 1
  {
    InitInv(1);
    RunInv(Init(1), steps);
    var s := Run(Init(1), steps);
    assert TickerInv(s, ticker);
    OnlyEntries(Init(1), steps);
    if |Trades(s.log, ticker)| > 1 {
      assert InTurn(Trades(s.log, ticker), 1);
      TradesOfLog(s.log, ticker, 1);
    }
  }

  lemma {:induction false} TradesOfLog(log: seq<Trade>, ticker: string, k: nat)
    requires k < |Trades(log, ticker)|
    ensures Trades(log, ticker)[k] in log
  {
    var n := |log| - 1;
    if k < |Trades(log[..n], ticker)| {
      TradesOfLog(log[..n], ticker, k);
    }
  }

  lemma {:induction false} OnlyEntries(s: State, steps: seq<Step>)
    requires IsRun(s, steps) && (forall k :: 0 <= k < |steps| ==> !steps[k].CheckExit?)
    requires forall trade :: trade in s.log ==> trade.Entry?
    ensures forall trade :: trade in Run(s, steps).log ==> trade.Entry?
    decreases |steps|
  {
    if steps != [] {
      OnlyEntries(Apply(s, steps[0]), steps[1..]);
    }
  }

  /* ---- what a dispatcher may rely on ---- */

  /** The buys in a log. */
  function Entries(log: seq<Trade>): seq<Trade> {
    if log == [] then []
    else
      var n := |log| - 1;
      Entries(log[..n]) + (if log[n].Entry? then [log[n]] else [])
  }

  lemma EntriesSnoc(log: seq<Trade>, trade: Trade)
    ensures Entries(log + [trade]) == if trade.Entry? then Entries(log) + [trade] else Entries(log)
  {
    assert (log + [trade])[..|log|] == log;
    assert Entries(log) + [] == Entries(log);
  }

  /** Positions may go and exits be logged; nothing is bought or entered. */
  ghost predicate ExitsOnly(s: State, s': State) {
    && s'.dispatchers == s.dispatchers
    && (forall ticker :: ticker in s'.positions ==>
          ticker in s.positions && s'.positions[ticker] == s.positions[ticker])
    && Entries(s'.log) == Entries(s.log)
  }

  /** What callers of `check_exit` do, in any number, is what the dispatcher relies on. */
  lemma {:induction false} ExitsMeetRely(s: State, steps: seq<Step>)
    requires Inv(s) && IsRun(s, steps) && forall k :: 0 <= k < |steps| ==> steps[k].CheckExit?
    ensures Inv(Run(s, steps)) && ExitsOnly(s, Run(s, steps))
    decreases |steps|
  {
    if steps != [] {
      var CheckExit(ticker, price, timestamp) := steps[0];
      if ticker in s.positions {
        EntriesSnoc(s.log, Exit(ticker, price, timestamp, s.positions[ticker]));
      }
      ExitInv(s, ticker, price, timestamp);
      ExitsMeetRely(Apply(s, steps[0]), steps[1..]);
    }
  }
}
