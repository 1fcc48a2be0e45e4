/** The swing order state machine: a closed candle arms a ticker, a convinced AI signal for that
    candle buys, and a price far enough from the entry sells. Every handler runs under one mutex,
    so a run is a sequence of calls; the clock and the broker's answer come with each call. */
module SwingHandler {
  import opened Orders
  import opened Wrappers

  const ARMED_TTL_MS := 5 * 60000
  const MIN_BULL_PROB := 0.65
  const FIXED_QTY := 50.0
  const STOP_LOSS_PCT := -3.0
  const TAKE_PROFIT_PCT := 6.0

  datatype Action =
    | CandleClosed(closeTime: int)
    | AiConfirmed(close: real, direction: string, bull: real, candle: int)
    | TtlExpired
    | CheckExit(price: real)

  /** `now` is the clock's reading, `fills` the broker's answer to an order made in the call. */
  datatype Call = Call(ticker: string, action: Action, now: int, fills: bool)

  datatype Phase = Idle | Armed
  datatype TickerState = TickerState(
    phase: Phase, armedAt: int, closeTime: int, entryPrice: real, inPosition: bool)

  const FRESH := TickerState(Idle, 0, 0, 0.0, false)

  /* ---- one call ---- */

  predicate Convinced(action: Action)
    requires action.AiConfirmed?
  {
    action.direction == "BUY_READY" && action.bull >= MIN_BULL_PROB
  }

  predicate Late(armedAt: int, now: int) {
    now - armedAt > ARMED_TTL_MS
  }

  /** The exit test. Floating-point division by a zero entry gives an infinity of the price's
      sign, or no number at all, which fails both comparisons. */
  predicate Hit(price: real, entry: real) {
    if entry != 0.0 then
      var change := (price - entry) / entry * 100.0;
      change <= STOP_LOSS_PCT || change >= TAKE_PROFIT_PCT
    else price != 0.0
  }

  /** The signal is for the candle that armed the ticker. */
  predicate Matches(ts: TickerState, c: Call) {
    c.action.AiConfirmed? && ts.phase.Armed? && !ts.inPosition && c.action.candle == ts.closeTime
  }

  /** The order the call sends to the broker. */
  function OrderOf(ts: TickerState, c: Call): Option<OrderRequest> {
    match c.action
    case AiConfirmed(close, _, _, _) =>
      if Matches(ts, c) && !Late(ts.armedAt, c.now) && Convinced(c.action)
      then Some(OrderRequest(c.ticker, close, FIXED_QTY, Buy)) else None
    case CheckExit(price) =>
      if ts.inPosition && Hit(price, ts.entryPrice)
      then Some(OrderRequest(c.ticker, price, FIXED_QTY, Sell)) else None
    case _ => None
  }

  function Next(ts: TickerState, c: Call): TickerState {
    match c.action
    case CandleClosed(closeTime) =>
      if ts.inPosition then ts
      else ts.(phase := Armed, armedAt := c.now, closeTime := closeTime)
    case AiConfirmed(close, _, _, _) =>
      if !Matches(ts, c) then ts
      else if OrderOf(ts, c).None? then ts.(phase := Idle)
      else if c.fills then ts.(phase := Idle, inPosition := true, entryPrice := close)
      else ts
    case TtlExpired => ts.(phase := Idle)
    case CheckExit(_) => if OrderOf(ts, c).Some? then ts.(inPosition := false) else ts
  }

  /* ---- runs ---- */

  function After(calls: seq<Call>, ticker: string): TickerState {
    if calls == [] then FRESH
    else
      var ts, c := After(calls[..|calls| - 1], ticker), calls[|calls| - 1];
      if c.ticker == ticker then Next(ts, c) else ts
  }

  datatype Trade = Entry | Exit

  /** A buy that fills opens a position; an exit closes it, whatever the broker answers. */
  function TradeOf(ts: TickerState, c: Call): Option<Trade> {
    match OrderOf(ts, c)
    case Some(OrderRequest(_, _, _, Buy)) => if c.fills then Some(Entry) else None
    case Some(OrderRequest(_, _, _, Sell)) => Some(Exit)
    case None => None
  }

  /** What call `k` of a run does to its ticker's position. */
  function TradeAt(calls: seq<Call>, k: nat): Option<Trade>
    requires k < |calls|
  {
    TradeOf(After(calls[..k], calls[k].ticker), calls[k])
  }

  /** A ticker's trades, in order. */
  function Trades(calls: seq<Call>, ticker: string): seq<Trade> {
    if calls == [] then []
    else
      var n := |calls| - 1;
      Trades(calls[..n], ticker)
      + (if calls[n].ticker == ticker && TradeAt(calls, n).Some? then [TradeAt(calls, n).value] else [])
  }

  /** A trade turns the position over, an entry opening it; nothing else touches it. */
  lemma TradeTurns(ts: TickerState, c: Call)
    requires !(ts.phase.Armed? && ts.inPosition)
    ensures !(Next(ts, c).phase.Armed? && Next(ts, c).inPosition)
    ensures TradeOf(ts, c).Some? ==> TradeOf(ts, c).value == if ts.inPosition then Exit else Entry
    ensures TradeOf(ts, c).Some? <==> Next(ts, c).inPosition != ts.inPosition
  {
  }

  /** In every run, a ticker's entries and exits strictly alternate, an entry first; it is in a
      position exactly after an odd number of them, and never armed in one. */
  lemma {:induction false} Alternation(calls: seq<Call>, ticker: string)
    ensures var trades := Trades(calls, ticker);
            && (forall i :: 0 <= i < |trades| ==> trades[i] == if i % 2 == 0 then Entry else Exit)
            && (After(calls, ticker).inPosition <==> |trades| % 2 == 1)
    ensures !(After(calls, ticker).phase.Armed? && After(calls, ticker).inPosition)
  {
    if calls != [] {
      var n := |calls| - 1;
      Alternation(calls[..n], ticker);
      var ts := After(calls[..n], ticker);
      TradeTurns(ts, calls[n]);
      if calls[n].ticker == ticker {
        assert TradeAt(calls, n) == TradeOf(ts, calls[n]);
      }
    }
  }

  /** A ticker's trade is an exit only in a call of `CheckExit` for it. */
  lemma {:induction false} ExitIsChecked(calls: seq<Call>, ticker: string, i: nat)
    requires i < |Trades(calls, ticker)| && Trades(calls, ticker)[i] == Exit
    ensures exists k :: 0 <= k < |calls| && calls[k].ticker == ticker && calls[k].action.CheckExit?
    decreases |calls|
  {
    var n := |calls| - 1;
    if i < |Trades(calls[..n], ticker)| {
      ExitIsChecked(calls[..n], ticker, i);
    } else {
      assert TradeAt(calls, n) == Some(Exit);
    }
  }

  /** A ticker that no call of `CheckExit` names is bought at most once in the whole run. */
  lemma BoughtOnceWithoutExits(calls: seq<Call>, ticker: string)
    requires forall k :: 0 <= k < |calls| && calls[k].ticker == ticker ==> !calls[k].action.CheckExit?
    ensures |Trades(calls, ticker)| <= 1
  {
    Alternation(calls, ticker);
    if |Trades(calls, ticker)| > 1 {
      ExitIsChecked(calls, ticker, 1);
    }
  }

  /* ---- what armed a ticker, and what it holds ---- */

  /** The call, for the same ticker, ends or replaces the arming that `armer` made. */
  predicate Ends(armer: Call, c: Call)
    requires armer.action.CandleClosed?
  {
    match c.action
    case CandleClosed(_) => true
    case TtlExpired => true
    case AiConfirmed(_, direction, bull, candle) =>
      && candle == armer.action.closeTime
      && (c.now > armer.now + 300000 || direction != "BUY_READY" || bull < 0.65 || c.fills)
    case CheckExit(_) => false
  }

  /** Call `j` closed a candle of a flat ticker, and nothing since has ended that arming. */
  ghost predicate ArmedBy(calls: seq<Call>, ticker: string, j: nat) {
    && j < |calls| && calls[j].ticker == ticker && calls[j].action.CandleClosed?
    && !After(calls[..j], ticker).inPosition
    && forall i :: j < i < |calls| && calls[i].ticker == ticker ==> !Ends(calls[j], calls[i])
  }

  /** Call `b` bought, and no price since has hit the stop or the target of that entry. */
  ghost predicate HeldSince(calls: seq<Call>, ticker: string, b: nat) {
    && b < |calls| && calls[b].ticker == ticker && calls[b].action.AiConfirmed? && TradeAt(calls, b) == Some(Entry)
    && forall i :: b < i < |calls| && calls[i].ticker == ticker && calls[i].action.CheckExit?
                   ==> !Hit(calls[i].action.price, calls[b].action.close)
  }

  lemma ArmedBySnoc(calls: seq<Call>, c: Call, ticker: string, j: nat)
    ensures ArmedBy(calls + [c], ticker, j) <==>
            if j < |calls| then ArmedBy(calls, ticker, j) && (c.ticker == ticker ==> !Ends(calls[j], c))
            else j == |calls| && c.ticker == ticker && c.action.CandleClosed? && !After(calls, ticker).inPosition
  {
    var longer := calls + [c];
    if j < |calls| {
      assert longer[..j] == calls[..j] && longer[|calls|] == c;
      assert forall i :: 0 <= i < |calls| ==> longer[i] == calls[i];
    } else if j == |calls| {
      assert longer[..j] == calls;
    }
  }

  lemma HeldSinceSnoc(calls: seq<Call>, c: Call, ticker: string, b: nat)
    ensures HeldSince(calls + [c], ticker, b) <==>
            if b < |calls| then
              HeldSince(calls, ticker, b)
              && (c.ticker == ticker && c.action.CheckExit? ==> !Hit(c.action.price, calls[b].action.close))
            else b == |calls| && c.ticker == ticker && c.action.AiConfirmed?
                 && TradeOf(After(calls, ticker), c) == Some(Entry)
  {
    var longer := calls + [c];
    if b < |calls| {
      assert longer[..b] == calls[..b] && longer[|calls|] == c;
      assert forall i :: 0 <= i < |calls| ==> longer[i] == calls[i];
    } else if b == |calls| {
      assert longer[..b] == calls;
    }
  }

  lemma AfterSnoc(calls: seq<Call>, c: Call, ticker: string)
    ensures After(calls + [c], ticker) ==
            if c.ticker == ticker then Next(After(calls, ticker), c) else After(calls, ticker)
  {
    assert (calls + [c])[..|calls|] == calls;
  }

  ghost predicate Explained(calls: seq<Call>, ticker: string) {
    var ts := After(calls, ticker);
    && (ts.phase.Armed? <==> exists j: nat :: ArmedBy(calls, ticker, j))
    && (forall j: nat :: ArmedBy(calls, ticker, j) ==>
          ts.armedAt == calls[j].now && ts.closeTime == calls[j].action.closeTime)
    && (ts.inPosition <==> exists b: nat :: HeldSince(calls, ticker, b))
    && (forall b: nat :: HeldSince(calls, ticker, b) ==> ts.entryPrice == calls[b].action.close)
  }

  /** A standing arming arms the ticker, with its own times. */
  lemma StandingArms(calls: seq<Call>, c: Call, ticker: string, j: nat)
    requires Explained(calls, ticker) && ArmedBy(calls + [c], ticker, j)
    requires !(After(calls, ticker).phase.Armed? && After(calls, ticker).inPosition)
    ensures var ts, armer := After(calls + [c], ticker), (calls + [c])[j];
            ts.phase.Armed? && ts.armedAt == armer.now && ts.closeTime == armer.action.closeTime
  {
    AfterSnoc(calls, c, ticker);
    ArmedBySnoc(calls, c, ticker, j);
  }

  /** An armed ticker has a standing arming. */
  lemma ArmedStands(calls: seq<Call>, c: Call, ticker: string) returns (j: nat)
    requires Explained(calls, ticker) && After(calls + [c], ticker).phase.Armed?
    requires !(After(calls, ticker).phase.Armed? && After(calls, ticker).inPosition)
    ensures ArmedBy(calls + [c], ticker, j)
  {
    AfterSnoc(calls, c, ticker);
    if c.ticker == ticker && c.action.CandleClosed? && !After(calls, ticker).inPosition {
      j := |calls|;
    } else {
      j :| ArmedBy(calls, ticker, j);
    }
    ArmedBySnoc(calls, c, ticker, j);
  }

  lemma ArmedStep(calls: seq<Call>, c: Call, ticker: string)
    requires Explained(calls, ticker) && !(After(calls, ticker).phase.Armed? && After(calls, ticker).inPosition)
    ensures var ts, longer := After(calls + [c], ticker), calls + [c];
            && (ts.phase.Armed? <==> exists j: nat :: ArmedBy(longer, ticker, j))
            && (forall j: nat :: ArmedBy(longer, ticker, j) ==>
                  ts.armedAt == longer[j].now && ts.closeTime == longer[j].action.closeTime)
  {
    var ts, longer := After(calls + [c], ticker), calls + [c];
    if ts.phase.Armed? {
      var j := ArmedStands(calls, c, ticker);
    }
    forall j: nat | ArmedBy(longer, ticker, j)
      ensures ts.phase.Armed? && ts.armedAt == longer[j].now && ts.closeTime == longer[j].action.closeTime
    {
      StandingArms(calls, c, ticker, j);
    }
  }

  lemma HeldStep(calls: seq<Call>, c: Call, ticker: string)
    requires Explained(calls, ticker) && !(After(calls, ticker).phase.Armed? && After(calls, ticker).inPosition)
    ensures var ts, longer := After(calls + [c], ticker), calls + [c];
            && (ts.inPosition <==> exists b: nat :: HeldSince(longer, ticker, b))
            && (forall b: nat :: HeldSince(longer, ticker, b) ==> ts.entryPrice == longer[b].action.close)
  {
    var longer := calls + [c];
    AfterSnoc(calls, c, ticker);
    forall b: nat ensures
      HeldSince(longer, ticker, b) <==>
      if b < |calls| then
        HeldSince(calls, ticker, b)
        && (c.ticker == ticker && c.action.CheckExit? ==> !Hit(c.action.price, calls[b].action.close))
      else b == |calls| && c.ticker == ticker && c.action.AiConfirmed?
           && TradeOf(After(calls, ticker), c) == Some(Entry)
    {
      HeldSinceSnoc(calls, c, ticker, b);
    }
    if After(longer, ticker).inPosition {
      if After(calls, ticker).inPosition {
        var b: nat :| HeldSince(calls, ticker, b);
        assert HeldSince(longer, ticker, b);
      } else {
        assert HeldSince(longer, ticker, |calls|);
      }
    }
  }

  /** In every run: a ticker is armed exactly when some candle close still stands, with that
      close's times; and in a position exactly when some buy still stands, at that buy's price. */
  lemma {:induction false} Explanation(calls: seq<Call>, ticker: string)
    ensures Explained(calls, ticker)
  {
    if calls != [] {
      var prev, c := calls[..|calls| - 1], calls[|calls| - 1];
      assert calls == prev + [c];
      Explanation(prev, ticker);
      Alternation(prev, ticker);
      ArmedStep(prev, c, ticker);
      HeldStep(prev, c, ticker);
    }
  }

  /** The call is a signal for the candle whose close, call `j`, armed the ticker. */
  ghost predicate Answers(calls: seq<Call>, c: Call, j: nat) {
    c.action.AiConfirmed? && ArmedBy(calls, c.ticker, j) && c.action.candle == calls[j].action.closeTime
  }

  /** It comes within five minutes of the close and is convinced. */
  ghost predicate Asks(calls: seq<Call>, c: Call, j: nat) {
    && Answers(calls, c, j) && c.now <= calls[j].now + 300000
    && c.action.direction == "BUY_READY" && c.action.bull >= 0.65
  }

  /** A signal sends an order exactly when it asks for one on some arming: to buy 50 at its close.
      The buy is held at that price if it fills and changes nothing if not; a signal for the armed
      candle that does not ask disarms the ticker. */
  lemma SignalExplained(calls: seq<Call>, c: Call)
    requires c.action.AiConfirmed?
    ensures var ts, order := After(calls, c.ticker), OrderOf(After(calls, c.ticker), c);
            && (order.Some? <==> exists j: nat :: Asks(calls, c, j))
            && (order.Some? ==> order.value == OrderRequest(c.ticker, c.action.close, 50.0, Buy))
            && (order.Some? && !c.fills ==> Next(ts, c) == ts)
            && (order.Some? && c.fills ==> Next(ts, c).inPosition && Next(ts, c).entryPrice == c.action.close)
            && (order.None? && (exists j: nat :: Answers(calls, c, j)) ==> Next(ts, c).phase.Idle?)
            && (order.None? ==> Next(ts, c).inPosition == ts.inPosition)
  {
    Explanation(calls, c.ticker);
    Alternation(calls, c.ticker);
    var ts := After(calls, c.ticker);
    if OrderOf(ts, c).Some? {
      var j: nat :| ArmedBy(calls, c.ticker, j);
      assert Asks(calls, c, j);
    }
  }

  /** An exit check sends an order exactly when its price hits the stop or the target of a buy that
      still stands: to sell the 50 at that price. */
  lemma ExitExplained(calls: seq<Call>, c: Call)
    requires c.action.CheckExit?
    ensures var order := OrderOf(After(calls, c.ticker), c);
            && (order.Some? <==>
                exists b: nat :: HeldSince(calls, c.ticker, b) && Hit(c.action.price, calls[b].action.close))
            && (order.Some? ==> order.value == OrderRequest(c.ticker, c.action.price, 50.0, Sell))
  {
    Explanation(calls, c.ticker);
    if OrderOf(After(calls, c.ticker), c).Some? {
      var b: nat :| HeldSince(calls, c.ticker, b);
    }
  }

  /** Call `k` buys on the arming that call `j` made: it asks for an order, and the broker fills it. */
  ghost predicate BuysOn(calls: seq<Call>, k: nat, j: nat)
    requires k < |calls|
  {
    calls[k].fills && Asks(calls[..k], calls[k], j)
  }

  /** A call opens a position exactly when it buys on some arming; and it closes one exactly when
      its price hits the stop or the target of a buy that still stands. */
  lemma TradesExplained(calls: seq<Call>, k: nat)
    requires k < |calls|
    ensures TradeAt(calls, k) == Some(Entry) <==> exists j: nat :: BuysOn(calls, k, j)
    ensures TradeAt(calls, k) == Some(Exit) <==>
            calls[k].action.CheckExit? && exists b: nat :: HeldSince(calls[..k], calls[k].ticker, b)
                                                      && Hit(calls[k].action.price, calls[b].action.close)
  {
    if calls[k].action.AiConfirmed? {
      SignalExplained(calls[..k], calls[k]);
      if exists j: nat :: Asks(calls[..k], calls[k], j) {
        var j: nat :| Asks(calls[..k], calls[k], j);
        assert calls[k].fills ==> BuysOn(calls, k, j);
      }
    } else if calls[k].action.CheckExit? {
      ExitExplained(calls[..k], calls[k]);
      assert forall b: nat :: HeldSince(calls[..k], calls[k].ticker, b) ==> calls[..k][b] == calls[b];
    }
  }

  lemma StillStands(calls: seq<Call>, n: nat, ticker: string, j: nat, i: nat)
    requires n <= |calls| && ArmedBy(calls[..n], ticker, j) && j < i < n && calls[i].ticker == ticker
    ensures calls[j].action.CandleClosed? && !Ends(calls[j], calls[i])
  {
    assert calls[..n][j] == calls[j] && calls[..n][i] == calls[i];
  }

  /** No arming is spent twice: a later buy of the same ticker rests on a candle that closed after
      the earlier buy. */
  lemma ArmingsSpentOnce(calls: seq<Call>, k: nat, k': nat, j: nat, j': nat)
    requires k < k' < |calls| && calls[k].ticker == calls[k'].ticker
    requires BuysOn(calls, k, j) && BuysOn(calls, k', j')
    ensures j < k < j' < k'
  {
    var ticker := calls[k].ticker;
    if j < j' < k {
      StillStands(calls, k, ticker, j, j');
    } else if j' < j {
      StillStands(calls, k', ticker, j', j);
    } else if j' == j {
      StillStands(calls, k', ticker, j, k);
    }
  }

  /** The exit prices are 3% on one side of the entry and 6% on the other: below and above a
      positive entry, the other way round for a negative one, and any price but zero for a zero one. */
  lemma ExitPrices(price: real, entry: real)
    ensures entry > 0.0 ==> (Hit(price, entry) <==> price <= 0.97 * entry || price >= 1.06 * entry)
    ensures entry < 0.0 ==> (Hit(price, entry) <==> price >= 0.97 * entry || price <= 1.06 * entry)
    ensures entry == 0.0 ==> (Hit(price, entry) <==> price != 0.0)
  {
    if entry != 0.0 {
      var ratio := (price - entry) / entry;
      ScaleOrder(ratio, entry, price - entry, -0.03);
      ScaleOrder(ratio, entry, price - entry, 0.06);
    }
  }

  /* ---- the handler ---- */

  class SwingHandler {
    var states: map<string, TickerState>
    ghost var calls: seq<Call>

    /** The entry of a ticker, and a fresh one before the first. */
    function Lookup(ticker: string): TickerState
      reads this
    {
      if ticker in states then states[ticker] else FRESH
    }

    ghost predicate Valid()
      reads this
    {
      forall ticker :: Lookup(ticker) == After(calls, ticker)
    }

    constructor ()
      ensures Valid() && calls == []
    {
      states, calls := map[], [];
    }

    /** Takes the call into the history, its effect on the ticker's entry being done. */
    ghost method Record(c: Call, before: map<string, TickerState>)
      requires forall ticker :: (if ticker in before then before[ticker] else FRESH) == After(calls, ticker)
      requires forall ticker :: Lookup(ticker) ==
                 if ticker == c.ticker then Next(After(calls, ticker), c) else After(calls, ticker)
      modifies this`calls
      ensures Valid() && calls == old(calls) + [c]
    {
      forall ticker ensures Lookup(ticker) == After(calls + [c], ticker) {
        AfterSnoc(calls, c, ticker);
      }
      calls := calls + [c];
    }

    method OnCandleClosed(ticker: string, closeTime: int, now: int)
      requires Valid()
      modifies this
      ensures Valid() && calls == old(calls) + [Call(ticker, CandleClosed(closeTime), now, false)]
    {
      ghost var before := states;
      var ts := Lookup(ticker);
      states := states[ticker := ts];
      if !ts.inPosition {
        states := states[ticker := ts.(phase := Armed, armedAt := now, closeTime := closeTime)];
      }
      Record(Call(ticker, CandleClosed(closeTime), now, false), before);
    }

    /** `order` is what the broker was asked, and `fills` what it answers. */
    method OnAiConfirmed(ticker: string, signal: Action, now: int, fills: bool) returns (order: Option<OrderRequest>)
      requires Valid() && signal.AiConfirmed?
      modifies this
      ensures Valid() && calls == old(calls) + [Call(ticker, signal, now, fills)]
      ensures order == OrderOf(After(old(calls), ticker), Call(ticker, signal, now, fills))
      ensures var c := Call(ticker, signal, now, fills);
              && (order.Some? <==> exists j: nat :: Asks(old(calls), c, j))
              && (order.Some? ==> order.value == OrderRequest(ticker, signal.close, 50.0, Buy))
              && (order.None? && (exists j: nat :: Answers(old(calls), c, j)) ==> Lookup(ticker).phase.Idle?)
              && (order.Some? && fills ==> Lookup(ticker).inPosition && Lookup(ticker).entryPrice == signal.close)
    {
      ghost var before := states;
      SignalExplained(calls, Call(ticker, signal, now, fills));
      order := None;
      if ticker in states {
        var ts := states[ticker];
        if ts.phase.Armed? && !ts.inPosition && signal.candle == ts.closeTime {
          if now - ts.armedAt > ARMED_TTL_MS {
            states := states[ticker := ts.(phase := Idle)];
          } else if signal.direction != "BUY_READY" || signal.bull < MIN_BULL_PROB {
            states := states[ticker := ts.(phase := Idle)];
          } else {
            order := Some(OrderRequest(ticker, signal.close, FIXED_QTY, Buy));
            if fills {
              states := states[ticker := ts.(phase := Idle, inPosition := true, entryPrice := signal.close)];
            }
          }
        }
      }
      Record(Call(ticker, signal, now, fills), before);
    }

    method OnTtlExpired(ticker: string, now: int)
      requires Valid()
      modifies this
      ensures Valid() && calls == old(calls) + [Call(ticker, TtlExpired, now, false)]
    {
      ghost var before := states;
      if ticker in states {
        states := states[ticker := states[ticker].(phase := Idle)];
      }
      Record(Call(ticker, TtlExpired, now, false), before);
    }

    /** The position is closed whether or not the sell order fills. */
    method CheckExit(ticker: string, price: real, now: int, fills: bool) returns (order: Option<OrderRequest>)
      requires Valid()
      modifies this
      ensures Valid() && calls == old(calls) + [Call(ticker, Action.CheckExit(price), now, fills)]
      ensures order == OrderOf(After(old(calls), ticker), Call(ticker, Action.CheckExit(price), now, fills))
      ensures order.Some? <==> exists b: nat :: HeldSince(old(calls), ticker, b)
                                                && Hit(price, old(calls)[b].action.close)
      ensures order.Some? ==> order.value == OrderRequest(ticker, price, 50.0, Sell)
    {
      ghost var before := states;
      ExitExplained(calls, Call(ticker, Action.CheckExit(price), now, fills));
      order := None;
      if ticker in states && states[ticker].inPosition && Hit(price, states[ticker].entryPrice) {
        order := Some(OrderRequest(ticker, price, FIXED_QTY, Sell));
        states := states[ticker := states[ticker].(inPosition := false)];
      }
      Record(Call(ticker, Action.CheckExit(price), now, fills), before);
    }
  }
}
