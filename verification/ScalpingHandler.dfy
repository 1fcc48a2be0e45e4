/** `on_event` and `check_exit` over the handler's real field. Each critical section and the order
    is a protocol step; between the dispatcher's steps other threads call `check_exit`. */
module ScalpingHandler {
  import opened Orders
  import opened ScalpingProtocol

  const FIXED_QTY := 10.0

  class ScalpingHandler {
    var positions: map<string, Position>
    ghost var protocol: State

    ghost predicate Valid()
      reads this
    {
      protocol.positions == positions && |protocol.dispatchers| == 1 && Inv(protocol)
    }

    constructor ()
      ensures Valid() && protocol == Init(1)
    {
      positions := map[];
      protocol := Init(1);
      InitInv(1);
    }

    /** Callers of `check_exit` run for a while. */
    method PreemptDispatcher()
      requires Valid()
      modifies this
      ensures Valid() && ExitsOnly(old(protocol), protocol)
    {
    }

    /** A step that leaves the positions alone. */
    ghost method LocalStep(step: Step)
      requires Valid() && Enabled(protocol, step) && (step.Start? || step.Check? || step.Order?)
      modifies this`protocol
      ensures Valid() && protocol == Apply(old(protocol), step)
    {
      StepInv(protocol, step);
      protocol := Apply(protocol, step);
    }

    /** The broker's answer. */
    ghost method AskBroker(event: Event, now: int, fills: bool)
      requires Valid() && protocol.dispatchers[0] == AtOrder(event, now)
      modifies this`protocol
      ensures Valid() && protocol.dispatchers == [if fills then AtEntry(event, now) else Resting]
      ensures Entries(protocol.log) == Entries(old(protocol.log)) + (if fills then [Entry(event, now)] else [])
    {
      EntriesSnoc(protocol.log, Entry(event, now));
      LocalStep(Order(0, fills));
    }

    /** The last critical section: notes the position. */
    method Note(event: Event, now: int)
      requires Valid() && protocol.dispatchers[0] == AtEntry(event, now)
      modifies this
      ensures Valid() && protocol.dispatchers == [Resting] && protocol.log == old(protocol.log)
      ensures positions == old(positions)[event.ticker := Position(event.price, now)]
    {
      StepInv(protocol, Enter(0));
      positions := positions[event.ticker := Position(event.price, now)];
      protocol := Apply(protocol, Enter(0));
    }

    /** The broker's answer, and the entry when it filled. */
    method Execute(event: Event, now: int, fills: bool)
      requires Valid() && protocol.dispatchers[0] == AtOrder(event, now)
      modifies this
      ensures Valid() && protocol.dispatchers == [Resting]
      ensures Entries(protocol.log) == Entries(old(protocol.log)) + (if fills then [Entry(event, now)] else [])
    {
      AskBroker(event, now, fills);
      PreemptDispatcher();
      if fills {
        Note(event, now);
      }
    }

    /** `on_event`: asks the broker to buy exactly when the signal is fresh and, at the position
        check, the ticker is not held; `at` is the state at that check. A filled order is the only
        entry made. */
    method OnEvent(event: Event, now: int, fills: bool) returns (orders: seq<OrderRequest>, ghost at: State)
      requires Valid() && protocol.dispatchers[0].Resting?
      modifies this
      ensures Valid() && protocol.dispatchers == [Resting]
      ensures at.positions.Keys <= old(protocol.positions).Keys
      ensures orders == if now <= event.timestamp + 10000 && event.ticker !in at.positions
                        then [OrderRequest(event.ticker, event.price, 10.0, Buy)] else []
      ensures Entries(protocol.log)
              == Entries(old(protocol.log)) + (if orders != [] && fills then [Entry(event, now)] else [])
    {
      at, orders := protocol, [];
      LocalStep(Start(0, event, now));
      if now - event.timestamp <= SIGNAL_TTL_MS {
        PreemptDispatcher();
        at := protocol;
        var held := event.ticker in positions;
        LocalStep(Check(0));
        if !held {
          PreemptDispatcher();
          orders := [OrderRequest(event.ticker, event.price, FIXED_QTY, Buy)];
          Execute(event, now, fills);
        }
      }
    }

    /** `check_exit`: sells and closes the position when the stop or the holding time is hit, and
        changes nothing otherwise; the broker's answer plays no part. */
    method CheckExit(ticker: string, price: real, timestamp: int) returns (orders: seq<OrderRequest>)
      requires Valid()
      modifies this
      ensures Valid() && protocol == Apply(old(protocol), Step.CheckExit(ticker, price, timestamp))
      ensures orders == if ticker in old(positions) && Hit(price, timestamp, old(positions)[ticker])
                        then [OrderRequest(ticker, price, 10.0, Sell)] else []
    {
      ExitInv(protocol, ticker, price, timestamp);
      orders := [];
      if ticker in positions && Hit(price, timestamp, positions[ticker]) {
        orders := [OrderRequest(ticker, price, FIXED_QTY, Sell)];
        positions := positions - {ticker};
      }
      protocol := Apply(protocol, Step.CheckExit(ticker, price, timestamp));
    }
  }
}
