# Verification of the trading engine's core

A Dafny model of the concurrent and stateful core of the `trading-engine`, and of the scoring
rules of the `ai-signal-service` that sends it signals. `dafny verify dfyconfig.toml` checks
everything.

Concurrent code is modelled twice. A `…Protocol` module is a transition system: one step is one
atomic load, store or compare-exchange, one critical section, or one half of a plain store, with a
program counter per thread; its theorems hold in every interleaving of any number of threads. The
class beside it has the source's fields and statements; each statement on shared state is proved to
be a protocol step, and what other threads do in between is a method whose contract is proved to
follow from their steps (the `…Rely` lemmas).

| file | models |
|---|---|
| `Fifo`, `Bits`, `Modular`, `Extrema`, `Wrappers` | the FIFO both queues refine; masks, remainders, optional values and other shared vocabulary |
| `MpscProtocol`, `MpscQueue` | `MPSCQueue` |
| `SpscProtocol`, `SpscQueue` | `SPSCQueue` |
| `PoolProtocol`, `ObjectPool`, `PoolHandle` | `ObjectPool` and its move-only owner |
| `RegistryProtocol`, `Registry` | the double-checked ticker registry, over the pool's own steps |
| `Statistics`, `ZScore`, `PriceChange` | the sliding-window calculators |
| `Market`, `ScalpingDrain` | ticks; the drain loop and its signals |
| `ScalpingPath` | the queue and the drain loop together |
| `Candle`, `SwingAggregation` | candles, and the 15-minute and one-hour aggregators of one ticker |
| `SwingPath`, `SwingProgress` | `push_tick` on many tickers by many threads, from the registry to both candles |
| `Orders`, `SwingHandler` | order requests; the swing order state machine |
| `ScalpingProtocol`, `ScalpingHandler` | the scalping order handler and its split critical sections |
| `EventBusProtocol`, `EventBusWaiting`, `EventBus` | publishers and the dispatch thread of one event type, with its condition variable |
| `Indicators`, `Scorer` | the indicators and the rule-based scorer |
| `IndicatorLaws`, `ScorerLaws` | what indicators and score are, by recurrences and equations |

Numbers are exact reals where the source has `double` or `float`, integers are unbounded, memory is
sequentially consistent. The square root and the exponential are parameters with their defining
properties. Division by a zero entry price follows IEEE 754: an infinity of the numerator's sign,
or no number, which fails every comparison. Clocks, the broker's answer and the outcome of a weak
compare-exchange are arbitrary inputs.

## What the proofs found

- In exact arithmetic `SignalType::Scalping` is never emitted. Samuelson's inequality keeps the newest sample's z-score
  in a window of W at or below (W-1)/√W, 4.249 for W = 20, under the threshold 5.0
  (`ScalpingDrain.NeverScalping`); a window makes it reachable exactly when 25 W <= (W-1)²
  (`ScalpingDrain.ScalpingReachableIff`). The comments promise a signal above 5σ and the code tests
  at-or-above; both are out of reach. In doubles the sliding update keeps the rounding error of a
  large sample after it has left the window, so nothing here rules the branch out for the shipped
  code.
- By the same bound the scorer's volume boost never gets to the maximum of 1.5 that
  `ai-signal-service/config.yaml:37` gives it (`Indicators.FullBoostIff`).
- The pool is safe without any discipline on its callers exactly when it has one slot or no more than
  one calling thread; with two of each a slot can be handed out twice
  (`PoolProtocol.AlwaysSafeIff`). A winning compare-exchange of
  `acquire` keeps it safe exactly when the link it saved is still the slot's link
  (`PoolProtocol.SwapSafeIff`). The registry's pool is proved to meet both sufficient disciplines
  (`RegistryProtocol.PoolIsGuarded`); the message pool, acquired from two threads and released, is
  not covered by either.
- `PriceChangeTracker` compares with the price it evicts, W pushes back, so it lags its own warm-up
  by one push (`PriceChange.NoChangeYet`). That is the change from the oldest price of the window
  that holds the new one, as its comment can be read, only in the cases of `PriceChange.InWindowIff`;
  the repository's own test takes "oldest" to be the evicted price.
- Trades of the scalping handler alternate in every interleaving exactly when there is at most one
  dispatcher (`ScalpingProtocol.AlternatesIff`). Nothing calls `check_exit`; without it each
  ticker is bought at most once (`ScalpingProtocol.BoughtOnceWithoutExits`).
- Nothing calls `check_exit` of the swing handler either; a ticker it is not called for is bought at
  most once (`SwingHandler.BoughtOnceWithoutExits`).
- Shutdown of the event bus delivers everything pushed before it exactly when the flag is not cleared
  just before the dispatcher's look at it with events waiting (`EventBusProtocol.DrainsIff`), and
  everything pushed at all exactly when, besides, nothing is pushed after the dispatcher's last look
  at the queue (`EventBusProtocol.DeliveredIff`). The failing case is reached
  (`EventBusProtocol.TailMayBeLost`).
- The destructor of the event bus clears the flag and notifies without the mutex, so its join can hang:
  it can return if and only if the notification does not fall between the dispatcher's test of the
  flag and its sleep (`EventBusWaiting.JoinReturnsIff`). The failing case is reached, and then only a
  new publish or a waking without cause helps (`EventBusWaiting.JoinMayHang`,
  `EventBusWaiting.HangsIsFinal`). A publish, which pushes under the mutex, is never slept on
  (`EventBusWaiting.NoPublishIsSleptOn`).
- Truncation toward zero breaks the two window sizes apart for negative timestamps. In every stream
  above a bound, hours are cut only where 15-minute candles are, and are their merge, exactly when the
  bound is no lower than minus sixty minutes (`SwingAggregation.AlwaysCutsTogetherIff`,
  `SwingAggregation.AlwaysMergesIff`); their windows lie inside the hour's exactly when it is no lower
  than minus fifteen. Both hold for all epoch times.
- Handles release every slot as often as it was acquired whatever the pool does, and no slot has two
  owners exactly when the pool hands out only slots nobody owns (`PoolHandle.OneOwnerIff`).
- RSI is 0 exactly when no price it weighs rose, so prices that never move count as wholly bearish
  (`Indicators.RsiRange`), and it mirrors under reflection of the prices exactly when the period is
  over 1 and there was both a rise and a fall (`Indicators.RsiMirrorIff`).
- A sensitivity past what the exponential can take makes the scorer raise with both divisors nonzero
  (`Scorer.FailsIff`); the shipped configuration never does.
- Once the registry has refused a ticker, every later tick of it is dropped; no tick is lost in any
  other way between `push_tick` and the candles (`SwingPath.NothingLost`).

## Model

| member | source | states |
|---|---|---|
| Bits.SlotIsModulo | trading-engine/src/core/lock_free_queue.hpp:139-142 | for a capacity that passes the static assertion, masking with capacity - 1 is the remainder by the capacity |
| MpscProtocol.StepInv | trading-engine/src/core/lock_free_queue.hpp:94-129 | every atomic step of every producer and of the consumer keeps the queue's invariant |
| MpscProtocol.Exactness | trading-engine/src/core/lock_free_queue.hpp:94-129 | in every interleaving: the popped items are a prefix of the items in claim order, each whole; no two threads touch one slot's data at once; at most capacity positions are claimed and not freed; the two counters differ by at most capacity + 1, and by that only between the consumer's two stores |
| MpscProtocol.InvIsRaceFree | trading-engine/src/core/lock_free_queue.hpp:105-125 | no slot is written while another thread writes or reads it |
| MpscProtocol.FullVerdict | trading-engine/src/core/lock_free_queue.hpp:97-110 | `push` gives up at a sequence load if and only if exactly capacity positions are claimed and not freed and its position is current |
| MpscProtocol.EmptyVerdict | trading-engine/src/core/lock_free_queue.hpp:118-124 | `pop` finds nothing if and only if the oldest position is unclaimed or its producer has not published |
| MpscProtocol.DrainedWhenQuiet | trading-engine/src/core/lock_free_queue.hpp:118-124 | with no push under way, an empty answer means every claimed item was returned |
| MpscProtocol.StepRefinesFifo | trading-engine/src/core/lock_free_queue.hpp:94-129 | each step is an enqueue, a dequeue of the front, or nothing, of an unbounded FIFO |
| MpscProtocol.RunRefinesFifo | trading-engine/src/core/lock_free_queue.hpp:94-129 | every run is a run of that FIFO |
| MpscProtocol.ProducerOrder | trading-engine/src/core/lock_free_queue.hpp:94-115 | in every interleaving a producer's items are claimed in the order it pushed them, its claims and the push it has under way being exactly its pushes that were not refused; what was popped of them is a prefix |
| MpscQueue.OthersMeetProducerRely | trading-engine/src/core/lock_free_queue.hpp:94-129 | whatever the other producers and the consumer do meets what a producer relies on |
| MpscQueue.OthersMeetConsumerRely | trading-engine/src/core/lock_free_queue.hpp:94-115 | whatever the producers do meets what the consumer relies on |
| MpscQueue.MpscQueue.constructor | trading-engine/src/core/lock_free_queue.hpp:86-91 | slot i starts with sequence i and both counters at 0, which is the protocol's first state |
| MpscQueue.MpscQueue.Push | trading-engine/src/core/lock_free_queue.hpp:94-115 | amid any interference: accepted means the item was claimed once and published; refused means nothing was claimed and the ring was full at the load; still retrying means exactly `rounds` rounds were lost, each because another thread had claimed past the position held or, in no more than `flakes` of them, for no reason; with one producer, room in the ring and more rounds than flakes the item is accepted |
| MpscQueue.MpscQueue.Pop | trading-engine/src/core/lock_free_queue.hpp:118-129 | amid any interference: returns the next item in claim order and counts it popped, or returns nothing when at the load none was ready |
| SpscProtocol.StepInv | trading-engine/src/core/lock_free_queue.hpp:22-47 | every step of either side keeps the ring's invariant, whatever stale index it acts on |
| SpscProtocol.Exactness | trading-engine/src/core/lock_free_queue.hpp:22-47 | in every interleaving: popped is a whole prefix of pushed, the cyclic range from tail to head is exactly the rest and at most capacity - 1 long, and the two sides never touch one slot at once |
| SpscProtocol.FullTest | trading-engine/src/core/lock_free_queue.hpp:23-25 | the index comparison for full holds if and only if the ring holds capacity - 1 items |
| SpscProtocol.Verdicts | trading-engine/src/core/lock_free_queue.hpp:25-43 | full and empty are answered if and only if they hold at the load of the other side's index |
| SpscProtocol.SizeVerdict | trading-engine/src/core/lock_free_queue.hpp:54-58 | over wrapping unsigned words, `size()` is pushes seen less pops seen modulo the capacity, whatever happens between its loads; it is that difference if and only if no pop overtook, and in a quiet state the queue's length |
| SpscProtocol.StepRefinesFifo | trading-engine/src/core/lock_free_queue.hpp:22-47 | each step is a step of an unbounded FIFO |
| SpscProtocol.RunRefinesFifo | trading-engine/src/core/lock_free_queue.hpp:22-47 | every run is a run of that FIFO |
| SpscQueue.ConsumerMeetsProducerRely | trading-engine/src/core/lock_free_queue.hpp:41-47 | whatever the consumer does meets what the producer relies on |
| SpscQueue.ProducerMeetsConsumerRely | trading-engine/src/core/lock_free_queue.hpp:22-29 | whatever the producer does meets what the consumer relies on |
| SpscQueue.SpscQueue.Push | trading-engine/src/core/lock_free_queue.hpp:22-29 | appends the item if and only if, at its load of tail, fewer than capacity - 1 items were held |
| SpscQueue.SpscQueue.Pop | trading-engine/src/core/lock_free_queue.hpp:41-47 | returns the oldest item not yet popped, or nothing if and only if at its load of head there was none |
| PoolProtocol.StepInv | trading-engine/src/core/object_pool.hpp:29-56 | under a discipline, every atomic step keeps the free list finite and every slot in one place |
| PoolProtocol.GuardedSafety | trading-engine/src/core/object_pool.hpp:29-56 | with serialised acquires among any releases, or with no releases, every interleaving partitions the slots into free, handed out once, and on their way back |
| PoolProtocol.NullVerdict | trading-engine/src/core/object_pool.hpp:30-38 | under a discipline, `acquire` gives up if and only if no slot is free |
| PoolProtocol.SwapSafeIff | trading-engine/src/core/object_pool.hpp:33-38 | without any discipline, a winning exchange keeps the pool safe if and only if the saved link is still the slot's |
| PoolProtocol.StaleLink | trading-engine/src/core/object_pool.hpp:29-56 | for two slots or more and two threads or more, a reachable state in which a thread is about to win with a link that is out of date |
| PoolProtocol.HandedOutTwice | trading-engine/src/core/object_pool.hpp:29-56 | for two slots or more and two threads or more, a reachable state in which one slot has two owners |
| PoolProtocol.AlwaysSafeIff | trading-engine/src/core/object_pool.hpp:29-56 | every interleaving of so many threads without discipline is safe if and only if the pool has one slot or there is at most one thread |
| ObjectPool.OthersMeetRely | trading-engine/src/core/object_pool.hpp:29-56 | whatever the other threads do meets what a thread inside `acquire` or `release` relies on |
| ObjectPool.ObjectPool.constructor | trading-engine/src/core/object_pool.hpp:21-26 | the free list starts as all slots in index order |
| ObjectPool.ObjectPool.Acquire | trading-engine/src/core/object_pool.hpp:29-40 | amid any interference a discipline allows: hands out the front of the free list, which had no owner, or nothing when the list is empty at its reading of head; or is still retrying after exactly `rounds` lost exchanges, each because head had moved or, in no more than `flakes` of them, for no reason; with one thread and more rounds than flakes it is not |
| ObjectPool.ObjectPool.Release | trading-engine/src/core/object_pool.hpp:43-56 | amid the same interference: puts the slot, which is nobody's and in no list, at the front of the free list, or is still retrying on the same terms |
| PoolHandle.PoolHandle.Own | trading-engine/src/core/object_pool.hpp:91-92 | owns what `acquire` gave, which may be nothing |
| PoolHandle.PoolHandle.Move | trading-engine/src/core/object_pool.hpp:97-101 | takes over the slot, if there is one, and leaves the source empty |
| PoolHandle.PoolHandle.Assign | trading-engine/src/core/object_pool.hpp:103-112 | gives back the old slot once, takes over the new one, and does nothing on self-assignment |
| PoolHandle.PoolHandle.Reset | trading-engine/src/core/object_pool.hpp:121-127 | gives the slot back once and leaves the handle empty; a handle without a slot stays as it is |
| PoolHandle.Linearity | trading-engine/src/core/object_pool.hpp:88-132 | over every sequence of handle operations, and whatever a pool hands out, each slot has been released as often as acquired, less once for each handle that owns it; with no handle alive, exactly as often |
| PoolHandle.OneOwnerIff | trading-engine/src/core/object_pool.hpp:88-132 | through a whole sequence of handle operations no slot has two owners if and only if no acquisition hands out a slot that a handle owns |
| PoolHandle.PassedByValue | trading-engine/src/kafka/kafka_producer.hpp:62-96 | passing a handle by value leaves the argument empty and the slot back in the pool when the call ends |
| RegistryProtocol.StepInv | trading-engine/src/aggregation/tick_aggregator.hpp:189-205 | every lock, map or pool step of every caller keeps the registry's invariant |
| RegistryProtocol.Agreement | trading-engine/src/aggregation/tick_aggregator.hpp:189-205 | in every interleaving all answers for one ticker are the same, different tickers never share a state, the map is injective and no larger than the pool, and a null answer means every state is another ticker's, for good |
| RegistryProtocol.OnlyGrows | trading-engine/src/aggregation/tick_aggregator.hpp:196-204 | no run drops a ticker or gives it another state |
| RegistryProtocol.AcquireVerdict | trading-engine/src/aggregation/tick_aggregator.hpp:200-201 | a caller leaves the pool with nothing if and only if every slot is registered to another ticker |
| RegistryProtocol.MapIsRaceFree | trading-engine/src/aggregation/tick_aggregator.hpp:191-203 | in every interleaving, while the map is being changed no other caller looks at it or changes it |
| RegistryProtocol.PoolIsGuarded | trading-engine/src/aggregation/tick_aggregator.hpp:196-200 | whatever the callers do, the state pool's run meets both guards under which the pool is safe |
| RegistryProtocol.FastPath | trading-engine/src/aggregation/tick_aggregator.hpp:191-195 | a caller that asks for a registered ticker never takes the exclusive lock, in any interleaving |
| RegistryProtocol.LeavesAlone | trading-engine/src/aggregation/tick_aggregator.hpp:189-205 | a caller no other hinders leaves in at most fourteen steps of its own, with the state the map then has for its ticker, or nothing and every state another's |
| Registry.Registry.FindOrInsert | trading-engine/src/aggregation/tick_aggregator.hpp:196-204 | registers a new ticker with the next slot while there is one, and returns the ticker's slot |
| Registry.Registry.GetOrCreateState | trading-engine/src/aggregation/tick_aggregator.hpp:189-205 | whatever whole sections of other callers run between the two sections, returns the ticker's own slot, or nothing if and only if every slot is another's |
| Statistics.Slide | trading-engine/src/aggregation/zscore_calculator.hpp:22-26 | evicting and inserting by the reverse step gives the exact mean and squared deviations of the new window |
| Statistics.Grow | trading-engine/src/aggregation/zscore_calculator.hpp:29-34 | the forward step gives the exact mean and squared deviations of one more sample |
| Statistics.Samuelson | trading-engine/src/aggregation/zscore_calculator.hpp:39-43 | n (x - mean)² <= (n-1) m2 for the newest sample |
| ZScore.ZScoreCalculator.Push | trading-engine/src/aggregation/zscore_calculator.hpp:18-44 | for every history and any window of at least 2, ring, mean and m2 are exactly those of the last samples, and the result times their sample standard deviation is the sample less their mean, so it has that difference's sign; 0 where the deviation is at most 1e-9 |
| ZScore.ZScoreCalculator.Evict | trading-engine/src/aggregation/zscore_calculator.hpp:21-27 | replaces the oldest sample and keeps the moments exact |
| ZScore.ZScoreCalculator.WarmUp | trading-engine/src/aggregation/zscore_calculator.hpp:28-35 | adds a sample and keeps the moments exact |
| ZScore.ZScoreCalculator.Stddev | trading-engine/src/aggregation/zscore_calculator.hpp:47-51 | the square root of the window's sample variance |
| ZScore.ZScoreCalculator.GetMean | trading-engine/src/aggregation/zscore_calculator.hpp:46 | the window's mean |
| ZScore.ZScoreCalculator.WarmedUp | trading-engine/src/aggregation/zscore_calculator.hpp:52 | true if and only if the window is full |
| ZScore.ZScoreCalculator.Reset | trading-engine/src/aggregation/zscore_calculator.hpp:53 | back to the empty history |
| ZScore.Ceiling | trading-engine/src/aggregation/zscore_calculator.hpp:39-43 | n z² <= (n-1)² for the z-score of the newest of n >= 2 samples |
| ZScore.ReachableThreshold | trading-engine/src/aggregation/zscore_calculator.hpp:18-44 | some full window reaches a z-score of t if and only if n t² <= (n-1)² |
| ZScore.ReflectionNegates | trading-engine/src/aggregation/zscore_calculator.hpp:39-43 | reflecting every sample of a window negates the z-score |
| PriceChange.PriceChangeTracker.Push | trading-engine/src/aggregation/zscore_calculator.hpp:68-76 | the result times the price pushed a whole window earlier is a hundred times what the price has gained on it; 0 before there is one, or where it is at most 1e-9 |
| PriceChange.NoChangeYet | trading-engine/src/aggregation/zscore_calculator.hpp:68-76 | no change is seen in the first W pushes, the one that fills the window included |
| PriceChange.InWindowIff | trading-engine/src/aggregation/zscore_calculator.hpp:67-76 | the result is the change from the oldest of the last W prices if and only if there are fewer than W, or the evicted and that oldest price are equal or the new price is 0; where one of the two is too small to divide by, if and only if the other, unless it is too, equals the new price |
| PriceChange.EvictedIsNotOldest | trading-engine/src/aggregation/zscore_calculator.hpp:67-76 | prices on which the two differ: 300% and 100% |
| ScalpingDrain.Drainer.OnTick | trading-engine/src/aggregation/tick_aggregator.hpp:109-147 | from that ticker's own ticks, every other's calculators untouched: no signal if and only if there are fewer than 20 ticks or z < 2; MEDIUM or above if and only if besides z >= 3 and the change is 1.5% or more up or down; scalping if and only if z >= 5 and it is 3% or more; the signal carries the tick and both readings |
| ScalpingDrain.TierFollowsReadings | trading-engine/src/aggregation/tick_aggregator.hpp:130-147 | a fall counts as a rise of the same size, and neither a higher z-score nor a larger change ever lowers the tier |
| ScalpingDrain.Drainer.Drain | trading-engine/src/aggregation/tick_aggregator.hpp:97-149 | over any pops, the signals are those of the popped stream |
| ScalpingDrain.Isolation | trading-engine/src/aggregation/tick_aggregator.hpp:97-149 | a ticker's signals in any interleaved stream are those of a fresh pair on its own ticks |
| ScalpingDrain.OneSignalPerTick | trading-engine/src/aggregation/tick_aggregator.hpp:123-147 | the signals of a stream are those on distinct ticks, in order, each with its own tick's ticker, price and timestamp, and no other tick has one |
| ScalpingDrain.WarmUp | trading-engine/src/aggregation/tick_aggregator.hpp:121-147 | no signal in a ticker's first 19 ticks, and none above LOW before its 21st |
| ScalpingDrain.ScalpingReachableIff | trading-engine/src/aggregation/tick_aggregator.hpp:132-136 | a window W can emit a scalping signal if and only if 25 W <= (W-1)² |
| ScalpingDrain.NeverScalping | trading-engine/src/aggregation/tick_aggregator.hpp:132-136 | with the window of 20 no stream emits one |
| ScalpingPath.SignalsOfRun | trading-engine/src/aggregation/tick_aggregator.hpp:87-149 | in every interleaving of any producers with the drain loop, a ticker's signals are those of a fresh pair on its own ticks among the ones claimed first, and none is a scalping signal |
| ScalpingPath.SignalsInPushOrder | trading-engine/src/aggregation/tick_aggregator.hpp:87-149 | when one thread pushes all of a ticker's ticks, its signals are those of a fresh pair on what that thread pushed for it and was not refused, in that order, up to some point |
| ScalpingPath.DrainLoop | trading-engine/src/aggregation/tick_aggregator.hpp:97-149 | over the real queue, while producers push, the signals are those of the ticks claimed first: each round takes one, or found none ready at its look |
| Candle.AlignFacts | trading-engine/src/aggregation/candle.hpp:34-37 | the window start is a multiple of the window, and the window is that many minutes of 60000 ms and ends after the tick; it starts at or before it if and only if the truncation did not go up |
| Candle.HighLow | trading-engine/src/aggregation/candle.hpp:29-42 | high and low are attained and bound every price, so low <= open, close <= high |
| Candle.Candle.Reset | trading-engine/src/aggregation/candle.hpp:27-38 | the candle is the fold of one tick |
| Candle.Candle.Update | trading-engine/src/aggregation/candle.hpp:40-46 | the candle is the fold of its run with the tick appended |
| Candle.Candle.IsExpired | trading-engine/src/aggregation/candle.hpp:48-50 | true if and only if the time is at or past the end of the window of the run's first tick |
| SwingAggregation.CutsPartition | trading-engine/src/aggregation/tick_aggregator.hpp:152-177 | every tick is in exactly one candle, and each candle is a contiguous run of arrivals |
| SwingAggregation.CutsDisjoint | trading-engine/src/aggregation/tick_aggregator.hpp:158-177 | for any timestamps in any order the windows are strictly increasing and disjoint, and every tick is before the end of its own |
| SwingAggregation.SortedInside | trading-engine/src/aggregation/tick_aggregator.hpp:158-177 | with sorted non-negative arrivals every tick is inside its candle's window |
| SwingAggregation.Conservation | trading-engine/src/aggregation/tick_aggregator.hpp:158-177 | emitted and open candles together hold all the volume and count every tick once |
| SwingAggregation.HourCutIsQuarterCut | trading-engine/src/aggregation/tick_aggregator.hpp:161-173 | for timestamps above minus sixty minutes in any order, and whatever comes next, every one-hour cut is also a 15-minute cut |
| SwingAggregation.AlwaysTogether | trading-engine/src/aggregation/tick_aggregator.hpp:158-177 | for timestamps above minus sixty minutes in any order, the open hour is exactly the 15-minute runs since the last hour, and ends no earlier than the open one of them |
| SwingAggregation.AlwaysNested | trading-engine/src/aggregation/tick_aggregator.hpp:158-177 | for timestamps above minus fifteen minutes in any order, the open hour is exactly the 15-minute runs since the last hour, their windows inside its own |
| SwingAggregation.MergeBars | trading-engine/src/aggregation/candle.hpp:27-46 | merging the candles of consecutive runs gives the candle of all their ticks |
| SwingAggregation.HoursMergeQuarters | trading-engine/src/aggregation/tick_aggregator.hpp:158-186 | above minus sixty minutes in any order, each emitted one-hour candle is the merge of the 15-minute candles emitted since the hour before; above minus fifteen their windows lie inside its own as well |
| SwingAggregation.AlwaysCutsTogetherIff | trading-engine/src/aggregation/tick_aggregator.hpp:161-173 | in every stream above a bound every one-hour cut is also a 15-minute cut, if and only if the bound is at least minus sixty minutes |
| SwingAggregation.AlwaysMergesIff | trading-engine/src/aggregation/candle.hpp:34-37 | every stream above a bound merges so if and only if the bound is at least minus sixty minutes, and contains the windows too if and only if it is at least minus fifteen |
| SwingAggregation.HourFloorBreaksMerging | trading-engine/src/aggregation/candle.hpp:34-37 | a stream that starts at minus sixty minutes, whose hour is cut where no 15-minute candle is and is not the merge of those emitted |
| SwingAggregation.QuarterFloorBreaksContainment | trading-engine/src/aggregation/candle.hpp:34-37 | a stream that starts at minus fifteen minutes, whose hour is the merge of a 15-minute candle that starts before it |
| SwingAggregation.LogOfWindow | trading-engine/src/aggregation/tick_aggregator.hpp:152-186 | the candles of one size among everything emitted are exactly the closed cuts of that size |
| SwingAggregation.SwingTickerState.Update | trading-engine/src/aggregation/tick_aggregator.hpp:152-186 | both candles are the folds of the open runs, and what is emitted is what the specification emits |
| SwingPath.StepInv | trading-engine/src/aggregation/tick_aggregator.hpp:152-205 | every step of every thread, in the registry, at a state's mutex or on a candle, keeps the invariant |
| SwingPath.EachTickerAlone | trading-engine/src/aggregation/tick_aggregator.hpp:152-177 | in every interleaving at most one thread is inside a state, no two tickers share one, and each ticker's candles, open and emitted, are those it would have alone over the ticks it took in |
| SwingPath.EveryTickOnce | trading-engine/src/aggregation/tick_aggregator.hpp:87-205 | in every interleaving the ticks pushed are exactly those taken in by their ticker's state, those dropped and those in some thread's hands, and the dropped ones are of tickers the registry refuses for good |
| SwingPath.NothingLost | trading-engine/src/aggregation/tick_aggregator.hpp:87-205 | when no thread is at work, each tick pushed for a registered ticker is in exactly one of its 15-minute candles and one of its hours, with all volume and count; any other ticker has no candle, and each of its ticks was dropped |
| SwingProgress.PushFinishes | trading-engine/src/aggregation/tick_aggregator.hpp:87-205 | with the other threads at rest a push ends in at most nineteen steps of its own, its tick taken in by its ticker's state, or dropped with none for it |
| SwingHandler.Alternation | trading-engine/src/events/swing_handler.hpp:67-147 | per ticker entries and exits strictly alternate, an entry first; a position is open after an odd number of them; never armed while in a position |
| SwingHandler.BoughtOnceWithoutExits | trading-engine/src/events/swing_handler.hpp:78-147 | a ticker for which `check_exit` is never called is bought at most once |
| SwingHandler.Explanation | trading-engine/src/events/swing_handler.hpp:67-147 | over the history of calls: armed if and only if a candle close handled while flat still stands, and in a position if and only if a filled buy still stands, with its price |
| SwingHandler.TradesExplained | trading-engine/src/events/swing_handler.hpp:78-146 | a call buys if and only if it is a filled signal for the candle of the standing arming, within 300000 ms of that close, BUY_READY and with probability 0.65 or more; and exits if and only if its price hits the stop or target of the standing buy |
| SwingHandler.SignalExplained | trading-engine/src/events/swing_handler.hpp:78-114 | a signal sends an order, to buy 50 at its close, if and only if it asks for one on those terms; unfilled it changes nothing, filled it is held at that price, and a signal for the armed candle that does not ask disarms the ticker |
| SwingHandler.ExitExplained | trading-engine/src/events/swing_handler.hpp:126-146 | an exit check sends an order, to sell 50 at its price, if and only if that price hits the stop or target of the standing buy |
| SwingHandler.ArmingsSpentOnce | trading-engine/src/events/swing_handler.hpp:67-114 | two buys of one ticker rest on different candle closes, the later one after the earlier buy |
| SwingHandler.ExitPrices | trading-engine/src/events/swing_handler.hpp:133-138 | exits are exactly at or beyond 97% and 106% of the entry, for positive entries below and above, for negative ones the other way round; for a zero entry at any price but zero |
| SwingHandler.SwingHandler.OnCandleClosed | trading-engine/src/events/swing_handler.hpp:67-75 | the map holds exactly what the specification says after one more call |
| SwingHandler.SwingHandler.OnAiConfirmed | trading-engine/src/events/swing_handler.hpp:78-114 | the same, and the order sent is that of `SignalExplained`: one millisecond past five minutes after the close there is none and the ticker is idle |
| SwingHandler.SwingHandler.OnTtlExpired | trading-engine/src/events/swing_handler.hpp:117-122 | the same |
| SwingHandler.SwingHandler.CheckExit | trading-engine/src/events/swing_handler.hpp:126-147 | the same, and the order sent is that of `ExitExplained`; the position closes whether or not the sell fills |
| ScalpingProtocol.StepInv | trading-engine/src/events/scalping_handler.hpp:45-91 | with one dispatcher every step keeps each ticker's trades alternating and in agreement with the positions |
| ScalpingProtocol.AlternatesIff | trading-engine/src/events/scalping_handler.hpp:45-91 | every interleaving with any `check_exit` callers makes buys, on signals no older than 10000 ms, and the exits that close them alternate if and only if there is at most one dispatcher |
| ScalpingProtocol.BoughtTwice | trading-engine/src/events/scalping_handler.hpp:52-66 | a run of two dispatchers that buys one ticker twice in a row |
| ScalpingProtocol.BoughtOnceWithoutExits | trading-engine/src/events/scalping_handler.hpp:45-67 | without exits one dispatcher buys each ticker at most once |
| ScalpingProtocol.ExitPrices | trading-engine/src/events/scalping_handler.hpp:76-82 | exits are exactly more than 60000 ms after the entry, or at or beyond 98.5% of it: below for a positive entry, above for a negative one, any negative price for a zero one |
| ScalpingProtocol.ExitsMeetRely | trading-engine/src/events/scalping_handler.hpp:70-91 | any number of exit checks meets what the dispatcher relies on |
| ScalpingHandler.ScalpingHandler.OnEvent | trading-engine/src/events/scalping_handler.hpp:45-67 | amid exit checks, orders 10 at the signal's price if and only if the signal is no older than 10000 ms and the ticker free at the check, and makes no entry but its own filled one |
| ScalpingHandler.ScalpingHandler.CheckExit | trading-engine/src/events/scalping_handler.hpp:70-91 | sells 10 at the given price and drops the position exactly when the stop or the holding time is hit |
| EventBusProtocol.StepInv | trading-engine/src/events/event_bus.hpp:68-110 | every step of publishers, dispatcher and destructor keeps mutex, order and wake-ups |
| EventBusProtocol.Ordering | trading-engine/src/events/event_bus.hpp:68-110 | in every interleaving each handler sees a prefix of the push order, each event once, never ahead of an earlier handler nor more than one event behind it, and no two threads touch the queue at once |
| EventBusProtocol.CaughtUp | trading-engine/src/events/event_bus.hpp:92-109 | in every interleaving, with no event in hand the events a handler has not seen are as many as the queue holds |
| EventBusProtocol.DrainsIff | trading-engine/src/events/event_bus.hpp:48-110 | whatever happens after the destructor clears the flag, once the dispatcher has stopped every handler has seen everything pushed before, if and only if the flag was not cleared at the dispatcher's load of it with events in the queue |
| EventBusProtocol.DeliveredIff | trading-engine/src/events/event_bus.hpp:48-110 | in every shutdown, once the dispatcher has stopped every handler has seen everything pushed, late pushes included, if and only if the flag was not cleared at the dispatcher's load of it with events in the queue and no event was pushed after its last look at the queue |
| EventBusProtocol.TailMayBeLost | trading-engine/src/events/event_bus.hpp:48-54 | a run whose published event no handler ever sees |
| EventBusWaiting.NoPublishIsSleptOn | trading-engine/src/events/event_bus.hpp:68-96 | in every interleaving a dispatcher asleep and not notified, with no publisher in a call, has an empty queue and every handler has seen every event |
| EventBusWaiting.StopsAlone | trading-engine/src/events/event_bus.hpp:92-109 | with the flag cleared, no publisher holding the mutex, and the dispatcher neither about to sleep nor asleep without a notification, it stops by its own steps within a bound |
| EventBusWaiting.JoinReturnsIff | trading-engine/src/events/event_bus.hpp:48-96 | after the destructor's notification, whatever else happens, the dispatcher can stop by itself whenever no publisher holds the mutex, if and only if the notification did not fall between its test and its sleep |
| EventBusWaiting.JoinMayHang | trading-engine/src/events/event_bus.hpp:48-96 | a run after which the destructor waits for a dispatcher that sleeps, everyone else being done |
| EventBusWaiting.HangsIsFinal | trading-engine/src/events/event_bus.hpp:48-96 | from there nothing can happen but a new publish or a waking without cause |
| EventBus.OthersMeetDispatcherRely | trading-engine/src/events/event_bus.hpp:68-82 | whatever publishers and destructor do meets what the dispatcher relies on |
| EventBus.OthersMeetPublisherRely | trading-engine/src/events/event_bus.hpp:68-110 | whatever the others do meets what a publisher relies on |
| EventBus.EventBus.Publish | trading-engine/src/events/event_bus.hpp:68-74 | while the others run at every point, inside the critical section too: the event goes right after everything pushed before the mutex was taken, nothing comes between, and the dispatcher is left awake or notified; with the mutex taken the call is still waiting |
| EventBus.EventBus.DispatchOne | trading-engine/src/events/event_bus.hpp:98-108 | hands the front event to every handler once while others publish, and takes the mutex back unless another holds it, or finds the queue empty with everything delivered |
| EventBus.EventBus.Drain | trading-engine/src/events/event_bus.hpp:98-108 | when the inner loop ends by itself within `rounds` every handler has seen everything pushed |
| Scorer.FailsIff | ai-signal-service/src/scorer.py:17-35 | in exact arithmetic, for a sound configuration, some indicators make the scorer raise if and only if a normalising divisor is zero, and then all do, or the sensitivity is past the largest argument the exponential takes |
| Scorer.Bounds | ai-signal-service/src/scorer.py:22-36 | price signal and score stay in [-1, 1], both probabilities in (0, 1) and sum to one, and volume pushes the score away from zero, never across it |
| Scorer.PriceDecides | ai-signal-service/src/scorer.py:29-43 | the bull side of even odds is exactly a positive price signal, so a ready direction has its sign |
| Scorer.Monotone | ai-signal-service/src/scorer.py:17-35 | raising any price indicator never lowers the bull probability |
| Scorer.Antisymmetry | ai-signal-service/src/scorer.py:17-43 | negating the price votes negates the score, swaps bull and bear and, with complementary thresholds, the two ready directions |
| Scorer.SwapsIff | ai-signal-service/src/scorer.py:38-43 | directions swap for all probabilities if and only if sell = 1 - buy and buy > 1/2 |
| Scorer.ShippedAgreesWithHandler | ai-signal-service/config.yaml:30-40 | the shipped configuration has the assumed properties and never raises, and its BUY_READY is exactly what the swing handler takes as convinced |
| ScorerLaws.ScoreByEquations | ai-signal-service/src/scorer.py:17-43 | every part of the score by an equation that leaves no choice: each vote is its indicator over its unit up to one either way, the boost grows evenly from 1 at zero to the whole weight at the cap, the final score is the boosted weighted sum up to one either way, the probability p satisfies p (1 + exp(-x)) = 1, and the direction follows the thresholds |
| ScorerLaws.ShippedByEquations | ai-signal-service/config.yaml:22-40 | the same with the shipped numbers |
| Indicators.EmaRange | ai-signal-service/src/indicators.py:7-10 | an average stays within its inputs' range |
| Indicators.MacdBound | ai-signal-service/src/indicators.py:6-11 | the histogram is at most twice the spread of the prices |
| Indicators.MacdAffine | ai-signal-service/src/indicators.py:6-11 | shifting the prices leaves the histogram alone and scaling them scales it |
| IndicatorLaws.MacdByRecurrence | ai-signal-service/src/indicators.py:6-11 | any sequences that meet the recurrences of the fast, slow and signal averages have the histogram in their last row |
| IndicatorLaws.MacdOfJump | ai-signal-service/src/indicators.py:6-11 | after a flat series of closes c a close x makes the histogram (1 - 2/(signal+1)) (2/(fast+1) - 2/(slow+1)) (x - c) |
| IndicatorLaws.JumpSign | ai-signal-service/src/indicators.py:6-11 | so with fast < slow and signal > 1 a jump up is positive and a fall negative |
| IndicatorLaws.FastLeads | ai-signal-service/src/indicators.py:7-9 | on a series that never falls the average with the larger weight is never below the other |
| IndicatorLaws.RsiByRecurrence | ai-signal-service/src/indicators.py:14-22 | RSI is the smoothed gain's percentage of smoothed gain and loss, whatever sequences meet the recurrences; a zero loss counts as 1e-9 |
| Indicators.RsiRange | ai-signal-service/src/indicators.py:14-22 | for any period from 1, RSI is in [0, 100), and 0 if and only if no price it weighs rose |
| Indicators.RsiMirrorIff | ai-signal-service/src/indicators.py:14-22 | reflecting the prices reflects RSI about 50 if and only if the period is over 1 and there was both a rise and a fall |
| Indicators.BollingerVote | ai-signal-service/src/indicators.py:25-33 | the Bollinger vote is the last close's z-score over the band width, clipped, with n z² <= (n-1)²; a degenerate band votes zero |
| Indicators.VwapRange | ai-signal-service/src/indicators.py:36-47 | with positive total volume VWAP is within the prices' range, and its deviation has the sign of the last close against it and is at most the spread over the lowest price |
| IndicatorLaws.VwapByRunningSums | ai-signal-service/src/indicators.py:36-47 | VWAP times the running volume is the running sum of (high + low + close) / 3 times volume, and the deviation times VWAP is a hundred times what the close has on it; 1e-9 stands for zero volume, and at or below it VWAP gives 0 |
| Indicators.VolumeCeiling | ai-signal-service/src/indicators.py:50-56 | the volume z-score is strictly between -t and t for any t with n t² > (n-1)², n being the period, or the buffer's length for period 0 |
| Indicators.FullBoostIff | ai-signal-service/src/scorer.py:29-31 | for every period n some volumes get the whole boost if and only if n = 0, which takes in the whole buffer, or n cap² <= (n-1)² |
| IndicatorLaws.ComputedBySheet | ai-signal-service/src/indicators.py:59-67 | each indicator of a buffer is read off the last row, or the last window, of any sheet that meets the recurrences |
| IndicatorLaws.SheetExists | ai-signal-service/src/indicators.py:59-67 | every buffer has such a sheet |
| IndicatorLaws.ShippedBySheet | ai-signal-service/config.yaml:18-27 | the same with spans 12, 26 and 9, periods 14, 20 and 20, and a band of two deviations |
| Indicators.EveryScoredBuffer | ai-signal-service/src/indicators.py:59-67 | as shipped, every buffer of 30 candles or more has all indicators, a volume z-score between -5 and 5, a score in range, and a boost strictly below 1.5 |

## Left out

- Rounding: reals are exact, so nothing is said about accumulated floating-point error.
- Weak memory: every atomic access is sequentially consistent, whatever order the source asks for.
- Counter overflow: queue counters, times and tick counts are unbounded; only `size()` is modelled with wrapping words.
- MpscQueue.MpscQueue.Push: the retry loop is bounded by `rounds`, and spurious failures by `flakes`, because the source's loop need not end; a push that has lost all its rounds answers that it is still retrying, where the source goes on. The protocol's theorems have no bound.
- ObjectPool.ObjectPool.Acquire: bounded in the same way.
- ObjectPool.ObjectPool.Release: as for `Acquire`.
- Registry.Registry.GetOrCreateState: other callers run whole sections between this call's two; finer interleavings are in `RegistryProtocol`.
- EventBus.EventBus.Publish: a call that finds the mutex taken ends there as still waiting; the mutex's own blocking is in `EventBusProtocol`, where a step on a taken mutex is not enabled.
- EventBus.EventBus.DispatchOne: may end as still waiting for the mutex, in the same way.
- EventBus.EventBus.Drain: bounded by `rounds`, and may end as still waiting; the outer loop and its wait are in `EventBusProtocol` and `EventBusWaiting` only.
- EventBus: handlers are subscribed before the run; concurrent `subscribe` is not modelled.
- PoolHandle.PoolHandle.Own: the pool of the class is a stand-in that says what is out, tied neither to `ObjectPool` nor to the operations of `OneOwnerIff`; the message pool, the one handles are used with, meets neither guard of `PoolProtocol`, so nothing here says that it hands out only slots nobody owns.
- Scorer.FailsIff: the largest argument of the exponential is a parameter, and an overflow is the only way modelled in which it raises; the results about scores take the exponential as defined everywhere.
- SwingPath: the ticker's mutex, the registry's steps and each candle's update are single steps; the destructor, and signals' callbacks, are not part of it.
- Identity of candles in `SwingHandler` beyond their close time, which is all the code compares; `entry_ms`, which it never reads.
- `NaN` prices and volumes, and the indicators of series too short to define them, which are `None` here; a warm buffer never has one.
- `empty()` and `capacity()` of the queues: loads already covered by the verdicts.
- Moves and destructors of pooled objects, alignment, and the truncation of tickers to 11 characters.
- Kafka, InfluxDB, Redis, HTTP, JSON, logging, configuration loading, the candle buffer's warm start, `api-server`, `web-app` and `infra`: plumbing over libraries that are not visible, with ticks and signals as arbitrary inputs instead.
