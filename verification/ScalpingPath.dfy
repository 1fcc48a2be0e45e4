/** The scalping path from end to end: ticks pushed by any number of threads through the queue, and
    the signals the drain loop makes of what it pops. */
module ScalpingPath {
  import opened Bits
  import opened Fifo
  import opened Market
  import opened Wrappers
  import M = MpscProtocol
  import Q = MpscQueue
  import D = ScalpingDrain
  import ZScore

  /** The ticks popped so far: a prefix of those claimed. */
  function Taken(s: M.State<Tick>): seq<Tick>
    requires |s.popped| <= |s.claimed|
  {
    s.claimed[..|s.popped|]
  }

  lemma {:induction false} AllWhole<T>(cells: seq<Cell<T>>, items: seq<T>)
    requires |cells| == |items| && forall i :: 0 <= i < |items| ==> cells[i] == Whole(items[i])
    ensures cells == Wholes(items)
    decreases |items|
  {
    if items != [] {
      AllWhole(cells[1..], items[1..]);
      assert cells == [cells[0]] + cells[1..];
    }
  }

  /** In every interleaving of any producers with the drain loop's pops: the pops are the ticks
      claimed first, each whole; a ticker's signals are those of a fresh pair of calculators on its
      own ticks among them; and none is a scalping signal. */
  lemma SignalsOfRun(sqrt: real -> real, capacity: nat, threads: nat, steps: seq<M.Step<Tick>>, ticker: string)
    requires ZScore.IsSqrt(sqrt) && RingCapacity(capacity) && M.IsRun(M.Init(capacity, threads), steps)
    ensures var s := M.Run(M.Init(capacity, threads), steps);
            && |s.popped| <= |s.claimed| && s.popped == Wholes(Taken(s))
            && D.SignalsFor(D.Signals(sqrt, Taken(s)), ticker) == D.SignalsAlone(sqrt, Project(Taken(s), ticker))
            && forall signal :: signal in D.Signals(sqrt, Taken(s)) ==> signal.kind != D.Scalping
  {
    M.Exactness(capacity, threads, steps);
    var s := M.Run(M.Init(capacity, threads), steps);
    AllWhole(s.popped, Taken(s));
    D.Isolation(sqrt, Taken(s), ticker);
    D.NeverScalping(sqrt, Taken(s));
  }

  /* ---- one ticker's ticks from one thread ---- */

  /** Only thread `t` pushes ticks of this ticker. */
  predicate Routed(steps: seq<M.Step<Tick>>, ticker: string, t: nat) {
    forall k :: 0 <= k < |steps| && steps[k].Call? && steps[k].item.ticker == ticker ==> steps[k].t == t
  }

  /** So far only thread `t` has such a tick in hand, or has claimed a position for one. */
  ghost predicate RoutedState(s: M.State<Tick>, ticker: string, t: nat) {
    && |s.claimed| == |s.claimedBy|
    && (forall p :: 0 <= p < |s.claimed| && s.claimed[p].ticker == ticker ==> s.claimedBy[p] == t)
    && (forall u :: 0 <= u < |s.producers| && !s.producers[u].Idle? && s.producers[u].item.ticker == ticker ==> u == t)
  }

  lemma {:induction false} RunRouted(s: M.State<Tick>, steps: seq<M.Step<Tick>>, ticker: string, t: nat)
    requires M.WellFormed(s) && M.IsRun(s, steps) && Routed(steps, ticker, t) && RoutedState(s, ticker, t)
    ensures RoutedState(M.Run(s, steps), ticker, t)
    decreases |steps|
  {
    if steps != [] {
      assert RoutedState(M.Apply(s, steps[0]), ticker, t);
      RunRouted(M.Apply(s, steps[0]), steps[1..], ticker, t);
    }
  }

  /** Then a ticker's ticks are found among that thread's alone. */
  lemma {:induction false} ProjectOfThread(claimed: seq<Tick>, claimedBy: seq<nat>, ticker: string, t: nat)
    requires |claimed| == |claimedBy|
    requires forall p :: 0 <= p < |claimed| && claimed[p].ticker == ticker ==> claimedBy[p] == t
    ensures Project(claimed, ticker) == Project(M.ItemsOf(claimed, claimedBy, t), ticker)
    decreases |claimed|
  {
    if claimed != [] {
      var n := |claimed| - 1;
      ProjectOfThread(claimed[..n], claimedBy[..n], ticker, t);
      if claimedBy[n] == t {
        ProjectSnoc(M.ItemsOf(claimed[..n], claimedBy[..n], t), claimed[n], ticker);
      } else {
        assert M.ItemsOf(claimed, claimedBy, t) == M.ItemsOf(claimed[..n], claimedBy[..n], t);
        assert Project(claimed, ticker) == Project(claimed[..n], ticker);
      }
    }
  }

  /** When all of a ticker's ticks are pushed by one thread, its signals are those of a fresh pair of
      calculators on the ticker's share of what that thread pushed, in the order it pushed it, up to
      some point: pushes that were refused leave no trace, and the other threads none either. */
  lemma SignalsInPushOrder(sqrt: real -> real, capacity: nat, threads: nat, steps: seq<M.Step<Tick>>,
                           ticker: string, t: nat) returns (seen: seq<Tick>)
    requires ZScore.IsSqrt(sqrt) && RingCapacity(capacity) && M.IsRun(M.Init(capacity, threads), steps)
    requires Routed(steps, ticker, t)
    ensures seen <= M.Pushes(M.Init(capacity, threads), steps, t, [])
    ensures var s := M.Run(M.Init(capacity, threads), steps);
            && |s.popped| <= |s.claimed|
            && D.SignalsFor(D.Signals(sqrt, Taken(s)), ticker) == D.SignalsAlone(sqrt, Project(seen, ticker))
  {
    var s0 := M.Init<Tick>(capacity, threads);
    var s := M.Run(s0, steps);
    SignalsOfRun(sqrt, capacity, threads, steps, ticker);
    M.ProducerOrder(capacity, threads, steps, t);
    RunRouted(s0, steps, ticker, t);
    var k := |s.popped|;
    seen := M.ItemsOf(s.claimed[..k], s.claimedBy[..k], t);
    ProjectOfThread(s.claimed[..k], s.claimedBy[..k], ticker, t);
  }

  /* ---- the loop over the real queue ---- */

  /** At each of these moments, between `s` and `s'`, the queue had nothing ready. */
  ghost predicate FoundNothing(idles: seq<M.State<Tick>>, s: M.State<Tick>, s': M.State<Tick>) {
    forall k :: 0 <= k < |idles| ==> Q.NothingReady(s, idles[k], s')
  }

  lemma NothingReadyWithin(s: M.State<Tick>, s': M.State<Tick>, at: M.State<Tick>, t: M.State<Tick>, t': M.State<Tick>)
    requires Q.Extends(s, s') && Q.NothingReady(s', at, t) && Q.Extends(t, t')
    ensures Q.NothingReady(s, at, t')
  {
  }

  /** One more round: it took a tick, or found nothing. */
  lemma IdleRound(idles: seq<M.State<Tick>>, s: M.State<Tick>, s': M.State<Tick>, s'': M.State<Tick>,
                  idle: bool, at: M.State<Tick>)
    requires FoundNothing(idles, s, s') && Q.Extends(s, s') && Q.Extends(s', s'')
    requires Q.Extends(s, s) && Q.Extends(s'', s'') && (idle ==> Q.NothingReady(s', at, s''))
    ensures FoundNothing(if idle then idles + [at] else idles, s, s'')
  {
    forall k | 0 <= k < |idles| ensures Q.NothingReady(s, idles[k], s'') {
      NothingReadyWithin(s, s, idles[k], s', s'');
    }
    if idle {
      NothingReadyWithin(s, s', at, s'', s'');
    }
  }

  /** One round: a pop, and what it makes of the tick. */
  method DrainOnce(queue: Q.MpscQueue<Tick>, drainer: D.Drainer, signals: seq<D.Signal>)
    returns (signals': seq<D.Signal>, ghost idle: bool, ghost at: M.State<Tick>)
    requires queue.Valid() && queue.protocol.consumer.Resting? && drainer.Valid()
    requires {queue, queue.sequence, queue.data} !! drainer.Repr
    requires drainer.seen == Taken(queue.protocol) && signals == D.Signals(drainer.sqrt, drainer.seen)
    modifies queue, queue.sequence, queue.data, drainer.Repr
    ensures queue.Valid() && queue.protocol.consumer.Resting? && drainer.Valid()
    ensures fresh(drainer.Repr - old(drainer.Repr))
    ensures drainer.seen == Taken(queue.protocol) && signals' == D.Signals(drainer.sqrt, drainer.seen)
    ensures Q.Extends(old(queue.protocol), queue.protocol)
    ensures |queue.protocol.popped| == old(|queue.protocol.popped|) + (if idle then 0 else 1)
    ensures idle ==> Q.NothingReady(old(queue.protocol), at, queue.protocol)
  {
    ghost var before := queue.protocol;
    var tick;
    tick, at := queue.Pop();
    ghost var after := queue.protocol;
    OneMoreTaken(before, after, tick);
    signals' := drainer.Round(tick, signals);
    idle := tick.None?;
  }

  /** A round after those since `s`. */
  method DrainNext(queue: Q.MpscQueue<Tick>, drainer: D.Drainer, signals: seq<D.Signal>,
                   ghost s: M.State<Tick>, ghost idles: seq<M.State<Tick>>)
    returns (signals': seq<D.Signal>, ghost idles': seq<M.State<Tick>>)
    requires queue.Valid() && queue.protocol.consumer.Resting? && drainer.Valid()
    requires {queue, queue.sequence, queue.data} !! drainer.Repr
    requires drainer.seen == Taken(queue.protocol) && signals == D.Signals(drainer.sqrt, drainer.seen)
    requires Q.Extends(s, queue.protocol) && FoundNothing(idles, s, queue.protocol)
    modifies queue, queue.sequence, queue.data, drainer.Repr
    ensures queue.Valid() && queue.protocol.consumer.Resting? && drainer.Valid()
    ensures fresh(drainer.Repr - old(drainer.Repr))
    ensures drainer.seen == Taken(queue.protocol) && signals' == D.Signals(drainer.sqrt, drainer.seen)
    ensures Q.Extends(s, queue.protocol) && FoundNothing(idles', s, queue.protocol)
    ensures |queue.protocol.popped| + |idles'| == old(|queue.protocol.popped|) + |idles| + 1
  {
    ghost var before, idle, at := queue.protocol, false, queue.protocol;
    signals', idle, at := DrainOnce(queue, drainer, signals);
    IdleRound(idles, s, before, queue.protocol, idle, at);
    idles' := if idle then idles + [at] else idles;
  }

  /** The drain loop, for as many rounds as it finds the engine running, over a queue that producers
      keep pushing to: the signals are those of the ticks claimed first, one tick a round but for the
      rounds that found nothing ready. */
  method DrainLoop(queue: Q.MpscQueue<Tick>, drainer: D.Drainer, rounds: nat)
    returns (signals: seq<D.Signal>, ghost idles: seq<M.State<Tick>>)
    requires queue.Valid() && queue.protocol.consumer.Resting? && queue.protocol.popped == []
    requires drainer.Valid() && drainer.seen == []
    requires {queue, queue.sequence, queue.data} !! drainer.Repr
    modifies queue, queue.sequence, queue.data, drainer.Repr
    ensures queue.Valid() && drainer.Valid() && queue.protocol.consumer.Resting?
    ensures drainer.seen == Taken(queue.protocol) && signals == D.Signals(drainer.sqrt, drainer.seen)
    ensures |queue.protocol.popped| + |idles| == rounds
    ensures FoundNothing(idles, old(queue.protocol), queue.protocol)
  {
    signals, idles := [], [];
    for i := 0 to rounds
      invariant queue.Valid() && drainer.Valid() && queue.protocol.consumer.Resting?
      invariant fresh(drainer.Repr - old(drainer.Repr))
      invariant {queue, queue.sequence, queue.data} !! drainer.Repr
      invariant drainer.seen == Taken(queue.protocol) && signals == D.Signals(drainer.sqrt, drainer.seen)
      invariant Q.Extends(old(queue.protocol), queue.protocol) && |queue.protocol.popped| + |idles| == i
      invariant FoundNothing(idles, old(queue.protocol), queue.protocol)
    {
      signals, idles := DrainNext(queue, drainer, signals, old(queue.protocol), idles);
    }
  }

  /** What a pop adds to the ticks taken. */
  lemma OneMoreTaken(s: M.State<Tick>, s': M.State<Tick>, tick: Option<Tick>)
    requires |s.popped| <= |s.claimed| && |s'.popped| <= |s'.claimed| && s.claimed <= s'.claimed
    requires match tick
             case None => s'.popped == s.popped
             case Some(x) => |s'.popped| == |s.popped| + 1 && x == s'.claimed[|s.popped|]
    ensures Taken(s') == Taken(s) + (if tick.Some? then [tick.value] else [])
  {
  }
}
