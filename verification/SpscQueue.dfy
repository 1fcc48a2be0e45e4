/** `push` and `pop` of the single-producer queue over its real fields, with the other
    side free to run between any two atomic statements. */
module SpscQueue {
  import opened Bits
  import opened Wrappers
  import opened Fifo
  import P = SpscProtocol

  ghost predicate Extends<T>(s: P.State<T>, s': P.State<T>) {
    s'.Capacity() == s.Capacity() && s.pushed <= s'.pushed && s.popped <= s'.popped
  }

  /** What the producer can rely on while only the consumer runs. */
  ghost predicate ProducerRely<T>(s: P.State<T>, s': P.State<T>) {
    P.Inv(s') && Extends(s, s') && s'.producer == s.producer && s'.head == s.head && s'.pushed == s.pushed
  }

  /** What the consumer can rely on while only the producer runs. */
  ghost predicate ConsumerRely<T>(s: P.State<T>, s': P.State<T>) {
    P.Inv(s') && Extends(s, s') && s'.consumer == s.consumer && s'.tail == s.tail && s'.popped == s.popped
  }

  predicate ByConsumer<T>(step: P.Step<T>) {
    step.ConsumerLoadTail? || step.ConsumerLoadHead? || step.BeginRead? || step.EndRead? || step.StoreTail?
  }

  lemma {:induction false} ConsumerMeetsProducerRely<T>(s: P.State<T>, steps: seq<P.Step<T>>)
    requires P.Inv(s) && P.IsRun(s, steps)
    requires forall i :: 0 <= i < |steps| ==> ByConsumer(steps[i])
    ensures ProducerRely(s, P.Run(s, steps))
    decreases |steps|
  {
    if steps != [] {
      P.StepInv(s, steps[0]);
      ConsumerMeetsProducerRely(P.Apply(s, steps[0]), steps[1..]);
    }
  }

  lemma {:induction false} ProducerMeetsConsumerRely<T>(s: P.State<T>, steps: seq<P.Step<T>>)
    requires P.Inv(s) && P.IsRun(s, steps)
    requires forall i :: 0 <= i < |steps| ==> !ByConsumer(steps[i])
    ensures ConsumerRely(s, P.Run(s, steps))
    decreases |steps|
  {
    if steps != [] {
      P.StepInv(s, steps[0]);
      ProducerMeetsConsumerRely(P.Apply(s, steps[0]), steps[1..]);
    }
  }

  /** What the producer's own stores keep. */
  ghost predicate ProducerOnly<T>(s: P.State<T>, s': P.State<T>) {
    P.Inv(s') && Extends(s, s') && s'.head == s.head && s'.pushed == s.pushed
  }

  class SpscQueue<T(!new)> {
    const capacity: nat
    const buffer: array<Cell<T>>
    var head: nat
    var tail: nat
    ghost var protocol: P.State<T>

    ghost predicate Valid()
      reads this, buffer
    {
      && buffer.Length == capacity
      && protocol.buffer == buffer[..] && protocol.head == head && protocol.tail == tail
      && P.Inv(protocol)
    }

    constructor (capacity: nat)
      requires RingCapacity(capacity)
      ensures Valid() && fresh(buffer) && protocol == P.Init(capacity)
    {
      this.capacity := capacity;
      buffer := new Cell<T>[capacity](_ => Torn);
      head, tail := 0, 0;
      protocol := P.Init(capacity);
      new;
      P.InitInv<T>(capacity);
      assert protocol.buffer == buffer[..];
    }

    function Next(i: nat): (n: nat)
      requires RingCapacity(capacity)
      ensures n == Slot(i + 1, capacity) < capacity
    {
      SlotIsModulo(i + 1, capacity);
      Slot(i + 1, capacity)
    }

    /** The consumer runs for a while. */
    method PreemptProducer()
      requires Valid()
      modifies this, buffer
      ensures Valid() && ProducerRely(old(protocol), protocol)
    {
    }

    /** The producer runs for a while. */
    method PreemptConsumer()
      requires Valid()
      modifies this, buffer
      ensures Valid() && ConsumerRely(old(protocol), protocol)
    {
    }

    /** A step that touches no shared field. */
    ghost method LocalStep(step: P.Step<T>)
      requires Valid() && P.Enabled(protocol, step)
      requires step.Call? || step.LoadHead? || step.LoadTail?
               || step.ConsumerLoadTail? || step.ConsumerLoadHead? || step.BeginRead? || step.EndRead?
      modifies this`protocol
      ensures Valid() && protocol == P.Apply(old(protocol), step)
    {
      P.StepInv(protocol, step);
      protocol := P.Apply(protocol, step);
    }

    method Store(item: T, h: nat)
      requires Valid() && protocol.producer == P.AtWrite(item, h)
      modifies this, buffer
      ensures Valid() && ProducerOnly(old(protocol), protocol)
      ensures protocol.producer == P.AtStoreHead(item, h)
    {
      P.StepInv(protocol, P.BeginWrite);
      buffer[h] := Torn;
      protocol := P.Apply(protocol, P.BeginWrite);
      PreemptProducer();
      P.StepInv(protocol, P.EndWrite);
      buffer[h] := Whole(item);
      protocol := P.Apply(protocol, P.EndWrite);
    }

    method StoreHead(ghost item: T, next: nat)
      requires Valid() && protocol.producer == P.AtStoreHead(item, head) && next == Slot(head + 1, capacity)
      modifies this`head, this`protocol
      ensures Valid() && protocol == P.Apply(old(protocol), P.StoreHead)
    {
      P.StepInv(protocol, P.StoreHead);
      head := next;
      protocol := P.Apply(protocol, P.StoreHead);
    }

    /** The two loads of `push`. */
    method CheckRoom(ghost item: T) returns (ok: bool, h: nat, next: nat, ghost at: P.State<T>)
      requires Valid() && protocol.producer == P.AtHead(item)
      modifies this, buffer
      ensures Valid() && ProducerOnly(at, protocol) && ProducerOnly(old(protocol), at)
      ensures ok <==> |at.pushed| - |at.popped| < capacity - 1
      ensures protocol.producer == if ok then P.AtWrite(item, h) else P.Idle
      ensures h == head && next == Slot(h + 1, capacity)
    {
      h := head;
      LocalStep(P.LoadHead);
      next := Next(h);
      PreemptProducer();
      at := protocol;
      P.Verdicts(protocol);
      ok := next != tail;
      LocalStep(P.LoadTail);
    }

    /** The store of the item and of the new head. */
    method Append(item: T, h: nat, next: nat)
      requires Valid() && protocol.producer == P.AtWrite(item, h) && h == head
      requires next == Slot(h + 1, capacity)
      modifies this, buffer
      ensures Valid() && protocol.producer.Idle? && Extends(old(protocol), protocol)
      ensures protocol.pushed == old(protocol.pushed) + [item]
    {
      PreemptProducer();
      Store(item, h);
      PreemptProducer();
      StoreHead(item, next);
    }

    method EnterPush(ghost item: T)
      requires Valid() && protocol.producer.Idle?
      modifies this, buffer
      ensures Valid() && ProducerOnly(old(protocol), protocol) && protocol.producer == P.AtHead(item)
    {
      LocalStep(P.Call(item));
      PreemptProducer();
    }

    /** `push`: appends the item, or answers "full", having seen the ring hold one less than its
        capacity. */
    method Push(item: T) returns (ok: bool, ghost at: P.State<T>)
      requires Valid() && protocol.producer.Idle?
      modifies this, buffer
      ensures Valid() && protocol.producer.Idle? && Extends(old(protocol), protocol)
      ensures protocol.pushed == if ok then old(protocol.pushed) + [item] else old(protocol.pushed)
      ensures P.Inv(at) && Extends(old(protocol), at) && Extends(at, protocol)
      ensures ok <==> |at.pushed| - |at.popped| < capacity - 1
    {
      EnterPush(item);
      var h, next;
      ok, h, next, at := CheckRoom(item);
      if ok {
        Append(item, h, next);
      }
    }

    method StoreTail(t: nat, ghost got: Cell<T>)
      requires Valid() && protocol.consumer == P.AtStoreTail(t, got)
      modifies this`tail, this`protocol
      ensures Valid() && protocol == P.Apply(old(protocol), P.StoreTail)
    {
      P.StepInv(protocol, P.StoreTail);
      tail := Next(t);
      protocol := P.Apply(protocol, P.StoreTail);
    }

    /** The move out of the slot and the store of the new tail. */
    method Take(t: nat) returns (item: T)
      requires Valid() && protocol.consumer == P.AtRead(t)
      modifies this, buffer
      ensures Valid() && protocol.consumer.Resting? && Extends(old(protocol), protocol)
      ensures |protocol.popped| == old(|protocol.popped|) + 1
      ensures item == protocol.pushed[old(|protocol.popped|)]
    {
      LocalStep(P.BeginRead);
      PreemptConsumer();
      var got := buffer[t];
      LocalStep(P.EndRead);
      PreemptConsumer();
      StoreTail(t, got);
      item := got.value;
    }

    /** `pop`: the oldest pushed item not yet popped, or nothing, having seen the ring empty. */
    method Pop() returns (item: Option<T>, ghost at: P.State<T>)
      requires Valid() && protocol.consumer.Resting?
      modifies this, buffer
      ensures Valid() && protocol.consumer.Resting? && Extends(old(protocol), protocol)
      ensures match item
              case Some(x) =>
                && |protocol.popped| == old(|protocol.popped|) + 1
                && x == protocol.pushed[old(|protocol.popped|)]
              case None => protocol.popped == old(protocol.popped)
      ensures P.Inv(at) && Extends(old(protocol), at) && Extends(at, protocol)
      ensures item.None? <==> |at.pushed| == |at.popped|
    {
      var t := tail;
      LocalStep(P.ConsumerLoadTail);
      PreemptConsumer();
      at := protocol;
      P.Verdicts(protocol);
      var empty := t == head;
      LocalStep(P.ConsumerLoadHead);
      if empty {
        item := None;
      } else {
        var x := Take(t);
        item := Some(x);
      }
    }
  }
}
