/** The single-producer single-consumer ring as a transition system: head and tail are masked
    indices, and each side acts on a value of the other's index that may be out of date. */
module SpscProtocol {
  import opened Bits
  import opened Fifo
  import opened Modular
  import opened Wrappers

  datatype Producer<T> =
    | Idle
    | AtHead(item: T)                    // is about to load its own index
    | AtTail(item: T, head: nat)         // is about to load the consumer's index
    | AtWrite(item: T, head: nat)        // has seen room
    | Writing(item: T, head: nat)
    | AtStoreHead(item: T, head: nat)

  datatype Consumer<T> =
    | Resting
    | AtHeadLoad(tail: nat)              // has loaded its own index
    | AtRead(tail: nat)                  // has seen an item
    | Reading(tail: nat)
    | AtStoreTail(tail: nat, got: Cell<T>)

  /** `pushed` and `popped` are the histories of the two index stores. */
  datatype State<T> = State(
    buffer: seq<Cell<T>>, head: nat, tail: nat,
    producer: Producer<T>, consumer: Consumer<T>,
    pushed: seq<T>, popped: seq<Cell<T>>)
  {
    function Capacity(): nat { |buffer| }
  }

  datatype Step<T> =
    | Call(item: T)
    | LoadHead
    | LoadTail
    | BeginWrite
    | EndWrite
    | StoreHead
    | ConsumerLoadTail
    | ConsumerLoadHead
    | BeginRead
    | EndRead
    | StoreTail

  function Init<T>(capacity: nat): State<T> {
    State(seq(capacity, i => Torn), 0, 0, Idle, Resting, [], [])
  }

  function Index<T>(s: State<T>, pos: nat): (i: nat)
    requires RingCapacity(s.Capacity())
    ensures i < s.Capacity()
  {
    SlotIsModulo(pos, s.Capacity());
    Slot(pos, s.Capacity())
  }

  predicate WellFormed<T>(s: State<T>) {
    && RingCapacity(s.Capacity())
    && (s.producer.Idle? || s.producer.AtHead? || s.producer.head < s.Capacity())
    && (s.consumer.Resting? || s.consumer.tail < s.Capacity())
    && s.head < s.Capacity() && s.tail < s.Capacity()
  }

  predicate Enabled<T>(s: State<T>, step: Step<T>) {
    match step
    case Call(_) => s.producer.Idle?
    case LoadHead => s.producer.AtHead?
    case LoadTail => s.producer.AtTail?
    case BeginWrite => s.producer.AtWrite?
    case EndWrite => s.producer.Writing?
    case StoreHead => s.producer.AtStoreHead?
    case ConsumerLoadTail => s.consumer.Resting?
    case ConsumerLoadHead => s.consumer.AtHeadLoad?
    case BeginRead => s.consumer.AtRead?
    case EndRead => s.consumer.Reading?
    case StoreTail => s.consumer.AtStoreTail?
  }

  function Apply<T>(s: State<T>, step: Step<T>): (s': State<T>)
    requires WellFormed(s) && Enabled(s, step)
    ensures WellFormed(s') && s'.Capacity() == s.Capacity()
  {
    match step
    case Call(item) => s.(producer := AtHead(item))
    case LoadHead => s.(producer := AtTail(s.producer.item, s.head))
    case LoadTail =>
      var AtTail(item, head) := s.producer;
      if Index(s, head + 1) == s.tail then s.(producer := Idle)  // push returns false
      else s.(producer := AtWrite(item, head))
    case BeginWrite =>
      var AtWrite(item, head) := s.producer;
      s.(producer := Writing(item, head), buffer := s.buffer[head := Torn])
    case EndWrite =>
      var Writing(item, head) := s.producer;
      s.(producer := AtStoreHead(item, head), buffer := s.buffer[head := Whole(item)])
    case StoreHead =>
      var AtStoreHead(item, head) := s.producer;
      s.(producer := Idle, head := Index(s, head + 1), pushed := s.pushed + [item])
    case ConsumerLoadTail => s.(consumer := AtHeadLoad(s.tail))
    case ConsumerLoadHead =>
      var tail := s.consumer.tail;
      if tail == s.head then s.(consumer := Resting)  // pop returns nothing
      else s.(consumer := AtRead(tail))
    case BeginRead => s.(consumer := Reading(s.consumer.tail))
    case EndRead => s.(consumer := AtStoreTail(s.consumer.tail, s.buffer[s.consumer.tail]))
    case StoreTail =>
      var AtStoreTail(tail, got) := s.consumer;
      s.(consumer := Resting, tail := Index(s, tail + 1), popped := s.popped + [got])
  }

  predicate IsRun<T>(s: State<T>, steps: seq<Step<T>>)
    requires WellFormed(s)
    decreases |steps|
  {
    steps == [] || (Enabled(s, steps[0]) && IsRun(Apply(s, steps[0]), steps[1..]))
  }

  function Run<T>(s: State<T>, steps: seq<Step<T>>): (s': State<T>)
    requires WellFormed(s) && IsRun(s, steps)
    ensures WellFormed(s') && s'.Capacity() == s.Capacity()
    decreases |steps|
  {
    if steps == [] then s else Run(Apply(s, steps[0]), steps[1..])
  }

  /* ---- the invariant ---- */

  /** The cyclic range from tail to head is the pushed items not yet popped. */
  ghost predicate RangeInv<T>(s: State<T>) {
    && WellFormed(s)
    && |s.popped| <= |s.pushed| < |s.popped| + s.Capacity()
    && s.head == Index(s, |s.pushed|) && s.tail == Index(s, |s.popped|)
    && (forall k :: 0 <= k < |s.popped| ==> s.popped[k] == Whole(s.pushed[k]))
    && (forall k: nat :: |s.popped| <= k < |s.pushed| ==> s.buffer[Index(s, k)] == Whole(s.pushed[k]))
  }

  ghost predicate Room<T>(s: State<T>) {
    |s.pushed| + 1 < |s.popped| + s.Capacity()
  }

  ghost predicate ProducerInv<T>(s: State<T>)
    requires RangeInv(s)
  {
    match s.producer
    case Idle => true
    case AtHead(_) => true
    case AtTail(_, head) => head == s.head
    case AtWrite(_, head) => head == s.head && Room(s)
    case Writing(_, head) => head == s.head && Room(s)
    case AtStoreHead(item, head) => head == s.head && Room(s) && s.buffer[head] == Whole(item)
  }

  ghost predicate ConsumerInv<T>(s: State<T>)
    requires RangeInv(s)
  {
    match s.consumer
    case Resting => true
    case AtHeadLoad(tail) => tail == s.tail
    case AtRead(tail) => tail == s.tail && |s.popped| < |s.pushed|
    case Reading(tail) => tail == s.tail && |s.popped| < |s.pushed|
    case AtStoreTail(tail, got) =>
      tail == s.tail && |s.popped| < |s.pushed| && got == Whole(s.pushed[|s.popped|])
  }

  ghost predicate Inv<T>(s: State<T>) {
    RangeInv(s) && ProducerInv(s) && ConsumerInv(s)
  }

  lemma InitInv<T>(capacity: nat)
    requires RingCapacity(capacity)
    ensures Inv(Init<T>(capacity))
  {
    SlotOfFirstLap(0, capacity);
  }

  lemma LapIndices<T>(s: State<T>)
    requires WellFormed(s)
    ensures forall p: nat, q: nat {:trigger Index(s, p), Index(s, q)} ::
              p < q < p + s.Capacity() ==> Index(s, p) != Index(s, q)
    ensures forall p: nat :: Index(s, p + s.Capacity()) == Index(s, p)
  {
    SlotFacts(s.Capacity());
  }

  /** The producer's test for "full" sees the ring exactly one short of the tail. */
  lemma FullTest<T>(s: State<T>)
    requires RangeInv(s)
    ensures Index(s, s.head + 1) == Index(s, |s.pushed| + 1)
    ensures Index(s, s.head + 1) == s.tail <==> |s.pushed| + 1 == |s.popped| + s.Capacity()
  {
    var p, q := |s.popped|, |s.pushed| + 1;
    SlotStep(|s.pushed|, s.Capacity());
    SlotIsModulo(p, s.Capacity());
    SlotIsModulo(q, s.Capacity());
    ModuloOfOneLap(p, q, s.Capacity());
  }

  /** The consumer's test for "empty" sees the two indices meet. */
  lemma EmptyTest<T>(s: State<T>)
    requires RangeInv(s)
    ensures s.tail == s.head <==> |s.pushed| == |s.popped|
  {
    SlotIsModulo(|s.popped|, s.Capacity());
    SlotIsModulo(|s.pushed|, s.Capacity());
    ModuloOfOneLap(|s.popped|, |s.pushed|, s.Capacity());
  }

  lemma StoreHeadInv<T>(s: State<T>)
    requires Inv(s) && Enabled(s, StoreHead)
    ensures Inv(Apply(s, StoreHead))
  {
    FullTest(s);
    var s' := Apply(s, StoreHead);
    forall k: nat | |s'.popped| <= k < |s'.pushed|
      ensures s'.buffer[Index(s', k)] == Whole(s'.pushed[k])
    {
      assert Index(s', k) == Index(s, k);
    }
    assert s'.head == Index(s', |s'.pushed|);
  }

  lemma StoreTailInv<T>(s: State<T>)
    requires Inv(s) && Enabled(s, StoreTail)
    ensures Inv(Apply(s, StoreTail))
  {
    var s' := Apply(s, StoreTail);
    SlotStep(|s.popped|, s.Capacity());
    assert s'.tail == Index(s', |s'.popped|);
    forall k: nat | |s'.popped| <= k < |s'.pushed|
      ensures s'.buffer[Index(s', k)] == Whole(s'.pushed[k])
    {
      assert Index(s', k) == Index(s, k);
    }
  }

  lemma WriteInv<T>(s: State<T>, step: Step<T>)
    requires Inv(s) && Enabled(s, step) && (step.BeginWrite? || step.EndWrite?)
    ensures Inv(Apply(s, step))
  {
    LapIndices(s);
    var s' := Apply(s, step);
    forall k: nat | |s'.popped| <= k < |s'.pushed|
      ensures s'.buffer[Index(s', k)] == Whole(s'.pushed[k])
    {
      assert Index(s', k) == Index(s, k) != s.head;
    }
    assert s'.head == Index(s', |s'.pushed|) && s'.tail == Index(s', |s'.popped|);
  }

  /** Steps that only move one side. */
  lemma MoveInv<T>(s: State<T>, s': State<T>)
    requires Inv(s) && WellFormed(s') && s' == s.(producer := s'.producer, consumer := s'.consumer)
    ensures RangeInv(s')
    ensures s'.producer == s.producer ==> ProducerInv(s')
    ensures s'.consumer == s.consumer ==> ConsumerInv(s')
  {
    assert forall k: nat :: Index(s', k) == Index(s, k);
  }

  lemma ProducerMoveInv<T>(s: State<T>, step: Step<T>)
    requires Inv(s) && Enabled(s, step) && (step.Call? || step.LoadHead? || step.LoadTail?)
    ensures Inv(Apply(s, step))
  {
    FullTest(s);
    MoveInv(s, Apply(s, step));
  }

  lemma ConsumerMoveInv<T>(s: State<T>, step: Step<T>)
    requires Inv(s) && Enabled(s, step)
    requires step.ConsumerLoadTail? || step.ConsumerLoadHead? || step.BeginRead? || step.EndRead?
    ensures Inv(Apply(s, step))
  {
    EmptyTest(s);
    MoveInv(s, Apply(s, step));
  }

  lemma StepInv<T>(s: State<T>, step: Step<T>)
    requires Inv(s) && Enabled(s, step)
    ensures Inv(Apply(s, step))
  {
    match step
    case Call(_) => ProducerMoveInv(s, step);
    case LoadHead => ProducerMoveInv(s, step);
    case LoadTail => ProducerMoveInv(s, step);
    case BeginWrite => WriteInv(s, step);
    case EndWrite => WriteInv(s, step);
    case StoreHead => StoreHeadInv(s);
    case StoreTail => StoreTailInv(s);
    case _ => ConsumerMoveInv(s, step);
  }

  lemma {:induction false} RunInv<T>(s: State<T>, steps: seq<Step<T>>)
    requires Inv(s) && IsRun(s, steps)
    ensures Inv(Run(s, steps))
    decreases |steps|
  {
    if steps != [] {
      StepInv(s, steps[0]);
      RunInv(Apply(s, steps[0]), steps[1..]);
    }
  }

  /* ---- what the invariant says about every run ---- */

  /** The producer is about to store, or storing, at the slot the consumer is about to read, or
      reading. */
  predicate Race<T>(s: State<T>) {
    && (s.producer.AtWrite? || s.producer.Writing?)
    && (s.consumer.AtRead? || s.consumer.Reading?)
    && s.producer.head == s.consumer.tail
  }

  /** In every interleaving: what was popped is a prefix of what was pushed, whole and in order;
      the ring between the indices is exactly the rest, never longer than one less than the
      capacity; and the two sides never touch the same slot at once. */
  lemma Exactness<T>(capacity: nat, steps: seq<Step<T>>)
    requires RingCapacity(capacity) && IsRun(Init(capacity), steps)
    ensures var s := Run(Init(capacity), steps);
            && |s.popped| <= |s.pushed|
            && (forall k :: 0 <= k < |s.popped| ==> s.popped[k] == Whole(s.pushed[k]))
            && |s.pushed| - |s.popped| <= capacity - 1
            && Ring(s) == Wholes(Contents(s))
            && !Race(s)
  {
    InitInv<T>(capacity);
    RunInv(Init(capacity), steps);
    InvExactness(Run(Init(capacity), steps));
  }

  /** The slots from tail up to, not including, head. */
  function Ring<T>(s: State<T>): seq<Cell<T>>
    requires WellFormed(s)
  {
    RingFrom(s, s.tail, s.Capacity())
  }

  function RingFrom<T>(s: State<T>, i: nat, limit: nat): seq<Cell<T>>
    requires WellFormed(s) && i < s.Capacity()
    decreases limit
  {
    if i == s.head || limit == 0 then [] else [s.buffer[i]] + RingFrom(s, Index(s, i + 1), limit - 1)
  }

  lemma {:induction false} RingFromIsSuffix<T>(s: State<T>, k: nat, limit: nat)
    requires RangeInv(s) && |s.popped| <= k <= |s.pushed| && limit >= |s.pushed| - k
    ensures RingFrom(s, Index(s, k), limit) == Wholes(s.pushed[k..])
    decreases limit
  {
    if k < |s.pushed| {
      RingStep(s, k);
      RingFromIsSuffix(s, k + 1, limit - 1);
      assert s.pushed[k..][1..] == s.pushed[k + 1..];
    }
  }

  /** One slot along the ring, short of head. */
  lemma RingStep<T>(s: State<T>, k: nat)
    requires RangeInv(s) && |s.popped| <= k < |s.pushed|
    ensures Index(s, k) != s.head && Index(s, Index(s, k) + 1) == Index(s, k + 1)
  {
    SlotStep(k, s.Capacity());
    SlotIsModulo(k, s.Capacity());
    SlotIsModulo(|s.pushed|, s.Capacity());
    ModuloOfOneLap(k, |s.pushed|, s.Capacity());
  }

  lemma InvExactness<T>(s: State<T>)
    requires Inv(s)
    ensures Ring(s) == Wholes(Contents(s)) && !Race(s)
  {
    RingFromIsSuffix(s, |s.popped|, s.Capacity());
    InvIsRaceFree(s);
  }

  lemma InvIsRaceFree<T>(s: State<T>)
    requires Inv(s)
    ensures !Race(s)
  {
    EmptyTest(s);
  }

  /** `push` answers "full" exactly when, at its load of tail, the ring holds one less than the
      capacity; `pop` answers "empty" exactly when, at its load of head, it holds nothing. */
  lemma Verdicts<T>(s: State<T>)
    requires Inv(s)
    ensures Enabled(s, LoadTail) ==>
              (Apply(s, LoadTail).producer.Idle? <==> |s.pushed| - |s.popped| == s.Capacity() - 1)
    ensures Enabled(s, ConsumerLoadHead) ==>
              (Apply(s, ConsumerLoadHead).consumer.Resting? <==> |s.pushed| == |s.popped|)
  {
    FullTest(s);
    EmptyTest(s);
  }

  /* ---- size() ---- */

  /** `size()` over `bits`-wide unsigned words, from a load of head and a later load of tail. */
  function Size(head: nat, tail: nat, capacity: nat, bits: nat): nat
    requires RingCapacity(capacity) && head < Pow2(bits) && tail < Pow2(bits)
  {
    Slot(WrapSub(head, tail, bits), capacity)
  }

  /** When `size()` loads head in `s` and tail in a later state `s'`, it returns the pushes seen less
      the pops seen, modulo the capacity. That is the difference itself exactly when no pop overtook
      the pushes it had seen; in particular it is the queue's length when nothing happened in
      between. */
  lemma SizeVerdict<T>(s: State<T>, s': State<T>, bits: nat)
    requires Inv(s) && Inv(s') && s'.Capacity() == s.Capacity() <= Pow2(bits)
    requires s.pushed <= s'.pushed && s.popped <= s'.popped
    ensures s.head < Pow2(bits) && s'.tail < Pow2(bits)
    ensures Size(s.head, s'.tail, s.Capacity(), bits) == (|s.pushed| - |s'.popped|) % s.Capacity()
    ensures Size(s.head, s'.tail, s.Capacity(), bits) == |s.pushed| - |s'.popped|
            <==> |s'.popped| <= |s.pushed|
    ensures s == s' ==> Size(s.head, s.tail, s.Capacity(), bits) == |Contents(s)|
  {
    MaskedDifference(|s'.popped|, |s.pushed|, s.Capacity(), bits);
    var d := |s.pushed| - |s'.popped|;
    if d >= 0 {
      ModuloUnique(d, s.Capacity(), 0, d);
    }
  }

  /* ---- refinement of an unbounded FIFO ---- */

  function ActionOf<T>(s: State<T>, step: Step<T>): FifoAction<T>
    requires Enabled(s, step)
  {
    match step
    case StoreHead => Enqueue(s.producer.item)
    case StoreTail => Dequeue(s.consumer.got)
    case _ => Stutter
  }

  function Contents<T>(s: State<T>): seq<T>
    requires |s.popped| <= |s.pushed|
  {
    s.pushed[|s.popped|..]
  }

  function Actions<T>(s: State<T>, steps: seq<Step<T>>): seq<FifoAction<T>>
    requires WellFormed(s) && IsRun(s, steps)
    decreases |steps|
  {
    if steps == [] then [] else [ActionOf(s, steps[0])] + Actions(Apply(s, steps[0]), steps[1..])
  }

  /** What a step does to the contents. */
  lemma StepContents<T>(s: State<T>, step: Step<T>)
    requires Inv(s) && Enabled(s, step)
    ensures |Apply(s, step).popped| <= |Apply(s, step).pushed|
    ensures FifoStep(Contents(s), ActionOf(s, step)) == Some(Contents(Apply(s, step)))
  {
    var s' := Apply(s, step);
    if step.StoreHead? {
      assert Contents(s') == Contents(s) + [s.producer.item];
    } else if step.StoreTail? {
      assert Contents(s') == Contents(s)[1..];
    } else {
      assert s'.pushed == s.pushed && s'.popped == s.popped;
    }
  }

  lemma StepRefinesFifo<T>(s: State<T>, step: Step<T>)
    requires Inv(s) && Enabled(s, step)
    ensures Inv(Apply(s, step))
    ensures FifoStep(Contents(s), ActionOf(s, step)) == Some(Contents(Apply(s, step)))
  {
    StepInv(s, step);
    StepContents(s, step);
  }

  lemma {:induction false} RunRefinesFifo<T>(s: State<T>, steps: seq<Step<T>>)
    requires Inv(s) && IsRun(s, steps)
    ensures Inv(Run(s, steps))
    ensures FifoRun(Contents(s), Actions(s, steps)) == Some(Contents(Run(s, steps)))
    decreases |steps|
  {
    if steps != [] {
      StepRefinesFifo(s, steps[0]);
      var s' := Apply(s, steps[0]);
      RunRefinesFifo(s', steps[1..]);
      assert Actions(s, steps)[1..] == Actions(s', steps[1..]);
    }
  }
}
