/** The multi-producer single-consumer ring as a transition system. One step is one atomic load,
    store or compare-exchange, or one end of a plain (non-atomic) data access; steps of different
    threads interleave arbitrarily under sequential consistency. */
module MpscProtocol {
  import opened Bits
  import opened Fifo
  import opened Wrappers

  /** Where a producer stands inside `push`. */
  datatype Producer<T> =
    | Idle
    | AtLoad(item: T)                // is about to load enqueue_pos
    | AtSequence(item: T, pos: nat)  // has loaded enqueue_pos
    | AtClaim(item: T, pos: nat)     // has seen sequence == pos
    | AtWrite(item: T, pos: nat)     // owns pos
    | Writing(item: T, pos: nat)     // is storing the data
    | AtPublish(item: T, pos: nat)   // has stored the data
  {
    predicate Holds(p: nat) {
      (AtWrite? || Writing? || AtPublish?) && pos == p
    }
  }

  /** Where the consumer stands inside `pop`. */
  datatype Consumer<T> =
    | Resting
    | AtCheck(pos: nat)                  // has loaded dequeue_pos
    | AtRead(pos: nat)                   // has seen sequence == pos + 1
    | Reading(pos: nat)                  // is moving the data out
    | AtFree(pos: nat, got: Cell<T>)     // is about to store sequence
    | AtAdvance(pos: nat, got: Cell<T>)  // is about to store dequeue_pos

  /** Shared memory, the threads' positions, and three histories: the items in the order their
      positions were claimed, who claimed each position, and what `pop` returned. */
  datatype State<T> = State(
    sequence: seq<nat>, data: seq<Cell<T>>, enqueuePos: nat, dequeuePos: nat,
    producers: seq<Producer<T>>, consumer: Consumer<T>,
    claimed: seq<T>, claimedBy: seq<nat>, popped: seq<Cell<T>>)
  {
    function Capacity(): nat { |sequence| }
  }

  datatype Step<T> =
    | Call(t: nat, item: T)          // push(item) is invoked
    | LoadPosition(t: nat)
    | LoadSequence(t: nat)
    | Claim(t: nat, spurious: bool)  // a weak compare-exchange may fail for no reason
    | BeginWrite(t: nat)
    | EndWrite(t: nat)
    | Publish(t: nat)
    | ConsumerLoad
    | ConsumerCheck
    | BeginRead
    | EndRead
    | Free
    | Advance

  function Init<T>(capacity: nat, threads: nat): State<T> {
    State(seq(capacity, i => i), seq(capacity, i => Torn), 0, 0,
          seq(threads, i => Idle), Resting, [], [], [])
  }

  predicate WellFormed<T>(s: State<T>) {
    RingCapacity(s.Capacity()) && |s.data| == s.Capacity()
  }

  function Index<T>(s: State<T>, pos: nat): (i: nat)
    requires WellFormed(s)
    ensures i < s.Capacity()
  {
    SlotIsModulo(pos, s.Capacity());
    Slot(pos, s.Capacity())
  }

  /** The thread taking the step stands where the step starts. */
  predicate Enabled<T>(s: State<T>, step: Step<T>) {
    match step
    case Call(t, _) => t < |s.producers| && s.producers[t].Idle?
    case LoadPosition(t) => t < |s.producers| && s.producers[t].AtLoad?
    case LoadSequence(t) => t < |s.producers| && s.producers[t].AtSequence?
    case Claim(t, _) => t < |s.producers| && s.producers[t].AtClaim?
    case BeginWrite(t) => t < |s.producers| && s.producers[t].AtWrite?
    case EndWrite(t) => t < |s.producers| && s.producers[t].Writing?
    case Publish(t) => t < |s.producers| && s.producers[t].AtPublish?
    case ConsumerLoad => s.consumer.Resting?
    case ConsumerCheck => s.consumer.AtCheck?
    case BeginRead => s.consumer.AtRead?
    case EndRead => s.consumer.Reading?
    case Free => s.consumer.AtFree?
    case Advance => s.consumer.AtAdvance?
  }

  function Goto<T>(s: State<T>, t: nat, p: Producer<T>): State<T>
    requires t < |s.producers|
  {
    s.(producers := s.producers[t := p])
  }

  function Apply<T>(s: State<T>, step: Step<T>): (s': State<T>)
    requires WellFormed(s) && Enabled(s, step)
    ensures WellFormed(s') && s'.Capacity() == s.Capacity() && |s'.producers| == |s.producers|
  {
    match step
    case Call(t, item) => Goto(s, t, AtLoad(item))
    case LoadPosition(t) => Goto(s, t, AtSequence(s.producers[t].item, s.enqueuePos))
    case LoadSequence(t) =>
      var AtSequence(item, pos) := s.producers[t];
      var diff := s.sequence[Index(s, pos)] - pos;
      if diff == 0 then Goto(s, t, AtClaim(item, pos))
      else if diff < 0 then Goto(s, t, Idle)  // push returns false
      else Goto(s, t, AtLoad(item))
    case Claim(t, spurious) =>
      var AtClaim(item, pos) := s.producers[t];
      if spurious || s.enqueuePos != pos then Goto(s, t, AtSequence(item, s.enqueuePos))
      else Goto(s, t, AtWrite(item, pos)).(
        enqueuePos := pos + 1, claimed := s.claimed + [item], claimedBy := s.claimedBy + [t])
    case BeginWrite(t) =>
      var AtWrite(item, pos) := s.producers[t];
      Goto(s, t, Writing(item, pos)).(data := s.data[Index(s, pos) := Torn])
    case EndWrite(t) =>
      var Writing(item, pos) := s.producers[t];
      Goto(s, t, AtPublish(item, pos)).(data := s.data[Index(s, pos) := Whole(item)])
    case Publish(t) =>
      var AtPublish(_, pos) := s.producers[t];
      Goto(s, t, Idle).(sequence := s.sequence[Index(s, pos) := pos + 1])  // push returns true
    case ConsumerLoad => s.(consumer := AtCheck(s.dequeuePos))
    case ConsumerCheck =>
      var pos := s.consumer.pos;
      if s.sequence[Index(s, pos)] != pos + 1 then s.(consumer := Resting)  // pop returns nothing
      else s.(consumer := AtRead(pos))
    case BeginRead => s.(consumer := Reading(s.consumer.pos))
    case EndRead => s.(consumer := AtFree(s.consumer.pos, s.data[Index(s, s.consumer.pos)]))
    case Free =>
      var AtFree(pos, got) := s.consumer;
      s.(consumer := AtAdvance(pos, got), sequence := s.sequence[Index(s, pos) := pos + s.Capacity()])
    case Advance =>
      var AtAdvance(pos, got) := s.consumer;
      s.(consumer := Resting, dequeuePos := pos + 1, popped := s.popped + [got])  // pop returns got
  }

  predicate IsRun<T>(s: State<T>, steps: seq<Step<T>>)
    requires WellFormed(s)
    decreases |steps|
  {
    steps == [] || (Enabled(s, steps[0]) && IsRun(Apply(s, steps[0]), steps[1..]))
  }

  function Run<T>(s: State<T>, steps: seq<Step<T>>): (s': State<T>)
    requires WellFormed(s) && IsRun(s, steps)
    ensures WellFormed(s') && s'.Capacity() == s.Capacity() && |s'.producers| == |s.producers|
    decreases |steps|
  {
    if steps == [] then s else Run(Apply(s, steps[0]), steps[1..])
  }

  /* ---- the invariant ---- */

  /** Positions below this one have been handed back to the producers. */
  function Freed<T>(s: State<T>): nat {
    if s.consumer.AtAdvance? then s.dequeuePos + 1 else s.dequeuePos
  }

  ghost predicate CountersInv<T>(s: State<T>) {
    && WellFormed(s)
    && |s.claimed| == |s.claimedBy| == s.enqueuePos
    && |s.popped| == s.dequeuePos
    && Freed(s) <= s.enqueuePos <= Freed(s) + s.Capacity()
    && (forall i :: 0 <= i < s.dequeuePos ==> s.popped[i] == Whole(s.claimed[i]))
    && (forall i :: 0 <= i < s.enqueuePos ==> s.claimedBy[i] < |s.producers|)
  }

  /** What the slot of position `p` holds while `p` is inside the current lap. */
  ghost predicate SlotInv<T>(s: State<T>, p: nat)
    requires CountersInv(s)
  {
    var i := Index(s, p);
    if p >= s.enqueuePos then s.sequence[i] == p
    else if s.sequence[i] == p + 1 then s.data[i] == Whole(s.claimed[p])
    else
      && s.sequence[i] == p
      && s.claimedBy[p] < |s.producers|
      && s.producers[s.claimedBy[p]].Holds(p)
  }

  ghost predicate LapInv<T>(s: State<T>)
    requires CountersInv(s)
  {
    forall p: nat :: Freed(s) <= p < Freed(s) + s.Capacity() ==> SlotInv(s, p)
  }

  ghost predicate ProducerInv<T>(s: State<T>, t: nat)
    requires CountersInv(s) && t < |s.producers|
  {
    match s.producers[t]
    case Idle => true
    case AtLoad(_) => true
    case AtSequence(_, pos) => pos <= s.enqueuePos
    case AtClaim(_, pos) => pos <= s.enqueuePos && pos < Freed(s) + s.Capacity()
    case AtWrite(item, pos) => HolderInv(s, t, item, pos)
    case Writing(item, pos) => HolderInv(s, t, item, pos)
    case AtPublish(item, pos) =>
      HolderInv(s, t, item, pos) && s.data[Index(s, pos)] == Whole(item)
  }

  ghost predicate HolderInv<T>(s: State<T>, t: nat, item: T, pos: nat)
    requires CountersInv(s)
  {
    && Freed(s) <= pos < s.enqueuePos
    && s.claimed[pos] == item && s.claimedBy[pos] == t
    && s.sequence[Index(s, pos)] == pos
  }

  ghost predicate ConsumerInv<T>(s: State<T>)
    requires CountersInv(s)
  {
    match s.consumer
    case Resting => true
    case AtCheck(pos) => pos == s.dequeuePos
    case AtRead(pos) => pos == s.dequeuePos && HeadPublished(s)
    case Reading(pos) => pos == s.dequeuePos && HeadPublished(s)
    case AtFree(pos, got) =>
      pos == s.dequeuePos && HeadPublished(s) && got == Whole(s.claimed[pos])
    case AtAdvance(pos, got) =>
      pos == s.dequeuePos && pos < s.enqueuePos && got == Whole(s.claimed[pos])
  }

  /** The oldest unpopped position has been claimed and its item stored. */
  ghost predicate HeadPublished<T>(s: State<T>)
    requires CountersInv(s)
  {
    s.dequeuePos < s.enqueuePos && s.sequence[Index(s, s.dequeuePos)] == s.dequeuePos + 1
  }

  ghost predicate Inv<T>(s: State<T>) {
    && CountersInv(s)
    && LapInv(s)
    && (forall t: nat :: t < |s.producers| ==> ProducerInv(s, t))
    && ConsumerInv(s)
  }

  lemma InitInv<T>(capacity: nat, threads: nat)
    requires RingCapacity(capacity)
    ensures Inv(Init<T>(capacity, threads))
  {
    var s := Init<T>(capacity, threads);
    forall p: nat | p < capacity ensures SlotInv(s, p) {
      SlotOfFirstLap(p, capacity);
      assert Index(s, p) == p;
    }
  }

  /** In one lap, distinct positions live in distinct slots. */
  lemma LapIndices<T>(s: State<T>)
    requires WellFormed(s)
    ensures forall p: nat, q: nat {:trigger Index(s, p), Index(s, q)} ::
              p < q < p + s.Capacity() ==> Index(s, p) != Index(s, q)
    ensures forall p: nat :: Index(s, p + s.Capacity()) == Index(s, p)
  {
    SlotFacts(s.Capacity());
  }

  /** Steps that only move a producer without granting it a position. */
  lemma MoveInv<T>(s: State<T>, t: nat, to: Producer<T>)
    requires Inv(s) && t < |s.producers|
    requires !s.producers[t].AtWrite? && !s.producers[t].Writing? && !s.producers[t].AtPublish?
    requires to.Idle? || to.AtLoad? || (to.AtSequence? && to.pos <= s.enqueuePos)
             || (to.AtClaim? && to.pos <= s.enqueuePos && to.pos < Freed(s) + s.Capacity())
    ensures Inv(Goto(s, t, to))
  {
    var s' := Goto(s, t, to);
    forall p: nat | Freed(s) <= p < Freed(s) + s.Capacity() ensures SlotInv(s', p) {
      assert SlotInv(s, p);
    }
    forall u: nat | u < |s.producers| ensures ProducerInv(s', u) {
      assert ProducerInv(s, u);
    }
  }

  /** A load of the slot's sequence sees `pos` only while `pos` is inside the current lap. */
  lemma MatchInLap<T>(s: State<T>, pos: nat)
    requires Inv(s) && pos <= s.enqueuePos && s.sequence[Index(s, pos)] == pos
    ensures pos < Freed(s) + s.Capacity()
  {
    LapIndices(s);
    assert SlotInv(s, Freed(s));
    assert Index(s, Freed(s) + s.Capacity()) == Index(s, Freed(s));
  }

  lemma ClaimInv<T>(s: State<T>, t: nat)
    requires Inv(s) && Enabled(s, Claim(t, false)) && s.enqueuePos == s.producers[t].pos
    ensures Inv(Apply(s, Claim(t, false)))
  {
    var s' := Apply(s, Claim(t, false));
    assert ProducerInv(s, t);
    forall p: nat | Freed(s') <= p < Freed(s') + s'.Capacity() ensures SlotInv(s', p) {
      assert SlotInv(s, p);
    }
    forall u: nat | u < |s'.producers| ensures ProducerInv(s', u) {
      assert ProducerInv(s, u);
      assert SlotInv(s, s.enqueuePos);
    }
  }

  /** Either half of the plain store: the slot is the holder's alone. */
  lemma DataInv<T>(s: State<T>, t: nat, to: Producer<T>, cell: Cell<T>, s': State<T>)
    requires Inv(s) && t < |s.producers| && (s.producers[t].AtWrite? || s.producers[t].Writing?)
    requires to.Writing? || (to.AtPublish? && cell == Whole(to.item))
    requires to.pos == s.producers[t].pos && to.item == s.producers[t].item
    requires s' == Goto(s, t, to).(data := s.data[Index(s, to.pos) := cell])
    ensures Inv(s')
  {
    assert ProducerInv(s, t);
    LapIndices(s);
    forall p: nat | Freed(s') <= p < Freed(s') + s'.Capacity() ensures SlotInv(s', p) {
      assert SlotInv(s, p);
    }
    forall u: nat | u < |s'.producers| ensures ProducerInv(s', u) {
      assert ProducerInv(s, u);
    }
  }

  lemma PublishInv<T>(s: State<T>, t: nat)
    requires Inv(s) && Enabled(s, Publish(t))
    ensures Inv(Apply(s, Publish(t)))
  {
    var s' := Apply(s, Publish(t));
    assert ProducerInv(s, t);
    LapIndices(s);
    forall p: nat | Freed(s') <= p < Freed(s') + s'.Capacity() ensures SlotInv(s', p) {
      assert SlotInv(s, p);
    }
    forall u: nat | u < |s'.producers| ensures ProducerInv(s', u) {
      assert ProducerInv(s, u);
    }
  }

  lemma FreeInv<T>(s: State<T>)
    requires Inv(s) && Enabled(s, Free)
    ensures Inv(Apply(s, Free))
  {
    var s' := Apply(s, Free);
    LapIndices(s);
    forall p: nat | Freed(s') <= p < Freed(s') + s'.Capacity() ensures SlotInv(s', p) {
      if p < Freed(s) + s.Capacity() {
        assert SlotInv(s, p);
      } else {
        assert p == s.dequeuePos + s.Capacity();
        assert Index(s', p) == Index(s, s.dequeuePos + s.Capacity()) == Index(s, s.dequeuePos);
      }
    }
    forall u: nat | u < |s'.producers| ensures ProducerInv(s', u) {
      assert ProducerInv(s, u);
    }
  }

  /** Steps that only move the consumer. */
  lemma ConsumerMoveInv<T>(s: State<T>, to: Consumer<T>)
    requires Inv(s) && !s.consumer.AtAdvance? && !to.AtAdvance?
    requires ConsumerInv(s.(consumer := to))
    ensures Inv(s.(consumer := to))
  {
    var s' := s.(consumer := to);
    forall p: nat | Freed(s') <= p < Freed(s') + s'.Capacity() ensures SlotInv(s', p) {
      assert SlotInv(s, p);
    }
    forall u: nat | u < |s'.producers| ensures ProducerInv(s', u) {
      assert ProducerInv(s, u);
    }
  }

  lemma ConsumerStepInv<T>(s: State<T>, step: Step<T>)
    requires Inv(s) && Enabled(s, step)
    requires step.ConsumerLoad? || step.ConsumerCheck? || step.BeginRead? || step.EndRead?
    ensures Inv(Apply(s, step))
  {
    assert SlotInv(s, Freed(s));
    ConsumerMoveInv(s, Apply(s, step).consumer);
  }

  lemma AdvanceInv<T>(s: State<T>)
    requires Inv(s) && Enabled(s, Advance)
    ensures Inv(Apply(s, Advance))
  {
    var s' := Apply(s, Advance);
    forall p: nat | Freed(s') <= p < Freed(s') + s'.Capacity() ensures SlotInv(s', p) {
      assert SlotInv(s, p);
    }
    forall u: nat | u < |s'.producers| ensures ProducerInv(s', u) {
      assert ProducerInv(s, u);
    }
  }

  lemma StepInv<T>(s: State<T>, step: Step<T>)
    requires Inv(s) && Enabled(s, step)
    ensures Inv(Apply(s, step))
  {
    match step
    case Call(t, item) => MoveInv(s, t, AtLoad(item));
    case LoadPosition(t) => MoveInv(s, t, AtSequence(s.producers[t].item, s.enqueuePos));
    case LoadSequence(t) =>
      assert ProducerInv(s, t);
      var AtSequence(item, pos) := s.producers[t];
      if s.sequence[Index(s, pos)] == pos {
        MatchInLap(s, pos);
      }
      MoveInv(s, t, Apply(s, step).producers[t]);
    case Claim(t, spurious) =>
      if spurious || s.enqueuePos != s.producers[t].pos {
        MoveInv(s, t, AtSequence(s.producers[t].item, s.enqueuePos));
      } else {
        ClaimInv(s, t);
      }
    case BeginWrite(t) =>
      var AtWrite(item, pos) := s.producers[t];
      DataInv(s, t, Writing(item, pos), Torn, Apply(s, step));
    case EndWrite(t) =>
      var Writing(item, pos) := s.producers[t];
      DataInv(s, t, AtPublish(item, pos), Whole(item), Apply(s, step));
    case Publish(t) => PublishInv(s, t);
    case Free => FreeInv(s);
    case Advance => AdvanceInv(s);
    case _ => ConsumerStepInv(s, step);
  }

  lemma {:induction false} RunInv<T>(s: State<T>, steps: seq<Step<T>>)
    requires Inv(s) && IsRun(s, steps)
    ensures Inv(Run(s, steps))
    decreases |steps|
  {
    if steps != [] {
      StepInv(s, steps[0]);
      RunInv(Apply(s, steps[0]), steps[1..]);
    }
  }

  /* ---- what the invariant says about every run ---- */

  /** Thread `t` is inside its plain store to slot `i`. */
  predicate WritesSlot<T>(s: State<T>, t: nat, i: nat)
    requires WellFormed(s) && t < |s.producers|
  {
    var p := s.producers[t];
    (p.AtWrite? || p.Writing?) && Index(s, p.pos) == i
  }

  predicate ReadsSlot<T>(s: State<T>, i: nat)
    requires WellFormed(s)
  {
    (s.consumer.AtRead? || s.consumer.Reading?) && Index(s, s.consumer.pos) == i
  }

  /** No thread is about to store, or storing, into a slot another thread is about to access,
      or accessing. */
  ghost predicate RaceFree<T>(s: State<T>)
    requires WellFormed(s)
  {
    forall t: nat, i: nat :: t < |s.producers| && WritesSlot(s, t, i) ==>
      && !ReadsSlot(s, i)
      && (forall u: nat :: u < |s.producers| && u != t ==> !WritesSlot(s, u, i))
  }

  lemma InvIsRaceFree<T>(s: State<T>)
    requires Inv(s)
    ensures RaceFree(s)
  {
    LapIndices(s);
    forall t: nat, i: nat | t < |s.producers| && WritesSlot(s, t, i)
      ensures !ReadsSlot(s, i)
      ensures forall u: nat :: u < |s.producers| && u != t ==> !WritesSlot(s, u, i)
    {
      assert ProducerInv(s, t);
      forall u: nat | u < |s.producers| && u != t ensures !WritesSlot(s, u, i) {
        assert ProducerInv(s, u);
      }
    }
  }

  /** Exactness: whatever the interleaving of the producers with the consumer, what `pop` has
      returned is a prefix of the items in claim order, each whole, none lost or repeated; no two
      threads touch the same data at once; and the ring never holds more than its capacity. */
  lemma Exactness<T>(capacity: nat, threads: nat, steps: seq<Step<T>>)
    requires RingCapacity(capacity)
    requires IsRun(Init(capacity, threads), steps)
    ensures var s := Run(Init(capacity, threads), steps);
            && |s.popped| <= |s.claimed|
            && (forall i :: 0 <= i < |s.popped| ==> s.popped[i] == Whole(s.claimed[i]))
            && RaceFree(s)
            && |s.claimed| - Freed(s) <= capacity
            && s.enqueuePos - s.dequeuePos <= capacity + 1
            && (s.enqueuePos - s.dequeuePos == capacity + 1 ==> s.consumer.AtAdvance?)
  {
    InitInv<T>(capacity, threads);
    RunInv(Init(capacity, threads), steps);
    InvIsRaceFree(Run(Init(capacity, threads), steps));
  }

  /* ---- each producer's own order ---- */

  /** The items of the positions thread `t` claimed, in order. */
  function ItemsOf<T>(claimed: seq<T>, claimedBy: seq<nat>, t: nat): seq<T>
    requires |claimed| == |claimedBy|
  {
    if claimed == [] then []
    else
      var n := |claimed| - 1;
      ItemsOf(claimed[..n], claimedBy[..n], t) + (if claimedBy[n] == t then [claimed[n]] else [])
  }

  lemma ItemsOfSnoc<T>(claimed: seq<T>, claimedBy: seq<nat>, item: T, owner: nat, t: nat)
    requires |claimed| == |claimedBy|
    ensures ItemsOf(claimed + [item], claimedBy + [owner], t)
            == ItemsOf(claimed, claimedBy, t) + (if owner == t then [item] else [])
  {
    assert (claimed + [item])[..|claimed|] == claimed && (claimedBy + [owner])[..|claimedBy|] == claimedBy;
  }

  lemma {:induction false} ItemsOfPrefix<T>(claimed: seq<T>, claimedBy: seq<nat>, k: nat, t: nat)
    requires k <= |claimed| == |claimedBy|
    ensures ItemsOf(claimed[..k], claimedBy[..k], t) <= ItemsOf(claimed, claimedBy, t)
    decreases |claimed|
  {
    if k == |claimed| {
      assert claimed[..k] == claimed && claimedBy[..k] == claimedBy;
    } else {
      var n := |claimed| - 1;
      ItemsOfPrefix(claimed[..n], claimedBy[..n], k, t);
      assert claimed[..n][..k] == claimed[..k] && claimedBy[..n][..k] == claimedBy[..k];
    }
  }

  /** `push` answers false. */
  predicate Refuses<T>(s: State<T>, step: Step<T>)
    requires WellFormed(s) && Enabled(s, step)
  {
    step.LoadSequence? && Apply(s, step).producers[step.t].Idle?
  }

  /** The items thread `t` has called `push` with, in order, less those it was refused, after one
      more step. */
  function Noted<T>(s: State<T>, step: Step<T>, t: nat, pushes: seq<T>): seq<T>
    requires WellFormed(s) && Enabled(s, step)
  {
    if step.Call? && step.t == t then pushes + [step.item]
    else if Refuses(s, step) && step.t == t && pushes != [] then pushes[..|pushes| - 1]
    else pushes
  }

  function Pushes<T>(s: State<T>, steps: seq<Step<T>>, t: nat, before: seq<T>): seq<T>
    requires WellFormed(s) && IsRun(s, steps)
    decreases |steps|
  {
    if steps == [] then before
    else Pushes(Apply(s, steps[0]), steps[1..], t, Noted(s, steps[0], t, before))
  }

  /** The item of a push that has not claimed a position yet. */
  function UnderWay<T>(s: State<T>, t: nat): seq<T> {
    if t < |s.producers| && (s.producers[t].AtLoad? || s.producers[t].AtSequence? || s.producers[t].AtClaim?)
    then [s.producers[t].item] else []
  }

  /** Thread `t`'s claims, and the push it has under way, are its pushes. */
  ghost predicate InOrder<T>(s: State<T>, t: nat, pushes: seq<T>) {
    |s.claimed| == |s.claimedBy| && pushes == ItemsOf(s.claimed, s.claimedBy, t) + UnderWay(s, t)
  }

  /** The compare-exchange that claims a position. */
  predicate Wins<T>(s: State<T>, step: Step<T>)
    requires Enabled(s, step)
  {
    step.Claim? && !step.spurious && s.enqueuePos == s.producers[step.t].pos
  }

  lemma WinInOrder<T>(s: State<T>, u: nat, t: nat, pushes: seq<T>)
    requires WellFormed(s) && Enabled(s, Claim(u, false)) && Wins(s, Claim(u, false)) && InOrder(s, t, pushes)
    ensures InOrder(Apply(s, Claim(u, false)), t, pushes)
  {
    ItemsOfSnoc(s.claimed, s.claimedBy, s.producers[u].item, u, t);
  }

  /** Whether thread `t`'s push is under way changes with its own calls and refusals alone. */
  lemma StepUnderWay<T>(s: State<T>, step: Step<T>, t: nat)
    requires WellFormed(s) && Enabled(s, step) && !Wins(s, step)
    ensures UnderWay(Apply(s, step), t)
            == if step.Call? && step.t == t then [step.item]
               else if Refuses(s, step) && step.t == t then []
               else UnderWay(s, t)
    ensures (step.Call? && step.t == t ==> UnderWay(s, t) == [])
    ensures (Refuses(s, step) && step.t == t ==> |UnderWay(s, t)| == 1)
  {
  }

  lemma StepInOrder<T>(s: State<T>, step: Step<T>, t: nat, pushes: seq<T>)
    requires WellFormed(s) && Enabled(s, step) && InOrder(s, t, pushes)
    ensures InOrder(Apply(s, step), t, Noted(s, step, t, pushes))
  {
    if Wins(s, step) {
      WinInOrder(s, step.t, t, pushes);
    } else {
      StepUnderWay(s, step, t);
      KeepsClaims(s, step);
    }
  }

  lemma KeepsClaims<T>(s: State<T>, step: Step<T>)
    requires WellFormed(s) && Enabled(s, step) && !Wins(s, step)
    ensures Apply(s, step).claimed == s.claimed && Apply(s, step).claimedBy == s.claimedBy
  {
  }

  lemma {:induction false} RunInOrder<T>(s: State<T>, steps: seq<Step<T>>, t: nat, pushes: seq<T>)
    requires WellFormed(s) && IsRun(s, steps) && InOrder(s, t, pushes)
    ensures InOrder(Run(s, steps), t, Pushes(s, steps, t, pushes))
    decreases |steps|
  {
    if steps != [] {
      StepInOrder(s, steps[0], t, pushes);
      RunInOrder(Apply(s, steps[0]), steps[1..], t, Noted(s, steps[0], t, pushes));
    }
  }

  /** Each producer's items are claimed, and so popped, in the order it pushed them: its claims, and
      the push it may have under way, are exactly its calls that were not refused; and what was
      popped of them is a prefix. */
  lemma ProducerOrder<T>(capacity: nat, threads: nat, steps: seq<Step<T>>, t: nat)
    requires RingCapacity(capacity) && IsRun(Init(capacity, threads), steps)
    ensures var s, pushes := Run(Init(capacity, threads), steps), Pushes(Init(capacity, threads), steps, t, []);
            && |s.popped| <= |s.claimed| == |s.claimedBy|
            && pushes == ItemsOf(s.claimed, s.claimedBy, t) + UnderWay(s, t)
            && ItemsOf(s.claimed[..|s.popped|], s.claimedBy[..|s.popped|], t) <= pushes
  {
    var s0 := Init<T>(capacity, threads);
    assert InOrder(s0, t, []);
    RunInOrder(s0, steps, t, []);
    Exactness(capacity, threads, steps);
    var s := Run(s0, steps);
    ItemsOfPrefix(s.claimed, s.claimedBy, |s.popped|, t);
  }

  /** The sequence of the slot of any position not beyond the lap is at least that position, and
      more than it once the position has been freed. */
  lemma {:induction false} SequenceOfPast<T>(s: State<T>, pos: nat)
    requires Inv(s) && pos < Freed(s) + s.Capacity()
    ensures s.sequence[Index(s, pos)] >= pos
    ensures pos < Freed(s) ==> s.sequence[Index(s, pos)] > pos
    decreases Freed(s) + s.Capacity() - pos
  {
    if pos < Freed(s) {
      LapIndices(s);
      SequenceOfPast(s, pos + s.Capacity());
    } else {
      assert SlotInv(s, pos);
    }
  }

  /** A slot's sequence past the position it was looked up for means that others have claimed on. */
  lemma PassedBy<T>(s: State<T>, pos: nat)
    requires Inv(s) && pos <= s.enqueuePos && s.sequence[Index(s, pos)] > pos
    ensures pos < s.enqueuePos
  {
    LapIndices(s);
    assert SlotInv(s, Freed(s));
    assert Index(s, Freed(s) + s.Capacity()) == Index(s, Freed(s));
    assert Freed(s) <= pos < Freed(s) + s.Capacity() ==> SlotInv(s, pos);
  }

  /** `push` answers "full", at its load of the slot's sequence, exactly when every position the
      ring can hold has been claimed and not freed, and the producer's position is not stale. */
  lemma FullVerdict<T>(s: State<T>, t: nat)
    requires Inv(s) && Enabled(s, LoadSequence(t))
    ensures Apply(s, LoadSequence(t)).producers[t].Idle?
            <==> (s.enqueuePos - Freed(s) == s.Capacity() && s.producers[t].pos == s.enqueuePos)
  {
    var pos := s.producers[t].pos;
    assert ProducerInv(s, t);
    LapIndices(s);
    assert SlotInv(s, Freed(s));
    if pos < Freed(s) + s.Capacity() {
      SequenceOfPast(s, pos);
    } else {
      assert Index(s, Freed(s) + s.Capacity()) == Index(s, Freed(s));
    }
  }

  /** `pop` answers "empty", at its load of the slot's sequence, exactly when the oldest unpopped
      position is unclaimed or its item is not yet published. */
  lemma EmptyVerdict<T>(s: State<T>)
    requires Inv(s) && Enabled(s, ConsumerCheck)
    ensures Apply(s, ConsumerCheck).consumer.Resting?
            <==> s.dequeuePos == s.enqueuePos
                 || exists t :: 0 <= t < |s.producers| && s.producers[t].Holds(s.dequeuePos)
  {
    assert SlotInv(s, s.dequeuePos);
    forall t: nat | t < |s.producers| && s.producers[t].Holds(s.dequeuePos)
      ensures !HeadPublished(s)
    {
      assert ProducerInv(s, t);
    }
  }

  /** Once no push is under way and `pop` finds nothing, everything ever claimed was returned. */
  lemma DrainedWhenQuiet<T>(s: State<T>)
    requires Inv(s) && Enabled(s, ConsumerCheck) && Apply(s, ConsumerCheck).consumer.Resting?
    requires forall t :: 0 <= t < |s.producers| ==> s.producers[t].Idle?
    ensures |s.popped| == |s.claimed|
  {
    EmptyVerdict(s);
    assert SlotInv(s, s.dequeuePos);
  }

  /* ---- refinement of an unbounded FIFO ---- */

  /** A push takes effect at its compare-exchange, a pop at its last store. */
  function ActionOf<T>(s: State<T>, step: Step<T>): FifoAction<T>
    requires Enabled(s, step)
  {
    match step
    case Claim(t, spurious) =>
      if spurious || s.enqueuePos != s.producers[t].pos then Stutter
      else Enqueue(s.producers[t].item)
    case Advance => Dequeue(s.consumer.got)
    case _ => Stutter
  }

  function Contents<T>(s: State<T>): seq<T>
    requires |s.popped| <= |s.claimed|
  {
    s.claimed[|s.popped|..]
  }

  lemma StepRefinesFifo<T>(s: State<T>, step: Step<T>)
    requires Inv(s) && Enabled(s, step)
    ensures Inv(Apply(s, step))
    ensures FifoStep(Contents(s), ActionOf(s, step)) == Some(Contents(Apply(s, step)))
  {
    StepInv(s, step);
    var s' := Apply(s, step);
    match step
    case Claim(t, spurious) =>
      if !spurious && s.enqueuePos == s.producers[t].pos {
        assert Contents(s') == Contents(s) + [s.producers[t].item];
      }
    case Advance =>
      assert Contents(s)[0] == s.claimed[s.dequeuePos];
      assert Contents(s') == Contents(s)[1..];
    case _ =>
  }

  /** The FIFO actions of a run, in order. */
  function Actions<T>(s: State<T>, steps: seq<Step<T>>): seq<FifoAction<T>>
    requires WellFormed(s) && IsRun(s, steps)
    decreases |steps|
  {
    if steps == [] then [] else [ActionOf(s, steps[0])] + Actions(Apply(s, steps[0]), steps[1..])
  }

  lemma {:induction false} RunRefinesFifo<T>(s: State<T>, steps: seq<Step<T>>)
    requires Inv(s) && IsRun(s, steps)
    ensures Inv(Run(s, steps))
    ensures FifoRun(Contents(s), Actions(s, steps)) == Some(Contents(Run(s, steps)))
    decreases |steps|
  {
    if steps != [] {
      StepRefinesFifo(s, steps[0]);
      var s' := Apply(s, steps[0]);
      RunRefinesFifo(s', steps[1..]);
      assert Actions(s, steps)[1..] == Actions(s', steps[1..]);
    }
  }
}
