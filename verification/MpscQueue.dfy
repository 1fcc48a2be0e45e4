/** `push` and `pop` of the multi-producer queue over its real fields, with the other threads
    free to run between any two atomic statements. Every statement is one protocol step. */
module MpscQueue {
  import opened Bits
  import opened Wrappers
  import opened Fifo
  import P = MpscProtocol

  /** The histories of `s'` continue those of `s`. */
  ghost predicate Extends<T>(s: P.State<T>, s': P.State<T>) {
    && s'.Capacity() == s.Capacity()
    && |s'.producers| == |s.producers|
    && s.claimed <= s'.claimed && s.claimedBy <= s'.claimedBy && s.popped <= s'.popped
    && P.Freed(s) <= P.Freed(s')
  }

  /** Thread `t` claims nothing between `s` and `s'`. */
  ghost predicate NoClaims<T>(t: nat, s: P.State<T>, s': P.State<T>) {
    forall p :: |s.claimedBy| <= p < |s'.claimedBy| ==> s'.claimedBy[p] != t
  }

  /** Thread `t` claims exactly one position between `s` and `s'`, for `item`. */
  ghost predicate ClaimsOnce<T>(t: nat, item: T, s: P.State<T>, s': P.State<T>) {
    exists p :: |s.claimed| <= p < |s'.claimed| && |s'.claimedBy| == |s'.claimed|
      && s'.claimed[p] == item
      && forall q :: |s.claimed| <= q < |s'.claimed| ==> (s'.claimedBy[q] == t <==> q == p)
  }

  /** What producer `t` can rely on while it is preempted. */
  ghost predicate ProducerRely<T>(t: nat, s: P.State<T>, s': P.State<T>)
    requires t < |s.producers|
  {
    && P.Inv(s')
    && Extends(s, s')
    && s'.producers[t] == s.producers[t]
    && NoClaims(t, s, s')
  }

  /** What the consumer can rely on while it is preempted. */
  ghost predicate ConsumerRely<T>(s: P.State<T>, s': P.State<T>) {
    && P.Inv(s')
    && Extends(s, s')
    && s'.consumer == s.consumer && s'.popped == s.popped
  }

  predicate ByProducer<T>(t: nat, step: P.Step<T>) {
    match step
    case Call(u, _) => u == t
    case LoadPosition(u) => u == t
    case LoadSequence(u) => u == t
    case Claim(u, _) => u == t
    case BeginWrite(u) => u == t
    case EndWrite(u) => u == t
    case Publish(u) => u == t
    case _ => false
  }

  predicate ByConsumer<T>(step: P.Step<T>) {
    step.ConsumerLoad? || step.ConsumerCheck? || step.BeginRead? || step.EndRead? || step.Free? || step.Advance?
  }

  lemma OtherStepMeetsRely<T>(t: nat, s: P.State<T>, step: P.Step<T>)
    requires P.Inv(s) && P.Enabled(s, step) && t < |s.producers| && !ByProducer(t, step)
    ensures ProducerRely(t, s, P.Apply(s, step))
  {
    P.StepInv(s, step);
  }

  /** Any number of steps of the other threads meets a producer's rely condition. */
  lemma {:induction false} OthersMeetProducerRely<T>(t: nat, s: P.State<T>, steps: seq<P.Step<T>>)
    requires P.Inv(s) && P.IsRun(s, steps) && t < |s.producers|
    requires forall i :: 0 <= i < |steps| ==> !ByProducer(t, steps[i])
    ensures ProducerRely(t, s, P.Run(s, steps))
    decreases |steps|
  {
    if steps != [] {
      OtherStepMeetsRely(t, s, steps[0]);
      OthersMeetProducerRely(t, P.Apply(s, steps[0]), steps[1..]);
    }
  }

  lemma {:induction false} OthersMeetConsumerRely<T>(s: P.State<T>, steps: seq<P.Step<T>>)
    requires P.Inv(s) && P.IsRun(s, steps)
    requires forall i :: 0 <= i < |steps| ==> !ByConsumer(steps[i])
    ensures ConsumerRely(s, P.Run(s, steps))
    decreases |steps|
  {
    if steps != [] {
      P.StepInv(s, steps[0]);
      OthersMeetConsumerRely(P.Apply(s, steps[0]), steps[1..]);
    }
  }

  /** A claim made after a stretch without claims is the only one of the whole. */
  lemma ClaimsLater<T>(t: nat, item: T, s: P.State<T>, s': P.State<T>, s'': P.State<T>)
    requires Extends(s, s') && Extends(s', s'') && P.Inv(s) && P.Inv(s') && P.Inv(s'')
    requires NoClaims(t, s, s') && ClaimsOnce(t, item, s', s'')
    ensures ClaimsOnce(t, item, s, s'')
  {
    var p :| |s'.claimed| <= p < |s''.claimed| && s''.claimed[p] == item
      && forall q :: |s'.claimed| <= q < |s''.claimed| ==> (s''.claimedBy[q] == t <==> q == p);
    forall q | |s.claimed| <= q < |s''.claimed| ensures s''.claimedBy[q] == t <==> q == p {
      if q < |s'.claimed| {
        assert s'.claimedBy[q] == s''.claimedBy[q];
      }
    }
  }

  /** A round that was lost: at `at` the thread held position `pos`, and either another thread had
      claimed on from it, or the exchange failed for no reason. */
  datatype Loss<T> = Loss(at: P.State<T>, pos: nat, spurious: bool)

  ghost predicate Lost<T>(t: nat, item: T, loss: Loss<T>) {
    && P.Inv(loss.at) && t < |loss.at.producers|
    && (loss.at.producers[t] == P.AtClaim(item, loss.pos)
        || (loss.at.producers[t] == P.AtSequence(item, loss.pos) && !loss.spurious))
    && (if loss.spurious then loss.at.enqueuePos == loss.pos else loss.at.enqueuePos > loss.pos)
  }

  ghost predicate LostBetween<T>(t: nat, item: T, loss: Loss<T>, s: P.State<T>, s': P.State<T>) {
    Lost(t, item, loss) && Extends(s, loss.at) && Extends(loss.at, s') && s.enqueuePos <= loss.pos
  }

  /** The rounds lost between `s` and `s'`, in order: each on the position current when the one
      before was lost, or a later one. */
  ghost predicate LostRounds<T>(t: nat, item: T, losses: seq<Loss<T>>, s: P.State<T>, s': P.State<T>) {
    && (forall i :: 0 <= i < |losses| ==> LostBetween(t, item, losses[i], s, s'))
    && (forall i :: 0 < i < |losses| ==> losses[i - 1].at.enqueuePos <= losses[i].pos)
  }

  function SpuriousIn<T>(losses: seq<Loss<T>>): nat {
    if losses == [] then 0
    else SpuriousIn(losses[..|losses| - 1]) + (if losses[|losses| - 1].spurious then 1 else 0)
  }

  lemma LossEarlier<T>(t: nat, item: T, loss: Loss<T>, s: P.State<T>, s': P.State<T>, s'': P.State<T>)
    requires LostBetween(t, item, loss, s, s') && Extends(s', s'')
    ensures LostBetween(t, item, loss, s, s'')
  {
  }

  /** The rounds lost so far, still so when more has happened. */
  lemma LostEarlier<T>(t: nat, item: T, losses: seq<Loss<T>>, s: P.State<T>, s': P.State<T>, s'': P.State<T>)
    requires LostRounds(t, item, losses, s, s') && Extends(s', s'')
    ensures LostRounds(t, item, losses, s, s'')
  {
    forall i | 0 <= i < |losses| ensures LostBetween(t, item, losses[i], s, s'') {
      LossEarlier(t, item, losses[i], s, s', s'');
    }
  }

  /** One more. */
  lemma LostSnoc<T>(t: nat, item: T, losses: seq<Loss<T>>, loss: Loss<T>, s: P.State<T>, s': P.State<T>)
    requires LostRounds(t, item, losses, s, s') && LostBetween(t, item, loss, s, s')
    requires losses != [] ==> losses[|losses| - 1].at.enqueuePos <= loss.pos
    ensures LostRounds(t, item, losses + [loss], s, s')
  {
    var longer := losses + [loss];
    forall i | 0 <= i < |longer| ensures LostBetween(t, item, longer[i], s, s') {
      assert longer[i] == if i < |losses| then losses[i] else loss;
    }
  }

  lemma SpuriousSnoc<T>(losses: seq<Loss<T>>, loss: Loss<T>)
    ensures SpuriousIn(losses + [loss]) == SpuriousIn(losses) + (if loss.spurious then 1 else 0)
  {
    assert (losses + [loss])[..|losses|] == losses;
  }

  lemma {:induction false} AllSpurious<T>(losses: seq<Loss<T>>)
    requires forall i :: 0 <= i < |losses| ==> losses[i].spurious
    ensures SpuriousIn(losses) == |losses|
    decreases |losses|
  {
    if losses != [] {
      AllSpurious(losses[..|losses| - 1]);
    }
  }

  lemma OnlyOwner(owners: seq<nat>, n: nat, t: nat)
    requires n <= |owners| && forall p :: 0 <= p < |owners| ==> owners[p] == t
    ensures n < |owners| ==> exists p :: n <= p < |owners| && owners[p] == t
  {
    assert n < |owners| ==> owners[n] == t;
  }

  /** The only producer there is sees no claims but its own. */
  lemma NobodyElse<T>(t: nat, s: P.State<T>, s': P.State<T>)
    requires P.Inv(s) && P.Inv(s') && Extends(s, s') && NoClaims(t, s, s') && t < |s.producers| == 1
    ensures s'.enqueuePos == s.enqueuePos
  {
    assert forall p :: 0 <= p < |s'.claimedBy| ==> s'.claimedBy[p] == t;
    OnlyOwner(s'.claimedBy, |s.claimedBy|, t);
  }

  /** `Retrying` is a push that has lost every round it was given. */
  datatype Verdict = Accepted | Full | Retrying

  /** What a push did between `s` and `s'`: accepted, it claimed exactly one position, for its item;
      otherwise it claimed none. When it answered "full", every position of the ring was claimed
      and not freed at the moment `at`. */
  ghost predicate PushOutcome<T>(t: nat, item: T, verdict: Verdict, s: P.State<T>, at: P.State<T>, s': P.State<T>)
    requires t < |s'.producers|
  {
    match verdict
    case Accepted => ClaimsOnce(t, item, s, s') && s'.producers[t].Idle?
    case Retrying => NoClaims(t, s, s')
    case Full =>
      && NoClaims(t, s, s') && s'.producers[t].Idle?
      && P.Inv(at) && Extends(s, at) && Extends(at, s')
      && at.enqueuePos - P.Freed(at) == at.Capacity()
  }

  /** A push is still retrying only after as many lost rounds as it was given, all but `flakes` of
      them lost to other threads. */
  ghost predicate Earned<T>(t: nat, item: T, verdict: Verdict, losses: seq<Loss<T>>, rounds: nat, flakes: nat,
                            s: P.State<T>, s': P.State<T>) {
    && LostRounds(t, item, losses, s, s') && SpuriousIn(losses) <= flakes
    && (if verdict.Retrying? then |losses| == rounds else |losses| < rounds)
  }

  /** One producer, and a position of the ring it may have. */
  predicate Roomy<T>(s: P.State<T>) {
    |s.producers| == 1 && s.enqueuePos - P.Freed(s) < s.Capacity()
  }

  /** The only producer there is, with more rounds than spurious failures and room in the ring, has
      its push accepted. */
  lemma AloneIsAccepted<T>(t: nat, item: T, verdict: Verdict, losses: seq<Loss<T>>, rounds: nat, flakes: nat,
                           s: P.State<T>, at: P.State<T>, s': P.State<T>)
    requires P.Inv(s) && P.Inv(s') && Extends(s, s') && t < |s.producers|
    requires PushOutcome(t, item, verdict, s, at, s') && Earned(t, item, verdict, losses, rounds, flakes, s, s')
    ensures Roomy(s) && flakes < rounds ==> verdict.Accepted?
  {
    if Roomy(s) && !verdict.Accepted? {
      NobodyElse(t, s, s');
      if verdict.Retrying? {
        forall i | 0 <= i < |losses| ensures losses[i].spurious {
          assert LostBetween(t, item, losses[i], s, s');
        }
        AllSpurious(losses);
      }
    }
  }

  /** An outcome reached after a stretch without claims is that of the whole. */
  lemma OutcomeLater<T>(t: nat, item: T, verdict: Verdict,
                        s: P.State<T>, s': P.State<T>, at: P.State<T>, s'': P.State<T>)
    requires Extends(s, s') && Extends(s', s'') && P.Inv(s) && P.Inv(s') && P.Inv(s'') && t < |s.producers|
    requires NoClaims(t, s, s') && PushOutcome(t, item, verdict, s', at, s'')
    ensures Extends(s, s'') && PushOutcome(t, item, verdict, s, at, s'')
  {
    if verdict.Accepted? {
      ClaimsLater(t, item, s, s', s'');
    } else {
      NoClaimsLater(t, s, s', s'');
    }
  }

  lemma NoClaimsLater<T>(t: nat, s: P.State<T>, s': P.State<T>, s'': P.State<T>)
    requires Extends(s, s') && Extends(s', s'') && NoClaims(t, s, s') && NoClaims(t, s', s'')
    ensures NoClaims(t, s, s'')
  {
    forall p | |s.claimedBy| <= p < |s''.claimedBy| ensures s''.claimedBy[p] != t {
      if p < |s'.claimedBy| {
        assert s''.claimedBy[p] == s'.claimedBy[p];
      }
    }
  }

  /** At the moment `at`, the oldest unpopped position was unclaimed or still being written. */
  ghost predicate NothingReady<T>(s: P.State<T>, at: P.State<T>, s': P.State<T>) {
    && P.Inv(at) && Extends(s, at) && Extends(at, s')
    && (at.dequeuePos == at.enqueuePos
        || exists t :: 0 <= t < |at.producers| && at.producers[t].Holds(at.dequeuePos))
  }

  class MpscQueue<T(!new)> {
    const capacity: nat
    const sequence: array<nat>
    const data: array<Cell<T>>
    var enqueuePos: nat
    var dequeuePos: nat
    ghost var protocol: P.State<T>

    ghost predicate Valid()
      reads this, sequence, data
    {
      && sequence as object != data
      && sequence.Length == data.Length == capacity
      && protocol.sequence == sequence[..] && protocol.data == data[..]
      && protocol.enqueuePos == enqueuePos && protocol.dequeuePos == dequeuePos
      && P.Inv(protocol)
    }

    constructor (capacity: nat, ghost threads: nat)
      requires RingCapacity(capacity)
      ensures Valid() && fresh(sequence) && fresh(data)
      ensures protocol == P.Init(capacity, threads)
    {
      this.capacity := capacity;
      sequence := new nat[capacity];
      data := new Cell<T>[capacity](_ => Torn);
      enqueuePos, dequeuePos := 0, 0;
      protocol := P.Init(capacity, threads);
      new;
      for i := 0 to capacity
        modifies sequence
        invariant sequence as object != data
        invariant forall j :: 0 <= j < i ==> sequence[j] == j
        invariant forall j :: 0 <= j < capacity ==> data[j] == Torn
      {
        sequence[i] := i;
      }
      P.InitInv<T>(capacity, threads);
      assert protocol.sequence == sequence[..];
      assert protocol.data == data[..];
    }

    /** The masked index of a position. */
    function At(pos: nat): (i: nat)
      requires RingCapacity(capacity)
      ensures i == Slot(pos, capacity) < capacity
    {
      SlotIsModulo(pos, capacity);
      Slot(pos, capacity)
    }

    /** The other threads run for a while: the caller learns only what it may rely on. */
    method PreemptProducer(ghost t: nat)
      requires Valid() && t < |protocol.producers|
      modifies this, sequence, data
      ensures Valid() && ProducerRely(t, old(protocol), protocol)
    {
    }

    method PreemptConsumer()
      requires Valid()
      modifies this, sequence, data
      ensures Valid() && ConsumerRely(old(protocol), protocol)
    {
    }

    /* ---- the atomic statements of push ---- */

    ghost method Call(t: nat, item: T)
      requires Valid() && P.Enabled(protocol, P.Call(t, item))
      modifies this`protocol
      ensures Valid() && protocol == P.Apply(old(protocol), P.Call(t, item))
    {
      P.StepInv(protocol, P.Call(t, item));
      protocol := P.Apply(protocol, P.Call(t, item));
    }

    method LoadPosition(ghost t: nat) returns (pos: nat)
      requires Valid() && P.Enabled(protocol, P.LoadPosition(t))
      modifies this`protocol
      ensures Valid() && protocol == P.Apply(old(protocol), P.LoadPosition(t))
      ensures pos == protocol.producers[t].pos
    {
      pos := enqueuePos;
      P.StepInv(protocol, P.LoadPosition(t));
      protocol := P.Apply(protocol, P.LoadPosition(t));
    }

    method LoadSequence(ghost t: nat, pos: nat) returns (diff: int)
      requires Valid() && P.Enabled(protocol, P.LoadSequence(t)) && protocol.producers[t].pos == pos
      modifies this`protocol
      ensures Valid() && protocol == P.Apply(old(protocol), P.LoadSequence(t))
      ensures var item := old(protocol.producers[t].item);
              protocol.producers[t] == if diff == 0 then P.AtClaim(item, pos)
                                       else if diff < 0 then P.Idle else P.AtLoad(item)
    {
      diff := sequence[At(pos)] - pos;
      P.StepInv(protocol, P.LoadSequence(t));
      protocol := P.Apply(protocol, P.LoadSequence(t));
    }

    /** A weak compare-exchange of enqueue_pos, which may fail for no reason if `flaky`; on failure
        `pos'` is the value it found. */
    method TryClaim(ghost t: nat, pos: nat, flaky: bool) returns (ok: bool, pos': nat, flaked: bool)
      requires Valid() && (P.Enabled(protocol, P.Claim(t, false))) && protocol.producers[t].pos == pos
      modifies this`protocol, this`enqueuePos
      ensures Valid()
      ensures protocol == P.Apply(old(protocol), P.Claim(t, !ok))
      ensures ok ==> old(enqueuePos) == pos
      ensures !ok ==> pos' == protocol.producers[t].pos == old(enqueuePos)
      ensures flaked <==> !ok && old(enqueuePos) == pos
      ensures flaked ==> flaky
    {
      var spurious: bool := *;
      flaked := enqueuePos == pos && flaky && spurious;
      ok := enqueuePos == pos && !flaked;
      pos' := enqueuePos;
      P.StepInv(protocol, P.Claim(t, !ok));
      protocol := P.Apply(protocol, P.Claim(t, !ok));
      if ok {
        enqueuePos := pos + 1;
      }
    }

    method BeginWrite(ghost t: nat, pos: nat)
      requires Valid() && P.Enabled(protocol, P.BeginWrite(t)) && protocol.producers[t].pos == pos
      modifies this`protocol, data
      ensures Valid() && protocol == P.Apply(old(protocol), P.BeginWrite(t))
    {
      P.StepInv(protocol, P.BeginWrite(t));
      data[At(pos)] := Torn;
      protocol := P.Apply(protocol, P.BeginWrite(t));
    }

    method EndWrite(ghost t: nat, item: T, pos: nat)
      requires Valid() && P.Enabled(protocol, P.EndWrite(t)) && protocol.producers[t] == P.Writing(item, pos)
      modifies this`protocol, data
      ensures Valid() && protocol == P.Apply(old(protocol), P.EndWrite(t))
    {
      P.StepInv(protocol, P.EndWrite(t));
      data[At(pos)] := Whole(item);
      protocol := P.Apply(protocol, P.EndWrite(t));
    }

    method Publish(ghost t: nat, pos: nat)
      requires Valid() && P.Enabled(protocol, P.Publish(t)) && protocol.producers[t].pos == pos
      modifies this`protocol, sequence
      ensures Valid() && protocol == P.Apply(old(protocol), P.Publish(t))
    {
      P.StepInv(protocol, P.Publish(t));
      sequence[At(pos)] := pos + 1;
      protocol := P.Apply(protocol, P.Publish(t));
    }

    /** The plain store, in two halves. */
    method Store(ghost t: nat, item: T, pos: nat)
      requires Valid() && t < |protocol.producers| && protocol.producers[t] == P.AtWrite(item, pos)
      modifies this, sequence, data
      ensures Valid() && Extends(old(protocol), protocol) && NoClaims(t, old(protocol), protocol)
      ensures protocol.producers[t] == P.AtPublish(item, pos)
    {
      BeginWrite(t, pos);
      PreemptProducer(t);
      EndWrite(t, item, pos);
    }

    /** The winner of a position stores its item there and publishes it. */
    method Deliver(ghost t: nat, item: T, pos: nat)
      requires Valid() && t < |protocol.producers| && protocol.producers[t] == P.AtWrite(item, pos)
      modifies this, sequence, data
      ensures Valid() && Extends(old(protocol), protocol) && NoClaims(t, old(protocol), protocol)
      ensures protocol.producers[t].Idle?
    {
      PreemptProducer(t);
      Store(t, item, pos);
      PreemptProducer(t);
      Publish(t, pos);
    }

    /** From a matching sequence: the compare-exchange and, if won, the delivery. */
    method Compete(ghost t: nat, item: T, pos: nat, flaky: bool)
      returns (ok: bool, pos': nat, flaked: bool, ghost loss: Loss<T>)
      requires Valid() && t < |protocol.producers| && protocol.producers[t] == P.AtClaim(item, pos)
      modifies this, sequence, data
      ensures Valid() && Extends(old(protocol), protocol)
      ensures PushOutcome(t, item, if ok then Accepted else Retrying, old(protocol), protocol, protocol)
      ensures !ok ==> protocol.producers[t] == P.AtSequence(item, pos') && pos' == loss.at.enqueuePos
      ensures !ok ==> Lost(t, item, loss) && loss.at == old(protocol) && loss.pos == pos && loss.spurious == flaked
      ensures flaked ==> flaky
    {
      loss := Loss(protocol, pos, enqueuePos == pos);
      assert P.ProducerInv(protocol, t);
      ok, pos', flaked := TryClaim(t, pos, flaky);
      if ok {
        ghost var p := old(|protocol.claimed|);
        assert protocol.claimed[p] == item && protocol.claimedBy[p] == t;
        Deliver(t, item, pos);
        assert protocol.claimed[p] == item && protocol.claimedBy[p] == t;
      }
    }

    /** The same after others have run for a while. */
    method Try(ghost t: nat, item: T, pos: nat, flaky: bool)
      returns (verdict: Verdict, pos': nat, flaked: bool, ghost loss: Loss<T>)
      requires Valid() && t < |protocol.producers| && protocol.producers[t] == P.AtClaim(item, pos)
      modifies this, sequence, data
      ensures Valid() && Extends(old(protocol), protocol) && !verdict.Full?
      ensures PushOutcome(t, item, verdict, old(protocol), protocol, protocol)
      ensures verdict.Retrying? ==> protocol.producers[t] == P.AtSequence(item, pos') && loss.at.enqueuePos <= pos'
      ensures verdict.Retrying? ==> Lost(t, item, loss) && loss.pos == pos && loss.spurious == flaked
      ensures verdict.Retrying? ==> Extends(old(protocol), loss.at) && Extends(loss.at, protocol)
      ensures flaked ==> flaky
    {
      PreemptProducer(t);
      ghost var before := protocol;
      var ok;
      ok, pos', flaked, loss := Compete(t, item, pos, flaky);
      verdict := if ok then Accepted else Retrying;
      OutcomeLater(t, item, verdict, old(protocol), before, protocol, protocol);
    }

    /** One round of the loop of `push`: a round that is not decided was lost. */
    method Round(ghost t: nat, item: T, pos: nat, flaky: bool)
      returns (verdict: Verdict, pos': nat, flaked: bool, ghost at: P.State<T>, ghost loss: Loss<T>)
      requires Valid() && t < |protocol.producers| && protocol.producers[t] == P.AtSequence(item, pos)
      modifies this, sequence, data
      ensures Valid() && Extends(old(protocol), protocol)
      ensures PushOutcome(t, item, verdict, old(protocol), at, protocol)
      ensures verdict.Retrying? ==> protocol.producers[t] == P.AtSequence(item, pos') && loss.at.enqueuePos <= pos'
      ensures verdict.Retrying? ==> Lost(t, item, loss) && loss.pos == pos && loss.spurious == flaked
      ensures flaked ==> flaky
      ensures verdict.Retrying? ==> Extends(old(protocol), loss.at) && Extends(loss.at, protocol)
    {
      pos', flaked, at, loss := pos, false, protocol, Loss(protocol, pos, false);
      P.FullVerdict(protocol, t);
      assert P.ProducerInv(protocol, t);
      var diff := LoadSequence(t, pos);
      if diff == 0 {
        verdict, pos', flaked, loss := Try(t, item, pos, flaky);
      } else if diff < 0 {
        verdict := Full;
      } else {
        P.PassedBy(at, pos);
        PreemptProducer(t);
        pos' := LoadPosition(t);
        verdict := Retrying;
      }
    }

    /** A round after those lost since `s`. */
    method NextRound(ghost t: nat, item: T, pos: nat, flaky: bool, ghost s: P.State<T>, ghost losses: seq<Loss<T>>)
      returns (verdict: Verdict, pos': nat, flaked: bool, ghost at: P.State<T>, ghost losses': seq<Loss<T>>)
      requires Valid() && t < |protocol.producers| && protocol.producers[t] == P.AtSequence(item, pos)
      requires P.Inv(s) && Extends(s, protocol) && NoClaims(t, s, protocol) && s.enqueuePos <= pos
      requires LostRounds(t, item, losses, s, protocol)
      requires losses != [] ==> losses[|losses| - 1].at.enqueuePos <= pos
      modifies this, sequence, data
      ensures Valid() && Extends(s, protocol) && PushOutcome(t, item, verdict, s, at, protocol)
      ensures LostRounds(t, item, losses', s, protocol) && (flaked ==> flaky)
      ensures if verdict.Retrying? then |losses'| == |losses| + 1 else losses' == losses
      ensures verdict.Retrying? ==> protocol.producers[t] == P.AtSequence(item, pos') && pos <= pos'
      ensures verdict.Retrying? ==> losses'[|losses|].at.enqueuePos <= pos'
      ensures verdict.Retrying? ==> SpuriousIn(losses') == SpuriousIn(losses) + (if flaked then 1 else 0)
    {
      PreemptProducer(t);
      ghost var before := protocol;
      NoClaimsLater(t, s, old(protocol), before);
      ghost var loss;
      verdict, pos', flaked, at, loss := Round(t, item, pos, flaky);
      OutcomeLater(t, item, verdict, s, before, at, protocol);
      LostEarlier(t, item, losses, s, old(protocol), protocol);
      losses' := losses;
      if verdict.Retrying? {
        LostSnoc(t, item, losses, loss, s, protocol);
        SpuriousSnoc(losses, loss);
        losses' := losses + [loss];
      }
    }

    /** `push`. A call that loses every round it is given gives up as `Retrying`; the source would go
        on. `losses` are the rounds it lost, of which no more than `flakes` for no reason; alone in a
        ring with room, a call with a round to spare is accepted. */
    method Push(ghost t: nat, item: T, rounds: nat, flakes: nat)
      returns (verdict: Verdict, ghost at: P.State<T>, ghost losses: seq<Loss<T>>)
      requires Valid() && t < |protocol.producers| && protocol.producers[t].Idle?
      modifies this, sequence, data
      ensures Valid() && Extends(old(protocol), protocol)
      ensures PushOutcome(t, item, verdict, old(protocol), at, protocol)
      ensures Earned(t, item, verdict, losses, rounds, flakes, old(protocol), protocol)
      ensures Roomy(old(protocol)) && flakes < rounds ==> verdict.Accepted?
    {
      at, losses := protocol, [];
      Call(t, item);
      PreemptProducer(t);
      var pos := LoadPosition(t);
      var left, spare := rounds, flakes;
      verdict := Retrying;
      while left > 0
        invariant Valid() && Extends(old(protocol), protocol) && NoClaims(t, old(protocol), protocol)
        invariant t < |protocol.producers| && protocol.producers[t] == P.AtSequence(item, pos)
        invariant verdict.Retrying? && |losses| + left == rounds && SpuriousIn(losses) + spare == flakes
        invariant LostRounds(t, item, losses, old(protocol), protocol) && old(protocol).enqueuePos <= pos
        invariant losses != [] ==> losses[|losses| - 1].at.enqueuePos <= pos
      {
        var flaked;
        verdict, pos, flaked, at, losses := NextRound(t, item, pos, spare > 0, old(protocol), losses);
        if !verdict.Retrying? {
          break;
        }
        left, spare := left - 1, if flaked then spare - 1 else spare;
      }
      AloneIsAccepted(t, item, verdict, losses, rounds, flakes, old(protocol), at, protocol);
    }

    /* ---- the atomic statements of pop ---- */

    method ConsumerLoad() returns (pos: nat)
      requires Valid() && P.Enabled(protocol, P.ConsumerLoad)
      modifies this`protocol
      ensures Valid() && protocol == P.Apply(old(protocol), P.ConsumerLoad) && pos == dequeuePos
    {
      pos := dequeuePos;
      P.StepInv(protocol, P.ConsumerLoad);
      protocol := P.Apply(protocol, P.ConsumerLoad);
    }

    method ConsumerCheck(pos: nat) returns (diff: int)
      requires Valid() && protocol.consumer == P.AtCheck(pos)
      modifies this`protocol
      ensures Valid() && protocol == P.Apply(old(protocol), P.ConsumerCheck)
      ensures protocol.consumer == if diff == 0 then P.AtRead(pos) else P.Resting
    {
      diff := sequence[At(pos)] - (pos + 1);
      P.StepInv(protocol, P.ConsumerCheck);
      protocol := P.Apply(protocol, P.ConsumerCheck);
    }

    method Read(pos: nat) returns (got: Cell<T>)
      requires Valid() && protocol.consumer == P.AtRead(pos)
      modifies this, sequence, data
      ensures Valid() && Extends(old(protocol), protocol) && protocol.popped == old(protocol.popped)
      ensures protocol.consumer == P.AtFree(pos, got)
    {
      P.StepInv(protocol, P.BeginRead);
      protocol := P.Apply(protocol, P.BeginRead);
      PreemptConsumer();
      got := data[At(pos)];
      P.StepInv(protocol, P.EndRead);
      protocol := P.Apply(protocol, P.EndRead);
    }

    method Free(pos: nat, ghost got: Cell<T>)
      requires Valid() && protocol.consumer == P.AtFree(pos, got)
      modifies this`protocol, sequence
      ensures Valid() && protocol == P.Apply(old(protocol), P.Free)
    {
      P.StepInv(protocol, P.Free);
      sequence[At(pos)] := pos + capacity;
      protocol := P.Apply(protocol, P.Free);
    }

    method Advance(pos: nat, ghost got: Cell<T>)
      requires Valid() && protocol.consumer == P.AtAdvance(pos, got)
      modifies this`protocol, this`dequeuePos
      ensures Valid() && protocol == P.Apply(old(protocol), P.Advance)
    {
      P.StepInv(protocol, P.Advance);
      dequeuePos := pos + 1;
      protocol := P.Apply(protocol, P.Advance);
    }

    /** The two stores that give the slot back and count the pop. */
    method HandBack(pos: nat, ghost got: Cell<T>)
      requires Valid() && protocol.consumer == P.AtFree(pos, got)
      modifies this, sequence, data
      ensures Valid() && Extends(old(protocol), protocol) && protocol.consumer.Resting?
      ensures protocol.popped == old(protocol.popped) + [got]
    {
      Free(pos, got);
      PreemptConsumer();
      Advance(pos, got);
    }

    /** From a published head: the move out of the slot and the two stores. */
    method Consume(pos: nat) returns (item: T)
      requires Valid() && protocol.consumer == P.AtRead(pos)
      modifies this, sequence, data
      ensures Valid() && Extends(old(protocol), protocol) && protocol.consumer.Resting?
      ensures |protocol.popped| == old(|protocol.popped|) + 1
      ensures item == protocol.claimed[old(|protocol.popped|)]
    {
      var got := Read(pos);
      PreemptConsumer();
      HandBack(pos, got);
      item := got.value;
    }

    /** The look at the head's sequence. */
    method CheckHead() returns (pos: nat, ready: bool, ghost at: P.State<T>)
      requires Valid() && protocol.consumer.Resting?
      modifies this, sequence, data
      ensures Valid() && Extends(old(protocol), protocol) && protocol.popped == old(protocol.popped)
      ensures protocol.consumer == if ready then P.AtRead(pos) else P.Resting
      ensures !ready ==> NothingReady(old(protocol), at, protocol)
    {
      pos := ConsumerLoad();
      PreemptConsumer();
      at := protocol;
      P.EmptyVerdict(protocol);
      var diff := ConsumerCheck(pos);
      ready := diff == 0;
    }

    /** `pop`: the oldest unpopped item in claim order, whole; or nothing, when at the sequence
        load its position was unclaimed or still being written. */
    method Pop() returns (item: Option<T>, ghost at: P.State<T>)
      requires Valid() && protocol.consumer.Resting?
      modifies this, sequence, data
      ensures Valid() && Extends(old(protocol), protocol) && protocol.consumer.Resting?
      ensures match item
              case Some(x) =>
                && |protocol.popped| == old(|protocol.popped|) + 1
                && x == protocol.claimed[old(|protocol.popped|)]
              case None => protocol.popped == old(protocol.popped) && NothingReady(old(protocol), at, protocol)
    {
      PreemptConsumer();
      var pos, ready;
      pos, ready, at := CheckHead();
      item := None;
      if ready {
        PreemptConsumer();
        var x := Consume(pos);
        item := Some(x);
      }
    }
  }
}
