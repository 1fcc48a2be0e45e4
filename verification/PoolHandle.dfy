/** The move-only owner of a pool slot: over every life of every handle, each slot acquired is
    released exactly once. */
module PoolHandle {
  import opened Wrappers

  /* ---- the handle's own operations ---- */

  /** What a handle sees of a pool: the slots it has out, and the order it got them back in. */
  class Pool {
    var out: set<nat>
    ghost var released: seq<nat>

    constructor ()
      ensures out == {} && released == []
    {
      out, released := {}, [];
    }

    method Release(slot: nat)
      requires slot in out
      modifies this
      ensures out == old(out) - {slot} && released == old(released) + [slot]
    {
      out := out - {slot};
      released := released + [slot];
    }
  }

  class PoolHandle {
    var pool: Pool?
    var ptr: Option<nat>

    /** A handle with a slot has the slot's pool, where the slot is out. One without may still
        name a pool: the one whose `acquire` gave it nothing. */
    ghost predicate Valid()
      reads this, pool
    {
      ptr.Some? ==> pool != null && ptr.value in pool.out
    }

    constructor Empty()
      ensures Valid() && pool == null && ptr.None?
    {
      pool, ptr := null, None;
    }

    /** Of what `acquire` gave, which may be nothing. */
    constructor Own(p: Pool, got: Option<nat>)
      requires got.Some? ==> got.value in p.out
      ensures Valid() && pool == p && ptr == got
    {
      pool, ptr := p, got;
    }

    /** Takes over what `other` owns. */
    constructor Move(other: PoolHandle)
      requires other.Valid()
      modifies other
      ensures Valid() && pool == old(other.pool) && ptr == old(other.ptr)
      ensures other.Valid() && other.pool == null && other.ptr.None?
    {
      pool, ptr := other.pool, other.ptr;
      new;
      other.pool, other.ptr := null, None;
    }

    /** Gives the slot back, if there is one. */
    method Reset()
      requires Valid()
      modifies this, pool
      ensures Valid() && ptr.None? && pool == if old(ptr).Some? then null else old(pool)
      ensures var p := old(pool);
              p != null ==> if old(ptr).None? then p.out == old(p.out) && p.released == old(p.released)
                            else p.out == old(p.out) - {old(ptr).value}
                                 && p.released == old(p.released) + [old(ptr).value]
    {
      if ptr.Some? && pool != null {
        pool.Release(ptr.value);
        ptr := None;
        pool := null;
      }
    }

    /** Move assignment: gives back what this handle owned and takes over what `other` owned; a
        handle assigned to itself keeps its slot. Two handles never own one slot. */
    method Assign(other: PoolHandle)
      requires Valid() && other.Valid()
      requires other != this && pool == other.pool && ptr.Some? ==> ptr != other.ptr
      modifies this, other, pool
      ensures Valid() && other.Valid()
      ensures pool == old(other.pool) && ptr == old(other.ptr)
      ensures other != this ==> other.pool == null && other.ptr.None?
      ensures var p := old(pool);
              p != null ==> if other == this || old(ptr).None? then p.out == old(p.out) && p.released == old(p.released)
                            else p.out == old(p.out) - {old(ptr).value}
                                 && p.released == old(p.released) + [old(ptr).value]
    {
      if this != other {
        Reset();
        pool := other.pool;
        ptr := other.ptr;
        other.pool := null;
        other.ptr := None;
      }
    }
  }

  /* ---- every life of every handle ---- */

  /** A slot of a pool. */
  type Slot = (nat, nat)

  /** What each live handle owns, and the histories of both ends. */
  datatype State = State(handles: map<nat, Option<Slot>>, acquired: seq<Slot>, released: seq<Slot>)

  datatype Op =
    | Acquire(h: nat, got: Option<Slot>)  // a pool that is exhausted gives nothing
    | MoveConstruct(h: nat, from: nat)
    | MoveAssign(h: nat, from: nat)
    | Reset(h: nat)
    | Destroy(h: nat)

  const INIT := State(map[], [], [])

  /** A name is constructed once, used while it lives, and destroyed once. Nothing is asked of what
      a pool hands out. */
  predicate Enabled(s: State, op: Op) {
    match op
    case Acquire(h, _) => h !in s.handles
    case MoveConstruct(h, from) => h !in s.handles && from in s.handles
    case MoveAssign(h, from) => h in s.handles && from in s.handles
    case Reset(h) => h in s.handles
    case Destroy(h) => h in s.handles
  }

  /** Handle `h` gives back what it owns. */
  function Release(s: State, h: nat): State
    requires h in s.handles
  {
    match s.handles[h]
    case None => s
    case Some(slot) => State(s.handles[h := None], s.acquired, s.released + [slot])
  }

  /** Handle `h`, which owns nothing, takes over what `from` owns. */
  function Move(s: State, h: nat, from: nat): State
    requires from in s.handles
  {
    s.(handles := s.handles[h := s.handles[from]][from := None])
  }

  function Drop(s: State, h: nat): State {
    s.(handles := s.handles - {h})
  }

  function Apply(s: State, op: Op): State
    requires Enabled(s, op)
  {
    match op
    case Acquire(h, None) => s.(handles := s.handles[h := None])
    case Acquire(h, Some(slot)) => s.(handles := s.handles[h := Some(slot)], acquired := s.acquired + [slot])
    case MoveConstruct(h, from) => Move(s, h, from)
    case MoveAssign(h, from) => if h == from then s else Move(Release(s, h), h, from)
    case Reset(h) => Release(s, h)
    case Destroy(h) => Drop(Release(s, h), h)
  }

  predicate IsRun(s: State, ops: seq<Op>)
    decreases |ops|
  {
    ops == [] || (Enabled(s, ops[0]) && IsRun(Apply(s, ops[0]), ops[1..]))
  }

  function Run(s: State, ops: seq<Op>): State
    requires IsRun(s, ops)
    decreases |ops|
  {
    if ops == [] then s else Run(Apply(s, ops[0]), ops[1..])
  }

  function Owners(s: State, slot: Slot): set<nat> {
    set h | h in s.handles && s.handles[h] == Some(slot)
  }

  /** Each slot has been released as often as it was acquired, less the handles that own it. */
  ghost predicate Inv(s: State) {
    forall slot :: multiset(s.acquired)[slot] == multiset(s.released)[slot] + |Owners(s, slot)|
  }

  lemma ReleaseOwners(s: State, h: nat, slot: Slot)
    requires h in s.handles
    ensures Owners(Release(s, h), slot) == Owners(s, slot) - {h}
  {
  }

  lemma ReleaseInv(s: State, h: nat)
    requires Inv(s) && h in s.handles
    ensures Inv(Release(s, h))
  {
    var s' := Release(s, h);
    forall slot ensures multiset(s'.acquired)[slot] == multiset(s'.released)[slot] + |Owners(s', slot)| {
      ReleaseOwners(s, h, slot);
      assert h in Owners(s, slot) <==> s.handles[h] == Some(slot);
    }
  }

  lemma SwapMember(owners: set<nat>, swapped: set<nat>, h: nat, from: nat)
    requires h !in owners && from in owners && swapped == owners - {from} + {h}
    ensures |swapped| == |owners|
  {
  }

  /** Moving passes the slot on. */
  lemma MoveOwners(s: State, h: nat, from: nat, slot: Slot)
    requires from in s.handles && h != from && (h in s.handles ==> s.handles[h] == None)
    ensures |Owners(Move(s, h, from), slot)| == |Owners(s, slot)|
  {
    var owners, moved := Owners(s, slot), Owners(Move(s, h, from), slot);
    if s.handles[from] == Some(slot) {
      forall k ensures k in moved <==> k in owners - {from} + {h} {
      }
      SwapMember(owners, moved, h, from);
    } else {
      forall k ensures k in moved <==> k in owners {
      }
      assert moved == owners;
    }
  }

  lemma MoveInv(s: State, h: nat, from: nat)
    requires Inv(s) && from in s.handles && h != from && (h in s.handles ==> s.handles[h] == None)
    ensures Inv(Move(s, h, from))
  {
    forall slot ensures |Owners(Move(s, h, from), slot)| == |Owners(s, slot)| {
      MoveOwners(s, h, from, slot);
    }
  }

  lemma DropOwners(s: State, h: nat, slot: Slot)
    requires h in s.handles && s.handles[h] == None
    ensures Owners(Drop(s, h), slot) == Owners(s, slot)
  {
  }

  lemma DropInv(s: State, h: nat)
    requires Inv(s) && h in s.handles && s.handles[h] == None
    ensures Inv(Drop(s, h))
  {
    forall slot ensures |Owners(Drop(s, h), slot)| == |Owners(s, slot)| {
      DropOwners(s, h, slot);
    }
  }

  lemma NothingOwners(s: State, h: nat, slot: Slot)
    requires h !in s.handles
    ensures Owners(Apply(s, Acquire(h, None)), slot) == Owners(s, slot)
  {
  }

  lemma NothingInv(s: State, h: nat)
    requires Inv(s) && h !in s.handles
    ensures Inv(Apply(s, Acquire(h, None)))
  {
    forall slot ensures |Owners(Apply(s, Acquire(h, None)), slot)| == |Owners(s, slot)| {
      NothingOwners(s, h, slot);
    }
  }

  lemma AcquireOwners(s: State, h: nat, got: Slot, slot: Slot)
    requires h !in s.handles
    ensures Owners(Apply(s, Acquire(h, Some(got))), slot) ==
            if slot == got then Owners(s, slot) + {h} else Owners(s, slot)
    ensures h !in Owners(s, slot)
  {
  }

  lemma AcquireInv(s: State, h: nat, got: Slot)
    requires Inv(s) && h !in s.handles
    ensures Inv(Apply(s, Acquire(h, Some(got))))
  {
    var s' := Apply(s, Acquire(h, Some(got)));
    forall slot ensures multiset(s'.acquired)[slot] == multiset(s'.released)[slot] + |Owners(s', slot)| {
      AcquireOwners(s, h, got, slot);
    }
  }

  lemma StepInv(s: State, op: Op)
    requires Inv(s) && Enabled(s, op)
    ensures Inv(Apply(s, op))
  {
    match op
    case Acquire(h, None) => NothingInv(s, h);
    case Acquire(h, Some(slot)) => AcquireInv(s, h, slot);
    case MoveConstruct(h, from) => MoveInv(s, h, from);
    case MoveAssign(h, from) =>
      if h != from {
        ReleaseInv(s, h);
        MoveInv(Release(s, h), h, from);
      }
    case Reset(h) => ReleaseInv(s, h);
    case Destroy(h) =>
      ReleaseInv(s, h);
      DropInv(Release(s, h), h);
  }

  lemma {:induction false} RunInv(s: State, ops: seq<Op>)
    requires Inv(s) && IsRun(s, ops)
    ensures Inv(Run(s, ops))
    decreases |ops|
  {
    if ops != [] {
      StepInv(s, ops[0]);
      RunInv(Apply(s, ops[0]), ops[1..]);
    }
  }

  /** Linearity: over every sequence of operations, self-moves included, and whatever a pool hands
      out, each slot has been released as often as it was acquired, less once for each handle that
      owns it; so once no handle is alive, exactly as often. */
  lemma Linearity(ops: seq<Op>)
    requires IsRun(INIT, ops)
    ensures var s := Run(INIT, ops);
            && (forall slot :: multiset(s.acquired)[slot] == multiset(s.released)[slot] + |Owners(s, slot)|)
            && (s.handles == map[] ==> multiset(s.released) == multiset(s.acquired))
  {
    RunInv(INIT, ops);
    var s := Run(INIT, ops);
    if s.handles == map[] {
      forall slot ensures Owners(s, slot) == {} {
      }
    }
  }

  /* ---- one owner at a time ---- */

  ghost predicate Exclusive(s: State) {
    forall slot :: |Owners(s, slot)| <= 1
  }

  ghost predicate AlwaysExclusive(s: State, ops: seq<Op>)
    requires IsRun(s, ops)
    decreases |ops|
  {
    Exclusive(s) && (ops != [] ==> AlwaysExclusive(Apply(s, ops[0]), ops[1..]))
  }

  /** What the operation gets from a pool, no handle owns. */
  predicate GetsFree(s: State, op: Op) {
    op.Acquire? && op.got.Some? ==> Owners(s, op.got.value) == {}
  }

  predicate AlwaysGetsFree(s: State, ops: seq<Op>)
    requires IsRun(s, ops)
    decreases |ops|
  {
    ops != [] ==> GetsFree(s, ops[0]) && AlwaysGetsFree(Apply(s, ops[0]), ops[1..])
  }

  /** Nothing but an acquisition gives a slot one more owner. */
  lemma NoNewOwners(s: State, op: Op, slot: Slot)
    requires Enabled(s, op) && !(op.Acquire? && op.got.Some?)
    ensures |Owners(Apply(s, op), slot)| <= |Owners(s, slot)|
  {
    match op
    case Acquire(h, None) => NothingOwners(s, h, slot);
    case MoveConstruct(h, from) => MoveOwners(s, h, from, slot);
    case MoveAssign(h, from) =>
      if h != from {
        ReleaseOwners(s, h, slot);
        MoveOwners(Release(s, h), h, from, slot);
      }
    case Reset(h) => ReleaseOwners(s, h, slot);
    case Destroy(h) =>
      ReleaseOwners(s, h, slot);
      DropOwners(Release(s, h), h, slot);
  }

  lemma AcquireExclusive(s: State, h: nat, got: Slot)
    requires Exclusive(s) && h !in s.handles
    ensures Exclusive(Apply(s, Acquire(h, Some(got)))) <==> Owners(s, got) == {}
  {
    var s' := Apply(s, Acquire(h, Some(got)));
    AcquireOwners(s, h, got, got);
    if Owners(s, got) == {} {
      forall slot ensures |Owners(s', slot)| <= 1 {
        AcquireOwners(s, h, got, slot);
      }
    } else {
      assert |Owners(s', got)| == |Owners(s, got)| + 1;
    }
  }

  lemma StepExclusive(s: State, op: Op)
    requires Exclusive(s) && Enabled(s, op)
    ensures Exclusive(Apply(s, op)) <==> GetsFree(s, op)
  {
    if op.Acquire? && op.got.Some? {
      AcquireExclusive(s, op.h, op.got.value);
    } else {
      forall slot ensures |Owners(Apply(s, op), slot)| <= 1 {
        NoNewOwners(s, op, slot);
      }
    }
  }

  lemma {:induction false} ExclusiveRun(s: State, ops: seq<Op>)
    requires Exclusive(s) && IsRun(s, ops)
    ensures AlwaysExclusive(s, ops) <==> AlwaysGetsFree(s, ops)
    decreases |ops|
  {
    if ops != [] {
      StepExclusive(s, ops[0]);
      if GetsFree(s, ops[0]) {
        ExclusiveRun(Apply(s, ops[0]), ops[1..]);
      }
    }
  }

  /** No slot ever has two owners exactly when the pools hand out only slots that no handle owns; the
      handles themselves never share one. */
  lemma OneOwnerIff(ops: seq<Op>)
    requires IsRun(INIT, ops)
    ensures AlwaysExclusive(INIT, ops) <==> AlwaysGetsFree(INIT, ops)
  {
    assert Exclusive(INIT) by {
      forall slot ensures Owners(INIT, slot) == {} {
      }
    }
    ExclusiveRun(INIT, ops);
  }

  /** Passing a handle by value, as `publish` takes it: the argument is left empty and its slot is
      back when the call ends, whatever the call does in between. */
  lemma PassedByValue(s: State, argument: nat, parameter: nat, slot: Slot)
    requires argument in Owners(s, slot) && parameter !in s.handles
    ensures var s' := Run(s, [MoveConstruct(parameter, argument), Destroy(parameter)]);
            && IsRun(s, [MoveConstruct(parameter, argument), Destroy(parameter)])
            && s' == State(s.handles[argument := None], s.acquired, s.released + [slot])
            && Owners(s', slot) == Owners(s, slot) - {argument}
  {
    var ops := [MoveConstruct(parameter, argument), Destroy(parameter)];
    var s1 := Apply(s, ops[0]);
    var s2 := Apply(s1, ops[1]);
    assert ops[1..] == [ops[1]] && ops[1..][1..] == [];
    assert Run(s1, ops[1..]) == s2;
    assert s2.handles == s.handles[argument := None];
  }
}
