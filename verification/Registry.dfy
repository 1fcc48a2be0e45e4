/** `get_or_create_state` over its real fields: the map, and the pool it is filled from. The two
    locks make each look-up one atomic section; between the two, other callers run theirs. */
module Registry {
  import opened ObjectPool
  import opened Wrappers
  import P = PoolProtocol

  /** The tickers registered, in order, after one more is asked for. */
  function Register(order: seq<string>, key: string, size: nat): (order': seq<string>)
    ensures order <= order'
    ensures key in order' || |order'| >= size
  {
    if key in order || |order| >= size then order else order + [key]
  }

  function RegisterAll(order: seq<string>, keys: seq<string>, size: nat): (order': seq<string>)
    ensures order <= order'
  {
    if keys == [] then order
    else Register(RegisterAll(order, keys[..|keys| - 1], size), keys[|keys| - 1], size)
  }

  /** Each ticker's state is the slot of its turn. */
  ghost predicate InOrder(registry: map<string, nat>, order: seq<string>) {
    && (forall i :: 0 <= i < |order| ==> order[i] in registry && registry[order[i]] == i)
    && (forall key :: key in registry ==> registry[key] < |order| && order[registry[key]] == key)
  }

  class Registry {
    const pool: ObjectPool
    var registry: map<string, nat>
    ghost var order: seq<string>

    ghost predicate Valid()
      reads this, pool, pool.next
    {
      && pool.Valid() && pool.discipline == P.SerialAcquires && InOrder(registry, order)
      && |order| + |pool.free| == pool.size
      && (forall k :: 0 <= k < |pool.free| ==> pool.free[k] == |order| + k)
      && pool.protocol.threads == [P.Idle]
    }

    /** `size` states, and no ticker has one. */
    constructor (size: nat)
      ensures Valid() && fresh(pool) && fresh(pool.next)
      ensures pool.size == size && order == []
    {
      pool := new ObjectPool(size, 1, P.SerialAcquires);
      registry, order := map[], [];
    }

    /** The section under the shared lock. */
    method Find(key: string) returns (slot: Option<nat>)
      requires Valid()
      ensures slot.Some? <==> key in order
      ensures slot.Some? ==> slot.value < |order| && order[slot.value] == key
    {
      slot := if key in registry then Some(registry[key]) else None;
    }

    /** The section under the exclusive lock. */
    method FindOrInsert(key: string, failures: nat) returns (slot: Option<nat>)
      requires Valid()
      modifies this, pool, pool.next
      ensures Valid() && order == Register(old(order), key, pool.size)
      ensures slot.Some? <==> key in order
      ensures slot.Some? ==> slot.value < |order| && order[slot.value] == key
    {
      slot := Find(key);
      if slot.None? {
        var got, _, _, _, _ := pool.Acquire(0, failures + 1, failures);
        slot := got;
        if slot.Some? {
          registry := registry[key := slot.value];
          order := order + [key];
        }
      }
    }

    /** Other callers' exclusive sections. */
    method Others(keys: seq<string>, failures: nat)
      requires Valid()
      modifies this, pool, pool.next
      ensures Valid() && order == RegisterAll(old(order), keys, pool.size)
    {
      for i := 0 to |keys|
        invariant Valid() && order == RegisterAll(old(order), keys[..i], pool.size)
      {
        assert keys[..i + 1][..i] == keys[..i];
        var _ := FindOrInsert(keys[i], failures);
      }
      assert keys[..|keys|] == keys;
    }

    /** The state of a ticker, made on first use; nothing when every state there is belongs to
        another ticker. `others` are the tickers that other callers register between this call's
        two sections. */
    method GetOrCreateState(key: string, others: seq<string>, failures: nat) returns (slot: Option<nat>)
      requires Valid()
      modifies this, pool, pool.next
      ensures Valid() && old(order) <= order
      ensures order == if key in old(order) then old(order)
                       else Register(RegisterAll(old(order), others, pool.size), key, pool.size)
      ensures slot.Some? ==> slot.value < |order| && order[slot.value] == key
      ensures slot.None? <==> key !in order && |order| == pool.size
    {
      slot := Find(key);
      if slot.None? {
        Others(others, failures);
        slot := FindOrInsert(key, failures);
      }
    }
  }
}
