/** Bitwise AND on the naturals, and what the capacity assertion of the ring buffers buys:
    `pos & (capacity - 1)` is `pos` modulo the capacity. */
module Bits {
  import opened Modular

  function And(x: nat, y: nat): nat
    decreases x
  {
    if x == 0 || y == 0 then 0
    else (if x % 2 == 1 && y % 2 == 1 then 1 else 0) + 2 * And(x / 2, y / 2)
  }

  /** The compile-time assertion both queues make of their capacity. */
  predicate RingCapacity(capacity: nat) {
    capacity > 1 && And(capacity, capacity - 1) == 0
  }

  /** The slot a position lives in. */
  function Slot(pos: nat, capacity: nat): nat
    requires RingCapacity(capacity)
  {
    And(pos, capacity - 1)
  }

  lemma {:induction false} AndSelf(x: nat)
    ensures And(x, x) == x
  {
    if x > 0 {
      AndSelf(x / 2);
    }
  }

  lemma {:induction false} AndPowerOfTwo(x: nat, capacity: nat)
    requires capacity > 0 && And(capacity, capacity - 1) == 0
    ensures And(x, capacity - 1) == x % capacity
    decreases capacity
  {
    if capacity == 1 {
    } else if capacity % 2 == 1 {
      var half := capacity / 2;
      AndSelf(half);
      assert false;
    } else {
      var half := capacity / 2;
      assert (capacity - 1) / 2 == half - 1 && (capacity - 1) % 2 == 1;
      assert And(half, half - 1) == 0;
      AndPowerOfTwo(x / 2, half);
      HalveModulo(x, half);
    }
  }

  /** Masking a position with `capacity - 1` takes it modulo the capacity. */
  lemma SlotIsModulo(pos: nat, capacity: nat)
    requires RingCapacity(capacity)
    ensures Slot(pos, capacity) == pos % capacity < capacity
  {
    AndPowerOfTwo(pos, capacity);
  }

  lemma SlotOfFirstLap(pos: nat, capacity: nat)
    requires RingCapacity(capacity) && pos < capacity
    ensures Slot(pos, capacity) == pos
  {
    SlotIsModulo(pos, capacity);
    ModuloUnique(pos, capacity, 0, pos);
  }

  /** Positions less than one lap apart never share a slot; positions one lap apart always do. */
  lemma SlotFacts(capacity: nat)
    requires RingCapacity(capacity)
    ensures forall p: nat :: Slot(p, capacity) < capacity
    ensures forall p: nat, q: nat :: p < q < p + capacity ==> Slot(p, capacity) != Slot(q, capacity)
    ensures forall p: nat, q: nat :: q == p + capacity ==> Slot(p, capacity) == Slot(q, capacity)
  {
    forall p: nat ensures Slot(p, capacity) == p % capacity < capacity {
      SlotIsModulo(p, capacity);
    }
    forall p: nat, q: nat
      ensures p < q < p + capacity ==> Slot(p, capacity) != Slot(q, capacity)
      ensures q == p + capacity ==> Slot(p, capacity) == Slot(q, capacity)
    {
      ModuloOfOneLap(p, q, capacity);
    }
  }

  /** Stepping a masked index stays in step with the unmasked position. */
  lemma SlotStep(pos: nat, capacity: nat)
    requires RingCapacity(capacity)
    ensures Slot(Slot(pos, capacity) + 1, capacity) == Slot(pos + 1, capacity)
  {
    SlotIsModulo(pos, capacity);
    SlotIsModulo(pos + 1, capacity);
    SlotIsModulo(pos % capacity + 1, capacity);
    ModuloStep(pos, capacity);
  }

  function Pow2(k: nat): (p: nat)
    ensures p > 0
  {
    if k == 0 then 1 else 2 * Pow2(k - 1)
  }

  lemma {:induction false} CapacityDivides(capacity: nat, k: nat) returns (laps: nat)
    requires capacity > 0 && And(capacity, capacity - 1) == 0 && capacity <= Pow2(k)
    ensures Pow2(k) == capacity * laps
    decreases k
  {
    if capacity == 1 {
      laps := Pow2(k);
    } else {
      var half := capacity / 2;
      if capacity % 2 == 1 {
        AndSelf(half);
        assert false;
      }
      assert (capacity - 1) / 2 == half - 1;
      laps := CapacityDivides(half, k - 1);
      DoubleFactor(half, laps);
    }
  }

  lemma DoubleFactor(half: nat, laps: nat)
    ensures (2 * half) * laps == 2 * (half * laps)
  {
  }

  lemma PositiveFactor(m: nat, n: nat)
    requires m * n > 0
    ensures n > 0
  {
  }

  /** Unsigned subtraction of `bits`-wide words. */
  function WrapSub(x: nat, y: nat, bits: nat): nat
    requires x < Pow2(bits) && y < Pow2(bits)
  {
    if x >= y then x - y else Pow2(bits) + x - y
  }

  /** Masking the wrapped difference of two masked positions gives the distance between the
      positions, modulo a lap. */
  lemma MaskedDifference(p: nat, q: nat, capacity: nat, bits: nat)
    requires RingCapacity(capacity) && capacity <= Pow2(bits)
    ensures Slot(p, capacity) < Pow2(bits) && Slot(q, capacity) < Pow2(bits)
    ensures Slot(WrapSub(Slot(q, capacity), Slot(p, capacity), bits), capacity) == (q - p) % capacity
  {
    SlotIsModulo(p, capacity);
    SlotIsModulo(q, capacity);
    var d := WrapSub(q % capacity, p % capacity, bits);
    SlotIsModulo(d, capacity);
    var laps := CapacityDivides(capacity, bits);
    PositiveFactor(capacity, laps);
    ModuloDifference(p, q, capacity, laps);
  }
}
