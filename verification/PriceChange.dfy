/** The percentage change of a price against the one evicted from a ring of the last prices. */
module PriceChange {
  import opened Modular

  /** Prices up to this are not divided by. */
  const EPSILON := 0.000000001

  /** The price `back` pushes before the newest, or the ring's initial zero. */
  function PriceBefore(prices: seq<real>, back: nat): real {
    if back < |prices| then prices[|prices| - 1 - back] else 0.0
  }

  /** What the newest push returns: the change against the price `window` pushes earlier. */
  function Change(prices: seq<real>, window: nat): real
    requires prices != []
  {
    var oldest, price := PriceBefore(prices, window), prices[|prices| - 1];
    if |prices| < window then 0.0
    else if oldest > EPSILON then (price - oldest) / oldest * 100.0
    else 0.0
  }

  /** The change against the oldest of the last `window` prices, the newest among them. */
  function ChangeInWindow(prices: seq<real>, window: nat): real
    requires prices != [] && window > 0
  {
    var oldest, price := PriceBefore(prices, window - 1), prices[|prices| - 1];
    if |prices| < window then 0.0
    else if oldest > EPSILON then (price - oldest) / oldest * 100.0
    else 0.0
  }

  class PriceChangeTracker {
    const window: nat
    const buffer: array<real>
    var head: nat
    ghost var history: seq<real>

    ghost predicate Valid()
      reads this, buffer
    {
      && window >= 2 && buffer.Length == window && head == |history|
      && (forall k: nat :: |history| - window <= k < |history| ==> buffer[k % window] == history[k])
      && (forall i :: |history| <= i < window ==> buffer[i] == 0.0)
    }

    constructor (window: nat)
      requires window >= 2
      ensures Valid() && fresh(buffer) && this.window == window && history == []
    {
      this.window := window;
      buffer := new real[window](_ => 0.0);
      head := 0;
      history := [];
    }

    /** Stores a price and returns its change against the price it replaces. */
    method Push(price: real) returns (pct: real)
      requires Valid()
      modifies this, buffer
      ensures Valid() && history == old(history) + [price]
      ensures pct == Change(history, window)
      ensures |history| <= window ==> pct == 0.0
      ensures |history| > window ==>
                var evicted := old(history)[|old(history)| - window];
                if evicted > 0.000000001 then pct * evicted == (price - evicted) * 100.0 else pct == 0.0
    {
      var idx := head % window;
      RingFacts(head, window);
      var oldest := buffer[idx];
      assert oldest == PriceBefore(history + [price], window);
      buffer[idx] := price;
      history := history + [price];
      head := head + 1;
      if head < window {
        pct := 0.0;
      } else {
        pct := if oldest > EPSILON then (price - oldest) / oldest * 100.0 else 0.0;
        if oldest > EPSILON {
          RatioOf(price, oldest, pct + 100.0);
        }
      }
    }

    method Reset()
      requires Valid()
      modifies this, buffer
      ensures Valid() && history == []
    {
      head := 0;
      forall i | 0 <= i < buffer.Length {
        buffer[i] := 0.0;
      }
      history := [];
    }
  }

  /** Where position `n` falls in a ring, against the positions of the lap before it. */
  lemma RingFacts(n: nat, window: nat)
    requires window > 0
    ensures n < window ==> n % window == n
    ensures n >= window ==> (n - window) % window == n % window
    ensures forall k: nat :: n - window < k < n ==> k % window != n % window
  {
    if n < window {
      ModuloUnique(n, window, 0, n);
    } else {
      ModuloOfOneLap(n - window, n, window);
    }
    forall k: nat | n - window < k < n ensures k % window != n % window {
      ModuloOfOneLap(k, n, window);
    }
  }

  /** The tracker lags its own warm-up by one push: the push that fills the ring still compares
      against the initial zero, so no change is seen before push number window + 1. */
  lemma NoChangeYet(prices: seq<real>, window: nat)
    requires prices != [] && |prices| <= window
    ensures Change(prices, window) == 0.0
  {
  }

  /** `x` is the new price in percent of the old one. */
  lemma RatioOf(price: real, oldest: real, x: real)
    requires oldest > 0.0 && x == (price - oldest) / oldest * 100.0 + 100.0
    ensures x * oldest == price * 100.0
  {
    var r := (price - oldest) / oldest;
    assert r * oldest == price - oldest;
    assert x * oldest == 100.0 * (r * oldest) + 100.0 * oldest;
  }

  lemma CancelFactor(r: real, a: real, b: real)
    requires r * a == r * b
    ensures r == 0.0 || a == b
  {
    assert r * (a - b) == 0.0;
  }

  /** Equal percentages of two prices. */
  lemma SamePercentIff(p: real, a: real, b: real, x: real, y: real)
    requires a > 0.0 && b > 0.0 && x * a == p && y * b == p
    ensures x == y <==> a == b || p == 0.0
  {
    if x == y {
      CancelFactor(x, a, b);
    } else if a == b {
      CancelFactor(a, x, y);
    } else if p == 0.0 {
      CancelFactor(a, x, 0.0);
      CancelFactor(b, y, 0.0);
    }
  }

  /** Against two positive prices the change is the same exactly when they are equal or the new
      price is zero. */
  lemma SameChangeIff(price: real, a: real, b: real)
    requires a > 0.0 && b > 0.0
    ensures (price - a) / a * 100.0 == (price - b) / b * 100.0 <==> a == b || price == 0.0
  {
    var x, y := (price - a) / a * 100.0 + 100.0, (price - b) / b * 100.0 + 100.0;
    RatioOf(price, a, x);
    RatioOf(price, b, y);
    SamePercentIff(price * 100.0, a, b, x, y);
  }

  lemma NoChangeIff(price: real, a: real)
    requires a > 0.0
    ensures (price - a) / a * 100.0 == 0.0 <==> price == a
  {
    RatioOf(price, a, (price - a) / a * 100.0 + 100.0);
  }

  /** What is returned is the change from the oldest price of the window that ends with the new one
      exactly when there is no full window yet, or the two old prices are equal, or the new price is
      zero; and where one of them is too small to divide by, when the other sees no change. */
  lemma InWindowIff(prices: seq<real>, window: nat)
    requires prices != [] && window > 0
    ensures var evicted, oldest, price :=
              PriceBefore(prices, window), PriceBefore(prices, window - 1), prices[|prices| - 1];
            Change(prices, window) == ChangeInWindow(prices, window) <==>
            |prices| < window ||
            (if evicted > EPSILON && oldest > EPSILON then evicted == oldest || price == 0.0
             else (evicted > EPSILON ==> price == evicted) && (oldest > EPSILON ==> price == oldest))
  {
    var evicted, oldest, price := PriceBefore(prices, window), PriceBefore(prices, window - 1), prices[|prices| - 1];
    if evicted > EPSILON && oldest > EPSILON {
      SameChangeIff(price, evicted, oldest);
    } else if evicted > EPSILON {
      NoChangeIff(price, evicted);
    } else if oldest > EPSILON {
      NoChangeIff(price, oldest);
    }
  }

  /** A window of two that has seen 1, 2 and 4: up 300% on the price evicted, 100% on the oldest one
      left in the window. */
  lemma EvictedIsNotOldest()
    ensures Change([1.0, 2.0, 4.0], 2) == 300.0 && ChangeInWindow([1.0, 2.0, 4.0], 2) == 100.0
  {
  }
}
