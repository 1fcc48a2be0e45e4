/** The sliding-window z-score: an O(1) evict-and-insert update on a ring, proved equal to
    recomputing mean and standard deviation over the true window. Reals stand for doubles, and
    the square root is a parameter. */
module ZScore {
  import opened Modular
  import opened Statistics

  ghost predicate IsSqrt(sqrt: real -> real) {
    forall v :: v >= 0.0 ==> sqrt(v) >= 0.0 && sqrt(v) * sqrt(v) == v
  }

  /** Standard deviations up to this are treated as zero. */
  const EPSILON := 0.000000001

  function Standardized(x: real, mean: real, stddev: real): real {
    if stddev > EPSILON then (x - mean) / stddev else 0.0
  }

  /** The last `window` samples of a history, or all of it while it is shorter. */
  function Window(history: seq<real>, window: nat): seq<real> {
    if |history| <= window then history else history[|history| - window..]
  }

  lemma WindowSlides(history: seq<real>, x: real, window: nat)
    requires window > 0 && |history| >= window
    ensures Window(history, window) != [] && Window(history, window)[0] == history[|history| - window]
    ensures Window(history + [x], window) == Window(history, window)[1..] + [x]
  {
  }

  lemma WindowLast(history: seq<real>, window: nat)
    requires window > 0 && history != []
    ensures var xs := Window(history, window); xs != [] && xs[|xs| - 1] == history[|history| - 1]
  {
  }

  /** The z-score of the newest sample of a window, by recomputation. */
  function Score(sqrt: real -> real, xs: seq<real>): real
    requires xs != []
  {
    Standardized(xs[|xs| - 1], Mean(xs), sqrt(Variance(xs)))
  }

  lemma ScoreOf(sqrt: real -> real, xs: seq<real>, x: real, m: real, s: real)
    requires xs != [] && x == xs[|xs| - 1] && m == Mean(xs) && s == sqrt(Variance(xs))
    ensures Score(sqrt, xs) == Standardized(x, m, s)
  {
  }

  /** A quotient has the sign of its dividend. */
  lemma QuotientSign(d: real, s: real, z: real)
    requires s > 0.0 && z == d / s
    ensures z * s == d && (z > 0.0 <==> d > 0.0) && (z < 0.0 <==> d < 0.0)
  {
    DivideBack(d, s);
  }

  /** The distance from the mean is the z-score times the standard deviation; a window that hardly
      varies has none. */
  lemma ScoreMeasures(sqrt: real -> real, xs: seq<real>, x: real, m: real, s: real, z: real)
    requires xs != [] && x == xs[|xs| - 1] && m == Mean(xs) && s == sqrt(Variance(xs)) && z == Score(sqrt, xs)
    ensures if s > 0.000000001 then z * s == x - m else z == 0.0
    ensures s > 0.000000001 ==> (z > 0.0 <==> x > m) && (z < 0.0 <==> x < m)
  {
    if s > 0.000000001 {
      QuotientSign(x - m, s, z);
    }
  }

  lemma NewestMeasures(sqrt: real -> real, xs: seq<real>, x: real, z: real) returns (m: real, s: real)
    requires xs != [] && x == xs[|xs| - 1] && z == Score(sqrt, xs)
    ensures m == Mean(xs) && s == sqrt(Variance(xs))
    ensures if s > 0.000000001 then z * s == x - m else z == 0.0
    ensures s > 0.000000001 ==> (z > 0.0 <==> x > m) && (z < 0.0 <==> x < m)
  {
    m, s := Mean(xs), sqrt(Variance(xs));
    ScoreMeasures(sqrt, xs, x, m, s, z);
  }

  /** Every sample on the other side of `c / 2`. */
  function Reflect(xs: seq<real>, c: real): (ys: seq<real>)
    ensures |ys| == |xs| && forall i :: 0 <= i < |xs| ==> ys[i] == c - xs[i]
  {
    if xs == [] then [] else [c - xs[0]] + Reflect(xs[1..], c)
  }

  lemma ReflectAlgebra(x: real, c: real, n: real, m: real, t: real, t': real, s: real, s': real)
    requires t' == (n - 1.0) * c - t && s == x + t && s' == c - x + t'
    ensures s' == n * c - s
  {
    assert (n - 1.0) * c == n * c - c;
  }

  lemma ReflectOne(xs: seq<real>, ys: seq<real>, x: real, rest: seq<real>, rest': seq<real>, c: real, n: real, m: real)
    requires xs != [] && x == xs[0] && rest == xs[1..] && ys != [] && ys[0] == c - x && rest' == ys[1..]
    requires Sum(rest') == (n - 1.0) * c - Sum(rest)
    requires SquaredDeviations(rest', c - m) == SquaredDeviations(rest, m)
    ensures Sum(ys) == n * c - Sum(xs) && SquaredDeviations(ys, c - m) == SquaredDeviations(xs, m)
  {
    UnfoldAt(xs, x, rest, m, (x - m) * (x - m));
    SameSquare(c - x - (c - m), x - m);
    UnfoldAt(ys, c - x, rest', c - m, (x - m) * (x - m));
    ReflectAlgebra(x, c, n, m, Sum(rest), Sum(rest'), Sum(xs), Sum(ys));
  }

  lemma SameSquare(a: real, b: real)
    requires a == -b
    ensures a * a == b * b
  {
  }

  lemma {:induction false} ReflectSums(xs: seq<real>, c: real, n: real, m: real)
    requires n == |xs| as real
    ensures Sum(Reflect(xs, c)) == n * c - Sum(xs)
    ensures SquaredDeviations(Reflect(xs, c), c - m) == SquaredDeviations(xs, m)
  {
    if xs != [] {
      var x, rest := xs[0], xs[1..];
      ReflectSums(rest, c, n - 1.0, m);
      assert Reflect(xs, c)[1..] == Reflect(rest, c);
      ReflectOne(xs, Reflect(xs, c), x, rest, Reflect(rest, c), c, n, m);
    }
  }

  /** The reflection's mean is the mean's reflection, and it varies as much. */
  lemma ReflectMoments(xs: seq<real>, c: real, n: real, m: real)
    requires xs != [] && n == |xs| as real && m == Mean(xs)
    ensures Mean(Reflect(xs, c)) == c - m && Variance(Reflect(xs, c)) == Variance(xs)
  {
    MeanIsMean(xs);
    ReflectSums(xs, c, n, m);
    assert (c - m) * n == n * c - m * n;
    MeanUnique(Reflect(xs, c), n, c - m);
  }

  lemma NegatedQuotient(d: real, s: real)
    requires s > 0.0
    ensures (-d) / s == -(d / s)
  {
  }

  /** A sample as far below the mean as another is above it has the opposite z-score. */
  lemma ReflectionNegates(sqrt: real -> real, xs: seq<real>, c: real)
    requires xs != []
    ensures Score(sqrt, Reflect(xs, c)) == -Score(sqrt, xs)
  {
    var x, m, s := xs[|xs| - 1], Mean(xs), sqrt(Variance(xs));
    ReflectMoments(xs, c, |xs| as real, m);
    ScoreOf(sqrt, xs, x, m, s);
    ScoreOf(sqrt, Reflect(xs, c), c - x, c - m, s);
    if s > EPSILON {
      NegatedQuotient(x - m, s);
    }
  }

  lemma VarianceNonNegative(xs: seq<real>)
    ensures Variance(xs) >= 0.0
  {
    SquaredDeviationsNonNegative(xs, Mean(xs));
  }

  /** `m` and `v` are the mean and the squared deviations of `xs`. */
  ghost predicate Moments(xs: seq<real>, m: real, v: real) {
    && IsMean(xs, |xs| as real, m)
    && SquaredDeviations(xs, m) == v
    && (xs == [] ==> m == 0.0)
  }

  lemma MomentsUnique(xs: seq<real>, m: real, v: real)
    requires Moments(xs, m, v)
    ensures m == Mean(xs) && v == M2(xs) && v >= 0.0
  {
    if xs != [] {
      MeanUnique(xs, |xs| as real, m);
    }
    SquaredDeviationsNonNegative(xs, m);
  }

  lemma SlideMoments(xs: seq<real>, ys: seq<real>, x: real, y: real, m: real, m': real, v: real, v': real)
    requires xs != [] && ys == xs[1..] + [x] && y == xs[0] && Moments(xs, m, v)
    requires m' == m + (x - y) / |xs| as real
    requires v' == v + (x - y) * ((x - m') + (y - m))
    ensures Moments(ys, m', v')
  {
    var n := |xs| as real;
    DivideBack(x - y, n);
    Slide(xs, ys, x, y, n, m, m');
  }

  lemma GrowMoments(xs: seq<real>, ys: seq<real>, x: real, m: real, m': real, v: real, v': real)
    requires ys == xs + [x] && Moments(xs, m, v)
    requires m' == m + (x - m) / |ys| as real
    requires v' == v + (x - m) * (x - m')
    ensures Moments(ys, m', v')
  {
    var n := |xs| as real;
    DivideBack(x - m, |ys| as real);
    Grow(xs, ys, x, n, |ys| as real, m, m');
  }

  class ZScoreCalculator {
    const window: nat
    const sqrt: real -> real
    const buffer: array<real>
    var mean: real
    var m2: real
    var count: nat
    ghost var history: seq<real>  // every sample since construction or the last reset

    ghost predicate Ring()
      reads this, buffer
    {
      && window >= 2 && buffer.Length == window && count == |history|
      && (forall k: nat :: |history| - window <= k < |history| ==> buffer[k % window] == history[k])
    }

    /** The ring holds the window, and the running moments are the window's. */
    ghost predicate Valid()
      reads this, buffer
    {
      Ring() && Moments(Window(history, window), mean, m2) && IsSqrt(sqrt)
    }

    constructor (window: nat, sqrt: real -> real)
      requires window >= 2 && IsSqrt(sqrt)
      ensures Valid() && fresh(buffer)
      ensures this.window == window && this.sqrt == sqrt && history == []
    {
      this.window := window;
      this.sqrt := sqrt;
      buffer := new real[window](_ => 0.0);
      mean, m2, count := 0.0, 0.0, 0;
      history := [];
    }

    /** Replaces the oldest sample of a full ring. */
    method Evict(volume: real)
      requires Valid() && count >= window
      modifies this, buffer
      ensures Valid() && history == old(history) + [volume]
    {
      var idx := count % window;
      ModuloOfOneLap(count - window, count, window);
      var oldVal := buffer[idx];
      ghost var xs := Window(history, window);
      WindowSlides(history, volume, window);
      var newMean := mean + (volume - oldVal) / window as real;
      var newM2 := m2 + (volume - oldVal) * ((volume - newMean) + (oldVal - mean));
      SlideMoments(xs, xs[1..] + [volume], volume, oldVal, mean, newMean, m2, newM2);
      m2, mean, count := newM2, newMean, count + 1;
      Insert(idx, volume);
    }

    /** Adds a sample to a ring that is not yet full. */
    method WarmUp(volume: real)
      requires Valid() && count < window
      modifies this, buffer
      ensures Valid() && history == old(history) + [volume]
    {
      var idx := count % window;
      ghost var m, v, xs := mean, m2, history;
      count := count + 1;
      var delta := volume - mean;
      mean := mean + delta / count as real;
      var delta2 := volume - mean;
      m2 := m2 + delta * delta2;
      GrowMoments(xs, xs + [volume], volume, m, mean, v, m2);
      Insert(idx, volume);
      assert Window(history, window) == xs + [volume];
    }

    /** The store of a sample whose count has already been taken. */
    method Insert(idx: nat, volume: real)
      requires window >= 2 && buffer.Length == window && count == |history| + 1
      requires idx == |history| % window
      requires forall k: nat :: |history| - window <= k < |history| ==> buffer[k % window] == history[k]
      modifies this`history, buffer
      ensures Ring() && history == old(history) + [volume]
    {
      forall k: nat | |history| - window < k < |history| ensures k % window != idx {
        ModuloOfOneLap(k, |history|, window);
      }
      buffer[idx] := volume;
      history := history + [volume];
    }

    /** `stddev()`: the square root of the window's sample variance. */
    method Stddev() returns (s: real)
      requires Valid()
      ensures s == sqrt(Variance(Window(history, window)))
    {
      ghost var xs := Window(history, window);
      MomentsUnique(xs, mean, m2);
      VarianceNonNegative(xs);
      var variance := if count > 1 then m2 / ((if count < window then count else window) - 1) as real else 0.0;
      s := sqrt(variance);
    }

    /** `mean()`: the window's mean. */
    method GetMean() returns (m: real)
      requires Valid()
      ensures m == Mean(Window(history, window))
    {
      MomentsUnique(Window(history, window), mean, m2);
      m := mean;
    }

    /** The newest sample's z-score. */
    method Latest(volume: real, ghost xs: seq<real>) returns (z: real)
      requires Valid() && xs == Window(history, window)
      requires xs != [] && xs[|xs| - 1] == volume
      ensures z == Score(sqrt, xs)
    {
      var stddev := Stddev();
      var m := GetMean();
      z := Standardized(volume, m, stddev);
      ScoreOf(sqrt, xs, volume, m, stddev);
    }

    /** The update, and the newest sample's z-score. */
    method Take(volume: real) returns (z: real)
      requires Valid()
      modifies this, buffer
      ensures Valid() && history == old(history) + [volume]
      ensures z == Score(sqrt, Window(history, window))
    {
      if count >= window {
        Evict(volume);
      } else {
        WarmUp(volume);
      }
      WindowLast(history, window);
      z := Latest(volume, Window(history, window));
    }

    /** Takes in a sample and returns its z-score within the window it has just entered: its distance
        from the window's mean `m`, with its sign, in standard deviations `s`. */
    method Push(volume: real) returns (z: real, ghost m: real, ghost s: real)
      requires Valid()
      modifies this, buffer
      ensures Valid() && history == old(history) + [volume]
      ensures z == Score(sqrt, Window(history, window))
      ensures m == Mean(Window(history, window)) && s == sqrt(Variance(Window(history, window)))
      ensures if s > 0.000000001 then z * s == volume - m else z == 0.0
      ensures s > 0.000000001 ==> (z > 0.0 <==> volume > m) && (z < 0.0 <==> volume < m)
    {
      z := Take(volume);
      WindowLast(history, window);
      m, s := NewestMeasures(sqrt, Window(history, window), volume, z);
    }

    function WarmedUp(): (b: bool)
      requires Valid()
      reads this, buffer
      ensures b <==> |Window(history, window)| == window
    {
      count >= window
    }

    method Reset()
      requires Valid()
      modifies this, buffer
      ensures Valid() && history == []
    {
      mean, m2, count := 0.0, 0.0, 0;
      forall i | 0 <= i < buffer.Length {
        buffer[i] := 0.0;
      }
      history := [];
    }
  }

  /* ---- the ceiling ---- */

  lemma QuotientSquare(d: real, s: real, z: real)
    requires s > 0.0 && z == d / s
    ensures z * s == d
    ensures (z * z) * (s * s) == d * d
  {
    DivideBack(d, s);
    assert (z * z) * (s * s) == (z * s) * (z * s);
  }

  lemma PositiveProduct(a: real, b: real, p: real)
    requires a > 0.0 && b > 0.0 && p == a * b
    ensures p > 0.0
  {
  }

  lemma CancelFactor(a: real, b: real, s: real)
    requires s > 0.0 && a * s <= b * s
    ensures a <= b
  {
    assert (b - a) * s >= 0.0;
  }

  lemma CeilingAlgebra(n: real, k: real, w: real, d2: real, v: real, s2: real)
    requires k > 0.0 && s2 > 0.0 && s2 * k == v && w * s2 == d2 && n * d2 <= k * v
    ensures n * w <= k * k
  {
    assert n * d2 == (n * w) * s2;
    assert k * v == (k * k) * s2;
    CancelFactor(n * w, k * k, s2);
  }

  lemma NewestDistance(xs: seq<real>, n: real, k: real, d: real, v: real)
    requires |xs| >= 2 && n == |xs| as real && k == n - 1.0
    requires d == xs[|xs| - 1] - Mean(xs) && v == M2(xs)
    ensures n * (d * d) <= k * v
  {
    var ys, x, m := xs[..|xs| - 1], xs[|xs| - 1], Mean(xs);
    assert xs == ys + [x];
    MeanIsMean(xs);
    Samuelson(xs, ys, x, k, n, m, d, v);
  }

  lemma CeilingFrom(n: real, k: real, d: real, v: real, s: real, s2: real, z: real)
    requires k > 0.0 && s > 0.0 && s2 == s * s && s2 * k == v
    requires z == d / s && n * (d * d) <= k * v
    ensures n * (z * z) <= k * k
  {
    PositiveProduct(s, s, s2);
    QuotientSquare(d, s, z);
    CeilingAlgebra(n, k, z * z, d * d, v, s2);
  }

  /** The z-score of a sample within its own window of `n`: its square is at most (n-1)^2 / n. */
  lemma Ceiling(sqrt: real -> real, xs: seq<real>, n: real, k: real, z: real)
    requires IsSqrt(sqrt) && |xs| >= 2 && n == |xs| as real && k == n - 1.0
    requires z == Score(sqrt, xs)
    ensures n * (z * z) <= k * k
  {
    if z == 0.0 {
      Square(k);
    } else {
      CeilingOf(sqrt, xs, n, k, z, xs[|xs| - 1] - Mean(xs), M2(xs), Variance(xs));
    }
  }

  lemma CeilingOf(sqrt: real -> real, xs: seq<real>, n: real, k: real, z: real, d: real, v: real, s2: real)
    requires IsSqrt(sqrt) && |xs| >= 2 && n == |xs| as real && k == n - 1.0
    requires d == xs[|xs| - 1] - Mean(xs) && v == M2(xs) && s2 == Variance(xs)
    requires sqrt(s2) > EPSILON && z == d / sqrt(s2)
    ensures n * (z * z) <= k * k
  {
    NewestDistance(xs, n, k, d, v);
    VarianceNonNegative(xs);
    DivideBack(v, k);
    CeilingFrom(n, k, d, v, sqrt(s2), s2, z);
  }

  /* ---- which thresholds are within reach ---- */

  function Zeros(n: nat): (xs: seq<real>)
    ensures |xs| == n && Sum(xs) == 0.0 && SquaredDeviations(xs, 1.0) == n as real
  {
    if n == 0 then [] else [0.0] + Zeros(n - 1)
  }

  /** The most lopsided window: all zeros but the newest sample. */
  function Spike(window: nat): seq<real>
    requires window >= 2
  {
    Zeros(window - 1) + [window as real]
  }

  lemma SpikeMoments(window: nat, n: real, k: real)
    requires window >= 2 && n == window as real && k == n - 1.0
    ensures |Spike(window)| == window
    ensures Mean(Spike(window)) == 1.0
    ensures M2(Spike(window)) == n * k
    ensures Variance(Spike(window)) == n
  {
    var ys, xs := Zeros(window - 1), Spike(window);
    LastSums(xs, ys, n, 1.0);
    assert IsMean(xs, n, 1.0);
    MeanUnique(xs, n, 1.0);
    assert SquaredDeviations(xs, 1.0) == k + k * k == n * k;
    DivideBack(n * k, k);
    Cancel(n * k / k, n, k);
  }

  lemma SquareOrder(a: real, b: real)
    requires a >= 0.0 && b >= 0.0
    ensures a * a <= b * b <==> a <= b
  {
    assert a * a - b * b == (a - b) * (a + b);
    if a > b {
      PositiveProduct(a - b, a + b, (a - b) * (a + b));
    } else {
      assert (b - a) * (a + b) >= 0.0;
    }
  }

  lemma ScaleOrder(z: real, t: real, s: real, zs: real, ts: real)
    requires s > 0.0 && zs == z * s && ts == t * s
    ensures z >= t <==> zs >= ts
  {
    assert (z - t) * s == zs - ts;
    if zs >= ts {
      CancelFactor(t, z, s);
    }
  }

  lemma SquareOfProduct(t: real, s: real, p: real, n: real)
    requires p == t * s && n == s * s
    ensures p * p == n * (t * t)
  {
  }

  lemma ThresholdAlgebra(n: real, k: real, s: real, z: real, t: real, p: real)
    requires k >= 0.0 && s > 0.0 && s * s == n && z == k / s && t > 0.0 && p == t * s
    ensures z >= t <==> n * (t * t) <= k * k
  {
    DivideBack(k, s);
    PositiveProduct(t, s, p);
    ScaleOrder(z, t, s, k, p);
    SquareOrder(p, k);
    SquareOfProduct(t, s, p, n);
  }

  lemma SpikeScore(sqrt: real -> real, window: nat, n: real, k: real, z: real, t: real)
    requires IsSqrt(sqrt) && window >= 2 && n == window as real && k == n - 1.0 && t > 0.0
    requires |Spike(window)| == window && z == Score(sqrt, Spike(window))
    ensures z >= t <==> n * (t * t) <= k * k
  {
    SpikeMoments(window, n, k);
    var s := sqrt(n);
    assert s > EPSILON by {
      SquareOrder(1.0, s);
    }
    ThresholdAlgebra(n, k, s, z, t, t * s);
  }

  lemma CeilingBelow(n: real, k: real, z: real, t: real)
    requires n > 0.0 && 0.0 < t <= z && n * (z * z) <= k * k
    ensures n * (t * t) <= k * k
  {
    SquareOrder(t, z);
    assert n * (z * z - t * t) >= 0.0;
  }

  /** Some full window reaches a z-score of `t` exactly when n t^2 <= (n-1)^2. */
  lemma ReachableThreshold(sqrt: real -> real, window: nat, n: real, k: real, t: real)
    requires IsSqrt(sqrt) && window >= 2 && n == window as real && k == n - 1.0 && t > 0.0
    ensures (exists xs :: |xs| == window && Score(sqrt, xs) >= t) <==> n * (t * t) <= k * k
  {
    SpikeMoments(window, n, k);
    SpikeScore(sqrt, window, n, k, Score(sqrt, Spike(window)), t);
    forall xs | |xs| == window && Score(sqrt, xs) >= t ensures n * (t * t) <= k * k {
      Ceiling(sqrt, xs, n, k, Score(sqrt, xs));
      CeilingBelow(n, k, Score(sqrt, xs), t);
    }
  }
}
