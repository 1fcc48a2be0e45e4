/** Mean and squared deviations of a sequence by recomputation, the one-pass updates that keep
    them, and the bound on how far one sample can lie from the mean. */
module Statistics {

  function Sum(xs: seq<real>): real {
    if xs == [] then 0.0 else xs[0] + Sum(xs[1..])
  }

  /** The sum of squared distances from `c`. */
  function SquaredDeviations(xs: seq<real>, c: real): real {
    if xs == [] then 0.0 else (xs[0] - c) * (xs[0] - c) + SquaredDeviations(xs[1..], c)
  }

  /** `m` is the mean of `n` samples `xs`, without dividing. */
  predicate IsMean(xs: seq<real>, n: real, m: real) {
    n == |xs| as real && m * n == Sum(xs)
  }

  function Mean(xs: seq<real>): real {
    if xs == [] then 0.0 else Sum(xs) / |xs| as real
  }

  function M2(xs: seq<real>): real {
    SquaredDeviations(xs, Mean(xs))
  }

  /** The sample variance. */
  function Variance(xs: seq<real>): real {
    if |xs| > 1 then M2(xs) / (|xs| - 1) as real else 0.0
  }

  lemma {:induction false} SumConcat(xs: seq<real>, ys: seq<real>)
    ensures Sum(xs + ys) == Sum(xs) + Sum(ys)
  {
    if xs == [] {
      assert xs + ys == ys;
    } else {
      assert (xs + ys)[1..] == xs[1..] + ys;
      SumConcat(xs[1..], ys);
    }
  }

  lemma {:induction false} SquaredDeviationsConcat(xs: seq<real>, ys: seq<real>, c: real)
    ensures SquaredDeviations(xs + ys, c) == SquaredDeviations(xs, c) + SquaredDeviations(ys, c)
  {
    if xs == [] {
      assert xs + ys == ys;
    } else {
      assert (xs + ys)[1..] == xs[1..] + ys;
      SquaredDeviationsConcat(xs[1..], ys, c);
    }
  }

  lemma OneSample(x: real, c: real)
    ensures Sum([x]) == x
    ensures SquaredDeviations([x], c) == (x - c) * (x - c)
    ensures SquaredDeviations([x], 0.0) == x * x
  {
    assert [x][1..] == [];
    ExpandSquare(x, 0.0);
  }

  lemma Square(x: real)
    ensures x * x >= 0.0
  {
  }

  lemma {:induction false} SquaredDeviationsNonNegative(xs: seq<real>, c: real)
    ensures SquaredDeviations(xs, c) >= 0.0
  {
    if xs != [] {
      Square(xs[0] - c);
      SquaredDeviationsNonNegative(xs[1..], c);
    }
  }

  lemma ExpandSquare(x: real, c: real)
    ensures (x - c) * (x - c) == x * x - 2.0 * c * x + c * c
  {
  }

  lemma Cancel(p: real, q: real, n: real)
    requires n > 0.0 && p * n == q * n
    ensures p == q
  {
    assert (p - q) * n == 0.0;
  }

  lemma DivideBack(a: real, n: real)
    requires n > 0.0
    ensures a / n * n == a
  {
  }

  lemma ExpandAlgebra(x: real, c: real, k: real, n: real,
                      s: real, q: real, d: real, s': real, q': real, d': real)
    requires d == q - 2.0 * c * s + k * (c * c) && n == k + 1.0
    requires s' == x + s && q' == x * x + q && d' == (x - c) * (x - c) + d
    ensures d' == q' - 2.0 * c * s' + n * (c * c)
  {
    ExpandSquare(x, c);
    assert n * (c * c) == k * (c * c) + c * c;
    assert 2.0 * c * s' == 2.0 * c * x + 2.0 * c * s;
  }

  lemma UnfoldAt(xs: seq<real>, x: real, rest: seq<real>, c: real, square: real)
    requires xs != [] && x == xs[0] && rest == xs[1..] && square == (x - c) * (x - c)
    ensures SquaredDeviations(xs, c) == square + SquaredDeviations(rest, c)
  {
  }

  lemma Unfold(xs: seq<real>, x: real, rest: seq<real>, c: real)
    requires xs != [] && x == xs[0] && rest == xs[1..]
    ensures Sum(xs) == x + Sum(rest)
    ensures SquaredDeviations(xs, c) == (x - c) * (x - c) + SquaredDeviations(rest, c)
    ensures SquaredDeviations(xs, 0.0) == x * x + SquaredDeviations(rest, 0.0)
  {
    ExpandSquare(x, 0.0);
    UnfoldAt(xs, x, rest, c, (x - c) * (x - c));
    UnfoldAt(xs, x, rest, 0.0, x * x);
  }

  lemma ExpandFrom(xs: seq<real>, x: real, rest: seq<real>, c: real, k: real, n: real, s: real, s': real)
    requires xs != [] && x == xs[0] && rest == xs[1..] && n == k + 1.0
    requires s == Sum(rest) && s' == Sum(xs)
    requires SquaredDeviations(rest, c) == SquaredDeviations(rest, 0.0) - 2.0 * c * s + k * (c * c)
    ensures SquaredDeviations(xs, c) == SquaredDeviations(xs, 0.0) - 2.0 * c * s' + n * (c * c)
  {
    Unfold(xs, x, rest, c);
    ExpandAlgebra(x, c, k, n, s, SquaredDeviations(rest, 0.0), SquaredDeviations(rest, c),
                  s', SquaredDeviations(xs, 0.0), SquaredDeviations(xs, c));
  }

  /** Moving the centre, in terms of the plain sum and the sum of squares. */
  lemma {:induction false} ExpandDeviations(xs: seq<real>, c: real, n: real, s: real)
    requires n == |xs| as real && s == Sum(xs)
    ensures SquaredDeviations(xs, c) == SquaredDeviations(xs, 0.0) - 2.0 * c * s + n * (c * c)
  {
    if xs != [] {
      var x, rest, s0 := xs[0], xs[1..], Sum(xs[1..]);
      ExpandDeviations(rest, c, n - 1.0, s0);
      ExpandFrom(xs, x, rest, c, n - 1.0, n, s0, s);
    }
  }

  lemma MeanIsMean(xs: seq<real>)
    ensures IsMean(xs, |xs| as real, Mean(xs))
  {
    if xs != [] {
      DivideBack(Sum(xs), |xs| as real);
    }
  }

  lemma MeanUnique(xs: seq<real>, n: real, m: real)
    requires xs != [] && IsMean(xs, n, m)
    ensures m == Mean(xs)
  {
    MeanIsMean(xs);
    Cancel(m, Mean(xs), n);
  }

  lemma ClosedAlgebra(m: real, n: real, s: real, q: real, d: real)
    requires m * n == s && d == q - 2.0 * m * s + n * (m * m)
    ensures d == q - n * (m * m)
  {
    assert m * s == n * (m * m);
  }

  /** About the mean, the squared deviations are the sum of squares less the mean's share. */
  lemma ClosedForm(xs: seq<real>, n: real, m: real)
    requires IsMean(xs, n, m)
    ensures SquaredDeviations(xs, m) == SquaredDeviations(xs, 0.0) - n * (m * m)
  {
    var s := Sum(xs);
    ExpandDeviations(xs, m, n, s);
    ClosedAlgebra(m, n, s, SquaredDeviations(xs, 0.0), SquaredDeviations(xs, m));
  }

  /* ---- Welford's updates: `y` is the evicted sample, `x` the new one ---- */

  lemma SlideSums(xs: seq<real>, ys: seq<real>, x: real, y: real)
    requires xs != [] && ys == xs[1..] + [x] && y == xs[0]
    ensures Sum(ys) == Sum(xs) + (x - y)
    ensures SquaredDeviations(ys, 0.0) == SquaredDeviations(xs, 0.0) - y * y + x * x
  {
    SumConcat(xs[1..], [x]);
    SquaredDeviationsConcat(xs[1..], [x], 0.0);
    OneSample(x, 0.0);
    Unfold(xs, y, xs[1..], 0.0);
  }

  lemma SlideAlgebra(a: real, a': real, q: real, q': real, x: real, y: real, m: real, m': real, n: real)
    requires n * (m' - m) == x - y
    requires a == q - n * (m * m) && a' == q' - n * (m' * m') && q' == q - y * y + x * x
    ensures a' == a + (x - y) * ((x - m') + (y - m))
  {
    assert n * (m' * m') - n * (m * m) == (n * (m' - m)) * (m' + m);
  }

  /** Evicting `y` for `x` moves the mean by their difference over `n`. */
  lemma SlideMean(xs: seq<real>, ys: seq<real>, x: real, y: real, n: real, m: real, m': real)
    requires xs != [] && ys == xs[1..] + [x] && y == xs[0]
    requires IsMean(xs, n, m) && n * (m' - m) == x - y
    ensures IsMean(ys, n, m')
    ensures SquaredDeviations(ys, 0.0) == SquaredDeviations(xs, 0.0) - y * y + x * x
  {
    SlideSums(xs, ys, x, y);
    assert m' * n == m * n + n * (m' - m);
  }

  lemma SlideFrom(xs: seq<real>, ys: seq<real>, x: real, y: real, n: real, m: real, m': real)
    requires IsMean(xs, n, m) && IsMean(ys, n, m') && n * (m' - m) == x - y
    requires SquaredDeviations(ys, 0.0) == SquaredDeviations(xs, 0.0) - y * y + x * x
    ensures SquaredDeviations(ys, m') == SquaredDeviations(xs, m) + (x - y) * ((x - m') + (y - m))
  {
    ClosedForm(xs, n, m);
    ClosedForm(ys, n, m');
    SlideAlgebra(SquaredDeviations(xs, m), SquaredDeviations(ys, m'),
                 SquaredDeviations(xs, 0.0), SquaredDeviations(ys, 0.0), x, y, m, m', n);
  }

  /** Evicting `y` for `x` changes the squared deviations by one reverse-and-forward term. */
  lemma Slide(xs: seq<real>, ys: seq<real>, x: real, y: real, n: real, m: real, m': real)
    requires xs != [] && ys == xs[1..] + [x] && y == xs[0]
    requires IsMean(xs, n, m) && n * (m' - m) == x - y
    ensures IsMean(ys, n, m')
    ensures SquaredDeviations(ys, m') == SquaredDeviations(xs, m) + (x - y) * ((x - m') + (y - m))
  {
    SlideMean(xs, ys, x, y, n, m, m');
    SlideFrom(xs, ys, x, y, n, m, m');
  }

  lemma GrowSums(xs: seq<real>, ys: seq<real>, x: real)
    requires ys == xs + [x]
    ensures Sum(ys) == Sum(xs) + x
    ensures SquaredDeviations(ys, 0.0) == SquaredDeviations(xs, 0.0) + x * x
  {
    SumConcat(xs, [x]);
    SquaredDeviationsConcat(xs, [x], 0.0);
    OneSample(x, 0.0);
  }

  lemma GrowAlgebra(a: real, a': real, q: real, q': real, x: real, m: real, m': real, n: real, n': real)
    requires n' == n + 1.0 && n' * (m' - m) == x - m
    requires a == q - n * (m * m) && a' == q' - n' * (m' * m') && q' == q + x * x
    ensures a' == a + (x - m) * (x - m')
  {
    assert n' * (m' * m') == (n * m + x) * m';
    assert n * (m * m) - n * m * m' == m * (n * m - n * m');
    assert n * m - n * m' == m' - x;
  }

  lemma GrowMean(xs: seq<real>, ys: seq<real>, x: real, n: real, n': real, m: real, m': real)
    requires ys == xs + [x] && n' == n + 1.0
    requires IsMean(xs, n, m) && n' * (m' - m) == x - m
    ensures IsMean(ys, n', m')
    ensures SquaredDeviations(ys, 0.0) == SquaredDeviations(xs, 0.0) + x * x
  {
    GrowSums(xs, ys, x);
    assert m' * n' == m * n + x;
  }

  lemma GrowFrom(xs: seq<real>, ys: seq<real>, x: real, n: real, n': real, m: real, m': real)
    requires IsMean(xs, n, m) && IsMean(ys, n', m') && n' == n + 1.0 && n' * (m' - m) == x - m
    requires SquaredDeviations(ys, 0.0) == SquaredDeviations(xs, 0.0) + x * x
    ensures SquaredDeviations(ys, m') == SquaredDeviations(xs, m) + (x - m) * (x - m')
  {
    ClosedForm(xs, n, m);
    ClosedForm(ys, n', m');
    GrowAlgebra(SquaredDeviations(xs, m), SquaredDeviations(ys, m'),
                SquaredDeviations(xs, 0.0), SquaredDeviations(ys, 0.0), x, m, m', n, n');
  }

  /** Adding `x` to `n` samples. */
  lemma Grow(xs: seq<real>, ys: seq<real>, x: real, n: real, n': real, m: real, m': real)
    requires ys == xs + [x] && n' == n + 1.0
    requires IsMean(xs, n, m) && n' * (m' - m) == x - m
    ensures IsMean(ys, n', m')
    ensures SquaredDeviations(ys, m') == SquaredDeviations(xs, m) + (x - m) * (x - m')
  {
    GrowMean(xs, ys, x, n, n', m, m');
    GrowFrom(xs, ys, x, n, n', m, m');
  }

  /* ---- one sample's distance from the mean ---- */

  lemma CauchyAlgebra(s: real, q: real, k: real, n: real, e: real, q': real)
    requires k >= 1.0 && n == k + 1.0 && s * s <= k * q && q' == e * e + q
    ensures (s + e) * (s + e) <= n * q'
  {
    var r := q + k * (e * e) - 2.0 * (s * e);
    Square(s - k * e);
    assert (s - k * e) * (s - k * e) == s * s - 2.0 * k * (s * e) + k * (k * (e * e));
    assert k * r >= 0.0;
    assert r >= 0.0;
    assert (s + e) * (s + e) == s * s + 2.0 * (s * e) + e * e;
    assert n * q' == k * q + q + k * (e * e) + e * e;
  }

  lemma DistanceSplit(x: real, t: real, s: real, t': real, c: real, k: real, n: real)
    requires n == k + 1.0 && t' == x + t && s == t - k * c
    ensures t' - n * c == s + (x - c)
  {
    assert n * c == k * c + c;
  }

  lemma CauchyFrom(xs: seq<real>, x: real, rest: seq<real>, c: real, k: real, n: real,
                   s: real, d: real, s': real, d': real)
    requires xs != [] && x == xs[0] && rest == xs[1..] && k >= 1.0 && n == k + 1.0
    requires d == SquaredDeviations(rest, c) && s * s <= k * d && d' == SquaredDeviations(xs, c)
    requires s' == s + (x - c)
    ensures s' * s' <= n * d'
  {
    var e := x - c;
    assert d' == e * e + d;
    CauchyAlgebra(s, d, k, n, e, d');
  }

  lemma CauchyOne(xs: seq<real>, c: real, s: real, d: real)
    requires |xs| == 1 && s == Sum(xs) - c && d == SquaredDeviations(xs, c)
    ensures s * s <= d
  {
    assert xs == [xs[0]];
    OneSample(xs[0], c);
  }

  /** The square of the summed deviations is at most their number times the sum of their squares. */
  lemma {:induction false} Cauchy(xs: seq<real>, c: real, n: real, s: real, d: real)
    requires xs != [] && n == |xs| as real && s == Sum(xs) - n * c && d == SquaredDeviations(xs, c)
    ensures s * s <= n * d
  {
    if |xs| == 1 {
      CauchyOne(xs, c, s, d);
    } else {
      var x, rest, k := xs[0], xs[1..], n - 1.0;
      var t := Sum(rest) - k * c;
      var d0 := SquaredDeviations(rest, c);
      Cauchy(rest, c, k, t, d0);
      DistanceSplit(x, Sum(rest), t, Sum(xs), c, k, n);
      CauchyFrom(xs, x, rest, c, k, n, t, d0, s, d);
    }
  }

  lemma SamuelsonAlgebra(k: real, n: real, s: real, t: real, q: real, v: real, x: real, m: real, d: real)
    requires n == k + 1.0 && m * n == s + x && t == s - k * m && t * t <= k * q
    requires d == x - m && v == q + d * d
    ensures n * (d * d) <= k * v
  {
    assert t == -d;
    assert d * d <= k * q;
    assert n * (d * d) == k * (d * d) + d * d;
    assert k * v == k * q + k * (d * d);
  }

  lemma LastSums(xs: seq<real>, ys: seq<real>, x: real, c: real)
    requires xs == ys + [x]
    ensures Sum(xs) == Sum(ys) + x
    ensures SquaredDeviations(xs, c) == SquaredDeviations(ys, c) + (x - c) * (x - c)
  {
    SumConcat(ys, [x]);
    SquaredDeviationsConcat(ys, [x], c);
    OneSample(x, c);
  }

  lemma SamuelsonTerms(xs: seq<real>, ys: seq<real>, x: real, n: real, m: real, d: real, s: real, q: real, v: real)
    requires xs == ys + [x] && IsMean(xs, n, m) && d == x - m
    requires s == Sum(ys) && q == SquaredDeviations(ys, m) && v == SquaredDeviations(xs, m)
    ensures m * n == s + x && v == q + d * d
  {
    SumConcat(ys, [x]);
    LastSquare(xs, ys, x, m, d);
    OneSample(x, m);
  }

  lemma OneSquare(x: real, m: real, d: real)
    requires d == x - m
    ensures SquaredDeviations([x], m) == d * d
  {
    OneSample(x, m);
  }

  lemma LastSquare(xs: seq<real>, ys: seq<real>, x: real, m: real, d: real)
    requires xs == ys + [x] && d == x - m
    ensures SquaredDeviations(xs, m) == SquaredDeviations(ys, m) + d * d
  {
    SquaredDeviationsConcat(ys, [x], m);
    OneSquare(x, m, d);
  }

  /** Samuelson's inequality, for the last of the samples: `d` is its distance from their mean `m`,
      `v` their squared deviations. */
  lemma Samuelson(xs: seq<real>, ys: seq<real>, x: real, k: real, n: real, m: real, d: real, v: real)
    requires xs == ys + [x] && ys != [] && k == |ys| as real && n == k + 1.0
    requires IsMean(xs, n, m) && d == x - m && v == SquaredDeviations(xs, m)
    ensures n * (d * d) <= k * v
  {
    var s, q := Sum(ys), SquaredDeviations(ys, m);
    var t := s - k * m;
    Cauchy(ys, m, k, t, q);
    SamuelsonTerms(xs, ys, x, n, m, d, s, q, v);
    SamuelsonAlgebra(k, n, s, t, q, v, x, m, d);
  }
}
