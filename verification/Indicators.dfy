/** The price and volume indicators of the signal service, over a buffer of candles. An indicator
    the data frame would leave undefined is `None`. */
module Indicators {
  import opened Extrema
  import opened Statistics
  import opened Wrappers
  import opened ZScore
  import S = Scorer

  datatype Bar = Bar(high: real, low: real, close: real, volume: real)

  datatype Params = Params(
    macdFast: nat, macdSlow: nat, macdSignal: nat, rsiPeriod: nat,
    bbPeriod: nat, bbStddev: real, volumePeriod: nat)

  /** The parameters the service ships with. */
  const SHIPPED := Params(12, 26, 9, 14, 20, 2.0, 20)

  /* ---- exponential averages ---- */

  /** The last value of an exponentially weighted mean that starts at the first sample. */
  function Ema(xs: seq<real>, alpha: real): real
    requires xs != []
  {
    var n := |xs| - 1;
    if n == 0 then xs[0] else Blend(Ema(xs[..n], alpha), xs[n], alpha)
  }

  function Blend(prev: real, x: real, alpha: real): real {
    (1.0 - alpha) * prev + alpha * x
  }

  predicate Within(xs: seq<real>, lo: real, hi: real) {
    forall i :: 0 <= i < |xs| ==> lo <= xs[i] <= hi
  }

  lemma NonNegative(a: real, b: real, p: real)
    requires a >= 0.0 && b >= 0.0 && p == a * b
    ensures p >= 0.0
  {
  }

  lemma BlendRange(prev: real, x: real, alpha: real, lo: real, hi: real)
    requires 0.0 <= alpha <= 1.0 && lo <= prev <= hi && lo <= x <= hi
    ensures lo <= Blend(prev, x, alpha) <= hi
  {
    var b := 1.0 - alpha;
    NonNegative(b, prev - lo, b * (prev - lo));
    NonNegative(b, hi - prev, b * (hi - prev));
    NonNegative(alpha, x - lo, alpha * (x - lo));
    NonNegative(alpha, hi - x, alpha * (hi - x));
  }

  /** An average stays within the range of its inputs. */
  lemma {:induction false} EmaRange(xs: seq<real>, alpha: real, lo: real, hi: real)
    requires xs != [] && 0.0 <= alpha <= 1.0 && Within(xs, lo, hi)
    ensures lo <= Ema(xs, alpha) <= hi
  {
    var n := |xs| - 1;
    if n > 0 {
      EmaRange(xs[..n], alpha, lo, hi);
      BlendRange(Ema(xs[..n], alpha), xs[n], alpha, lo, hi);
    }
  }

  function Line(x: real, c: real, d: real): real { c * x + d }

  function Affine(xs: seq<real>, c: real, d: real): (ys: seq<real>)
    ensures |ys| == |xs|
  {
    seq(|xs|, i requires 0 <= i < |xs| => Line(xs[i], c, d))
  }

  lemma BlendAffine(prev: real, x: real, alpha: real, c: real, d: real)
    ensures Blend(Line(prev, c, d), Line(x, c, d), alpha) == Line(Blend(prev, x, alpha), c, d)
  {
    var b := 1.0 - alpha;
    assert b * (c * prev + d) == c * (b * prev) + b * d;
    assert alpha * (c * x + d) == c * (alpha * x) + alpha * d;
  }

  lemma {:induction false} EmaAffine(xs: seq<real>, alpha: real, c: real, d: real)
    requires xs != []
    ensures Ema(Affine(xs, c, d), alpha) == Line(Ema(xs, alpha), c, d)
  {
    var n := |xs| - 1;
    if n > 0 {
      EmaAffine(xs[..n], alpha, c, d);
      assert Affine(xs, c, d)[..n] == Affine(xs[..n], c, d);
      BlendAffine(Ema(xs[..n], alpha), xs[n], alpha, c, d);
    }
  }

  /** With all the weight on the newest sample, the mean is that sample. */
  lemma EmaLast(xs: seq<real>)
    requires xs != []
    ensures Ema(xs, 1.0) == xs[|xs| - 1]
  {
  }

  lemma {:induction false} EmaNonNegative(xs: seq<real>, alpha: real)
    requires xs != [] && 0.0 <= alpha <= 1.0 && forall i :: 0 <= i < |xs| ==> xs[i] >= 0.0
    ensures Ema(xs, alpha) >= 0.0
  {
    var n := |xs| - 1;
    if n > 0 {
      EmaNonNegative(xs[..n], alpha);
      NonNegative(1.0 - alpha, Ema(xs[..n], alpha), (1.0 - alpha) * Ema(xs[..n], alpha));
      NonNegative(alpha, xs[n], alpha * xs[n]);
    }
  }

  /** With every weight positive, a mean of non-negative samples is positive exactly when one is. */
  lemma {:induction false} EmaPositive(xs: seq<real>, alpha: real)
    requires xs != [] && 0.0 < alpha < 1.0 && forall i :: 0 <= i < |xs| ==> xs[i] >= 0.0
    ensures Ema(xs, alpha) >= 0.0
    ensures Ema(xs, alpha) > 0.0 <==> exists i :: 0 <= i < |xs| && xs[i] > 0.0
  {
    var n := |xs| - 1;
    if n > 0 {
      var rest := xs[..n];
      EmaPositive(rest, alpha);
      BlendPositive(Ema(rest, alpha), xs[n], alpha);
      if exists i :: 0 <= i < |xs| && xs[i] > 0.0 {
        var i :| 0 <= i < |xs| && xs[i] > 0.0;
        assert i < n ==> rest[i] > 0.0;
      }
      if exists i :: 0 <= i < |rest| && rest[i] > 0.0 {
        var i :| 0 <= i < |rest| && rest[i] > 0.0;
        assert xs[i] > 0.0;
      }
    }
  }

  lemma BlendPositive(prev: real, x: real, alpha: real)
    requires 0.0 < alpha < 1.0 && prev >= 0.0 && x >= 0.0
    ensures Blend(prev, x, alpha) >= 0.0
    ensures Blend(prev, x, alpha) > 0.0 <==> prev > 0.0 || x > 0.0
  {
    S.ScaleSign(prev, 1.0 - alpha, (1.0 - alpha) * prev);
    S.ScaleSign(x, alpha, alpha * x);
  }

  /* ---- MACD ---- */

  function SpanAlpha(span: nat): real { 2.0 / (span + 1) as real }

  lemma SpanAlphaRange(span: nat)
    requires span >= 1
    ensures 0.0 < SpanAlpha(span) <= 1.0
  {
  }

  /** Fast less slow average, at every point of the series. */
  function MacdLine(close: seq<real>, fast: real, slow: real): (line: seq<real>)
    ensures |line| == |close|
  {
    seq(|close|, i requires 0 <= i < |close| => Ema(close[..i + 1], fast) - Ema(close[..i + 1], slow))
  }

  function MacdHist(close: seq<real>, p: Params): Option<real> {
    if close == [] then None
    else
      var line := MacdLine(close, SpanAlpha(p.macdFast), SpanAlpha(p.macdSlow));
      Some(Hist(line, SpanAlpha(p.macdSignal)))
  }

  /** The last point of a line less its signal average. */
  function Hist(line: seq<real>, signal: real): real
    requires line != []
  {
    line[|line| - 1] - Ema(line, signal)
  }

  predicate Spans(p: Params) {
    p.macdFast >= 1 && p.macdSlow >= 1 && p.macdSignal >= 1
  }

  lemma MacdLineRange(close: seq<real>, fast: real, slow: real, lo: real, hi: real)
    requires 0.0 < fast <= 1.0 && 0.0 < slow <= 1.0 && Within(close, lo, hi)
    ensures Within(MacdLine(close, fast, slow), lo - hi, hi - lo)
  {
    forall i | 0 <= i < |close| ensures lo - hi <= MacdLine(close, fast, slow)[i] <= hi - lo {
      EmaRange(close[..i + 1], fast, lo, hi);
      EmaRange(close[..i + 1], slow, lo, hi);
    }
  }

  /** The histogram is at most twice the spread of the prices. */
  lemma MacdBound(close: seq<real>, p: Params, lo: real, hi: real)
    requires close != [] && Spans(p) && Within(close, lo, hi)
    ensures 2.0 * (lo - hi) <= MacdHist(close, p).value <= 2.0 * (hi - lo)
  {
    var fast, slow, signal := SpanAlpha(p.macdFast), SpanAlpha(p.macdSlow), SpanAlpha(p.macdSignal);
    SpanAlphaRange(p.macdFast);
    SpanAlphaRange(p.macdSlow);
    SpanAlphaRange(p.macdSignal);
    MacdLineRange(close, fast, slow, lo, hi);
    EmaRange(MacdLine(close, fast, slow), signal, lo - hi, hi - lo);
  }

  lemma LineDifference(a: real, b: real, c: real, d: real)
    ensures Line(a, c, d) - Line(b, c, d) == Line(a - b, c, 0.0)
  {
  }

  lemma MacdPointAffine(close: seq<real>, fast: real, slow: real, c: real, d: real)
    requires close != []
    ensures Ema(Affine(close, c, d), fast) - Ema(Affine(close, c, d), slow)
            == Line(Ema(close, fast) - Ema(close, slow), c, 0.0)
  {
    EmaAffine(close, fast, c, d);
    EmaAffine(close, slow, c, d);
    LineDifference(Ema(close, fast), Ema(close, slow), c, d);
  }

  lemma MacdLineAffine(close: seq<real>, fast: real, slow: real, c: real, d: real)
    ensures MacdLine(Affine(close, c, d), fast, slow) == Affine(MacdLine(close, fast, slow), c, 0.0)
  {
    var ys := Affine(close, c, d);
    forall i | 0 <= i < |close|
      ensures MacdLine(ys, fast, slow)[i] == Affine(MacdLine(close, fast, slow), c, 0.0)[i]
    {
      assert ys[..i + 1] == Affine(close[..i + 1], c, d);
      MacdPointAffine(close[..i + 1], fast, slow, c, d);
    }
  }

  lemma {:induction false} HistAffine(line: seq<real>, signal: real, c: real)
    requires line != []
    ensures Hist(Affine(line, c, 0.0), signal) == Line(Hist(line, signal), c, 0.0)
  {
    EmaAffine(line, signal, c, 0.0);
    LineDifference(line[|line| - 1], Ema(line, signal), c, 0.0);
  }

  lemma MacdAffineOf(close: seq<real>, moved: seq<real>, fast: real, slow: real, signal: real, c: real, d: real)
    requires close != [] && moved == Affine(close, c, d)
    ensures Hist(MacdLine(moved, fast, slow), signal) == Line(Hist(MacdLine(close, fast, slow), signal), c, 0.0)
  {
    MacdLineAffine(close, fast, slow, c, d);
    HistAffine(MacdLine(close, fast, slow), signal, c);
  }

  /** Shifting every price leaves the histogram alone, and scaling the prices scales it; in
      particular turning the series upside down negates it. */
  lemma MacdAffine(close: seq<real>, p: Params, c: real, d: real)
    requires close != []
    ensures MacdHist(Affine(close, c, d), p).value == Line(MacdHist(close, p).value, c, 0.0)
  {
    var fast, slow, signal := SpanAlpha(p.macdFast), SpanAlpha(p.macdSlow), SpanAlpha(p.macdSignal);
    MacdAffineOf(close, Affine(close, c, d), fast, slow, signal, c, d);
  }

  /* ---- RSI ---- */

  function Deltas(xs: seq<real>): (ds: seq<real>)
    requires xs != []
    ensures |ds| == |xs| - 1
  {
    seq(|xs| - 1, i requires 0 <= i < |xs| - 1 => xs[i + 1] - xs[i])
  }

  function Gains(ds: seq<real>): (gs: seq<real>)
    ensures |gs| == |ds|
  {
    seq(|ds|, i requires 0 <= i < |ds| => Max(0.0, ds[i]))
  }

  function Losses(ds: seq<real>): (ls: seq<real>)
    ensures |ls| == |ds|
  {
    seq(|ds|, i requires 0 <= i < |ds| => -Min(0.0, ds[i]))
  }

  /** From the average gain and loss; an average loss of zero is replaced. */
  function RsiOf(gain: real, loss: real): real
    requires gain >= 0.0 && loss >= 0.0
  {
    var divisor := if loss == 0.0 then EPSILON else loss;
    assert gain / divisor >= 0.0;
    100.0 - 100.0 / (1.0 + gain / divisor)
  }

  /** The averages start at the first difference, so a single price has none; a period of zero
      raises, which is nothing too. */
  function Rsi(close: seq<real>, period: nat): Option<real> {
    if |close| < 2 || period == 0 then None
    else
      var ds, alpha := Deltas(close), 1.0 / period as real;
      EmaNonNegative(Gains(ds), alpha);
      EmaNonNegative(Losses(ds), alpha);
      Some(RsiOf(Ema(Gains(ds), alpha), Ema(Losses(ds), alpha)))
  }

  lemma RsiAlgebra(gain: real, divisor: real, q: real, t: real)
    requires gain >= 0.0 && divisor > 0.0 && q * divisor == gain && t * (1.0 + q) == 100.0 && q >= 0.0
    ensures (100.0 - t) * (gain + divisor) == 100.0 * gain
  {
    assert t * (1.0 + q) * divisor == t * (divisor + gain);
  }

  /** RSI is the gain's share of the movement, in percent. */
  lemma RsiShare(gain: real, loss: real, divisor: real, r: real)
    requires gain >= 0.0 && loss >= 0.0 && divisor == (if loss == 0.0 then EPSILON else loss)
    requires r == RsiOf(gain, loss)
    ensures r * (gain + divisor) == 100.0 * gain
    ensures 0.0 <= r < 100.0
    ensures r == 0.0 <==> gain == 0.0
    ensures r >= 50.0 <==> gain >= divisor
  {
    var q := gain / divisor;
    var t := 100.0 / (1.0 + q);
    DivideBack(gain, divisor);
    DivideBack(100.0, 1.0 + q);
    RsiAlgebra(gain, divisor, q, t);
    ShareBounds(gain, divisor, r, gain + divisor);
  }

  lemma ShareBounds(gain: real, divisor: real, r: real, total: real)
    requires gain >= 0.0 && divisor > 0.0 && total == gain + divisor && r * total == 100.0 * gain
    ensures 0.0 <= r < 100.0
    ensures r == 0.0 <==> gain == 0.0
    ensures r >= 50.0 <==> gain >= divisor
  {
    S.ScaleSign(r, total, r * total);
    assert (100.0 - r) * total == 100.0 * divisor;
    S.ScaleSign(100.0 - r, total, (100.0 - r) * total);
    assert (r - 50.0) * total == 50.0 * (gain - divisor);
    S.ScaleSign(r - 50.0, total, (r - 50.0) * total);
  }

  predicate Rises(close: seq<real>) { exists i :: 0 <= i < |close| - 1 && close[i] < close[i + 1] }

  predicate Falls(close: seq<real>) { exists i :: 0 <= i < |close| - 1 && close[i] > close[i + 1] }

  /** The prices an average of this period weighs: with a period of one, the last move alone. */
  function Weighed(close: seq<real>, period: nat): (recent: seq<real>)
    requires |close| >= 2
    ensures |recent| >= 2
  {
    if period == 1 then close[|close| - 2..] else close
  }

  lemma GainPositive(close: seq<real>, alpha: real)
    requires |close| >= 2 && 0.0 < alpha < 1.0
    ensures Ema(Gains(Deltas(close)), alpha) >= 0.0
    ensures Ema(Gains(Deltas(close)), alpha) > 0.0 <==> Rises(close)
  {
    var ds := Deltas(close);
    EmaPositive(Gains(ds), alpha);
    if Rises(close) {
      var i :| 0 <= i < |close| - 1 && close[i] < close[i + 1];
      assert Gains(ds)[i] > 0.0;
    }
  }

  lemma LossPositive(close: seq<real>, alpha: real)
    requires |close| >= 2 && 0.0 < alpha < 1.0
    ensures Ema(Losses(Deltas(close)), alpha) >= 0.0
    ensures Ema(Losses(Deltas(close)), alpha) > 0.0 <==> Falls(close)
  {
    var ds := Deltas(close);
    EmaPositive(Losses(ds), alpha);
    if Falls(close) {
      var i :| 0 <= i < |close| - 1 && close[i] > close[i + 1];
      assert Losses(ds)[i] > 0.0;
    }
  }

  lemma LastMove(close: seq<real>)
    requires |close| >= 2
    ensures var ds, recent := Deltas(close), close[|close| - 2..];
            && (Ema(Gains(ds), 1.0) > 0.0 <==> Rises(recent))
            && (Ema(Losses(ds), 1.0) > 0.0 <==> Falls(recent))
  {
    var ds, n := Deltas(close), |close|;
    EmaLast(Gains(ds));
    EmaLast(Losses(ds));
    assert close[n - 2..] == [close[n - 2], close[n - 1]];
    assert ds[n - 2] == close[n - 1] - close[n - 2];
    assert ds[n - 2] > 0.0 ==> close[n - 2..][0] < close[n - 2..][1];
    assert ds[n - 2] < 0.0 ==> close[n - 2..][0] > close[n - 2..][1];
  }

  lemma AveragesOf(close: seq<real>, period: nat, alpha: real)
    requires |close| >= 2 && period >= 1 && alpha == 1.0 / period as real
    ensures var g, l := Ema(Gains(Deltas(close)), alpha), Ema(Losses(Deltas(close)), alpha);
            && g >= 0.0 && l >= 0.0
            && (g > 0.0 <==> Rises(Weighed(close, period))) && (l > 0.0 <==> Falls(Weighed(close, period)))
  {
    if period == 1 {
      EmaNonNegative(Gains(Deltas(close)), alpha);
      EmaNonNegative(Losses(Deltas(close)), alpha);
      LastMove(close);
    } else {
      GainPositive(close, alpha);
      LossPositive(close, alpha);
    }
  }

  /** RSI lies in [0, 100), and is 0 exactly when no price it weighs rose, so a series that never
      moves counts as wholly bearish. */
  lemma RsiRange(close: seq<real>, period: nat)
    requires period >= 1 && |close| >= 2
    ensures 0.0 <= Rsi(close, period).value < 100.0
    ensures Rsi(close, period).value == 0.0 <==> !Rises(Weighed(close, period))
  {
    var ds, alpha := Deltas(close), 1.0 / period as real;
    AveragesOf(close, period, alpha);
    var g, l := Ema(Gains(ds), alpha), Ema(Losses(ds), alpha);
    RsiShare(g, l, if l == 0.0 then EPSILON else l, RsiOf(g, l));
  }

  lemma MirrorShares(g: real, l: real, r: real, r': real)
    requires g >= 0.0 && l >= 0.0 && r == RsiOf(g, l) && r' == RsiOf(l, g)
    ensures r' == 100.0 - r <==> g > 0.0 && l > 0.0
  {
    RsiShare(g, l, if l == 0.0 then EPSILON else l, r);
    RsiShare(l, g, if g == 0.0 then EPSILON else g, r');
    if g > 0.0 && l > 0.0 {
      assert (r + r' - 100.0) * (g + l) == 0.0;
      Cancel(r + r' - 100.0, 0.0, g + l);
    }
  }

  lemma MirrorMoves(close: seq<real>, d: real)
    requires close != []
    ensures Gains(Deltas(Affine(close, -1.0, d))) == Losses(Deltas(close))
    ensures Losses(Deltas(Affine(close, -1.0, d))) == Gains(Deltas(close))
  {
    var ds, ys := Deltas(close), Affine(close, -1.0, d);
    forall i | 0 <= i < |ds|
      ensures Gains(Deltas(ys))[i] == Losses(ds)[i] && Losses(Deltas(ys))[i] == Gains(ds)[i]
    {
      assert ys[i] == Line(close[i], -1.0, d) && ys[i + 1] == Line(close[i + 1], -1.0, d);
    }
  }

  /** Turning the prices upside down takes RSI to 100 less RSI exactly when the prices it weighs both
      rose and fell, which one move never does: the replacement of a zero average loss breaks the
      symmetry otherwise. */
  lemma RsiMirrorIff(close: seq<real>, period: nat, d: real)
    requires period >= 1 && |close| >= 2
    ensures Rsi(Affine(close, -1.0, d), period).value == 100.0 - Rsi(close, period).value
            <==> period > 1 && Rises(close) && Falls(close)
  {
    var ds, alpha := Deltas(close), 1.0 / period as real;
    MirrorMoves(close, d);
    AveragesOf(close, period, alpha);
    var g, l := Ema(Gains(ds), alpha), Ema(Losses(ds), alpha);
    MirrorShares(g, l, RsiOf(g, l), RsiOf(l, g));
  }

  /* ---- Bollinger bands ---- */

  function PercentB(x: real, mean: real, std: real, k: real): real {
    var lower, range := mean - k * std, (mean + k * std) - (mean - k * std);
    if range <= EPSILON then 0.5 else (x - lower) / range
  }

  /** Nothing before the window is full, or when it holds a single sample. */
  function BbPercentB(sqrt: real -> real, close: seq<real>, period: nat, k: real): Option<real> {
    if |close| < period || period < 2 then None
    else
      var xs := Window(close, period);
      Some(PercentB(xs[|xs| - 1], Mean(xs), sqrt(Variance(xs)), k))
  }

  lemma PercentBAlgebra(x: real, mean: real, std: real, k: real, h: real, z: real, u: real)
    requires k > 0.0 && h == k * std && h > 0.0 && z * std == x - mean && u * (2.0 * h) == x - mean + h
    ensures 2.0 * k * (u - 0.5) == z
  {
    assert (2.0 * u - 1.0) * h == x - mean;
    assert (2.0 * u - 1.0) * h == ((2.0 * u - 1.0) * k) * std;
    S.ScaleSign(std, k, h);
    Cancel((2.0 * u - 1.0) * k, z, std);
  }

  /** Outside the degenerate case, %B is the z-score of the last close in units of the band. */
  lemma PercentBIsZ(x: real, mean: real, std: real, k: real, z: real)
    requires k > 0.0 && 2.0 * (k * std) > EPSILON && std > 0.0 && z == (x - mean) / std
    ensures 2.0 * k * (PercentB(x, mean, std, k) - 0.5) == z
  {
    var h := k * std;
    DivideBack(x - mean, std);
    DivideBack(x - mean + h, 2.0 * h);
    assert PercentB(x, mean, std, k) == (x - mean + h) / (2.0 * h);
    PercentBAlgebra(x, mean, std, k, h, z, PercentB(x, mean, std, k));
  }

  lemma VoteAlgebra(u: real, k: real, z: real)
    requires k > 0.0 && 2.0 * k * (u - 0.5) == z
    ensures (u - 0.5) * 2.0 == z / k
  {
    DivideBack(z, k);
    assert ((u - 0.5) * 2.0) * k == z;
    Cancel((u - 0.5) * 2.0, z / k, k);
  }

  lemma PositiveDeviation(sqrt: real -> real, xs: seq<real>, k: real, std: real)
    requires IsSqrt(sqrt) && k > 0.0 && std == sqrt(Variance(xs)) && 2.0 * (k * std) > EPSILON
    ensures std > 0.0
  {
    VarianceNonNegative(xs);
    S.ScaleSign(std, k, k * std);
  }

  /** The Bollinger vote is the last close's z-score over the band's width, clipped; with the
      z-score itself under Samuelson's ceiling. A degenerate band votes zero. */
  lemma BollingerVote(sqrt: real -> real, close: seq<real>, period: nat, k: real,
                      xs: seq<real>, std: real, z: real, n: real)
    requires IsSqrt(sqrt) && 2 <= period <= |close| && k > 0.0
    requires xs == Window(close, period) && std == sqrt(Variance(xs)) && n == period as real
    requires z == if 2.0 * (k * std) > 0.000000001 then (close[|close| - 1] - Mean(xs)) / std else 0.0
    ensures S.Clip((BbPercentB(sqrt, close, period, k).value - 0.5) * 2.0, -1.0, 1.0) == S.Clip(z / k, -1.0, 1.0)
    ensures n * (z * z) <= (n - 1.0) * (n - 1.0)
  {
    var x, mean := close[|close| - 1], Mean(xs);
    assert xs[|xs| - 1] == x && |xs| == period;
    if 2.0 * (k * std) > EPSILON {
      PositiveDeviation(sqrt, xs, k, std);
      PercentBIsZ(x, mean, std, k, z);
      VoteAlgebra(PercentB(x, mean, std, k), k, z);
      ZCeiling(sqrt, xs, n, n - 1.0, x - mean, std, z);
    } else {
      Square(n - 1.0);
    }
  }

  lemma ZCeiling(sqrt: real -> real, xs: seq<real>, n: real, k: real, d: real, std: real, z: real)
    requires IsSqrt(sqrt) && |xs| >= 2 && n == |xs| as real && k == n - 1.0
    requires d == xs[|xs| - 1] - Mean(xs) && std == sqrt(Variance(xs)) && std > 0.0 && z == d / std
    ensures n * (z * z) <= k * k
  {
    NewestDistance(xs, n, k, d, M2(xs));
    VarianceNonNegative(xs);
    DivideBack(M2(xs), k);
    CeilingFrom(n, k, d, M2(xs), std, Variance(xs), z);
  }

  /* ---- VWAP ---- */

  function Typical(b: Bar): real { (b.high + b.low + b.close) / 3.0 }

  function TotalVolume(bars: seq<Bar>): real {
    if bars == [] then 0.0 else bars[0].volume + TotalVolume(bars[1..])
  }

  function Turnover(bars: seq<Bar>): real {
    if bars == [] then 0.0 else Typical(bars[0]) * bars[0].volume + Turnover(bars[1..])
  }

  function Vwap(bars: seq<Bar>): real {
    var volume := TotalVolume(bars);
    Turnover(bars) / (if volume == 0.0 then EPSILON else volume)
  }

  function VwapDeviationPct(bars: seq<Bar>): Option<real> {
    if bars == [] then None
    else
      var vwap := Vwap(bars);
      if vwap <= EPSILON then Some(0.0)
      else Some((bars[|bars| - 1].close - vwap) / vwap * 100.0)
  }

  /** Every bar trades between `lo` and `hi`, in a volume that is not negative. */
  predicate Trading(bars: seq<Bar>, lo: real, hi: real) {
    forall i :: 0 <= i < |bars| ==>
      lo <= bars[i].low <= bars[i].close <= bars[i].high <= hi && bars[i].volume >= 0.0
  }

  lemma WeighBar(t: real, v: real, lo: real, hi: real, p: real, vol: real, turnover: real)
    requires lo <= t <= hi && v >= 0.0 && p == t * v && lo * vol <= turnover <= hi * vol
    ensures lo * (v + vol) <= p + turnover <= hi * (v + vol)
  {
    NonNegative(t - lo, v, (t - lo) * v);
    NonNegative(hi - t, v, (hi - t) * v);
  }

  lemma TypicalRange(b: Bar, lo: real, hi: real)
    requires lo <= b.low <= b.close <= b.high <= hi
    ensures lo <= Typical(b) <= hi
  {
  }

  lemma UnfoldBars(bars: seq<Bar>, rest: seq<Bar>, t: real, v: real, p: real)
    requires bars != [] && rest == bars[1..] && t == Typical(bars[0]) && v == bars[0].volume && p == t * v
    ensures TotalVolume(bars) == v + TotalVolume(rest)
    ensures Turnover(bars) == p + Turnover(rest)
  {
  }

  lemma {:induction false} TurnoverRange(bars: seq<Bar>, lo: real, hi: real, vol: real, turnover: real)
    requires Trading(bars, lo, hi) && vol == TotalVolume(bars) && turnover == Turnover(bars)
    ensures lo * vol <= turnover <= hi * vol
    decreases |bars|
  {
    if bars != [] {
      var rest, t, v := bars[1..], Typical(bars[0]), bars[0].volume;
      TypicalRange(bars[0], lo, hi);
      TurnoverRange(rest, lo, hi, TotalVolume(rest), Turnover(rest));
      UnfoldBars(bars, rest, t, v, t * v);
      WeighBar(t, v, lo, hi, t * v, TotalVolume(rest), Turnover(rest));
    }
  }

  lemma QuotientRange(turnover: real, volume: real, lo: real, hi: real, q: real)
    requires volume > 0.0 && q == turnover / volume && lo * volume <= turnover <= hi * volume
    ensures lo <= q <= hi
  {
    DivideBack(turnover, volume);
    CancelFactor(lo, q, volume);
    CancelFactor(q, hi, volume);
  }

  lemma DeviationAlgebra(x: real, v: real, lo: real, hi: real, q: real)
    requires 0.0 < lo <= v <= hi && lo <= x <= hi && q * v == x - v
    ensures lo - hi <= q * lo <= hi - lo
    ensures q > 0.0 <==> x > v
  {
    S.ScaleSign(q, v, x - v);
    if q >= 0.0 {
      NonNegative(q, v - lo, q * (v - lo));
    } else {
      NonNegative(-q, v - lo, (-q) * (v - lo));
    }
  }

  lemma DeviationRange(bars: seq<Bar>, v: real, x: real, lo: real, hi: real)
    requires bars != [] && v == Vwap(bars) && x == bars[|bars| - 1].close
    requires EPSILON < lo <= v <= hi && lo <= x <= hi
    ensures var dev := VwapDeviationPct(bars).value;
            100.0 * (lo - hi) <= dev * lo <= 100.0 * (hi - lo) && (dev > 0.0 <==> x > v)
  {
    var q := (x - v) / v;
    DivideBack(x - v, v);
    DeviationAlgebra(x, v, lo, hi, q);
    assert (q * 100.0) * lo == 100.0 * (q * lo);
  }

  lemma VwapInRange(bars: seq<Bar>, lo: real, hi: real)
    requires Trading(bars, lo, hi) && TotalVolume(bars) > 0.0
    ensures lo <= Vwap(bars) <= hi
  {
    var vol, turnover := TotalVolume(bars), Turnover(bars);
    TurnoverRange(bars, lo, hi, vol, turnover);
    QuotientRange(turnover, vol, lo, hi, turnover / vol);
  }

  lemma LastClose(bars: seq<Bar>, lo: real, hi: real, x: real)
    requires bars != [] && Trading(bars, lo, hi) && x == bars[|bars| - 1].close
    ensures lo <= x <= hi
  {
  }

  /** When anything traded, VWAP lies within the range of the prices; so its deviation has the sign
      of the last close against it, and is at most the spread over the lowest price. */
  lemma VwapRange(bars: seq<Bar>, lo: real, hi: real)
    requires bars != [] && Trading(bars, lo, hi) && TotalVolume(bars) > 0.0
    ensures lo <= Vwap(bars) <= hi
    ensures lo > 0.000000001 ==>
              var dev := VwapDeviationPct(bars).value;
              && 100.0 * (lo - hi) <= dev * lo <= 100.0 * (hi - lo)
              && (dev > 0.0 <==> bars[|bars| - 1].close > Vwap(bars))
  {
    var v, x := Vwap(bars), bars[|bars| - 1].close;
    VwapInRange(bars, lo, hi);
    LastClose(bars, lo, hi, x);
    if lo > EPSILON {
      DeviationRange(bars, v, x, lo, hi);
    }
  }

  /* ---- volume ---- */

  /** The last `period` samples; a slice from minus zero is the whole series. */
  function VolumeWindow(volume: seq<real>, period: nat): seq<real> {
    if period == 0 then volume else Window(volume, period)
  }

  /** Nothing before there are two samples. */
  function VolumeZScore(sqrt: real -> real, volume: seq<real>, period: nat): Option<real> {
    var window := VolumeWindow(volume, period);
    if |window| < 2 then None else Some(Score(sqrt, window))
  }

  lemma SquaresCross(n: real, m: real, a: real, b: real)
    requires 1.0 <= n <= m && a == (n - 1.0) * (n - 1.0) && b == (m - 1.0) * (m - 1.0)
    ensures m * a <= n * b
  {
    var p := m * n;
    NonNegative(m - 1.0, n, (m - 1.0) * n);
    assert p >= 1.0;
    NonNegative(m - n, p - 1.0, (m - n) * (p - 1.0));
    assert a == n * n - 2.0 * n + 1.0 && b == m * m - 2.0 * m + 1.0;
    assert n * b - m * a == (m - n) * (p - 1.0);
  }

  lemma CrossCancel(n: real, m: real, a: real, b: real, t2: real)
    requires n > 0.0 && m > 0.0 && n * t2 <= a && m * a <= n * b
    ensures m * t2 <= b
  {
    NonNegative(m, a - n * t2, m * (a - n * t2));
    assert (m * t2) * n == m * (n * t2);
    CancelFactor(m * t2, b, n);
  }

  /** (n-1)^2 / n grows with n. */
  lemma CeilingGrows(n: real, m: real, t2: real)
    requires 1.0 <= n <= m && n * t2 <= (n - 1.0) * (n - 1.0)
    ensures m * t2 <= (m - 1.0) * (m - 1.0)
  {
    var a, b := (n - 1.0) * (n - 1.0), (m - 1.0) * (m - 1.0);
    SquaresCross(n, m, a, b);
    CrossCancel(n, m, a, b, t2);
  }

  lemma SameSize(z: real, size: real)
    requires size == z || size == -z
    ensures size * size == z * z
  {
  }

  lemma CappedSize(n: real, m: real, size: real, t: real)
    requires 1.0 <= m <= n && t > 0.0 && m * (size * size) <= (m - 1.0) * (m - 1.0)
    requires n * (t * t) > (n - 1.0) * (n - 1.0)
    ensures size < t
  {
    if size >= t {
      CeilingBelow(m, m - 1.0, size, t);
      CeilingGrows(m, n, t * t);
    }
  }

  /** The volume z-score never gets as far from zero as a cap `t` with n t^2 > (n-1)^2 for the
      window's length n. */
  lemma VolumeCeiling(sqrt: real -> real, volume: seq<real>, period: nat, n: real, t: real)
    requires IsSqrt(sqrt) && |volume| >= 2 && period != 1
    requires n == (if period == 0 then |volume| else period) as real
    requires t > 0.0 && n * (t * t) > (n - 1.0) * (n - 1.0)
    ensures VolumeZScore(sqrt, volume, period).Some?
    ensures -t < VolumeZScore(sqrt, volume, period).value < t
  {
    var xs := VolumeWindow(volume, period);
    var z, m := Score(sqrt, xs), |xs| as real;
    Ceiling(sqrt, xs, m, m - 1.0, z);
    CappedSize(n, m, z, t);
    SameSize(z, -z);
    CappedSize(n, m, -z, t);
  }

  /** These volumes get the whole boost. */
  ghost predicate FullyBoosted(sqrt: real -> real, volume: seq<real>, period: nat, c: S.Config) {
    && VolumeZScore(sqrt, volume, period).Some?
    && S.VolumeBoost(VolumeZScore(sqrt, volume, period).value, c) == 1.0 + c.volumeBoostWeight
  }

  lemma FullyBoostedIff(sqrt: real -> real, volume: seq<real>, period: nat, c: S.Config)
    requires c.volumeZScoreCap > 0.0 && c.volumeBoostWeight > 0.0 && VolumeZScore(sqrt, volume, period).Some?
    ensures FullyBoosted(sqrt, volume, period, c)
            <==> VolumeZScore(sqrt, volume, period).value >= c.volumeZScoreCap
  {
    S.BoostBounds(VolumeZScore(sqrt, volume, period).value, c);
  }

  /** A window of this length reaches the cap. */
  lemma BoostReached(sqrt: real -> real, c: S.Config, period: nat, window: nat, n: real, t: real)
    requires IsSqrt(sqrt) && window >= 2 && n == window as real && (period == 0 || period == window)
    requires t == c.volumeZScoreCap > 0.0 && c.volumeBoostWeight > 0.0 && n * (t * t) <= (n - 1.0) * (n - 1.0)
    ensures exists volume :: FullyBoosted(sqrt, volume, period, c)
  {
    ReachableThreshold(sqrt, window, n, n - 1.0, t);
    var xs :| |xs| == window && Score(sqrt, xs) >= t;
    assert VolumeWindow(xs, period) == xs;
    FullyBoostedIff(sqrt, xs, period, c);
  }

  /** Long enough series reach any cap. */
  lemma LongEnough(n: real, t2: real)
    requires n >= 2.0 && t2 <= n - 2.0
    ensures n * t2 <= (n - 1.0) * (n - 1.0)
  {
    NonNegative(n, n - 2.0 - t2, n * (n - 2.0 - t2));
    assert (n - 1.0) * (n - 1.0) == n * (n - 2.0) + 1.0;
  }

  /** Some volumes get the whole boost exactly when the period is 0, which takes in any number of
      samples, or n cap^2 <= (n-1)^2. */
  lemma FullBoostIff(sqrt: real -> real, c: S.Config, period: nat, n: real, t: real)
    requires IsSqrt(sqrt) && n == period as real
    requires t == c.volumeZScoreCap > 0.0 && c.volumeBoostWeight > 0.0
    ensures (exists volume :: FullyBoosted(sqrt, volume, period, c))
            <==> period == 0 || n * (t * t) <= (n - 1.0) * (n - 1.0)
  {
    PositiveProduct(t, t, t * t);
    if period == 0 {
      var window := (t * t).Floor + 3;
      LongEnough(window as real, t * t);
      BoostReached(sqrt, c, period, window, window as real, t);
    } else if n * (t * t) <= (n - 1.0) * (n - 1.0) {
      BoostReached(sqrt, c, period, period, n, t);
    } else {
      forall volume ensures !FullyBoosted(sqrt, volume, period, c) {
        if VolumeZScore(sqrt, volume, period).Some? {
          FullyBoostedIff(sqrt, volume, period, c);
          VolumeCeiling(sqrt, volume, period, n, t);
        }
      }
    }
  }

  /* ---- the whole buffer ---- */

  function Closes(bars: seq<Bar>): (xs: seq<real>)
    ensures |xs| == |bars|
  {
    seq(|bars|, i requires 0 <= i < |bars| => bars[i].close)
  }

  function Volumes(bars: seq<Bar>): (xs: seq<real>)
    ensures |xs| == |bars|
  {
    seq(|bars|, i requires 0 <= i < |bars| => bars[i].volume)
  }

  function ComputeAll(sqrt: real -> real, bars: seq<Bar>, p: Params): Option<S.Indicators> {
    var close := Closes(bars);
    match (MacdHist(close, p), Rsi(close, p.rsiPeriod), BbPercentB(sqrt, close, p.bbPeriod, p.bbStddev),
           VwapDeviationPct(bars), VolumeZScore(sqrt, Volumes(bars), p.volumePeriod))
    case (Some(macd), Some(rsi), Some(bb), Some(vwap), Some(z)) => Some(S.Indicators(macd, rsi, bb, vwap, z))
    case _ => None
  }

  lemma AllIndicators(sqrt: real -> real, bars: seq<Bar>)
    requires IsSqrt(sqrt) && |bars| >= 30
    ensures var i := ComputeAll(sqrt, bars, SHIPPED);
            i.Some? && 0.0 <= i.value.rsi < 100.0 && -5.0 < i.value.volumeZScore < 5.0
  {
    RsiRange(Closes(bars), 14);
    VolumeCeiling(sqrt, Volumes(bars), 20, 20.0, 5.0);
  }

  lemma ShippedScore(exp: real -> real, i: S.Indicators)
    requires S.IsExp(exp) && i.volumeZScore < 5.0
    ensures var score := S.ScoreIndicators(exp, i, S.SHIPPED);
            score.Some? && S.Bounded(score.value, S.SHIPPED) && score.value.volumeBoost < 1.5
  {
    S.Bounds(exp, i, S.SHIPPED);
    S.BoostBounds(i.volumeZScore, S.SHIPPED);
  }

  /** As shipped, every buffer long enough to be scored has all its indicators, a score that is
      defined and in range, and a boost strictly below the 1.5 that is said to be its maximum. */
  lemma EveryScoredBuffer(sqrt: real -> real, exp: real -> real, bars: seq<Bar>)
    requires IsSqrt(sqrt) && S.IsExp(exp) && |bars| >= 30
    ensures ComputeAll(sqrt, bars, SHIPPED).Some?
    ensures var i := ComputeAll(sqrt, bars, SHIPPED).value;
            && S.ScoreIndicators(exp, i, S.SHIPPED).Some?
            && 0.0 <= i.rsi < 100.0 && -5.0 < i.volumeZScore < 5.0
            && S.Bounded(S.ScoreIndicators(exp, i, S.SHIPPED).value, S.SHIPPED)
            && S.ScoreIndicators(exp, i, S.SHIPPED).value.volumeBoost < 1.5
  {
    AllIndicators(sqrt, bars);
    ShippedScore(exp, ComputeAll(sqrt, bars, SHIPPED).value);
  }
}
