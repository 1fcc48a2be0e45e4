/** What each indicator is, told without its averages: by the recurrences a spreadsheet would fill
    in, and by what a jump or a steady rise does to it. */
module IndicatorLaws {
  import opened Indicators
  import opened Statistics
  import opened Wrappers
  import opened ZScore
  import S = Scorer

  /* ---- running averages ---- */

  /** `next` is `prev` moved `a` of `b` parts of the way to `x`. */
  predicate Moves(prev: real, x: real, next: real, a: real, b: real) {
    b * next == (b - a) * prev + a * x
  }

  /** `avg` is the running average of `xs` that starts at its first sample. */
  predicate Smooths(avg: seq<real>, xs: seq<real>, a: real, b: real) {
    && |avg| == |xs| && (xs != [] ==> avg[0] == xs[0])
    && forall i :: 0 < i < |xs| ==> Moves(avg[i - 1], xs[i], avg[i], a, b)
  }

  lemma MovesIsBlend(prev: real, x: real, next: real, a: real, b: real, alpha: real)
    requires b > 0.0 && alpha * b == a && Moves(prev, x, next, a, b)
    ensures next == Blend(prev, x, alpha)
  {
    var blend := Blend(prev, x, alpha);
    assert blend * b == b * prev - (alpha * b) * prev + (alpha * b) * x;
    Cancel(next, blend, b);
  }

  lemma {:induction false} SmoothsIsEma(avg: seq<real>, xs: seq<real>, a: real, b: real, alpha: real, i: nat)
    requires Smooths(avg, xs, a, b) && b > 0.0 && alpha * b == a && i < |xs|
    ensures avg[i] == Ema(xs[..i + 1], alpha)
  {
    if i > 0 {
      SmoothsIsEma(avg, xs, a, b, alpha, i - 1);
      assert xs[..i + 1][..i] == xs[..i];
      MovesIsBlend(avg[i - 1], xs[i], avg[i], a, b, alpha);
    }
  }

  lemma LastSmoothed(avg: seq<real>, xs: seq<real>, a: real, b: real, alpha: real)
    requires Smooths(avg, xs, a, b) && b > 0.0 && alpha * b == a && xs != []
    ensures avg[|avg| - 1] == Ema(xs, alpha)
  {
    SmoothsIsEma(avg, xs, a, b, alpha, |xs| - 1);
    assert xs[..|xs|] == xs;
  }

  /* ---- MACD ---- */

  /** `line` is `fast` less `slow`, point by point. */
  predicate Differs(line: seq<real>, fast: seq<real>, slow: seq<real>) {
    |line| == |fast| == |slow| && forall i :: 0 <= i < |line| ==> line[i] == fast[i] - slow[i]
  }

  lemma SpanParts(span: nat, b: real)
    requires b == span as real + 1.0
    ensures b > 0.0 && SpanAlpha(span) == 2.0 / b && SpanAlpha(span) * b == 2.0
  {
  }

  lemma LineSmoothed(close: seq<real>, fast: nat, slow: nat, f: seq<real>, s: seq<real>, line: seq<real>)
    requires Smooths(f, close, 2.0, fast as real + 1.0) && Smooths(s, close, 2.0, slow as real + 1.0)
    requires Differs(line, f, s)
    ensures line == MacdLine(close, SpanAlpha(fast), SpanAlpha(slow))
  {
    SpanParts(fast, fast as real + 1.0);
    SpanParts(slow, slow as real + 1.0);
    forall i | 0 <= i < |close| ensures line[i] == MacdLine(close, SpanAlpha(fast), SpanAlpha(slow))[i] {
      SmoothsIsEma(f, close, 2.0, fast as real + 1.0, SpanAlpha(fast), i);
      SmoothsIsEma(s, close, 2.0, slow as real + 1.0, SpanAlpha(slow), i);
    }
  }

  /** The histogram: whatever sequences meet the recurrences of the two averages and of the average
      of their difference, it is where the last of these leaves off. */
  lemma MacdByRecurrence(close: seq<real>, p: Params, f: seq<real>, s: seq<real>, line: seq<real>, signal: seq<real>)
    requires close != []
    requires Smooths(f, close, 2.0, p.macdFast as real + 1.0) && Smooths(s, close, 2.0, p.macdSlow as real + 1.0)
    requires Differs(line, f, s) && Smooths(signal, line, 2.0, p.macdSignal as real + 1.0)
    ensures MacdHist(close, p) == Some(f[|close| - 1] - s[|close| - 1] - signal[|close| - 1])
  {
    LineSmoothed(close, p.macdFast, p.macdSlow, f, s, line);
    SpanParts(p.macdSignal, p.macdSignal as real + 1.0);
    LastSmoothed(signal, line, 2.0, p.macdSignal as real + 1.0, SpanAlpha(p.macdSignal));
  }

  /** `n` samples of `c`. */
  function Flat(c: real, n: nat): (xs: seq<real>)
    ensures |xs| == n && forall i :: 0 <= i < n ==> xs[i] == c
  {
    seq(n, i => c)
  }

  lemma EmaOfFlat(xs: seq<real>, c: real, alpha: real)
    requires xs != [] && 0.0 <= alpha <= 1.0 && forall i :: 0 <= i < |xs| ==> xs[i] == c
    ensures Ema(xs, alpha) == c
  {
    EmaRange(xs, alpha, c, c);
  }

  /** After a flat stretch an average moves its share of the way. */
  lemma EmaOfJump(xs: seq<real>, c: real, x: real, alpha: real)
    requires |xs| >= 2 && xs[|xs| - 1] == x && forall i :: 0 <= i < |xs| - 1 ==> xs[i] == c
    requires 0.0 <= alpha <= 1.0
    ensures Ema(xs, alpha) == c + alpha * (x - c)
  {
    EmaOfFlat(xs[..|xs| - 1], c, alpha);
    assert (1.0 - alpha) * c + alpha * x == c + alpha * (x - c);
  }

  /** The line is flat at zero and ends on the difference of the two shares. */
  lemma LineOfJump(close: seq<real>, c: real, x: real, fast: real, slow: real)
    requires |close| >= 2 && close[|close| - 1] == x && forall i :: 0 <= i < |close| - 1 ==> close[i] == c
    requires 0.0 <= fast <= 1.0 && 0.0 <= slow <= 1.0
    ensures var line := MacdLine(close, fast, slow);
            && (forall i :: 0 <= i < |close| - 1 ==> line[i] == 0.0)
            && line[|close| - 1] == (fast - slow) * (x - c)
  {
    var n := |close| - 1;
    forall i | 0 <= i < n ensures MacdLine(close, fast, slow)[i] == 0.0 {
      EmaOfFlat(close[..i + 1], c, fast);
      EmaOfFlat(close[..i + 1], c, slow);
    }
    assert close[..n + 1] == close;
    EmaOfJump(close, c, x, fast);
    EmaOfJump(close, c, x, slow);
    assert fast * (x - c) - slow * (x - c) == (fast - slow) * (x - c);
  }

  lemma HistOfJump(line: seq<real>, d: real, signal: real)
    requires |line| >= 2 && line[|line| - 1] == d && forall i :: 0 <= i < |line| - 1 ==> line[i] == 0.0
    requires 0.0 <= signal <= 1.0
    ensures Hist(line, signal) == (1.0 - signal) * d
  {
    EmaOfJump(line, 0.0, d, signal);
  }

  /** The weights of the newest sample in the three averages. */
  predicate Weights(p: Params, fast: real, slow: real, signal: real) {
    && fast == 2.0 / (p.macdFast as real + 1.0) && slow == 2.0 / (p.macdSlow as real + 1.0)
    && signal == 2.0 / (p.macdSignal as real + 1.0)
  }

  lemma WeightsAre(p: Params, fast: real, slow: real, signal: real)
    requires Weights(p, fast, slow, signal)
    ensures fast == SpanAlpha(p.macdFast) && slow == SpanAlpha(p.macdSlow) && signal == SpanAlpha(p.macdSignal)
    ensures Spans(p) ==> 0.0 < fast <= 1.0 && 0.0 < slow <= 1.0 && 0.0 < signal <= 1.0
  {
    SpanParts(p.macdFast, p.macdFast as real + 1.0);
    SpanParts(p.macdSlow, p.macdSlow as real + 1.0);
    SpanParts(p.macdSignal, p.macdSignal as real + 1.0);
  }

  lemma HistAfterJump(close: seq<real>, c: real, x: real, fast: real, slow: real, signal: real, d: real, h: real)
    requires |close| >= 2 && close[|close| - 1] == x && forall i :: 0 <= i < |close| - 1 ==> close[i] == c
    requires 0.0 <= fast <= 1.0 && 0.0 <= slow <= 1.0 && 0.0 <= signal <= 1.0
    requires d == (fast - slow) * (x - c) && h == (1.0 - signal) * d
    ensures Hist(MacdLine(close, fast, slow), signal) == h
  {
    LineOfJump(close, c, x, fast, slow);
    HistOfJump(MacdLine(close, fast, slow), d, signal);
  }

  /** The histogram after a jump from `c` to `x` in the newest close of a flat series: the line
      moves by `d`, and the signal average follows by its weight. */
  lemma MacdOfJump(c: real, n: nat, x: real, p: Params, fast: real, slow: real, signal: real, d: real, h: real)
    requires n >= 1 && Spans(p) && Weights(p, fast, slow, signal)
    requires d == (fast - slow) * (x - c) && h == (1.0 - signal) * d
    ensures MacdHist(Flat(c, n) + [x], p) == Some(h)
  {
    WeightsAre(p, fast, slow, signal);
    HistAfterJump(Flat(c, n) + [x], c, x, fast, slow, signal, d, h);
  }

  lemma ShareOrder(m: real, n: real, p: real, q: real)
    requires 0.0 < m < n && p * m == 2.0 && q * n == 2.0
    ensures q < p
  {
    S.ScaleSign(p, m, 2.0);
    S.ScaleSign(n - m, p, (n - m) * p);
    assert (p - q) * n == (n - m) * p;
    S.ScaleSign(p - q, n, (p - q) * n);
  }

  /** The longer the span, the smaller the weight; and a span over one has a weight below one. */
  lemma SharesOrdered(m: real, n: real)
    requires m > 0.0
    ensures m < n ==> 2.0 / n < 2.0 / m
    ensures 1.0 < m ==> 2.0 / (m + 1.0) < 1.0
  {
    DivideBack(2.0, m);
    DivideBack(2.0, m + 1.0);
    if m < n {
      DivideBack(2.0, n);
      ShareOrder(m, n, 2.0 / m, 2.0 / n);
    }
    if 1.0 < m {
      ShareOrder(2.0, m + 1.0, 1.0, 2.0 / (m + 1.0));
    }
  }

  lemma ProductSign(k: real, d: real, x: real, h: real)
    requires k > 0.0 && d > 0.0 && h == k * (d * x)
    ensures (h > 0.0 <==> x > 0.0) && (h < 0.0 <==> x < 0.0)
  {
    S.ScaleSign(x, d, d * x);
    S.ScaleSign(d * x, k, h);
  }

  lemma WeightsOrdered(p: Params, fast: real, slow: real, signal: real)
    requires Weights(p, fast, slow, signal) && 1 <= p.macdFast
    ensures p.macdFast < p.macdSlow ==> slow < fast
    ensures 1 < p.macdSignal ==> signal < 1.0
  {
    SharesOrdered(p.macdFast as real + 1.0, p.macdSlow as real + 1.0);
    if p.macdSignal > 1 {
      SharesOrdered(p.macdSignal as real, 0.0);
    }
  }

  /** So when fast is the shorter span and the signal average lags, a jump up is bullish and a fall
      bearish. */
  lemma JumpSign(c: real, n: nat, x: real, p: Params)
    requires n >= 1 && 1 <= p.macdFast < p.macdSlow && p.macdSignal > 1
    ensures var h := MacdHist(Flat(c, n) + [x], p);
            h.Some? && (h.value > 0.0 <==> x > c) && (h.value < 0.0 <==> x < c)
  {
    var fast, slow := 2.0 / (p.macdFast as real + 1.0), 2.0 / (p.macdSlow as real + 1.0);
    var signal := 2.0 / (p.macdSignal as real + 1.0);
    var d := (fast - slow) * (x - c);
    var h := (1.0 - signal) * d;
    MacdOfJump(c, n, x, p, fast, slow, signal, d, h);
    WeightsOrdered(p, fast, slow, signal);
    ProductSign(1.0 - signal, fast - slow, x - c, h);
  }

  lemma BlendGap(e: real, x: real, alpha: real)
    ensures x - Blend(e, x, alpha) == (1.0 - alpha) * (x - e)
  {
  }

  /** `g` and `r` are what is left of the way to `x` from the faster and the slower average. */
  lemma GapsOrdered(a: real, b: real, g: real, r: real)
    requires 0.0 <= a <= b && 0.0 <= g <= r
    ensures 0.0 <= a * g <= b * r
  {
    NonNegative(a, g, a * g);
    NonNegative(a, r - g, a * (r - g));
    NonNegative(b - a, r, (b - a) * r);
    assert b * r - a * g == a * (r - g) + (b - a) * r;
  }

  lemma FasterIsHigher(ef: real, es: real, x: real, x': real, fast: real, slow: real)
    requires es <= ef <= x <= x' && 0.0 <= slow <= fast <= 1.0
    ensures Blend(es, x', slow) <= Blend(ef, x', fast) <= x'
  {
    BlendGap(ef, x', fast);
    BlendGap(es, x', slow);
    GapsOrdered(1.0 - fast, 1.0 - slow, x' - ef, x' - es);
  }

  /** On a series that never falls, the average with the larger share is never below the other. */
  lemma {:induction false} FastLeads(close: seq<real>, fast: real, slow: real)
    requires close != [] && 0.0 <= slow <= fast <= 1.0
    requires forall i :: 0 < i < |close| ==> close[i - 1] <= close[i]
    ensures Ema(close, slow) <= Ema(close, fast) <= close[|close| - 1]
  {
    var n := |close| - 1;
    if n > 0 {
      FastLeads(close[..n], fast, slow);
      FasterIsHigher(Ema(close[..n], fast), Ema(close[..n], slow), close[n - 1], close[n], fast, slow);
    }
  }

  /** With fast the shorter span, no point of the line of a series that never falls is negative. */
  lemma RisingLine(close: seq<real>, p: Params)
    requires 1 <= p.macdFast <= p.macdSlow
    requires forall i :: 0 < i < |close| ==> close[i - 1] <= close[i]
    ensures forall x :: x in MacdLine(close, SpanAlpha(p.macdFast), SpanAlpha(p.macdSlow)) ==> x >= 0.0
  {
    SharesOrdered(p.macdFast as real + 1.0, p.macdSlow as real + 1.0);
    SpanAlphaRange(p.macdFast);
    SpanAlphaRange(p.macdSlow);
    forall i | 0 <= i < |close|
      ensures MacdLine(close, SpanAlpha(p.macdFast), SpanAlpha(p.macdSlow))[i] >= 0.0
    {
      FastLeads(close[..i + 1], SpanAlpha(p.macdFast), SpanAlpha(p.macdSlow));
    }
  }

  /* ---- RSI ---- */

  /** What each move added and took away. */
  predicate Moved(close: seq<real>, ups: seq<real>, downs: seq<real>) {
    && |ups| == |downs| && |close| == |ups| + 1
    && (forall i :: 0 <= i < |ups| ==> ups[i] == if close[i + 1] > close[i] then close[i + 1] - close[i] else 0.0)
    && (forall i :: 0 <= i < |ups| ==> downs[i] == if close[i + 1] < close[i] then close[i] - close[i + 1] else 0.0)
  }

  /** `r` percent of the movement is gain; no loss counts as a small one. */
  predicate IsShare(r: real, gain: real, loss: real) {
    r * (gain + (if loss == 0.0 then 0.000000001 else loss)) == 100.0 * gain
  }

  lemma PeriodParts(period: nat, alpha: real)
    requires period >= 1 && alpha == 1.0 / period as real
    ensures alpha * period as real == 1.0
  {
  }

  lemma MovedIsClipped(close: seq<real>, ups: seq<real>, downs: seq<real>)
    requires Moved(close, ups, downs)
    ensures ups == Gains(Deltas(close)) && downs == Losses(Deltas(close))
  {
  }

  lemma ShareOf(gain: real, loss: real)
    requires gain >= 0.0 && loss >= 0.0
    ensures IsShare(RsiOf(gain, loss), gain, loss)
  {
    RsiShare(gain, loss, if loss == 0.0 then EPSILON else loss, RsiOf(gain, loss));
  }

  lemma RsiFrom(close: seq<real>, period: nat, gain: real, loss: real, alpha: real)
    requires period >= 1 && |close| >= 2 && alpha == 1.0 / period as real
    requires gain == Ema(Gains(Deltas(close)), alpha) && loss == Ema(Losses(Deltas(close)), alpha)
    ensures Rsi(close, period).Some? && IsShare(Rsi(close, period).value, gain, loss)
  {
    AveragesOf(close, period, alpha);
    ShareOf(gain, loss);
  }

  lemma RsiByRecurrence(close: seq<real>, period: nat, ups: seq<real>, downs: seq<real>, g: seq<real>, l: seq<real>)
    requires period >= 1 && |close| >= 2 && Moved(close, ups, downs)
    requires Smooths(g, ups, 1.0, period as real) && Smooths(l, downs, 1.0, period as real)
    ensures Rsi(close, period).Some? && IsShare(Rsi(close, period).value, g[|g| - 1], l[|l| - 1])
  {
    var alpha := 1.0 / period as real;
    PeriodParts(period, alpha);
    MovedIsClipped(close, ups, downs);
    LastSmoothed(g, ups, 1.0, period as real, alpha);
    LastSmoothed(l, downs, 1.0, period as real, alpha);
    RsiFrom(close, period, g[|g| - 1], l[|l| - 1], alpha);
  }

  /* ---- Bollinger bands ---- */

  /** `u` is how far up the band from `m - h` to `m + h` the price `x` is; a band of no width has it
      in the middle. */
  predicate IsPosition(u: real, x: real, m: real, h: real) {
    if 2.0 * h > 0.000000001 then u * (2.0 * h) == x - (m - h) else u == 0.5
  }

  lemma PositionOf(x: real, m: real, std: real, k: real, h: real)
    requires h == k * std
    ensures IsPosition(PercentB(x, m, std, k), x, m, h)
  {
    if 2.0 * h > 0.000000001 {
      DivideBack(x - (m - h), 2.0 * h);
      assert (m + h) - (m - h) == 2.0 * h;
    }
  }

  /* ---- VWAP ---- */

  /** `volume` and `turnover` are the running sums over the bars, a bar's price being the mean of its
      high, low and close. */
  predicate Accumulates(bars: seq<Bar>, volume: seq<real>, turnover: seq<real>) {
    && |volume| == |turnover| == |bars|
    && forall i: nat :: i < |bars| ==> AddsAt(bars, volume, turnover, i)
  }

  predicate AddsAt(bars: seq<Bar>, volume: seq<real>, turnover: seq<real>, i: nat)
    requires |volume| == |turnover| == |bars| && i < |bars|
  {
    Adds(bars[i], Before(volume, i), Before(turnover, i), volume[i], turnover[i])
  }

  function Before(sums: seq<real>, i: nat): real
    requires i < |sums|
  {
    if i == 0 then 0.0 else sums[i - 1]
  }

  predicate Adds(b: Bar, volume: real, turnover: real, volume': real, turnover': real) {
    volume' == volume + b.volume && 3.0 * (turnover' - turnover) == (b.high + b.low + b.close) * b.volume
  }

  lemma {:induction false} TotalsSnoc(bars: seq<Bar>, b: Bar, p: real)
    requires p == Typical(b) * b.volume
    ensures TotalVolume(bars + [b]) == TotalVolume(bars) + b.volume
    ensures Turnover(bars + [b]) == Turnover(bars) + p
  {
    if bars == [] {
      assert bars + [b] == [b];
    } else {
      assert (bars + [b])[1..] == bars[1..] + [b];
      TotalsSnoc(bars[1..], b, p);
    }
  }

  lemma AddsIsTypical(b: Bar, volume: real, turnover: real, volume': real, turnover': real, p: real)
    requires Adds(b, volume, turnover, volume', turnover') && p == Typical(b) * b.volume
    ensures turnover' == turnover + p
  {
    assert 3.0 * p == (b.high + b.low + b.close) * b.volume;
  }

  /** The sums so far are those of the bars so far. */
  predicate TotalsAre(bars: seq<Bar>, volume: real, turnover: real) {
    volume == TotalVolume(bars) && turnover == Turnover(bars)
  }

  lemma TotalsStep(prev: seq<Bar>, bars: seq<Bar>, b: Bar, volume: real, turnover: real, volume': real, turnover': real)
    requires bars == prev + [b] && TotalsAre(prev, volume, turnover)
    requires Adds(b, volume, turnover, volume', turnover')
    ensures TotalsAre(bars, volume', turnover')
  {
    var p := Typical(b) * b.volume;
    TotalsSnoc(prev, b, p);
    AddsIsTypical(b, volume, turnover, volume', turnover', p);
  }

  lemma TotalsNext(bars: seq<Bar>, volume: seq<real>, turnover: seq<real>, i: nat, prev: seq<Bar>, next: seq<Bar>)
    requires Accumulates(bars, volume, turnover) && i < |bars| && prev == bars[..i] && next == prev + [bars[i]]
    requires TotalsAre(prev, Before(volume, i), Before(turnover, i))
    ensures TotalsAre(next, volume[i], turnover[i])
  {
    assert AddsAt(bars, volume, turnover, i);
    TotalsStep(prev, next, bars[i], Before(volume, i), Before(turnover, i), volume[i], turnover[i]);
  }

  lemma {:induction false} RunningTotals(bars: seq<Bar>, volume: seq<real>, turnover: seq<real>, i: nat)
    requires Accumulates(bars, volume, turnover) && i < |bars|
    ensures TotalsAre(bars[..i + 1], volume[i], turnover[i])
  {
    if i > 0 {
      RunningTotals(bars, volume, turnover, i - 1);
    }
    assert bars[..i + 1] == bars[..i] + [bars[i]];
    TotalsNext(bars, volume, turnover, i, bars[..i], bars[..i + 1]);
  }

  /** `v` is the average price of a turnover; no volume counts as a little. */
  predicate IsAverage(v: real, volume: real, turnover: real) {
    v * (if volume == 0.0 then 0.000000001 else volume) == turnover
  }

  /** `dev` is by how many percent of `v` the price `x` is above it; none for an average near zero. */
  predicate IsDeviation(dev: real, x: real, v: real) {
    if v > 0.000000001 then dev * v == 100.0 * (x - v) else dev == 0.0
  }

  lemma QuotientOf(a: real, n: real, q: real)
    requires n != 0.0 && q == a / n
    ensures q * n == a
  {
  }

  lemma DeviationOf(x: real, v: real, dev: real)
    requires dev == if v > 0.000000001 then (x - v) / v * 100.0 else 0.0
    ensures IsDeviation(dev, x, v)
  {
    if v > 0.000000001 {
      var q := (x - v) / v;
      QuotientOf(x - v, v, q);
      assert (q * 100.0) * v == 100.0 * (q * v);
    }
  }

  lemma VwapByRunningSums(bars: seq<Bar>, volume: seq<real>, turnover: seq<real>)
    requires bars != [] && Accumulates(bars, volume, turnover)
    ensures IsAverage(Vwap(bars), volume[|bars| - 1], turnover[|bars| - 1])
    ensures var dev := VwapDeviationPct(bars);
            dev.Some? && IsDeviation(dev.value, bars[|bars| - 1].close, Vwap(bars))
  {
    RunningTotals(bars, volume, turnover, |bars| - 1);
    assert bars[..|bars|] == bars;
    var v := TotalVolume(bars);
    QuotientOf(Turnover(bars), if v == 0.0 then 0.000000001 else v, Vwap(bars));
    DeviationOf(bars[|bars| - 1].close, Vwap(bars), VwapDeviationPct(bars).value);
  }

  /* ---- volume ---- */

  /** `x` is `z` standard deviations from the mean; a deviation near zero counts as none. */
  predicate IsStandard(z: real, x: real, m: real, s: real) {
    if s > 0.000000001 then z * s == x - m else z == 0.0
  }

  /** Of the last `period` volumes, or of all where there are fewer or the period is zero. */
  lemma VolumeMeasured(sqrt: real -> real, volume: seq<real>, period: nat, xs: seq<real>, x: real)
    requires xs == if period == 0 || |volume| <= period then volume else volume[|volume| - period..]
    requires |xs| >= 2 && x == volume[|volume| - 1]
    ensures var z := VolumeZScore(sqrt, volume, period);
            z.Some? && IsStandard(z.value, x, Mean(xs), sqrt(Variance(xs)))
  {
    var m, s := NewestMeasures(sqrt, xs, x, VolumeZScore(sqrt, volume, period).value);
  }

  /** What there is nothing to read from. */
  lemma NothingIff(sqrt: real -> real, bars: seq<Bar>, close: seq<real>, volume: seq<real>, p: Params)
    ensures MacdHist(close, p).None? <==> close == []
    ensures Rsi(close, p.rsiPeriod).None? <==> |close| < 2 || p.rsiPeriod == 0
    ensures BbPercentB(sqrt, close, p.bbPeriod, p.bbStddev).None? <==> p.bbPeriod < 2 || |close| < p.bbPeriod
    ensures VwapDeviationPct(bars).None? <==> bars == []
    ensures VolumeZScore(sqrt, volume, p.volumePeriod).None? <==> p.volumePeriod == 1 || |volume| < 2
  {
  }

  /* ---- the whole buffer ---- */

  /** The columns of a worked example. */
  datatype Sheet = Sheet(
    fast: seq<real>, slow: seq<real>, line: seq<real>, signal: seq<real>,
    ups: seq<real>, downs: seq<real>, gain: seq<real>, loss: seq<real>,
    volume: seq<real>, turnover: seq<real>)

  predicate Filled(w: Sheet, bars: seq<Bar>, close: seq<real>, p: Params) {
    && Smooths(w.fast, close, 2.0, p.macdFast as real + 1.0) && Smooths(w.slow, close, 2.0, p.macdSlow as real + 1.0)
    && Differs(w.line, w.fast, w.slow) && Smooths(w.signal, w.line, 2.0, p.macdSignal as real + 1.0)
    && Moved(close, w.ups, w.downs)
    && Smooths(w.gain, w.ups, 1.0, p.rsiPeriod as real) && Smooths(w.loss, w.downs, 1.0, p.rsiPeriod as real)
    && Accumulates(bars, w.volume, w.turnover)
  }

  ghost predicate InBand(u: real, sqrt: real -> real, xs: seq<real>, k: real)
    requires xs != []
  {
    IsPosition(u, xs[|xs| - 1], Mean(xs), k * sqrt(Variance(xs)))
  }

  ghost predicate InWindow(z: real, sqrt: real -> real, xs: seq<real>)
    requires xs != []
  {
    IsStandard(z, xs[|xs| - 1], Mean(xs), sqrt(Variance(xs)))
  }

  ghost predicate OffVwap(dev: real, x: real, volume: real, turnover: real) {
    exists v :: IsAverage(v, volume, turnover) && IsDeviation(dev, x, v)
  }

  function Last(xs: seq<real>): real
    requires xs != []
  {
    xs[|xs| - 1]
  }

  function LastOf(xs: seq<real>, n: nat): (ys: seq<real>)
    requires n <= |xs|
    ensures |ys| == n
  {
    xs[|xs| - n..]
  }

  lemma MacdField(close: seq<real>, bars: seq<Bar>, p: Params, w: Sheet, h: real)
    requires close != [] && Filled(w, bars, close, p) && MacdHist(close, p) == Some(h)
    ensures h == Last(w.fast) - Last(w.slow) - Last(w.signal)
  {
    MacdByRecurrence(close, p, w.fast, w.slow, w.line, w.signal);
  }

  lemma RsiField(close: seq<real>, bars: seq<Bar>, p: Params, w: Sheet, r: real)
    requires |close| >= 2 && p.rsiPeriod >= 1 && Filled(w, bars, close, p) && Rsi(close, p.rsiPeriod) == Some(r)
    ensures IsShare(r, Last(w.gain), Last(w.loss))
  {
    RsiByRecurrence(close, p.rsiPeriod, w.ups, w.downs, w.gain, w.loss);
  }

  lemma InBandOf(u: real, sqrt: real -> real, xs: seq<real>, k: real, x: real, m: real, std: real, h: real)
    requires xs != [] && x == xs[|xs| - 1] && m == Mean(xs) && std == sqrt(Variance(xs)) && h == k * std
    requires u == PercentB(x, m, std, k)
    ensures InBand(u, sqrt, xs, k)
  {
    PositionOf(x, m, std, k, h);
  }

  lemma BandField(sqrt: real -> real, close: seq<real>, period: nat, k: real, u: real)
    requires 2 <= period <= |close| && BbPercentB(sqrt, close, period, k) == Some(u)
    ensures InBand(u, sqrt, LastOf(close, period), k)
  {
    var xs := LastOf(close, period);
    assert xs == Window(close, period);
    InBandOf(u, sqrt, xs, k, xs[|xs| - 1], Mean(xs), sqrt(Variance(xs)), k * sqrt(Variance(xs)));
  }

  lemma VwapField(bars: seq<Bar>, close: seq<real>, p: Params, w: Sheet, dev: real)
    requires bars != [] && close == Closes(bars) && Filled(w, bars, close, p) && VwapDeviationPct(bars) == Some(dev)
    ensures OffVwap(dev, Last(close), Last(w.volume), Last(w.turnover))
  {
    VwapByRunningSums(bars, w.volume, w.turnover);
  }

  lemma VolumeField(sqrt: real -> real, volume: seq<real>, period: nat, z: real)
    requires 2 <= period <= |volume| && VolumeZScore(sqrt, volume, period) == Some(z)
    ensures InWindow(z, sqrt, LastOf(volume, period))
  {
    var xs := LastOf(volume, period);
    assert period == |volume| ==> xs == volume;
    VolumeMeasured(sqrt, volume, period, xs, volume[|volume| - 1]);
  }

  lemma EachField(sqrt: real -> real, bars: seq<Bar>, p: Params, i: S.Indicators)
    requires ComputeAll(sqrt, bars, p) == Some(i)
    ensures MacdHist(Closes(bars), p) == Some(i.macdHist) && Rsi(Closes(bars), p.rsiPeriod) == Some(i.rsi)
    ensures BbPercentB(sqrt, Closes(bars), p.bbPeriod, p.bbStddev) == Some(i.bbPercentB)
    ensures VwapDeviationPct(bars) == Some(i.vwapDeviationPct)
    ensures VolumeZScore(sqrt, Volumes(bars), p.volumePeriod) == Some(i.volumeZScore)
  {
  }

  /** Every indicator of a buffer at once, from any sheet that meets the recurrences: read off its
      last row, and off the last windows of close and volume. */
  lemma ComputedBySheet(sqrt: real -> real, bars: seq<Bar>, p: Params, w: Sheet, i: S.Indicators)
    requires |bars| >= 2 && p.rsiPeriod >= 1 && 2 <= p.bbPeriod <= |bars| && 2 <= p.volumePeriod <= |bars|
    requires Filled(w, bars, Closes(bars), p) && ComputeAll(sqrt, bars, p) == Some(i)
    ensures i.macdHist == Last(w.fast) - Last(w.slow) - Last(w.signal)
    ensures IsShare(i.rsi, Last(w.gain), Last(w.loss))
    ensures InBand(i.bbPercentB, sqrt, LastOf(Closes(bars), p.bbPeriod), p.bbStddev)
    ensures OffVwap(i.vwapDeviationPct, Last(Closes(bars)), Last(w.volume), Last(w.turnover))
    ensures InWindow(i.volumeZScore, sqrt, LastOf(Volumes(bars), p.volumePeriod))
  {
    EachField(sqrt, bars, p, i);
    MacdField(Closes(bars), bars, p, w, i.macdHist);
    RsiField(Closes(bars), bars, p, w, i.rsi);
    BandField(sqrt, Closes(bars), p.bbPeriod, p.bbStddev, i.bbPercentB);
    VwapField(bars, Closes(bars), p, w, i.vwapDeviationPct);
    VolumeField(sqrt, Volumes(bars), p.volumePeriod, i.volumeZScore);
  }

  /** With the parameters the service ships with. */
  lemma ShippedBySheet(sqrt: real -> real, bars: seq<Bar>, w: Sheet, i: S.Indicators)
    requires |bars| >= 30 && Filled(w, bars, Closes(bars), Params(12, 26, 9, 14, 20, 2.0, 20))
    requires ComputeAll(sqrt, bars, SHIPPED) == Some(i)
    ensures i.macdHist == Last(w.fast) - Last(w.slow) - Last(w.signal)
    ensures IsShare(i.rsi, Last(w.gain), Last(w.loss))
    ensures InBand(i.bbPercentB, sqrt, LastOf(Closes(bars), 20), 2.0)
    ensures OffVwap(i.vwapDeviationPct, Last(Closes(bars)), Last(w.volume), Last(w.turnover))
    ensures InWindow(i.volumeZScore, sqrt, LastOf(Volumes(bars), 20))
  {
    ComputedBySheet(sqrt, bars, SHIPPED, w, i);
  }

  /* ---- such a sheet exists ---- */

  function Smoothed(xs: seq<real>, alpha: real): (avg: seq<real>)
    ensures |avg| == |xs|
  {
    seq(|xs|, i requires 0 <= i < |xs| => Ema(xs[..i + 1], alpha))
  }

  lemma BlendMoves(prev: real, x: real, a: real, b: real, alpha: real)
    requires alpha * b == a
    ensures Moves(prev, x, Blend(prev, x, alpha), a, b)
  {
    assert b * Blend(prev, x, alpha) == b * prev - (alpha * b) * prev + (alpha * b) * x;
  }

  lemma SmoothedSmooths(xs: seq<real>, a: real, b: real, alpha: real)
    requires alpha * b == a
    ensures Smooths(Smoothed(xs, alpha), xs, a, b)
  {
    var avg := Smoothed(xs, alpha);
    forall i | 0 < i < |xs| ensures Moves(avg[i - 1], xs[i], avg[i], a, b) {
      assert xs[..i + 1][..i] == xs[..i];
      BlendMoves(avg[i - 1], xs[i], a, b, alpha);
    }
  }

  lemma AddsTypical(prev: seq<Bar>, b: Bar, p: real)
    requires p == Typical(b) * b.volume
    ensures Adds(b, TotalVolume(prev), Turnover(prev), TotalVolume(prev + [b]), Turnover(prev + [b]))
  {
    TotalsSnoc(prev, b, p);
    assert 3.0 * p == (b.high + b.low + b.close) * b.volume;
  }

  lemma SumsExist(bars: seq<Bar>) returns (volume: seq<real>, turnover: seq<real>)
    ensures Accumulates(bars, volume, turnover)
  {
    volume := seq(|bars|, i requires 0 <= i < |bars| => TotalVolume(bars[..i + 1]));
    turnover := seq(|bars|, i requires 0 <= i < |bars| => Turnover(bars[..i + 1]));
    forall i: nat | i < |bars| ensures AddsAt(bars, volume, turnover, i) {
      assert bars[..i + 1] == bars[..i] + [bars[i]];
      AddsTypical(bars[..i], bars[i], Typical(bars[i]) * bars[i].volume);
    }
  }

  lemma AveragesExist(close: seq<real>, p: Params)
    returns (f: seq<real>, s: seq<real>, line: seq<real>, signal: seq<real>)
    ensures Smooths(f, close, 2.0, p.macdFast as real + 1.0) && Smooths(s, close, 2.0, p.macdSlow as real + 1.0)
    ensures Differs(line, f, s) && Smooths(signal, line, 2.0, p.macdSignal as real + 1.0)
  {
    SpanParts(p.macdFast, p.macdFast as real + 1.0);
    SpanParts(p.macdSlow, p.macdSlow as real + 1.0);
    SpanParts(p.macdSignal, p.macdSignal as real + 1.0);
    f, s := Smoothed(close, SpanAlpha(p.macdFast)), Smoothed(close, SpanAlpha(p.macdSlow));
    line := MacdLine(close, SpanAlpha(p.macdFast), SpanAlpha(p.macdSlow));
    signal := Smoothed(line, SpanAlpha(p.macdSignal));
    SmoothedSmooths(close, 2.0, p.macdFast as real + 1.0, SpanAlpha(p.macdFast));
    SmoothedSmooths(close, 2.0, p.macdSlow as real + 1.0, SpanAlpha(p.macdSlow));
    SmoothedSmooths(line, 2.0, p.macdSignal as real + 1.0, SpanAlpha(p.macdSignal));
  }

  /** There is a sheet for every buffer. */
  lemma SheetExists(bars: seq<Bar>, p: Params) returns (w: Sheet)
    requires bars != [] && p.rsiPeriod >= 1
    ensures Filled(w, bars, Closes(bars), p)
  {
    var close, b := Closes(bars), p.rsiPeriod as real;
    var f, s, line, signal := AveragesExist(close, p);
    var volume, turnover := SumsExist(bars);
    var ups, downs := Gains(Deltas(close)), Losses(Deltas(close));
    PeriodParts(p.rsiPeriod, 1.0 / b);
    SmoothedSmooths(ups, 1.0, b, 1.0 / b);
    SmoothedSmooths(downs, 1.0, b, 1.0 / b);
    w := Sheet(f, s, line, signal, ups, downs, Smoothed(ups, 1.0 / b), Smoothed(downs, 1.0 / b), volume, turnover);
  }
}
