/** The rule-based scorer: a clipped weighted vote of four price indicators, amplified by traded
    volume, squashed to a probability and cut into a direction. The exponential is a parameter. */
module Scorer {
  import opened Extrema
  import opened Wrappers
  import Swing = SwingHandler

  datatype Config = Config(
    macdNormDivisor: real, vwapNormDivisor: real,
    weightMacd: real, weightRsi: real, weightBb: real, weightVwap: real,
    volumeZScoreCap: real, volumeBoostWeight: real,
    sensitivity: real, buyThreshold: real, sellThreshold: real)

  /** The configuration the service ships with. */
  const SHIPPED := Config(500.0, 3.0, 0.30, 0.25, 0.25, 0.20, 5.0, 0.5, 4.0, 0.65, 0.35)

  datatype Indicators = Indicators(
    macdHist: real, rsi: real, bbPercentB: real, vwapDeviationPct: real, volumeZScore: real)

  datatype Direction = BuyReady | SellReady | Neutral

  datatype Score = Score(
    priceSignal: real, volumeBoost: real, finalScore: real, bull: real, bear: real, direction: Direction)

  function Clip(x: real, lo: real, hi: real): real {
    Max(lo, Min(hi, x))
  }

  /** The four clipped votes. */
  datatype Votes = Votes(macd: real, rsi: real, bb: real, vwap: real)

  /** Nothing when a normalising divisor is zero: the division raises. */
  function VotesOf(i: Indicators, c: Config): Option<Votes> {
    if c.macdNormDivisor == 0.0 || c.vwapNormDivisor == 0.0 then None
    else Some(Votes(
      Clip(i.macdHist / c.macdNormDivisor, -1.0, 1.0),
      Clip((i.rsi - 50.0) / 50.0, -1.0, 1.0),
      Clip((i.bbPercentB - 0.5) * 2.0, -1.0, 1.0),
      Clip(i.vwapDeviationPct / c.vwapNormDivisor, -1.0, 1.0)))
  }

  function PriceSignal(v: Votes, c: Config): real {
    c.weightMacd * v.macd + c.weightRsi * v.rsi + c.weightBb * v.bb + c.weightVwap * v.vwap
  }

  function BoostRatio(z: real, cap: real): real {
    if cap > 0.0 then Clip(z, 0.0, cap) / cap else 0.0
  }

  function VolumeBoost(z: real, c: Config): real {
    1.0 + c.volumeBoostWeight * BoostRatio(z, c.volumeZScoreCap)
  }

  ghost predicate IsExp(exp: real -> real) {
    && (forall x :: exp(x) > 0.0 && exp(x) * exp(-x) == 1.0)
    && (forall x, y :: x < y ==> exp(x) < exp(y))
  }

  function Sigmoid(exp: real -> real, x: real): real
    requires IsExp(exp)
  {
    1.0 / (1.0 + exp(-x))
  }

  function FinalScore(price: real, boost: real): real {
    Clip(price * boost, -1.0, 1.0)
  }

  function Bull(exp: real -> real, final: real, sensitivity: real): real
    requires IsExp(exp)
  {
    Sigmoid(exp, final * sensitivity)
  }

  function DirectionOf(bull: real, buy: real, sell: real): Direction {
    if bull >= buy then BuyReady else if bull <= sell then SellReady else Neutral
  }

  function ScoreOf(exp: real -> real, v: Votes, z: real, c: Config): Score
    requires IsExp(exp)
  {
    var price := PriceSignal(v, c);
    var boost := VolumeBoost(z, c);
    var final := FinalScore(price, boost);
    var bull := Bull(exp, final, c.sensitivity);
    Score(price, boost, final, bull, 1.0 - bull, DirectionOf(bull, c.buyThreshold, c.sellThreshold))
  }

  function ScoreIndicators(exp: real -> real, i: Indicators, c: Config): Option<Score>
    requires IsExp(exp)
  {
    match VotesOf(i, c)
    case None => None
    case Some(votes) => Some(ScoreOf(exp, votes, i.volumeZScore, c))
  }

  /* ---- the sigmoid ---- */

  lemma ScaleSign(x: real, k: real, p: real)
    requires k > 0.0 && p == x * k
    ensures p > 0.0 <==> x > 0.0
    ensures p < 0.0 <==> x < 0.0
  {
    if x > 0.0 {
      assert p > 0.0;
    } else if x < 0.0 {
      assert (-x) * k > 0.0;
    }
  }

  lemma Reciprocal(a: real, r: real)
    requires a > 0.0 && r == 1.0 / a
    ensures r > 0.0 && r * a == 1.0
  {
  }

  lemma ReciprocalOrder(a: real, b: real, p: real, q: real)
    requires 0.0 < a < b && p * a == 1.0 && q * b == 1.0 && p > 0.0 && q > 0.0
    ensures q < p
  {
    ScaleSign(b - a, p, (b - a) * p);
    assert (p - q) * b == (b - a) * p;
    ScaleSign(p - q, b, (p - q) * b);
  }

  lemma SigmoidRange(exp: real -> real, x: real)
    requires IsExp(exp)
    ensures 0.0 < Sigmoid(exp, x) < 1.0
  {
    var a := 1.0 + exp(-x);
    Reciprocal(a, 1.0 / a);
    ReciprocalOrder(1.0, a, 1.0, 1.0 / a);
  }

  lemma SigmoidMonotone(exp: real -> real, x: real, y: real)
    requires IsExp(exp) && x < y
    ensures Sigmoid(exp, x) < Sigmoid(exp, y)
  {
    var a, b := 1.0 + exp(-x), 1.0 + exp(-y);
    assert exp(-y) < exp(-x);
    Reciprocal(a, 1.0 / a);
    Reciprocal(b, 1.0 / b);
    ReciprocalOrder(b, a, 1.0 / b, 1.0 / a);
  }

  /** With e f = 1, the reciprocals of 1 + e and 1 + f sum to one. */
  lemma SigmoidAlgebra(e: real, f: real, p: real, q: real)
    requires e > 0.0 && f > 0.0 && e * f == 1.0 && p * (1.0 + e) == 1.0 && q * (1.0 + f) == 1.0
    ensures p + q == 1.0
  {
    assert q * e * (1.0 + f) == e;
    assert q * e * (1.0 + f) == q * e + q;
    assert (q * (1.0 + e)) == e;
    assert (p - (1.0 - q)) * (1.0 + e) == 0.0;
  }

  lemma SumOfReciprocals(e: real, f: real, p: real, q: real)
    requires e > 0.0 && f > 0.0 && e * f == 1.0 && p == 1.0 / (1.0 + e) && q == 1.0 / (1.0 + f)
    ensures p + q == 1.0
  {
    Reciprocal(1.0 + e, p);
    Reciprocal(1.0 + f, q);
    SigmoidAlgebra(e, f, p, q);
  }

  lemma SigmoidMirror(exp: real -> real, x: real)
    requires IsExp(exp)
    ensures Sigmoid(exp, -x) == 1.0 - Sigmoid(exp, x)
    ensures Sigmoid(exp, 0.0) == 0.5
  {
    SigmoidSum(exp, x, -x);
    SigmoidSum(exp, 0.0, 0.0);
  }

  lemma SigmoidSum(exp: real -> real, x: real, y: real)
    requires IsExp(exp) && y == -x
    ensures Sigmoid(exp, x) + Sigmoid(exp, y) == 1.0
  {
    var e, f := exp(-x), exp(-y);
    assert e == exp(y) && e * f == 1.0;
    SumOfReciprocals(e, f, 1.0 / (1.0 + e), 1.0 / (1.0 + f));
  }

  /* ---- bounds ---- */

  /** Non-negative weights that sum to one, a boost that only amplifies, and a rising sigmoid. */
  predicate Sound(c: Config) {
    && c.weightMacd >= 0.0 && c.weightRsi >= 0.0 && c.weightBb >= 0.0 && c.weightVwap >= 0.0
    && c.weightMacd + c.weightRsi + c.weightBb + c.weightVwap == 1.0
    && c.volumeBoostWeight >= 0.0 && c.sensitivity > 0.0
  }

  predicate InRange(v: Votes) {
    -1.0 <= v.macd <= 1.0 && -1.0 <= v.rsi <= 1.0 && -1.0 <= v.bb <= 1.0 && -1.0 <= v.vwap <= 1.0
  }

  lemma Share(w: real, x: real, p: real)
    requires w >= 0.0 && -1.0 <= x <= 1.0 && p == w * x
    ensures -w <= p <= w
    ensures w > 0.0 ==> (p == w <==> x == 1.0)
    ensures x >= 0.0 ==> p >= 0.0
  {
    if w == 0.0 {
      assert p == 0.0;
    } else {
      ScaleSign(1.0 - x, w, w - p);
      ScaleSign(1.0 + x, w, w + p);
      ScaleSign(x, w, p);
    }
  }

  lemma Parts(v: Votes, c: Config, macd: real, rsi: real, bb: real, vwap: real)
    requires macd == c.weightMacd * v.macd && rsi == c.weightRsi * v.rsi
    requires bb == c.weightBb * v.bb && vwap == c.weightVwap * v.vwap
    ensures PriceSignal(v, c) == macd + rsi + bb + vwap
  {
  }

  lemma VoteBounds(v: Votes, c: Config)
    requires Sound(c) && InRange(v)
    ensures -1.0 <= PriceSignal(v, c) <= 1.0
  {
    var macd, rsi, bb, vwap := c.weightMacd * v.macd, c.weightRsi * v.rsi, c.weightBb * v.bb, c.weightVwap * v.vwap;
    Share(c.weightMacd, v.macd, macd);
    Share(c.weightRsi, v.rsi, rsi);
    Share(c.weightBb, v.bb, bb);
    Share(c.weightVwap, v.vwap, vwap);
    Parts(v, c, macd, rsi, bb, vwap);
  }

  lemma RatioBounds(z: real, cap: real, r: real)
    requires r == BoostRatio(z, cap)
    ensures 0.0 <= r <= 1.0
    ensures cap > 0.0 ==> (r == 1.0 <==> z >= cap)
  {
    if cap > 0.0 {
      assert r * cap == Clip(z, 0.0, cap);
    }
  }

  lemma BoostBounds(z: real, c: Config)
    requires c.volumeBoostWeight >= 0.0
    ensures 1.0 <= VolumeBoost(z, c) <= 1.0 + c.volumeBoostWeight
    ensures c.volumeZScoreCap > 0.0 && c.volumeBoostWeight > 0.0 ==>
              (VolumeBoost(z, c) == 1.0 + c.volumeBoostWeight <==> z >= c.volumeZScoreCap)
  {
    var r, w := BoostRatio(z, c.volumeZScoreCap), c.volumeBoostWeight;
    RatioBounds(z, c.volumeZScoreCap, r);
    Share(w, r, w * r);
  }

  lemma FinalFacts(price: real, boost: real)
    requires boost >= 1.0 && -1.0 <= price <= 1.0
    ensures var final := FinalScore(price, boost);
            && -1.0 <= final <= 1.0
            && (price >= 0.0 ==> final >= price)
            && (price <= 0.0 ==> final <= price)
  {
    var p := price * boost;
    assert p - price == price * (boost - 1.0);
  }

  /** The score and both probabilities stay in range and sum to one, and volume only pushes the
      price signal away from zero, never across it. */
  ghost predicate Bounded(s: Score, c: Config) {
    && -1.0 <= s.priceSignal <= 1.0 && -1.0 <= s.finalScore <= 1.0
    && 1.0 <= s.volumeBoost <= 1.0 + c.volumeBoostWeight
    && 0.0 < s.bull < 1.0 && 0.0 < s.bear < 1.0 && s.bull + s.bear == 1.0
    && (s.priceSignal >= 0.0 ==> s.finalScore >= s.priceSignal)
    && (s.priceSignal <= 0.0 ==> s.finalScore <= s.priceSignal)
  }

  lemma ScoreBounds(exp: real -> real, v: Votes, z: real, c: Config)
    requires IsExp(exp) && Sound(c) && InRange(v)
    ensures Bounded(ScoreOf(exp, v, z, c), c)
  {
    var price, boost := PriceSignal(v, c), VolumeBoost(z, c);
    VoteBounds(v, c);
    BoostBounds(z, c);
    FinalFacts(price, boost);
    SigmoidRange(exp, FinalScore(price, boost) * c.sensitivity);
  }

  /** For every input and every sound configuration. */
  lemma Bounds(exp: real -> real, i: Indicators, c: Config)
    requires IsExp(exp) && Sound(c) && ScoreIndicators(exp, i, c).Some?
    ensures Bounded(ScoreIndicators(exp, i, c).value, c)
  {
    ScoreBounds(exp, VotesOf(i, c).value, i.volumeZScore, c);
  }

  /* ---- when the scorer raises ---- */

  /** A division by zero, or an exponential whose argument is past `limit`, the largest it takes. */
  predicate Fails(i: Indicators, c: Config, limit: real) {
    match VotesOf(i, c)
    case None => true
    case Some(v) => -FinalScore(PriceSignal(v, c), VolumeBoost(i.volumeZScore, c)) * c.sensitivity > limit
  }

  /** Every price vote as bearish as can be. */
  function Worst(c: Config): Indicators {
    Indicators(-c.macdNormDivisor, 0.0, 0.0, -c.vwapNormDivisor, 0.0)
  }

  lemma MinusOne(d: real)
    requires d != 0.0
    ensures (-d) / d == -1.0
  {
  }

  lemma WorstScore(c: Config)
    requires Sound(c) && c.macdNormDivisor != 0.0 && c.vwapNormDivisor != 0.0
    ensures VotesOf(Worst(c), c) == Some(Votes(-1.0, -1.0, -1.0, -1.0))
    ensures FinalScore(PriceSignal(Votes(-1.0, -1.0, -1.0, -1.0), c), VolumeBoost(0.0, c)) == -1.0
  {
    MinusOne(c.macdNormDivisor);
    MinusOne(c.vwapNormDivisor);
    assert PriceSignal(Votes(-1.0, -1.0, -1.0, -1.0), c) == -1.0;
    BoostBounds(0.0, c);
  }

  lemma ArgumentBound(final: real, sensitivity: real, x: real)
    requires -1.0 <= final <= 1.0 && sensitivity > 0.0 && x == -final * sensitivity
    ensures x <= sensitivity
  {
    assert sensitivity - x == (1.0 + final) * sensitivity;
  }

  lemma FinalWithin(v: Votes, z: real, c: Config)
    requires Sound(c) && InRange(v)
    ensures -1.0 <= FinalScore(PriceSignal(v, c), VolumeBoost(z, c)) <= 1.0
  {
    VoteBounds(v, c);
    BoostBounds(z, c);
    FinalFacts(PriceSignal(v, c), VolumeBoost(z, c));
  }

  /** Some indicators make the scorer raise exactly when a normalising divisor is zero, and then all
      do, or the sensitivity is past the exponential's limit. */
  lemma FailsIff(c: Config, limit: real)
    requires Sound(c)
    ensures (exists i :: Fails(i, c, limit))
            <==> c.macdNormDivisor == 0.0 || c.vwapNormDivisor == 0.0 || c.sensitivity > limit
    ensures c.macdNormDivisor == 0.0 || c.vwapNormDivisor == 0.0 ==> forall i :: Fails(i, c, limit)
  {
    if c.macdNormDivisor == 0.0 || c.vwapNormDivisor == 0.0 {
      assert Fails(Worst(c), c, limit);
    } else if c.sensitivity > limit {
      WorstScore(c);
      assert Fails(Worst(c), c, limit);
    } else {
      forall i ensures !Fails(i, c, limit) {
        var v := VotesOf(i, c).value;
        var final := FinalScore(PriceSignal(v, c), VolumeBoost(i.volumeZScore, c));
        FinalWithin(v, i.volumeZScore, c);
        ArgumentBound(final, c.sensitivity, -final * c.sensitivity);
      }
    }
  }

  lemma NonZeroProduct(a: real, b: real, p: real)
    requires a != 0.0 && b != 0.0 && p == a * b
    ensures p != 0.0
  {
    assert p / b == a;
  }

  /* ---- who decides ---- */

  lemma BullSide(exp: real -> real, final: real, sensitivity: real)
    requires IsExp(exp) && sensitivity > 0.0
    ensures Bull(exp, final, sensitivity) > 0.5 <==> final > 0.0
    ensures Bull(exp, final, sensitivity) < 0.5 <==> final < 0.0
  {
    var x := final * sensitivity;
    ScaleSign(final, sensitivity, x);
    SigmoidMirror(exp, x);
    if x > 0.0 {
      SigmoidMonotone(exp, 0.0, x);
    } else if x < 0.0 {
      SigmoidMonotone(exp, x, 0.0);
    }
  }

  /** Volume never decides: the bull side of even odds is exactly a positive price signal, the bear
      side exactly a negative one; so with a buy threshold above one half and a sell threshold
      below it, a ready direction has the sign of the price signal. */
  lemma PriceDecides(exp: real -> real, i: Indicators, c: Config)
    requires IsExp(exp) && Sound(c) && ScoreIndicators(exp, i, c).Some?
    ensures var s := ScoreIndicators(exp, i, c).value;
            && (s.bull > 0.5 <==> s.priceSignal > 0.0)
            && (s.bull < 0.5 <==> s.priceSignal < 0.0)
            && (c.buyThreshold > 0.5 && s.direction == BuyReady ==> s.priceSignal > 0.0)
            && (c.sellThreshold < 0.5 && s.direction == SellReady ==> s.priceSignal < 0.0)
  {
    var s := ScoreIndicators(exp, i, c).value;
    Bounds(exp, i, c);
    BullSide(exp, s.finalScore, c.sensitivity);
  }

  /* ---- monotonicity ---- */

  lemma ClipMonotone(x: real, y: real)
    requires x <= y
    ensures Clip(x, -1.0, 1.0) <= Clip(y, -1.0, 1.0)
  {
  }

  lemma ScaledOrder(x: real, y: real, k: real, p: real, q: real)
    requires x <= y && k >= 0.0 && p == x * k && q == y * k
    ensures p <= q
  {
    assert q - p == (y - x) * k;
  }

  lemma DividedOrder(x: real, y: real, d: real, p: real, q: real)
    requires x <= y && d > 0.0 && p == x / d && q == y / d
    ensures p <= q
  {
    assert p * d == x && q * d == y;
    assert (q - p) * d == y - x;
    ScaleSign(q - p, d, (q - p) * d);
  }

  predicate VotesBelow(v: Votes, w: Votes) {
    v.macd <= w.macd && v.rsi <= w.rsi && v.bb <= w.bb && v.vwap <= w.vwap
  }

  lemma VotesMonotone(i: Indicators, j: Indicators, c: Config)
    requires c.macdNormDivisor > 0.0 && c.vwapNormDivisor > 0.0
    requires i.macdHist <= j.macdHist && i.rsi <= j.rsi
    requires i.bbPercentB <= j.bbPercentB && i.vwapDeviationPct <= j.vwapDeviationPct
    ensures VotesBelow(VotesOf(i, c).value, VotesOf(j, c).value)
  {
    var macd, macd' := i.macdHist / c.macdNormDivisor, j.macdHist / c.macdNormDivisor;
    var vwap, vwap' := i.vwapDeviationPct / c.vwapNormDivisor, j.vwapDeviationPct / c.vwapNormDivisor;
    DividedOrder(i.macdHist, j.macdHist, c.macdNormDivisor, macd, macd');
    DividedOrder(i.vwapDeviationPct, j.vwapDeviationPct, c.vwapNormDivisor, vwap, vwap');
    ClipMonotone(macd, macd');
    ClipMonotone(vwap, vwap');
    ClipMonotone((i.rsi - 50.0) / 50.0, (j.rsi - 50.0) / 50.0);
    ClipMonotone((i.bbPercentB - 0.5) * 2.0, (j.bbPercentB - 0.5) * 2.0);
  }

  lemma PriceSignalMonotone(v: Votes, w: Votes, c: Config)
    requires Sound(c) && VotesBelow(v, w)
    ensures PriceSignal(v, c) <= PriceSignal(w, c)
  {
    ScaledOrder(v.macd, w.macd, c.weightMacd, c.weightMacd * v.macd, c.weightMacd * w.macd);
    ScaledOrder(v.rsi, w.rsi, c.weightRsi, c.weightRsi * v.rsi, c.weightRsi * w.rsi);
    ScaledOrder(v.bb, w.bb, c.weightBb, c.weightBb * v.bb, c.weightBb * w.bb);
    ScaledOrder(v.vwap, w.vwap, c.weightVwap, c.weightVwap * v.vwap, c.weightVwap * w.vwap);
  }

  lemma FinalMonotone(price: real, price': real, boost: real)
    requires price <= price' && boost >= 0.0
    ensures FinalScore(price, boost) <= FinalScore(price', boost)
  {
    ScaledOrder(price, price', boost, price * boost, price' * boost);
  }

  lemma BullMonotone(exp: real -> real, final: real, final': real, sensitivity: real)
    requires IsExp(exp) && final <= final' && sensitivity >= 0.0
    ensures Bull(exp, final, sensitivity) <= Bull(exp, final', sensitivity)
  {
    var x, y := final * sensitivity, final' * sensitivity;
    ScaledOrder(final, final', sensitivity, x, y);
    if x < y {
      SigmoidMonotone(exp, x, y);
    }
  }

  lemma ScoreMonotone(exp: real -> real, v: Votes, w: Votes, z: real, c: Config)
    requires IsExp(exp) && Sound(c) && VotesBelow(v, w)
    ensures ScoreOf(exp, v, z, c).bull <= ScoreOf(exp, w, z, c).bull
  {
    var price, price', boost := PriceSignal(v, c), PriceSignal(w, c), VolumeBoost(z, c);
    PriceSignalMonotone(v, w, c);
    BoostBounds(z, c);
    FinalMonotone(price, price', boost);
    BullMonotone(exp, FinalScore(price, boost), FinalScore(price', boost), c.sensitivity);
  }

  /** At equal volume, raising any of the four price indicators never lowers the bull probability. */
  lemma Monotone(exp: real -> real, i: Indicators, j: Indicators, c: Config)
    requires IsExp(exp) && Sound(c) && c.macdNormDivisor > 0.0 && c.vwapNormDivisor > 0.0
    requires i.macdHist <= j.macdHist && i.rsi <= j.rsi
    requires i.bbPercentB <= j.bbPercentB && i.vwapDeviationPct <= j.vwapDeviationPct
    requires i.volumeZScore == j.volumeZScore
    ensures ScoreIndicators(exp, i, c).value.bull <= ScoreIndicators(exp, j, c).value.bull
  {
    VotesMonotone(i, j, c);
    ScoreMonotone(exp, VotesOf(i, c).value, VotesOf(j, c).value, i.volumeZScore, c);
  }

  /* ---- antisymmetry ---- */

  function Opposite(d: Direction): Direction {
    match d
    case BuyReady => SellReady
    case SellReady => BuyReady
    case Neutral => Neutral
  }

  /** The same market the other way up: every price vote negated. */
  function Mirror(i: Indicators): Indicators {
    Indicators(-i.macdHist, 100.0 - i.rsi, 1.0 - i.bbPercentB, -i.vwapDeviationPct, i.volumeZScore)
  }

  lemma NegatedQuotient(x: real, d: real)
    requires d != 0.0
    ensures (-x) / d == -(x / d)
  {
    var p, q := (-x) / d, x / d;
    assert p * d == -x && q * d == x;
    if p + q != 0.0 {
      NonZeroProduct(p + q, d, (p + q) * d);
    }
  }

  function Negated(v: Votes): Votes {
    Votes(-v.macd, -v.rsi, -v.bb, -v.vwap)
  }

  lemma MirrorVotes(i: Indicators, c: Config)
    requires VotesOf(i, c).Some?
    ensures VotesOf(Mirror(i), c) == Some(Negated(VotesOf(i, c).value))
  {
    NegatedQuotient(i.macdHist, c.macdNormDivisor);
    NegatedQuotient(i.vwapDeviationPct, c.vwapNormDivisor);
    NegatedQuotient(i.rsi - 50.0, 50.0);
  }

  lemma NegatedProduct(x: real, y: real)
    ensures (-x) * y == -(x * y)
  {
  }

  lemma NegatedSignal(v: Votes, c: Config)
    ensures PriceSignal(Negated(v), c) == -PriceSignal(v, c)
  {
    var macd, rsi, bb, vwap := c.weightMacd * v.macd, c.weightRsi * v.rsi, c.weightBb * v.bb, c.weightVwap * v.vwap;
    NegatedProduct(v.macd, c.weightMacd);
    NegatedProduct(v.rsi, c.weightRsi);
    NegatedProduct(v.bb, c.weightBb);
    NegatedProduct(v.vwap, c.weightVwap);
    Parts(v, c, macd, rsi, bb, vwap);
    Parts(Negated(v), c, -macd, -rsi, -bb, -vwap);
  }

  lemma NegatedFinal(price: real, boost: real)
    ensures FinalScore(-price, boost) == -FinalScore(price, boost)
  {
    NegatedProduct(price, boost);
  }

  lemma NegatedBull(exp: real -> real, final: real, sensitivity: real)
    requires IsExp(exp)
    ensures Bull(exp, -final, sensitivity) == 1.0 - Bull(exp, final, sensitivity)
  {
    NegatedProduct(final, sensitivity);
    SigmoidMirror(exp, final * sensitivity);
  }

  /** Negating the votes negates the score and swaps the probabilities. */
  lemma NegatedScore(exp: real -> real, v: Votes, z: real, c: Config)
    requires IsExp(exp)
    ensures var s, t := ScoreOf(exp, v, z, c), ScoreOf(exp, Negated(v), z, c);
            && t.priceSignal == -s.priceSignal && t.volumeBoost == s.volumeBoost
            && t.finalScore == -s.finalScore && t.bull == s.bear && t.bear == s.bull
  {
    var price, boost := PriceSignal(v, c), VolumeBoost(z, c);
    NegatedSignal(v, c);
    NegatedFinal(price, boost);
    NegatedBull(exp, FinalScore(price, boost), c.sensitivity);
  }

  /** Swapping the probabilities swaps the direction whatever they are, exactly when the thresholds
      are complementary and the buy threshold is above one half. */
  lemma SwapsIff(buy: real, sell: real)
    requires 0.0 < buy < 1.0 && 0.0 < sell < 1.0
    ensures (forall p :: 0.0 < p < 1.0 ==> DirectionOf(1.0 - p, buy, sell) == Opposite(DirectionOf(p, buy, sell)))
            <==> sell == 1.0 - buy && buy > 0.5
  {
    if forall p :: 0.0 < p < 1.0 ==> DirectionOf(1.0 - p, buy, sell) == Opposite(DirectionOf(p, buy, sell)) {
      assert DirectionOf(1.0 - 0.5, buy, sell) == Opposite(DirectionOf(0.5, buy, sell));
      assert DirectionOf(1.0 - buy, buy, sell) == Opposite(DirectionOf(buy, buy, sell));
      assert DirectionOf(1.0 - (1.0 - sell), buy, sell) == Opposite(DirectionOf(1.0 - sell, buy, sell));
    }
  }

  /** Turning the market the other way up negates the score, swaps bull and bear, and with
      complementary thresholds swaps the two ready directions. */
  lemma Antisymmetry(exp: real -> real, i: Indicators, c: Config)
    requires IsExp(exp) && ScoreIndicators(exp, i, c).Some?
    ensures ScoreIndicators(exp, Mirror(i), c).Some?
    ensures var s, t := ScoreIndicators(exp, i, c).value, ScoreIndicators(exp, Mirror(i), c).value;
            && t.finalScore == -s.finalScore && t.bull == s.bear && t.bear == s.bull
            && (c.sellThreshold == 1.0 - c.buyThreshold && c.buyThreshold > 0.5 ==>
                  t.direction == Opposite(s.direction))
  {
    MirrorVotes(i, c);
    NegatedScore(exp, VotesOf(i, c).value, i.volumeZScore, c);
  }

  /* ---- the shipped configuration ---- */

  function Name(d: Direction): string {
    match d
    case BuyReady => "BUY_READY"
    case SellReady => "SELL_READY"
    case Neutral => "NEUTRAL"
  }

  /** The configuration has the properties assumed above; and what it sends out as ready to buy is
      exactly what the swing handler takes for a convinced signal, so a signal is turned down for
      its candle or its lateness only. */
  lemma ShippedAgreesWithHandler(exp: real -> real, i: Indicators, close: real, candle: int)
    requires IsExp(exp)
    ensures Sound(SHIPPED) && SHIPPED.sellThreshold == 1.0 - SHIPPED.buyThreshold && SHIPPED.buyThreshold > 0.5
    ensures ScoreIndicators(exp, i, SHIPPED).Some? && !Fails(i, SHIPPED, SHIPPED.sensitivity)
    ensures var s := ScoreIndicators(exp, i, SHIPPED).value;
            Swing.Convinced(Swing.AiConfirmed(close, Name(s.direction), s.bull, candle)) <==> s.direction == BuyReady
  {
    FailsIff(SHIPPED, SHIPPED.sensitivity);
    assert Name(SellReady)[0] != Name(BuyReady)[0] && Name(Neutral)[0] != Name(BuyReady)[0];
  }
}
