/** The score by its equations: what the votes, the boost, the final score and the probability each
    satisfy, without clipping or dividing. */
module ScorerLaws {
  import opened Scorer
  import opened Wrappers

  /** `v` is `num` parts in `den`, and no more than one whole either way. */
  predicate Clamped(v: real, num: real, den: real) {
    if num >= den then v == 1.0 else if num <= -den then v == -1.0 else v * den == num
  }

  predicate IsVote(v: real, num: real, den: real) {
    if den < 0.0 then Clamped(v, -num, -den) else Clamped(v, num, den)
  }

  lemma QuotientOrder(num: real, den: real, q: real)
    requires den > 0.0 && q * den == num
    ensures (q >= 1.0 <==> num >= den) && (q <= -1.0 <==> num <= -den)
  {
    assert (q - 1.0) * den == num - den && (q + 1.0) * den == num + den;
    ScaleSign(q - 1.0, den, num - den);
    ScaleSign(q + 1.0, den, num + den);
  }

  lemma ClippedQuotient(num: real, den: real, q: real)
    requires den > 0.0 && q * den == num
    ensures Clamped(Clip(q, -1.0, 1.0), num, den)
  {
    QuotientOrder(num, den, q);
  }

  lemma VoteOf(num: real, den: real, q: real)
    requires den != 0.0 && q == num / den
    ensures IsVote(Clip(q, -1.0, 1.0), num, den)
  {
    assert q * den == num;
    if den < 0.0 {
      ClippedQuotient(-num, -den, q);
    } else {
      ClippedQuotient(num, den, q);
    }
  }

  predicate AreVotes(v: Votes, i: Indicators, macdUnit: real, vwapUnit: real) {
    && IsVote(v.macd, i.macdHist, macdUnit) && IsVote(v.rsi, i.rsi - 50.0, 50.0)
    && IsVote(v.bb, i.bbPercentB - 0.5, 0.5) && IsVote(v.vwap, i.vwapDeviationPct, vwapUnit)
  }

  lemma VotesBy(i: Indicators, c: Config) returns (v: Votes)
    requires c.macdNormDivisor != 0.0 && c.vwapNormDivisor != 0.0
    ensures VotesOf(i, c) == Some(v) && AreVotes(v, i, c.macdNormDivisor, c.vwapNormDivisor)
  {
    v := VotesOf(i, c).value;
    VoteOf(i.macdHist, c.macdNormDivisor, i.macdHist / c.macdNormDivisor);
    VoteOf(i.rsi - 50.0, 50.0, (i.rsi - 50.0) / 50.0);
    VoteOf(i.bbPercentB - 0.5, 0.5, (i.bbPercentB - 0.5) / 0.5);
    VoteOf(i.vwapDeviationPct, c.vwapNormDivisor, i.vwapDeviationPct / c.vwapNormDivisor);
  }

  /** The boost grows evenly with the z-score from one at zero to the whole weight at the cap. */
  predicate IsBoost(boost: real, z: real, cap: real, weight: real) {
    if cap <= 0.0 || z <= 0.0 then boost == 1.0
    else if z >= cap then boost == 1.0 + weight
    else (boost - 1.0) * cap == weight * z
  }

  lemma PartBoost(r: real, z: real, cap: real, weight: real, boost: real)
    requires r * cap == z && boost == 1.0 + weight * r
    ensures (boost - 1.0) * cap == weight * z
  {
    assert (weight * r) * cap == weight * (r * cap);
  }

  lemma BoostBy(z: real, c: Config)
    ensures IsBoost(VolumeBoost(z, c), z, c.volumeZScoreCap, c.volumeBoostWeight)
  {
    var cap, weight := c.volumeZScoreCap, c.volumeBoostWeight;
    var r := BoostRatio(z, cap);
    if cap > 0.0 {
      assert r * cap == Clip(z, 0.0, cap);
      RatioBounds(z, cap, r);
      if 0.0 < z < cap {
        PartBoost(r, z, cap, weight, VolumeBoost(z, c));
      } else if z <= 0.0 {
        assert r == 0.0;
      }
    }
  }

  /** `p` has odds `exp(x)`. */
  ghost predicate IsLogistic(exp: real -> real, p: real, x: real) {
    p * (1.0 + exp(-x)) == 1.0
  }

  lemma BullBy(exp: real -> real, final: real, sensitivity: real, x: real)
    requires IsExp(exp) && x == final * sensitivity
    ensures IsLogistic(exp, Bull(exp, final, sensitivity), x)
  {
    Reciprocal(1.0 + exp(-x), 1.0 / (1.0 + exp(-x)));
  }

  predicate Decides(d: Direction, bull: real, buy: real, sell: real) {
    && (d == BuyReady <==> bull >= buy)
    && (d == SellReady <==> bull < buy && bull <= sell)
  }

  lemma FinalBy(price: real, boost: real, p: real)
    requires p == price * boost
    ensures Clamped(FinalScore(price, boost), p, 1.0)
  {
  }

  predicate IsWeighed(price: real, v: Votes, macd: real, rsi: real, bb: real, vwap: real) {
    price == macd * v.macd + rsi * v.rsi + bb * v.bb + vwap * v.vwap
  }

  /** From the votes on: `p` is the amplified signal and `x` the sigmoid's argument. */
  lemma TailBy(exp: real -> real, v: Votes, z: real, c: Config, s: Score, p: real, x: real)
    requires IsExp(exp) && s == ScoreOf(exp, v, z, c)
    requires p == s.priceSignal * s.volumeBoost && x == s.finalScore * c.sensitivity
    ensures IsWeighed(s.priceSignal, v, c.weightMacd, c.weightRsi, c.weightBb, c.weightVwap)
    ensures Clamped(s.finalScore, p, 1.0)
    ensures IsLogistic(exp, s.bull, x) && s.bear == 1.0 - s.bull
    ensures Decides(s.direction, s.bull, c.buyThreshold, c.sellThreshold)
  {
    FinalBy(s.priceSignal, s.volumeBoost, p);
    BullBy(exp, s.finalScore, c.sensitivity, x);
  }

  lemma DivisorsDiffer(i: Indicators, c: Config)
    ensures VotesOf(i, c).Some? <==> c.macdNormDivisor != 0.0 && c.vwapNormDivisor != 0.0
  {
  }

  /** The score follows from the indicators by these equations, which leave no choice: `p` is the
      amplified signal, and `x` the final score in units of the sensitivity. */
  lemma ScoreByEquations(exp: real -> real, i: Indicators, c: Config, s: Score) returns (v: Votes, p: real, x: real)
    requires IsExp(exp) && ScoreIndicators(exp, i, c) == Some(s)
    ensures c.macdNormDivisor != 0.0 && c.vwapNormDivisor != 0.0
    ensures AreVotes(v, i, c.macdNormDivisor, c.vwapNormDivisor)
    ensures IsWeighed(s.priceSignal, v, c.weightMacd, c.weightRsi, c.weightBb, c.weightVwap)
    ensures IsBoost(s.volumeBoost, i.volumeZScore, c.volumeZScoreCap, c.volumeBoostWeight)
    ensures p == s.priceSignal * s.volumeBoost && Clamped(s.finalScore, p, 1.0)
    ensures x == s.finalScore * c.sensitivity && IsLogistic(exp, s.bull, x) && s.bear == 1.0 - s.bull
    ensures Decides(s.direction, s.bull, c.buyThreshold, c.sellThreshold)
  {
    DivisorsDiffer(i, c);
    v := VotesBy(i, c);
    BoostBy(i.volumeZScore, c);
    p, x := s.priceSignal * s.volumeBoost, s.finalScore * c.sensitivity;
    TailBy(exp, v, i.volumeZScore, c, s, p, x);
  }

  /** As shipped. */
  lemma ShippedByEquations(exp: real -> real, i: Indicators, s: Score) returns (v: Votes, p: real)
    requires IsExp(exp) && ScoreIndicators(exp, i, SHIPPED) == Some(s)
    ensures AreVotes(v, i, 500.0, 3.0) && IsWeighed(s.priceSignal, v, 0.30, 0.25, 0.25, 0.20)
    ensures IsBoost(s.volumeBoost, i.volumeZScore, 5.0, 0.5)
    ensures p == s.priceSignal * s.volumeBoost && Clamped(s.finalScore, p, 1.0)
    ensures IsLogistic(exp, s.bull, 4.0 * s.finalScore) && s.bear == 1.0 - s.bull
    ensures Decides(s.direction, s.bull, 0.65, 0.35)
  {
    var x;
    v, p, x := ScoreByEquations(exp, i, SHIPPED, s);
  }
}
