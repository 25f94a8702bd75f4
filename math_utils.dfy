/** math_utils.py: the recency decay, the importance normalisation and the
    retrieval score of the memory store, over the reals. */
module MathUtils {
  import opened Timestamps

  /** DECAY_RATE and the three score weights (defines/defines.py). */
  const DECAY_RATE: real := 0.99
  const SCORE_ALPHA: real := 1.0
  const SCORE_BETA: real := 1.0
  const SCORE_GAMMA: real := 1.0

  /** math.exp, abstracted to a function that is 1 at 0. */
  type Exponential = f: real -> real | f(0.0) == 1.0 witness (x: real) => 1.0 + x

  /** The one further property of exp the decay argument needs. */
  ghost predicate StrictlyIncreasing(f: real -> real) {
    forall x, y | x < y :: f(x) < f(y)
  }

  /** calculate_recency: exp(-decay_rate * (current - access).total_seconds()). */
  function CalculateRecency(current: DateTime, access: DateTime, decayRate: real, exp: Exponential): real
  {
    exp(-decayRate * TotalSeconds(current, access))
  }

  /** An access at the current instant has recency exp(0) = 1, whatever the decay rate. */
  lemma RecencyOfNowIsOne(now: DateTime, decayRate: real, exp: Exponential)
    ensures CalculateRecency(now, now, decayRate, exp) == 1.0
  {
    assert TotalSeconds(now, now) == 0.0;
    assert -decayRate * 0.0 == 0.0;
  }

  /** With a positive decay rate, a more recent access has a strictly higher recency,
      and an access in the past has recency below one. */
  lemma RecencyDecays(now: DateTime, older: DateTime, newer: DateTime, decayRate: real, exp: Exponential)
    requires decayRate > 0.0 && StrictlyIncreasing(exp)
    requires Microseconds(older) < Microseconds(newer)
    ensures CalculateRecency(now, older, decayRate, exp) < CalculateRecency(now, newer, decayRate, exp)
    ensures Microseconds(newer) < Microseconds(now) ==> CalculateRecency(now, newer, decayRate, exp) < 1.0
  {
    var sOld := TotalSeconds(now, older);
    var sNew := TotalSeconds(now, newer);
    assert sNew < sOld;
    MultiplyPreservesOrder(decayRate, sNew, sOld);
    if Microseconds(newer) < Microseconds(now) {
      assert sNew > 0.0;
      MultiplyPreservesOrder(decayRate, 0.0, sNew);
    }
  }

  lemma MultiplyPreservesOrder(c: real, x: real, y: real)
    requires c > 0.0 && x < y
    ensures -c * y < -c * x
  {
  }

  /** normalize_value: maps a 1..10 rating onto 0..1 as (value - 1) / 9; the
      source applies it to any number, so the value is a real. */
  function NormalizeValue(value: real): real {
    (value - 1.0) / 9.0
  }

  /** 1 maps to 0, 10 to 1, higher ratings to higher values, and 1..10 into [0, 1]. */
  lemma NormalizeValueRange(value: real, other: real)
    ensures NormalizeValue(1.0) == 0.0 && NormalizeValue(10.0) == 1.0
    ensures value < other ==> NormalizeValue(value) < NormalizeValue(other)
    ensures 1.0 <= value <= 10.0 ==> 0.0 <= NormalizeValue(value) <= 1.0
  {
  }

  /** No range check: a rating outside 1..10 lands outside [0, 1]. */
  lemma NormalizeValueUnchecked()
    ensures NormalizeValue(0.0) < 0.0 && NormalizeValue(11.0) > 1.0
  {
  }

  /** calculate_score with explicit weights. */
  function CalculateWeightedScore(relevance: real, recency: real, importance: real,
                                  alpha: real, beta: real, gamma: real): real
  {
    alpha * relevance + beta * recency + gamma * importance
  }

  /** calculate_score with its default weights SCORE_ALPHA, SCORE_BETA and SCORE_GAMMA. */
  function CalculateScore(relevance: real, recency: real, importance: real): (r: real)
    ensures r == relevance + recency + importance
  {
    CalculateWeightedScore(relevance, recency, importance, SCORE_ALPHA, SCORE_BETA, SCORE_GAMMA)
  }

  /** With positive weights, raising any one component with the other two fixed
      raises the score. */
  lemma ScoreStrictlyIncreasing(relevance: real, recency: real, importance: real, delta: real,
                                alpha: real, beta: real, gamma: real)
    requires alpha > 0.0 && beta > 0.0 && gamma > 0.0 && delta > 0.0
    ensures var s := CalculateWeightedScore(relevance, recency, importance, alpha, beta, gamma);
      && s < CalculateWeightedScore(relevance + delta, recency, importance, alpha, beta, gamma)
      && s < CalculateWeightedScore(relevance, recency + delta, importance, alpha, beta, gamma)
      && s < CalculateWeightedScore(relevance, recency, importance + delta, alpha, beta, gamma)
  {
    assert alpha * (relevance + delta) == alpha * relevance + alpha * delta;
    assert beta * (recency + delta) == beta * recency + beta * delta;
    assert gamma * (importance + delta) == gamma * importance + gamma * delta;
  }

  /** The three scores of the retrieval paper that the test suite checks. */
  lemma ScoresOfPaper()
    ensures CalculateScore(0.91, 0.63, 0.80) == 2.34
    ensures CalculateScore(0.87, 0.63, 0.71) == 2.21
    ensures CalculateScore(0.85, 0.73, 0.62) == 2.20
  {
  }
}
