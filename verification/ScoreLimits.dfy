/** Correction feedback: scores are at most a million either way. */
module ScoreLimits {
  const MAX_SCORE := 1000000

  function Clamp(n: int): (r: int) {
    if n > MAX_SCORE then MAX_SCORE else if n < -MAX_SCORE then -MAX_SCORE else n
  }

  /** Feedback beyond the limits moves a score as far as the exact sum would in
      exactly these cases: it is within the limits, or it pushes the score away
      from zero, where both sums saturate. */
  lemma ClampedFeedbackIsExactUnless(score: int, delta: int)
    requires -MAX_SCORE <= score <= MAX_SCORE
    ensures Clamp(score + Clamp(delta)) == Clamp(score + delta) <==>
              || -MAX_SCORE <= delta <= MAX_SCORE
              || (delta > MAX_SCORE && score >= 0)
              || (delta < -MAX_SCORE && score <= 0)
  {
  }

  /** Two million on the lowest score: the exact sum is the highest score, the
      clamped feedback only reaches zero. */
  lemma LargeFeedbackFallsShort()
    ensures Clamp(-MAX_SCORE + Clamp(2 * MAX_SCORE)) == 0 && Clamp(-MAX_SCORE + 2 * MAX_SCORE) == MAX_SCORE
  {
  }
}
