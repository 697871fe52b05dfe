/** The arithmetic of GetRecommendationsAsync: sanitising a model prediction,
    the combined and fallback scores, and the 0-100 display score. Scores are
    reals; a float that may be NaN or infinite is the `Float` datatype. */
module Scoring {
  import opened Entities

  /** A single-precision value as far as the scoring cares: finite, NaN or infinite. */
  datatype Float = Finite(value: real) | NaN | PositiveInfinity | NegativeInfinity

  /** One call of PredictionEngine.Predict: a score, or an exception. */
  datatype Prediction = Predicted(score: Float) | Threw

  /** Math.Max(lo, Math.Min(x, hi)) on a finite value. */
  function Clamp(x: real, lo: real, hi: real): (r: real)
    requires lo <= hi
    ensures lo <= r <= hi
    ensures lo <= x <= hi ==> r == x
    ensures x < lo ==> r == lo
    ensures hi < x ==> r == hi
  {
    if x < lo then lo else if hi < x then hi else x
  }

  /** NaN and both infinities become 0; the result is then clamped to [0, 10]. */
  function SanitizedModelScore(f: Float): (r: real)
    ensures 0.0 <= r <= 10.0
    ensures !f.Finite? ==> r == 0.0
    ensures f.Finite? ==> r == Clamp(f.value, 0.0, 10.0)
  {
    match f
    case Finite(x) => Clamp(x, 0.0, 10.0)
    case _ => 0.0
  }

  /** 60% model score, 20% rating, 20% popularity / 10. */
  function CombinedScore(modelScore: real, show: Show): (r: real)
    ensures 0.0 <= modelScore <= 10.0 && 0.0 <= show.rating <= 10.0 && 0.0 <= show.popularity <= 100.0 ==>
              0.0 <= r <= 10.0
    ensures 0.0 <= show.rating && 0.0 <= show.popularity ==> modelScore * 0.6 <= r
  {
    modelScore * 0.6 + show.rating * 0.2 + show.popularity / 10.0 * 0.2
  }

  /** The score when the prediction throws: half rating, half popularity / 10. */
  function FallbackScore(show: Show): (r: real)
    ensures 0.0 <= show.rating <= 10.0 && 0.0 <= show.popularity <= 100.0 ==> 0.0 <= r <= 10.0
    ensures show.rating == show.popularity / 10.0 ==> r == show.rating
  {
    show.rating * 0.5 + show.popularity / 10.0 * 0.5
  }

  /** The score one candidate enters the ranking with. */
  function CandidateScore(p: Prediction, show: Show): (r: real)
    ensures p.Threw? ==> r == FallbackScore(show)
    ensures p.Predicted? ==> 0.0 <= r - (show.rating * 0.2 + show.popularity * 0.02) <= 6.0
  {
    match p
    case Threw => FallbackScore(show)
    case Predicted(f) => CombinedScore(SanitizedModelScore(f), show)
  }

  /** Both formulas stay within [0, 10] for shows whose rating is in [0, 10]
      and popularity in [0, 100]; whatever the model predicts, the combined
      score moves the rating-and-popularity part by at most 6. */
  lemma CandidateScoreBounds(p: Prediction, show: Show)
    requires 0.0 <= show.rating <= 10.0 && 0.0 <= show.popularity <= 100.0
    ensures 0.0 <= CandidateScore(p, show) <= 10.0
    ensures p.Predicted? ==> show.rating * 0.2 + show.popularity * 0.02 <= CandidateScore(p, show)
                                <= show.rating * 0.2 + show.popularity * 0.02 + 6.0
  {
  }

  /** A higher model score never lowers the combined score. */
  lemma CombinedScoreMonotone(a: real, b: real, show: Show)
    requires a <= b
    ensures CombinedScore(a, show) <= CombinedScore(b, show)
  {
  }

  /** Math.Max(lo, Math.Min(x, hi)) on floats: NaN passes through both. */
  function ClampFloat(x: Float, lo: real, hi: real): (r: Float)
    requires lo <= hi
    ensures r.NaN? <==> x.NaN?
    ensures r.Finite? ==> lo <= r.value <= hi
  {
    match x
    case NaN => NaN
    case PositiveInfinity => Finite(hi)
    case NegativeInfinity => Finite(lo)
    case Finite(v) => Finite(Clamp(v, lo, hi))
  }

  /** Math.Round(y) to a whole number with MidpointRounding.ToEven. */
  function RoundHalfEven(y: real): (n: int)
    ensures y.Floor <= n <= y.Floor + 1
    ensures -0.5 <= n as real - y <= 0.5
  {
    var f := y.Floor;
    var frac := y - f as real;
    if frac < 0.5 then f
    else if frac > 0.5 then f + 1
    else if f % 2 == 0 then f else f + 1
  }

  lemma RoundHalfEvenMonotone(a: real, b: real)
    requires a <= b
    ensures RoundHalfEven(a) <= RoundHalfEven(b)
  {
    if a.Floor < b.Floor {
      assert RoundHalfEven(a) <= a.Floor + 1 <= b.Floor <= RoundHalfEven(b);
    }
  }

  /** A score as displayed: within [0, 100], with at most one decimal. */
  predicate IsDisplayScore(x: real) {
    0.0 <= x <= 100.0 && (x * 10.0).Floor as real == x * 10.0
  }

  /** The display score: the score clamped to [0, 10], times ten, rounded to
      one decimal with ties to even; a NaN that survives the clamp makes the
      decimal conversion throw, and the catch answers 0. */
  function DisplayScore(raw: Float): (r: real)
    ensures IsDisplayScore(r)
    ensures raw.NaN? ==> r == 0.0
    ensures raw.Finite? ==> -0.05 <= r - Clamp(raw.value, 0.0, 10.0) * 10.0 <= 0.05
  {
    match ClampFloat(raw, 0.0, 10.0)
    case Finite(safe) =>
      var n := RoundHalfEven(safe * 100.0);
      assert 0 <= n <= 1000 by {
        assert (safe * 100.0).Floor <= 1000;
      }
      n as real / 10.0
    case _ => 0.0
  }

  /** A higher score never shows a lower display score, so a list ranked by
      score shows non-increasing display scores. */
  lemma DisplayScoreMonotone(a: real, b: real)
    requires a <= b
    ensures DisplayScore(Finite(a)) <= DisplayScore(Finite(b))
  {
    var sa, sb := Clamp(a, 0.0, 10.0), Clamp(b, 0.0, 10.0);
    RoundHalfEvenMonotone(sa * 100.0, sb * 100.0);
  }

  /** Degenerate inputs: NaN shows 0, positive infinity 100, negative infinity 0. */
  lemma DisplayScoreOfNonFinite()
    ensures DisplayScore(NaN) == 0.0
    ensures DisplayScore(PositiveInfinity) == 100.0
    ensures DisplayScore(NegativeInfinity) == 0.0
  {
  }
}
