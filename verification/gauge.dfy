/** The engagement gauge (components/EngagementGauge.tsx): the score shown
    and its colour band. Scores are in thousandths. */
module Gauge {
  import opened Common
  import opened Constants

  /** While not tracking the gauge shows a full score. */
  function NormalizedScore(score: int, isTracking: bool): (n: int)
    ensures isTracking ==> n == score
    ensures !isTracking ==> n == MaxEngagementScore
  {
    if isTracking then score else MaxEngagementScore
  }

  datatype StrokeColor = BrandSecondary | Yellow | Red

  /** Above 0.7 the brand colour, above 0.4 yellow, red otherwise. */
  function GetStrokeColor(normalizedScore: int): (c: StrokeColor)
    ensures c == BrandSecondary <==> normalizedScore > 700
    ensures c == Yellow <==> 400 < normalizedScore <= 700
    ensures c == Red <==> normalizedScore <= 400
  {
    if normalizedScore > 700 then BrandSecondary
    else if normalizedScore > 400 then Yellow
    else Red
  }

  /** The bands ordered from worst to best. */
  function Rank(c: StrokeColor): nat
  {
    match c
    case Red => 0
    case Yellow => 1
    case BrandSecondary => 2
  }

  /** A higher score never gets a worse colour. */
  lemma ColorMonotone(a: int, b: int)
    requires a <= b
    ensures Rank(GetStrokeColor(a)) <= Rank(GetStrokeColor(b))
  {
  }

  /** The number in the middle of the gauge: the normalized score as a rounded percentage. */
  function DisplayedValue(score: int, isTracking: bool): (v: int)
    ensures 10 * v - 5 <= NormalizedScore(score, isTracking) < 10 * v + 5
    ensures 0 <= score <= MaxEngagementScore ==> 0 <= v <= 100
    ensures !isTracking ==> v == 100
  {
    RoundedPercent(NormalizedScore(score, isTracking))
  }
}
