/**
 * The risk tier a λF score falls into, and the status string saved with it.
 */
module Status {

  datatype Tier = Normal | Risky | Critical
  {
    /** The status string stored with a saved simulation. */
    function Label(): string
    {
      match this
      case Normal => "Normal"
      case Risky => "Risky"
      case Critical => "Critical"
    }

    /** The tiers in increasing order of severity. */
    function Severity(): nat
    {
      match this
      case Normal => 0
      case Risky => 1
      case Critical => 2
    }
  }

  /** Fixed thresholds, strict comparisons, checked from the highest down. */
  function TierOf(lambdaF: real): (t: Tier)
    ensures t == Critical <==> lambdaF > 0.7
    ensures t == Risky <==> 0.5 < lambdaF <= 0.7
    ensures t == Normal <==> lambdaF <= 0.5
  {
    if lambdaF > 0.7 then Critical
    else if lambdaF > 0.5 then Risky
    else Normal
  }

  /** A higher score never gives a less severe tier. */
  lemma TierMonotone(lower: real, higher: real)
    requires lower <= higher
    ensures TierOf(lower).Severity() <= TierOf(higher).Severity()
  {
  }
}
