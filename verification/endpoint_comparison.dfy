/**
 `Compare_endpoints_xy_2` from the Boolean set-operation traits: the
 lexicographic order of a directed x-monotone curve's source and target. The
 direction flag belongs to the x-monotone curve type, whose definition is not
 part of this model, so it is an input here.
 */
module EndpointComparison {
  import opened BezierTypes

  /** `SMALLER` for a curve directed right (source before target), otherwise
      `LARGER`; a curve's endpoints are never reported equal. */
  function CompareEndpointsXy(directedRight: bool): (r: Comparison)
    ensures r != Equal
    ensures r == Smaller <==> directedRight
    ensures r == Larger <==> !directedRight
  {
    if directedRight then Smaller else Larger
  }

  /** The comparison with its two sides exchanged. */
  function Reverse(r: Comparison): Comparison
  {
    match r
    case Smaller => Larger
    case Equal => Equal
    case Larger => Smaller
  }

  /** Reversing a curve's direction reverses the endpoint comparison. */
  lemma CompareEndpointsOfOpposite(directedRight: bool)
    ensures CompareEndpointsXy(!directedRight) == Reverse(CompareEndpointsXy(directedRight))
  {
  }
}
