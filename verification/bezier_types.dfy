/**
 The value types the Bezier arrangement traits work with: curves, the interval
 bounds the bounding traits report for vertical-tangency parameters, points
 (exact at a known parameter, or approximate and carrying the bound that
 produced them) and x-monotone sub-curves. `real` models both the exact
 rationals and the algebraic tangency parameters the cache computes.
 */
module BezierTypes {

  /** The stable integer identity of a Bezier curve (`B.id()`). */
  type CurveId = nat

  datatype Option<T> = None | Some(value: T)

  /** A rational control point. */
  datatype ControlPoint = ControlPoint(x: real, y: real)

  /** A Bezier curve: its identity and its ordered control points. */
  datatype Curve = Curve(id: CurveId, controlPoints: seq<ControlPoint>)

  /** Whether a bound has collapsed to one exact rational parameter. */
  datatype BoundKind = RationalPt | ApproximatePt

  /** An interval bound `[tMin, tMax]` on the parameter of a vertical tangency. */
  datatype Bound = Bound(tMin: real, tMax: real, canRefine: bool, kind: BoundKind)

  /** The bounding box the bounding traits attach to a bound. */
  datatype BBox = BBox(xMin: real, xMax: real, yMin: real, yMax: real)

  /** One entry of the bounding traits' output: a bound with its box. */
  datatype TangPair = TangPair(bound: Bound, bbox: BBox)

  /** Where a point lies on its curve: at an exact parameter, or somewhere
      inside the bound recorded by its originator. */
  datatype Position = AtParam(t: real) | Originator(bound: Bound)

  /** A point on curve `curve`; `bbox` is the box set on it explicitly, if any. */
  datatype Point = Point(curve: CurveId, pos: Position, bbox: Option<BBox>)

  /** An x-monotone sub-curve of `curve`, from `source` to `target`. */
  datatype SubCurve = SubCurve(curve: CurveId, source: Point, target: Point)

  datatype Comparison = Smaller | Equal | Larger

  /** The bounding traits promise that a rational bound is a single value. */
  predicate WellFormedBound(b: Bound)
  {
    b.tMin <= b.tMax && (b.kind == RationalPt ==> b.tMin == b.tMax)
  }

  /** The lower end of the parameter range a point is known to lie in. */
  function ParamLo(p: Point): real
  {
    match p.pos
    case AtParam(t) => t
    case Originator(b) => b.tMin
  }

  /** The upper end of the parameter range a point is known to lie in. */
  function ParamHi(p: Point): real
  {
    match p.pos
    case AtParam(t) => t
    case Originator(b) => b.tMax
  }
}
