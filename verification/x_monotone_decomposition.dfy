/**
 `Make_x_monotone_2`: cutting a Bezier curve into x-monotone sub-curves at its
 vertical-tangency points. The bounding traits' interval bounds are extracted
 in order of `t_min` and turned into points; if every bound could be refined,
 the sub-curves chain `t = 0` through those points to `t = 1`; otherwise they
 chain through the exact tangency parameters kept by the cache.
 */
module XMonotoneDecomposition {
  import opened BezierTypes
  import opened TangencyExtraction

  /** The exact point of curve `c` at parameter `t` (`Point_2(B, t)`): a
      rational parameter, or an algebraic root computed by the cache. */
  function ExactPoint(c: Curve, t: real): Point
  {
    Point(c.id, AtParam(t), None)
  }

  /** The point made from one extracted bound: exact at `t_min` for a
      rational bound, otherwise an approximate point whose originator is the
      bound; either way the bound's box is set on it. A well-formed bound
      (the source asserts `t_min == t_max` for rational ones) is exactly the
      parameter range the point is known to lie in. */
  function TangencyPoint(c: Curve, tp: TangPair): (p: Point)
    ensures p.curve == c.id && p.bbox == Some(tp.bbox)
    ensures p.pos.AtParam? <==> tp.bound.kind == RationalPt
    ensures p.pos.Originator? ==> p.pos.bound == tp.bound
    ensures ParamLo(p) == tp.bound.tMin
    ensures WellFormedBound(tp.bound) ==> ParamHi(p) == tp.bound.tMax
  {
    var pos := if tp.bound.kind == RationalPt then AtParam(tp.bound.tMin) else Originator(tp.bound);
    Point(c.id, pos, Some(tp.bbox))
  }

  /** The points made from the bounds, in extraction order. */
  function TangencyPoints(c: Curve, bs: seq<TangPair>, order: seq<nat>): (pts: seq<Point>)
    requires InRange(order, |bs|)
    ensures |pts| == |order|
    ensures forall i :: 0 <= i < |order| ==> pts[i] == TangencyPoint(c, bs[order[i]])
  {
    seq(|order|, i requires 0 <= i < |order| => TangencyPoint(c, bs[order[i]]))
  }

  /** The exact points at the cached tangency parameters, in the cache's order. */
  function ExactPoints(c: Curve, ts: seq<real>): (pts: seq<Point>)
    ensures |pts| == |ts|
    ensures forall i :: 0 <= i < |ts| ==> pts[i] == ExactPoint(c, ts[i])
  {
    seq(|ts|, i requires 0 <= i < |ts| => ExactPoint(c, ts[i]))
  }

  /** Every sub-curve starts where the previous one ends. */
  predicate Contiguous(r: seq<SubCurve>)
  {
    forall i :: 0 < i < |r| ==> r[i].source == r[i - 1].target
  }

  /** The sub-curves emitted from start point `p0`: one from `p0` to each
      point in turn, then a last one from the previous point to `t = 1`. */
  function ChainFrom(c: Curve, p0: Point, pts: seq<Point>): (r: seq<SubCurve>)
    ensures |r| == |pts| + 1
    ensures r[0].source == p0
    ensures r[|r| - 1].target == ExactPoint(c, 1.0)
    ensures forall i :: 0 <= i < |pts| ==> r[i].target == pts[i] && r[i + 1].source == pts[i]
    ensures forall i :: 0 <= i < |r| ==> r[i].curve == c.id
    ensures Contiguous(r)
    decreases |pts|
  {
    if |pts| == 0 then
      [SubCurve(c.id, p0, ExactPoint(c, 1.0))]
    else
      [SubCurve(c.id, p0, pts[0])] + ChainFrom(c, pts[0], pts[1..])
  }

  /** The points where consecutive sub-curves meet. */
  function Junctions(r: seq<SubCurve>): (pts: seq<Point>)
    requires |r| > 0
    ensures |pts| == |r| - 1
    ensures forall i :: 0 <= i < |pts| ==> pts[i] == r[i].target
  {
    seq(|r| - 1, i requires 0 <= i < |r| - 1 => r[i].target)
  }

  /** A chain of `c` from the exact point at `t = 0` to the one at `t = 1`. */
  predicate IsChainOf(c: Curve, r: seq<SubCurve>)
  {
    |r| > 0 && Contiguous(r) &&
    r[0].source == ExactPoint(c, 0.0) && r[|r| - 1].target == ExactPoint(c, 1.0) &&
    forall i :: 0 <= i < |r| ==> r[i].curve == c.id
  }

  /** The chain `t = 0 -> pts[0] -> ... -> t = 1`; its junctions are
      exactly `pts`, in order. */
  function Chain(c: Curve, pts: seq<Point>): (r: seq<SubCurve>)
    ensures IsChainOf(c, r)
    ensures Junctions(r) == pts
  {
    ChainFrom(c, ExactPoint(c, 0.0), pts)
  }

  /** Conversely, every chain of `c` is the one built from its junctions. */
  lemma {:induction false} ChainDeterminedByJunctions(c: Curve, r: seq<SubCurve>)
    requires IsChainOf(c, r)
    ensures Chain(c, Junctions(r)) == r
  {
    ChainFromJunctions(c, r);
  }

  /** Induction for `ChainDeterminedByJunctions`, on chains from any start. */
  lemma {:induction false} ChainFromJunctions(c: Curve, r: seq<SubCurve>)
    requires |r| > 0 && Contiguous(r) && r[|r| - 1].target == ExactPoint(c, 1.0)
    requires forall i :: 0 <= i < |r| ==> r[i].curve == c.id
    ensures ChainFrom(c, r[0].source, Junctions(r)) == r
    decreases |r|
  {
    if |r| > 1 {
      var rest := r[1..];
      ChainFromJunctions(c, rest);
      assert Junctions(r)[1..] == Junctions(rest);
      assert rest[0].source == Junctions(r)[0];
    }
  }

  /** The lower parameter ends of `pts` never decrease and lie in `[0, 1]`. */
  predicate OrderedInUnit(pts: seq<Point>)
  {
    (forall i, j :: 0 <= i < j < |pts| ==> ParamLo(pts[i]) <= ParamLo(pts[j])) &&
    (forall i :: 0 <= i < |pts| ==> 0.0 <= ParamLo(pts[i]) <= 1.0)
  }

  /** Parameter `t` lies in the range spanned by one of the sub-curves. */
  ghost predicate Covered(r: seq<SubCurve>, t: real)
  {
    exists i :: 0 <= i < |r| && ParamLo(r[i].source) <= t <= ParamLo(r[i].target)
  }

  /** The sub-curves' parameter ranges partition `[0, 1]`: they start at 0,
      end at 1, are ordered, overlap at most at shared endpoints, and leave
      no gap. */
  ghost predicate PartitionsUnit(r: seq<SubCurve>)
  {
    |r| > 0 &&
    ParamLo(r[0].source) == 0.0 && ParamLo(r[|r| - 1].target) == 1.0 &&
    (forall i :: 0 <= i < |r| ==> ParamLo(r[i].source) <= ParamLo(r[i].target)) &&
    (forall i, j :: 0 <= i < j < |r| ==> ParamLo(r[i].target) <= ParamLo(r[j].source)) &&
    (forall t :: 0.0 <= t <= 1.0 ==> Covered(r, t))
  }

  /** Chaining through ordered points of `[0, 1]` partitions `[0, 1]`. */
  lemma {:induction false} ChainPartitionsUnit(c: Curve, pts: seq<Point>)
    requires OrderedInUnit(pts)
    ensures PartitionsUnit(Chain(c, pts))
  {
    var r := Chain(c, pts);
    ChainFromCovers(c, ExactPoint(c, 0.0), pts);
    forall i | 0 <= i < |r|
      ensures ParamLo(r[i].source) <= ParamLo(r[i].target)
    {
      if i < |pts| {
        assert r[i].target == pts[i];
      }
      if i > 0 {
        assert r[i].source == pts[i - 1];
      }
    }
    forall i, j | 0 <= i < j < |r|
      ensures ParamLo(r[i].target) <= ParamLo(r[j].source)
    {
      assert r[i].target == pts[i] && r[j].source == pts[j - 1];
    }
  }

  /** Induction for `ChainPartitionsUnit`: the chain from `p0` covers
      `[ParamLo(p0), 1]`. */
  lemma {:induction false} ChainFromCovers(c: Curve, p0: Point, pts: seq<Point>)
    requires OrderedInUnit(pts)
    requires forall i :: 0 <= i < |pts| ==> ParamLo(p0) <= ParamLo(pts[i])
    ensures forall t :: ParamLo(p0) <= t <= 1.0 ==> Covered(ChainFrom(c, p0, pts), t)
    decreases |pts|
  {
    var r := ChainFrom(c, p0, pts);
    if |pts| > 0 {
      var rest := pts[1..];
      assert OrderedInUnit(rest) by {
        assert forall i :: 0 <= i < |rest| ==> rest[i] == pts[i + 1];
      }
      ChainFromCovers(c, pts[0], rest);
      assert r[1..] == ChainFrom(c, pts[0], rest);
      forall t | ParamLo(p0) <= t <= 1.0
        ensures Covered(r, t)
      {
        if t <= ParamLo(pts[0]) {
          assert ParamLo(r[0].source) <= t <= ParamLo(r[0].target);
        } else {
          assert Covered(ChainFrom(c, pts[0], rest), t);
          var i :| 0 <= i < |r[1..]| && ParamLo(r[1..][i].source) <= t <= ParamLo(r[1..][i].target);
          assert r[i + 1] == r[1..][i];
        }
      }
    } else {
      forall t | ParamLo(p0) <= t <= 1.0
        ensures Covered(r, t)
      {
        assert ParamLo(r[0].source) <= t <= ParamLo(r[0].target);
      }
    }
  }

  /** The loop emitting the sub-curves: from the exact point at `t = 0`
      through each point in turn, then to the exact point at `t = 1`. */
  method EmitSubCurves(c: Curve, pts: seq<Point>) returns (out: seq<SubCurve>)
    ensures IsChainOf(c, out)
    ensures Junctions(out) == pts
  {
    out := [];
    var p0 := ExactPoint(c, 0.0);
    var i := 0;
    while i < |pts|
      invariant 0 <= i <= |pts| && |out| == i
      invariant p0 == if i == 0 then ExactPoint(c, 0.0) else pts[i - 1]
      invariant i > 0 ==> out[0].source == ExactPoint(c, 0.0)
      invariant forall j :: 0 <= j < i ==> out[j].target == pts[j] && out[j].curve == c.id
      invariant Contiguous(out)
    {
      out := out + [SubCurve(c.id, p0, pts[i])];
      p0 := pts[i];
      i := i + 1;
    }
    out := out + [SubCurve(c.id, p0, ExactPoint(c, 1.0))];
  }

  /** The tangency bounds lie in `[0, 1]`, the range they were asked for. */
  predicate BoundsInUnit(bs: seq<TangPair>)
  {
    forall i :: 0 <= i < |bs| ==> 0.0 <= bs[i].bound.tMin <= 1.0
  }

  /** The cached exact tangency parameters are sorted and lie in `[0, 1]`. */
  predicate SortedInUnit(ts: seq<real>)
  {
    (forall i, j :: 0 <= i < j < |ts| ==> ts[i] <= ts[j]) &&
    (forall i :: 0 <= i < |ts| ==> 0.0 <= ts[i] <= 1.0)
  }

  /** `Make_x_monotone_2`. The bounding traits and the cache's exact
      vertical-tangency computation are given as functions. */
  method MakeXMonotone(c: Curve,
                       verticalTangencyBounds: seq<ControlPoint> -> seq<TangPair>,
                       cachedTangencies: CurveId -> seq<real>)
    returns (out: seq<SubCurve>)
    ensures IsChainOf(c, out)
    ensures var bs := verticalTangencyBounds(c.controlPoints);
      AllRefinable(bs) ==>
        |out| == |bs| + 1 &&
        exists order :: IsStableSort(bs, order) && Junctions(out) == TangencyPoints(c, bs, order)
    ensures var bs := verticalTangencyBounds(c.controlPoints);
      !AllRefinable(bs) ==>
        |out| == |cachedTangencies(c.id)| + 1 &&
        Junctions(out) == ExactPoints(c, cachedTangencies(c.id))
    ensures var bs := verticalTangencyBounds(c.controlPoints);
      (AllRefinable(bs) && BoundsInUnit(bs)) ||
      (!AllRefinable(bs) && SortedInUnit(cachedTangencies(c.id))) ==>
        PartitionsUnit(out)
  {
    var bs := verticalTangencyBounds(c.controlPoints);
    var order, appOk, passes := ExtractBounds(bs);
    if appOk {
      var pts := TangencyPoints(c, bs, order);
      out := EmitSubCurves(c, pts);
      ChainDeterminedByJunctions(c, out);
      if BoundsInUnit(bs) {
        assert OrderedInUnit(pts) by {
          forall i, j | 0 <= i < j < |pts|
            ensures ParamLo(pts[i]) <= ParamLo(pts[j])
          {
            assert Precedes(bs, order[i], order[j]);
          }
        }
        ChainPartitionsUnit(c, pts);
      }
      return;
    }
    var pts := ExactPoints(c, cachedTangencies(c.id));
    out := EmitSubCurves(c, pts);
    ChainDeterminedByJunctions(c, out);
    if SortedInUnit(cachedTangencies(c.id)) {
      ChainPartitionsUnit(c, pts);
    }
  }
}
