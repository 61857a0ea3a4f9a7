# Bezier arrangement traits: x-monotone decomposition and ownership

A Dafny model of the algorithmic core of CGAL's `Arr_Bezier_curve_traits_2`:

- `Make_x_monotone_2`, which cuts a Bezier curve into x-monotone sub-curves
  at its vertical-tangency points. It asks the bounding traits for interval
  bounds on the tangency parameters. It extracts them one per pass, each time
  the first listed bound with the smallest `t_min`, and turns each into a point:
  an exact point at `t_min` for a `RATIONAL_PT` bound, otherwise an approximate
  point whose originator is the bound. If every bound can be refined, the
  sub-curves chain `t = 0 -> p1 -> ... -> pk -> t = 1`. As soon as one cannot,
  the approximate path is abandoned and the sub-curves chain through the exact
  tangency parameters the cache computes.
- The ownership rules for the shared tangency cache and intersection map:
  default construction allocates and owns them, copies and assignments share
  them without owning, and the destructor frees them only when it owns them.
- `Compare_endpoints_xy_2`.

Modules:

- `BezierTypes` (`bezier_types.dfy`): curves, bounds, boxes, points and sub-curves. `real` stands for the exact `Rational` type and also for the algebraic tangency parameters the cache computes as exact roots of X'(t), which are in general irrational.
- `TangencyExtraction` (`tangency_extraction.dfy`): the extraction loop, working on indices into the bounding traits' list so that stability can be stated.
- `XMonotoneDecomposition` (`x_monotone_decomposition.dfy`): point construction, sub-curve chaining and `Make_x_monotone_2` itself.
- `TraitsOwnership` (`traits_ownership.dfy`): a heap of traits objects with the allocated caches and maps.
- `EndpointComparison` (`endpoint_comparison.dfy`).

The bounding traits (`vertical_tangency_points`) and the cache's exact tangency
computation (`get_vertical_tangencies`) are parameters of `MakeXMonotone`:
functions from control points to bounds, and from curve id to parameters.

Ties between equal `t_min` go to the earliest-listed bound, because the scan
replaces its candidate only on a strictly `SMALLER` key
(`Arr_Bezier_curve_traits_2.h`, lines 530-531). Extraction is therefore a
stable sort by `t_min`. The approximate path stops at the first non-refinable
bound in extraction order, so it succeeds exactly when every bound is
refinable (`ExtractBounds`).

## Model

| member | source | states |
|---|---|---|
| TangencyExtraction.LocateMin | Arrangement_2/include/CGAL/Arr_Bezier_curve_traits_2.h:522-536 | the scan returns a position holding the minimal `t_min`, and every earlier position has a strictly larger `t_min` (first minimum wins) |
| TangencyExtraction.ErasePreserves | Arrangement_2/include/CGAL/Arr_Bezier_curve_traits_2.h:567-570 | appending the located minimum and erasing it from the remaining list keeps the extraction invariant: remaining bounds stay in input order, and everything extracted precedes everything remaining |
| TangencyExtraction.FailingPass | Arrangement_2/include/CGAL/Arr_Bezier_curve_traits_2.h:542-549 | when the located minimum cannot be refined, it is exactly the bound that comes next in stable `t_min` order after those already extracted |
| TangencyExtraction.ExtractBounds | Arrangement_2/include/CGAL/Arr_Bezier_curve_traits_2.h:518-571 | extracted bounds come out in non-decreasing `t_min`, with ties in input order, and all are refinable; `app_ok` holds iff every input bound is refinable; on success the extraction is a permutation of all bounds; on failure the next bound in order is the non-refinable one; every pass except a failing last one removes one bound, so there are at most as many passes as bounds |
| TangencyExtraction.StableSortUnique | Arrangement_2/include/CGAL/Arr_Bezier_curve_traits_2.h:526-536 | two stable sorts of the same bounds by `t_min` are equal, so the extraction order is determined by the input list |
| XMonotoneDecomposition.TangencyPoint | Arrangement_2/include/CGAL/Arr_Bezier_curve_traits_2.h:551-565 | the point is on the curve and carries the bound's box; it is exact iff the bound is `RATIONAL_PT`, otherwise its originator is the bound; its parameter range starts at `t_min` and, for a well-formed bound, ends at `t_max` |
| XMonotoneDecomposition.ChainFrom | Arrangement_2/include/CGAL/Arr_Bezier_curve_traits_2.h:579-594 | chaining from `p0` through k points gives k+1 sub-curves of the curve. The first starts at `p0` and the last ends at the exact point `t = 1`. Sub-curve i ends at point i, sub-curve i+1 starts there, and each sub-curve starts where the previous ended |
| XMonotoneDecomposition.Chain | Arrangement_2/include/CGAL/Arr_Bezier_curve_traits_2.h:575-595 | the chain runs from the exact point `t = 0` to the one at `t = 1`, and its junctions are exactly the given points in order |
| XMonotoneDecomposition.ChainDeterminedByJunctions | Arrangement_2/include/CGAL/Arr_Bezier_curve_traits_2.h:579-594 | conversely, every contiguous chain of the curve from `t = 0` to `t = 1` is the chain built from its own junctions |
| XMonotoneDecomposition.ChainPartitionsUnit | Arrangement_2/include/CGAL/Arr_Bezier_curve_traits_2.h:575-625 | chaining through points whose parameters are ordered in `[0, 1]` gives sub-curves whose parameter ranges start at 0 and end at 1. The ranges are ordered and meet only at shared endpoints, and every parameter in `[0, 1]` lies in one of them |
| XMonotoneDecomposition.EmitSubCurves | Arrangement_2/include/CGAL/Arr_Bezier_curve_traits_2.h:606-623 | the emission loop yields a contiguous chain from `t = 0` to `t = 1` whose junctions are the given points in order |
| XMonotoneDecomposition.MakeXMonotone | Arrangement_2/include/CGAL/Arr_Bezier_curve_traits_2.h:498-626 | the output is always a contiguous chain from `t = 0` to `t = 1`. If every bound is refinable, it has one sub-curve more than there are bounds, and its junctions are the bounds' points in stable `t_min` order. Otherwise it has one more than the cached exact tangencies and passes through them in the cache's order, so no tangency gives exactly one sub-curve. With bounds in `[0, 1]`, or a cache list sorted in `[0, 1]`, it partitions `[0, 1]` |
| TraitsOwnership.Construct | Arrangement_2/include/CGAL/Arr_Bezier_curve_traits_2.h:119-124 | the new object owns a freshly allocated cache and map: neither was allocated before, and no other object refers to either; other objects are untouched and the heap discipline is kept |
| TraitsOwnership.CopyConstruct | Arrangement_2/include/CGAL/Arr_Bezier_curve_traits_2.h:129-133 | the copy shares the source's cache and map and does not own them; nothing is allocated or freed |
| TraitsOwnership.Assign | Arrangement_2/include/CGAL/Arr_Bezier_curve_traits_2.h:138-147 | self-assignment leaves the heap unchanged; otherwise the target shares the source's structures and stops owning, and nothing is allocated or freed |
| TraitsOwnership.Destroy | Arrangement_2/include/CGAL/Arr_Bezier_curve_traits_2.h:152-159 | the cache and map are freed iff the destroyed object owns them; an owner only frees structures that are still allocated (no double free); the heap discipline is kept |
| TraitsOwnership.CopyDanglesAfterOwnerDestroyed | Arrangement_2/include/CGAL/Arr_Bezier_curve_traits_2.h:129-159 | destroying the owner while a copy of it is alive leaves the copy referring to a freed cache and map |
| TraitsOwnership.AssignOverOwnerLeaks | Arrangement_2/include/CGAL/Arr_Bezier_curve_traits_2.h:138-147 | assigning over the only reference to an owned cache leaves it allocated with no object referring to it, so it is never freed |
| EndpointComparison.CompareEndpointsXy | Arrangement_2/include/CGAL/Arr_Bezier_curve_traits_2.h:777-783 | `SMALLER` iff the curve is directed right, `LARGER` otherwise, never `EQUAL` |
| EndpointComparison.CompareEndpointsOfOpposite | Arrangement_2/include/CGAL/Arr_Bezier_curve_traits_2.h:777-783 | reversing the curve's direction reverses the endpoint comparison |

## Left out

- Nothing outside `Arr_Bezier_curve_traits_2.h` is modelled.
- The forwarding functors (`Compare_x_2`, `Compare_xy_2`, `Construct_min_vertex_2`, `Construct_max_vertex_2`, `Is_vertical_2`, `Compare_y_at_x_2`, `Compare_y_at_x_left_2`, `Compare_y_at_x_right_2`, `Equal_2`, `Split_2`, `Intersect_2`, `Are_mergeable_2`, `Merge_2`, `Construct_opposite_2`): each only calls a member of the point or x-monotone curve type. `Bezier_point_2.h`, `Bezier_x_monotone_2.h` and `Bezier_cache.h` are not part of this model.
- How the bounding traits compute the tangency bounds and boxes, and how the cache isolates the exact roots of X'(t). Both are exact-arithmetic and polynomial machinery, so here they are function parameters whose results are arbitrary.
- The cache's memoisation (computing each curve's tangencies once) belongs to `Bezier_cache.h`, which is not part of this model.
- Coordinates of points, the bounding box a point computes for itself, and the direction flag of an x-monotone curve: the model records the parameter and the originator bound only. `CompareEndpointsXy` takes the direction as an input.
- XMonotoneDecomposition.TangencyPoint: the debug assertion `t_min == t_max` for a `RATIONAL_PT` bound is not checked. The model follows a release build and places the exact point at `t_min`. Well-formedness of the bound (`WellFormedBound`) is a premise of the statement about `t_max`.
- XMonotoneDecomposition.MakeXMonotone: the partition of `[0, 1]` is stated only under premises about the external collaborators. These are that the bounds' `t_min` lie in `[0, 1]` and that the cache's list is sorted within `[0, 1]`. Their code is not part of this model. For an approximate point the partition is stated on the lower end `t_min` of its bound.
- The output iterator and the `Object` wrapper: the sub-curves are returned as a sequence.
- The failure of `new` (allocation errors), pointer aliasing beyond the ownership flag, and anything about concurrency. The traits object is single-threaded.
