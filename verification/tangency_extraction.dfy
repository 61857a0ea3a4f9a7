/**
 The extraction loop of `Make_x_monotone_2`: the bounds reported by the
 bounding traits are pulled out one per pass, each time the first listed bound
 whose `t_min` is minimal, until none is left or a bound that cannot be refined
 is met. Bounds are named by their index in the reported list, so that the
 order of extraction can be compared with the order of the input.
 */
module TangencyExtraction {
  import opened BezierTypes

  /** The sort key of the `i`-th reported bound. */
  function Key(bs: seq<TangPair>, i: nat): real
    requires i < |bs|
  {
    bs[i].bound.tMin
  }

  /** Bound `i` is extracted before bound `j`: its `t_min` is smaller, or the
      two are equal and `i` was listed first (the scan only replaces its
      candidate on a strictly smaller key). */
  predicate Precedes(bs: seq<TangPair>, i: nat, j: nat)
    requires i < |bs| && j < |bs|
  {
    Key(bs, i) < Key(bs, j) || (Key(bs, i) == Key(bs, j) && i < j)
  }

  predicate InRange(s: seq<nat>, n: nat)
  {
    forall i :: 0 <= i < |s| ==> s[i] < n
  }

  predicate StrictlyIncreasing(s: seq<nat>)
  {
    forall i, j :: 0 <= i < j < |s| ==> s[i] < s[j]
  }

  /** `order` lists bounds in non-decreasing `t_min`, ties in input order. */
  predicate IsStableOrder(bs: seq<TangPair>, order: seq<nat>)
  {
    InRange(order, |bs|) &&
    forall i, j :: 0 <= i < j < |order| ==> Precedes(bs, order[i], order[j])
  }

  /** `order` names every index below `n`, each exactly once. */
  predicate IsPermutation(order: seq<nat>, n: nat)
  {
    |order| == n && InRange(order, n) &&
    (forall k :: 0 <= k < n ==> k in order) &&
    (forall i, j :: 0 <= i < j < |order| ==> order[i] != order[j])
  }

  /** `order` is the stable sort of all reported bounds by `t_min`. */
  predicate IsStableSort(bs: seq<TangPair>, order: seq<nat>)
  {
    IsPermutation(order, |bs|) && IsStableOrder(bs, order)
  }

  predicate AllRefinable(bs: seq<TangPair>)
  {
    forall i :: 0 <= i < |bs| ==> bs[i].bound.canRefine
  }

  /** `f` is the bound extracted right after `order`, and it cannot be refined. */
  predicate FailsAfter(bs: seq<TangPair>, order: seq<nat>, f: nat)
  {
    f < |bs| && f !in order && !bs[f].bound.canRefine &&
    InRange(order, |bs|) &&
    (forall i :: 0 <= i < |order| ==> Precedes(bs, order[i], f)) &&
    (forall j :: 0 <= j < |bs| && j != f && j !in order ==> Precedes(bs, f, j))
  }

  /** The indices `0 .. n-1` in increasing order. */
  function Indices(n: nat): (s: seq<nat>)
    ensures |s| == n
    ensures forall i :: 0 <= i < n ==> s[i] == i
  {
    seq(n, i => i)
  }

  /** The inner scan: the position in `rem` of the first bound with minimal
      `t_min`; a later bound replaces the candidate only when strictly smaller. */
  method LocateMin(bs: seq<TangPair>, rem: seq<nat>) returns (k: nat)
    requires |rem| > 0 && InRange(rem, |bs|)
    ensures k < |rem|
    ensures forall j :: 0 <= j < |rem| ==> Key(bs, rem[k]) <= Key(bs, rem[j])
    ensures forall j :: 0 <= j < k ==> Key(bs, rem[k]) < Key(bs, rem[j])
  {
    k := 0;
    var i := 1;
    while i < |rem|
      invariant 1 <= i <= |rem| && k < i
      invariant forall j :: 0 <= j < i ==> Key(bs, rem[k]) <= Key(bs, rem[j])
      invariant forall j :: 0 <= j < k ==> Key(bs, rem[k]) < Key(bs, rem[j])
    {
      if Key(bs, rem[i]) < Key(bs, rem[k]) {
        k := i;
      }
      i := i + 1;
    }
  }

  /** When `rem` keeps input order, the element `LocateMin` picks precedes
      every other remaining bound. */
  lemma LocatedPrecedesRest(bs: seq<TangPair>, rem: seq<nat>, k: nat)
    requires InRange(rem, |bs|) && StrictlyIncreasing(rem) && k < |rem|
    requires forall j :: 0 <= j < |rem| ==> Key(bs, rem[k]) <= Key(bs, rem[j])
    requires forall j :: 0 <= j < k ==> Key(bs, rem[k]) < Key(bs, rem[j])
    ensures forall j :: 0 <= j < |rem| && j != k ==> Precedes(bs, rem[k], rem[j])
  {
  }

  /** The loop invariant of the extraction: `order` holds the bounds already
      turned into points, `rem` the bounds still listed, in input order. */
  predicate ExtractionState(bs: seq<TangPair>, order: seq<nat>, rem: seq<nat>)
  {
    InRange(rem, |bs|) && StrictlyIncreasing(rem) &&
    IsStableOrder(bs, order) &&
    (forall i, r :: 0 <= i < |order| && 0 <= r < |rem| ==> Precedes(bs, order[i], rem[r])) &&
    (forall k :: 0 <= k < |bs| ==> k in order || k in rem) &&
    (forall k :: k in rem ==> k !in order) &&
    |order| + |rem| == |bs| &&
    (forall i :: 0 <= i < |order| ==> bs[order[i]].bound.canRefine)
  }

  lemma InitialState(bs: seq<TangPair>)
    ensures ExtractionState(bs, [], Indices(|bs|))
  {
    var rem := Indices(|bs|);
    forall k | 0 <= k < |bs|
      ensures k in rem
    {
      assert rem[k] == k;
    }
  }

  /** One successful pass: erasing the located minimum `rem[k]` and appending
      it to `order` keeps the invariant. */
  lemma ErasePreserves(bs: seq<TangPair>, order: seq<nat>, rem: seq<nat>, k: nat)
    requires ExtractionState(bs, order, rem) && k < |rem|
    requires forall j :: 0 <= j < |rem| && j != k ==> Precedes(bs, rem[k], rem[j])
    requires bs[rem[k]].bound.canRefine
    ensures ExtractionState(bs, order + [rem[k]], rem[..k] + rem[k + 1..])
  {
  }

  /** A failing pass: the located minimum is the bound extracted next. */
  lemma FailingPass(bs: seq<TangPair>, order: seq<nat>, rem: seq<nat>, k: nat)
    requires ExtractionState(bs, order, rem) && k < |rem|
    requires forall j :: 0 <= j < |rem| && j != k ==> Precedes(bs, rem[k], rem[j])
    requires !bs[rem[k]].bound.canRefine
    ensures FailsAfter(bs, order, rem[k])
  {
  }

  /** The whole extraction loop. `order` lists the bounds turned into points,
      `appOk` is the source's `app_ok`, and `passes` counts the passes of the
      outer loop. */
  method ExtractBounds(bs: seq<TangPair>) returns (order: seq<nat>, appOk: bool, passes: nat)
    ensures IsStableOrder(bs, order)
    ensures forall i :: 0 <= i < |order| ==> bs[order[i]].bound.canRefine
    ensures appOk <==> AllRefinable(bs)
    ensures appOk ==> IsStableSort(bs, order)
    ensures !appOk ==> exists f :: FailsAfter(bs, order, f)
    ensures passes <= |bs|
    ensures passes == |order| + (if appOk then 0 else 1)
  {
    var rem := Indices(|bs|);
    order := [];
    appOk := true;
    passes := 0;
    InitialState(bs);
    while |rem| > 0
      invariant ExtractionState(bs, order, rem)
      invariant passes == |order|
      invariant appOk
      decreases |rem|
    {
      passes := passes + 1;
      var k := LocateMin(bs, rem);
      LocatedPrecedesRest(bs, rem, k);
      if !bs[rem[k]].bound.canRefine {
        appOk := false;
        FailingPass(bs, order, rem, k);
        break;
      }
      ErasePreserves(bs, order, rem, k);
      order := order + [rem[k]];
      rem := rem[..k] + rem[k + 1..];
    }
    if appOk {
      forall k | 0 <= k < |bs|
        ensures k in order && bs[k].bound.canRefine
      {
        assert k in order;
        var i :| 0 <= i < |order| && order[i] == k;
      }
    }
  }

  /** The stable sort of the bounds is unique, so the extraction order is
      determined by the input list alone. */
  lemma {:induction false} StableSortUnique(bs: seq<TangPair>, o1: seq<nat>, o2: seq<nat>)
    requires IsStableSort(bs, o1) && IsStableSort(bs, o2)
    ensures o1 == o2
  {
    StableSortsAgreeUpTo(bs, o1, o2, |o1|);
  }

  /** The two stable sorts agree on their first `n` positions, by induction on `n`. */
  lemma {:induction false} StableSortsAgreeUpTo(bs: seq<TangPair>, o1: seq<nat>, o2: seq<nat>, n: nat)
    requires IsStableSort(bs, o1) && IsStableSort(bs, o2) && n <= |o1|
    ensures forall p :: 0 <= p < n ==> o1[p] == o2[p]
  {
    if n > 0 {
      StableSortsAgreeUpTo(bs, o1, o2, n - 1);
      var i := n - 1;
      if o1[i] != o2[i] {
        FirstDifferenceImpossible(bs, o1, o2, i);
        FirstDifferenceImpossible(bs, o2, o1, i);
        assert false;
      }
    }
  }

  /** Helper for `StableSortUnique`: at the first position where two stable
      sorts differ, the first one's element cannot precede the second's. */
  lemma {:induction false} FirstDifferenceImpossible(bs: seq<TangPair>, o1: seq<nat>, o2: seq<nat>, i: nat)
    requires IsStableSort(bs, o1) && IsStableSort(bs, o2)
    requires i < |o1| && o1[i] != o2[i]
    requires forall p :: 0 <= p < i ==> o1[p] == o2[p]
    ensures !Precedes(bs, o1[i], o2[i])
  {
    var a := o1[i];
    assert a in o2;
    var p :| 0 <= p < |o2| && o2[p] == a;
    assert p > i;
    assert Precedes(bs, o2[i], o2[p]);
  }
}
