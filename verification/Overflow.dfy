/**
  The range and slice formulas in 64-bit arithmetic: the numbers the C expressions go through, and
  exactly when all of them are 64-bit numbers, so that the unbounded formulas are what is computed.
*/
module Overflow {
  import opened Arithmetic
  import opened Values
  import opened Ints
  import R = Range
  import S = Slice

  ghost predicate AllFit(xs: seq<int>)
  {
    forall k :: 0 <= k < |xs| ==> IsInt64(xs[k])
  }

  predicate Int64Range(r: R.RangeObj)
  {
    IsInt64(r.start) && IsInt64(r.stop) && IsInt64(r.step) && r.step != 0
  }

  // ---------------------------------------------------------------------
  // Ranges
  // ---------------------------------------------------------------------

  /** What computing the length goes through. */
  function LenSteps(r: R.RangeObj): seq<int>
    requires r.step != 0
  {
    if R.Exhausted(r.start, r.stop, r.step) then [] else
    var d := r.stop - r.start;
    [d, d + r.step, d + r.step - (if r.step > 0 then 1 else -1), R.Len(r)]
  }

  /** The guard a caller could check. */
  predicate LenFits(r: R.RangeObj)
    requires r.step != 0
  {
    R.Exhausted(r.start, r.stop, r.step) || IsInt64(r.stop - r.start + r.step)
  }

  lemma LenNearby(r: R.RangeObj)
    requires r.step != 0 && !R.Exhausted(r.start, r.stop, r.step)
    ensures 1 <= R.Len(r) <= Abs(r.stop - r.start)
  {
    R.LenIsLength(r);
    var k := |R.Elements(r)| - 1;
    R.ElementAt(r, 0);
    R.ElementAt(r, k);
    Product(k, r.step);
  }

  lemma Product(k: nat, step: int)
    requires step != 0
    ensures step > 0 ==> k * step >= k
    ensures step < 0 ==> k * step + k <= 0
  {
  }

  /** Every number on the way to the length is a 64-bit number if and only if distance and step can be added. */
  lemma LenFitsExactly(r: R.RangeObj)
    requires Int64Range(r)
    ensures AllFit(LenSteps(r)) <==> LenFits(r)
  {
    if !R.Exhausted(r.start, r.stop, r.step) {
      LenNearby(r);
      var xs := LenSteps(r);
      assert xs[0] == r.stop - r.start && xs[1] == r.stop - r.start + r.step;
    }
  }

  /** A range whose length overflows: from 0 to the largest number, with step 1. */
  lemma LenOverflows()
    ensures var r := R.RangeObj(0, TWO_63 - 1, 1); Int64Range(r) && !LenFits(r)
  {
  }

  /** What indexing goes through, once the length is known. */
  function GetItemSteps(r: R.RangeObj, index: int): seq<int>
    requires r.step != 0
  {
    var i := if index < 0 then index + R.Len(r) else index;
    (if index < 0 then [index + R.Len(r)] else [])
    + if 0 <= i < R.Len(r) then [i * r.step, r.start + i * r.step] else []
  }

  /** Elements lie between start and stop, so nothing more is needed to compute one of them. */
  lemma GetItemFits(r: R.RangeObj, index: int)
    requires Int64Range(r) && IsInt64(index) && LenFits(r)
    ensures AllFit(GetItemSteps(r, index))
  {
    R.LenIsLength(r);
    if !R.Exhausted(r.start, r.stop, r.step) {
      LenNearby(r);
      var i := if index < 0 then index + R.Len(r) else index;
      if 0 <= i < R.Len(r) {
        R.ElementAt(r, i);
        Product(i, r.step);
      }
    }
  }

  /** What a membership test goes through; outside the bounds it computes nothing. */
  function ContainsSteps(r: R.RangeObj, x: int): seq<int>
    requires r.step != 0
  {
    if r.step > 0 then (if r.start <= x < r.stop then [x - r.start] else [])
    else if r.stop < x <= r.start then [r.start - x, -r.step] else []
  }

  lemma ContainsFits(r: R.RangeObj, x: int)
    requires Int64Range(r) && IsInt64(x) && LenFits(r)
    ensures AllFit(ContainsSteps(r, x))
  {
  }

  /** The positions an iterator takes, from the first to the one behind the last element. */
  function Positions(r: R.RangeObj): (ps: seq<int>)
    requires r.step != 0
    ensures |ps| == |R.Elements(r)| + 1
  {
    seq(|R.Elements(r)| + 1, k => r.start + k * r.step)
  }

  /** An iterator adds the step once more behind the last element, and that is the only sum that may not fit. */
  lemma IterationFitsExactly(r: R.RangeObj)
    requires Int64Range(r)
    ensures AllFit(Positions(r)) <==> IsInt64(r.start + R.Len(r) * r.step)
  {
    R.LenIsLength(r);
    var ps, n := Positions(r), |R.Elements(r)|;
    assert ps[n] == r.start + n * r.step;
    forall k | 0 <= k < n
      ensures IsInt64(ps[k])
    {
      R.ElementAt(r, k);
      Product(k, r.step);
    }
  }

  /** An iterator that steps out of the integers: over range(0, 2^63 - 1, 2), behind the last element. */
  lemma IterationOverflows()
    ensures var r := R.RangeObj(0, TWO_63 - 1, 2);
      Int64Range(r) && R.Len(r) == TWO_63 / 2 && !IsInt64(r.start + R.Len(r) * r.step) && !AllFit(Positions(r))
  {
    IterationFitsExactly(R.RangeObj(0, TWO_63 - 1, 2));
  }

  // ---------------------------------------------------------------------
  // Slices
  // ---------------------------------------------------------------------

  /** What counting the selected elements goes through. */
  function CountSteps(start: int, stop: int, step: int): seq<int>
    requires step != 0
  {
    if step > 0 then (if start < stop then [stop - start, stop - start + step, stop - start + step - 1, S.Count(start, stop, step)] else [])
    else if start > stop then [start - stop, start - stop - step, start - stop - step - 1, -step, S.Count(start, stop, step)] else []
  }

  /** The bounds normalising leaves. */
  predicate Normal(start: int, stop: int, step: int, len: nat)
  {
    if step > 0 then 0 <= start <= len && 0 <= stop <= len else -1 <= start < len && -1 <= stop < len
  }

  predicate CountFits(start: int, stop: int, step: int)
  {
    if step > 0 then start < stop ==> IsInt64(stop - start + step) else start > stop ==> IsInt64(start - stop - step)
  }

  lemma CountNearby(start: int, stop: int, step: int)
    requires step != 0
    ensures 0 <= S.Count(start, stop, step)
    ensures S.Count(start, stop, step) > 0 ==> S.Count(start, stop, step) <= Abs(stop - start)
  {
    S.CountIsSteps(start, stop, step);
    var n := |S.Visited(start, stop, step)|;
    if n > 0 {
      S.VisitedAt(start, stop, step, n - 1);
      Product(n - 1, step);
    }
  }

  /** Between normalised bounds, every number on the way to the count fits if and only if distance and step can be added. */
  lemma CountFitsExactly(start: int, stop: int, step: int, len: nat)
    requires IsInt64(len) && IsInt64(step) && step != 0 && Normal(start, stop, step, len)
    ensures AllFit(CountSteps(start, stop, step)) <==> CountFits(start, stop, step)
  {
    CountNearby(start, stop, step);
    var xs := CountSteps(start, stop, step);
    if |xs| > 0 {
      assert IsInt64(xs[0]) && xs[1] == if step > 0 then stop - start + step else start - stop - step;
    }
  }

  /** A slice whose count overflows: all of a list of two, with the largest step. */
  lemma CountOverflows()
    ensures !CountFits(0, 2, TWO_63 - 1)
  {
  }

  /** The positions of the copying loop, with the one at which it stops. */
  function Stops(start: int, stop: int, step: int): (ps: seq<int>)
    requires step != 0
    ensures |ps| == |S.Visited(start, stop, step)| + 1
  {
    seq(|S.Visited(start, stop, step)| + 1, k => start + k * step)
  }

  /** The copying loop stays in range if and only if its last step does. */
  lemma FillFitsExactly(start: int, stop: int, step: int, len: nat)
    requires IsInt64(len) && IsInt64(step) && step != 0 && Normal(start, stop, step, len)
    ensures AllFit(Stops(start, stop, step)) <==> IsInt64(start + S.Count(start, stop, step) * step)
  {
    S.CountIsSteps(start, stop, step);
    var ps, n := Stops(start, stop, step), |S.Visited(start, stop, step)|;
    assert ps[n] == start + n * step;
    forall k | 0 <= k < n
      ensures IsInt64(ps[k])
    {
      S.VisitedAt(start, stop, step, k);
      Product(k, step);
    }
  }

  /** A copy that steps out of the integers: from the second element of a list of two, with the largest step. */
  lemma FillOverflows()
    ensures Normal(1, 2, TWO_63 - 1, 2) && S.Count(1, 2, TWO_63 - 1) == 1 && !AllFit(Stops(1, 2, TWO_63 - 1))
  {
    FillFitsExactly(1, 2, TWO_63 - 1, 2);
  }
}
