/** Slice objects: normalising the bounds, counting, and copying the selected elements. */
module Slice {
  import opened Arithmetic
  import opened Values

  /** The three parts of a slice; a part may be nil. */
  datatype SliceObj = SliceObj(start: Option<int>, stop: Option<int>, step: Option<int>)

  function Clamp(i: int, lower: int, upper: int): int
  {
    if i < lower then lower else if i > upper then upper else i
  }

  /** A negative index counts from the end. */
  function Resolved(i: int, len: nat, lower: int, upper: int): int
  {
    Clamp(if i < 0 then i + len else i, lower, upper)
  }

  function StepOf(s: SliceObj): int
  {
    if s.step.None? then 1 else s.step.value
  }

  predicate StepIsZero(s: SliceObj)
  {
    s.step.Some? && s.step.value == 0
  }

  /** The indices a slice loop visits, in order. */
  function Visited(start: int, stop: int, step: int): (visited: seq<int>)
    requires step != 0
    decreases if step > 0 then stop - start else start - stop
  {
    if (if step > 0 then start < stop else start > stop) then [start] + Visited(start + step, stop, step) else []
  }

  /** All of them are indices of a container with n elements. */
  predicate Indices(at: seq<int>, n: nat)
  {
    forall k :: 0 <= k < |at| ==> 0 <= at[k] < n
  }

  /** What a raw bound means: the place itself, or counted from the end when it is negative. */
  predicate NotBefore(i: int, bound: Option<int>, len: nat)
  {
    bound.None? || if bound.value >= 0 then i >= bound.value else i - len >= bound.value
  }

  predicate NotBehind(i: int, bound: Option<int>, len: nat)
  {
    bound.None? || if bound.value >= 0 then i <= bound.value else i - len <= bound.value
  }

  predicate Before(i: int, bound: Option<int>, len: nat)
  {
    bound.None? || if bound.value >= 0 then i < bound.value else i - len < bound.value
  }

  predicate Behind(i: int, bound: Option<int>, len: nat)
  {
    bound.None? || if bound.value >= 0 then i > bound.value else i - len > bound.value
  }

  /**
    The bounds are those of the raw slice for every index of the container, wherever the raw ones lie; with
    step 1 and -1 exactly the indices between the raw bounds are visited.
  */
  method Normalize(s: SliceObj, len: nat) returns (start: int, stop: int, step: int)
    requires !StepIsZero(s)
    ensures step == StepOf(s) != 0
    ensures Indices(Visited(start, stop, step), len)
    ensures step > 0 ==> 0 <= start <= len && 0 <= stop <= len
    ensures step < 0 ==> -1 <= start < len && -1 <= stop < len
    ensures step > 0 ==> forall i :: 0 <= i < len ==> (start <= i <==> NotBefore(i, s.start, len))
    ensures step > 0 ==> forall i :: 0 <= i < len ==> (i < stop <==> Before(i, s.stop, len))
    ensures step < 0 ==> forall i :: 0 <= i < len ==> (i <= start <==> NotBehind(i, s.start, len))
    ensures step < 0 ==> forall i :: 0 <= i < len ==> (stop < i <==> Behind(i, s.stop, len))
    ensures step == 1 ==> forall i :: 0 <= i < len ==>
              (i in Visited(start, stop, step) <==> NotBefore(i, s.start, len) && Before(i, s.stop, len))
    ensures step == -1 ==> forall i :: 0 <= i < len ==>
              (i in Visited(start, stop, step) <==> NotBehind(i, s.start, len) && Behind(i, s.stop, len))
  {
    step := StepOf(s);
    var lower, upper := if step > 0 then 0 else -1, if step > 0 then len else len - 1;
    start := if s.start.None? then (if step > 0 then lower else upper) else Resolved(s.start.value, len, lower, upper);
    stop := if s.stop.None? then (if step > 0 then upper else lower) else Resolved(s.stop.value, len, lower, upper);
    VisitedBetween(start, stop, step);
    forall i | 0 <= i < len
      ensures Abs(step) == 1 ==> (i in Visited(start, stop, step) <==> if step > 0 then start <= i < stop else stop < i <= start)
    {
      if Abs(step) == 1 {
        VisitedExactly(start, stop, step, i);
      }
    }
  }

  /** Every |step|-th index between the bounds, counted from the first. */
  lemma {:induction false} VisitedExactly(start: int, stop: int, step: int, i: int)
    requires step != 0
    ensures i in Visited(start, stop, step) <==>
            (if step > 0 then start <= i < stop else stop < i <= start) && (i - start) % Abs(step) == 0
    decreases if step > 0 then stop - start else start - stop
  {
    if if step > 0 then start < stop else start > stop {
      VisitedExactly(start + step, stop, step, i);
      if step > 0 {
        OneStep(i - start, step);
      } else {
        OneStep(i - start + -step, -step);
      }
    }
  }

  lemma OneStep(d: int, m: int)
    requires m > 0
    ensures d % m == (d - m) % m && (0 < d < m ==> d % m != 0)
  {
    var q, r := d / m, d % m;
    assert d == m * q + r;
    assert m * (q - 1) == m * q - m;
    QuotientAndRest(d - m, m, q - 1, r);
    if 0 < d < m {
      QuotientAndRest(d, m, 0, d);
    }
  }

  lemma {:induction false} VisitedBetween(start: int, stop: int, step: int)
    requires step != 0
    ensures forall k :: 0 <= k < |Visited(start, stop, step)| ==>
      var i := Visited(start, stop, step)[k]; if step > 0 then start <= i < stop else stop < i <= start
    decreases if step > 0 then stop - start else start - stop
  {
    if if step > 0 then start < stop else start > stop {
      VisitedBetween(start + step, stop, step);
    }
  }

  function Count(start: int, stop: int, step: int): int
    requires step != 0
  {
    if step > 0 then (if start < stop then Quotient(stop - start + step - 1, step) else 0)
    else if start > stop then Quotient(start - stop - step - 1, -step) else 0
  }

  /** The count is the number of loop steps. */
  lemma {:induction false} CountIsSteps(start: int, stop: int, step: int)
    requires step != 0
    ensures Count(start, stop, step) == |Visited(start, stop, step)|
    decreases if step > 0 then stop - start else start - stop
  {
    if if step > 0 then start < stop else start > stop {
      CountIsSteps(start + step, stop, step);
      var d, m := if step > 0 then stop - start else start - stop, Abs(step);
      CeilStep(d, m);
      VisitedBetween(start + step, stop, step);
    }
  }

  /** The k-th visited index, and that none is left out. */
  lemma {:induction false} VisitedAt(start: int, stop: int, step: int, k: nat)
    requires step != 0
    ensures k < |Visited(start, stop, step)| <==> (if step > 0 then start + k * step < stop else start + k * step > stop)
    ensures k < |Visited(start, stop, step)| ==> Visited(start, stop, step)[k] == start + k * step
    decreases if step > 0 then stop - start else start - stop
  {
    if if step > 0 then start < stop else start > stop {
      if k > 0 {
        VisitedAt(start + step, stop, step, k - 1);
        assert start + step + (k - 1) * step == start + k * step;
      }
    } else {
      assert k * step >= 0 <==> (step > 0 || k == 0);
      assert k * step <= 0 <==> (step < 0 || k == 0);
    }
  }

  function Selected<T>(src: seq<T>, at: seq<int>): (r: seq<T>)
    requires Indices(at, |src|)
    ensures |r| == |at|
  {
    seq(|at|, k requires 0 <= k < |at| => src[at[k]])
  }

  /** Step 1 copies a stretch. */
  lemma {:induction false} StretchSelected<T>(src: seq<T>, start: int, stop: int)
    requires 0 <= start <= stop <= |src|
    ensures Indices(Visited(start, stop, 1), |src|)
    ensures Selected(src, Visited(start, stop, 1)) == src[start..stop]
    decreases stop - start
  {
    VisitedBetween(start, stop, 1);
    if start < stop {
      StretchSelected(src, start + 1, stop);
      assert src[start..stop] == [src[start]] + src[start + 1..stop];
      assert Selected(src, Visited(start, stop, 1)) == [src[start]] + Selected(src, Visited(start + 1, stop, 1));
    }
  }

  /** Exactly the visited elements are written, in order, and nothing behind them. */
  method FillValues<T>(dst: array<T>, src: seq<T>, start: int, stop: int, step: int)
    requires step != 0 && Indices(Visited(start, stop, step), |src|)
    requires dst.Length >= Count(start, stop, step)
    modifies dst
    ensures |Visited(start, stop, step)| <= dst.Length
    ensures dst[..] == Selected(src, Visited(start, stop, step)) + old(dst[..])[|Visited(start, stop, step)|..]
  {
    hide Visited;
    CountIsSteps(start, stop, step);
    if step == 1 && start < stop {
      StretchBounds(start, stop, |src|);
      StretchSelected(src, start, stop);
      CopyStretch(dst, src, start, stop);
    } else {
      CopyVisited(dst, src, start, stop, step);
    }
  }

  method CopyStretch<T>(dst: array<T>, src: seq<T>, start: int, stop: int)
    requires 0 <= start <= stop <= |src| && stop - start <= dst.Length
    modifies dst
    ensures dst[..] == src[start..stop] + old(dst[..])[stop - start..]
  {
    for k := 0 to stop - start
      invariant forall j :: 0 <= j < k ==> dst[j] == src[start + j]
      invariant forall j :: k <= j < dst.Length ==> dst[j] == old(dst[j])
    {
      dst[k] := src[start + k];
    }
  }

  method CopyVisited<T>(dst: array<T>, src: seq<T>, start: int, stop: int, step: int)
    requires step != 0 && Indices(Visited(start, stop, step), |src|) && |Visited(start, stop, step)| <= dst.Length
    modifies dst
    ensures dst[..] == Selected(src, Visited(start, stop, step)) + old(dst[..])[|Visited(start, stop, step)|..]
  {
    ghost var all := Visited(start, stop, step);
    var w, i := 0, start;
    while if step > 0 then i < stop else i > stop
      invariant w <= |all| && Visited(i, stop, step) == all[w..]
      invariant forall j :: 0 <= j < w ==> dst[j] == src[all[j]]
      invariant forall j :: w <= j < dst.Length ==> dst[j] == old(dst[j])
      decreases if step > 0 then stop - i else i - stop
    {
      assert all[w..][0] == i && all[w..][1..] == all[w + 1..];
      dst[w] := src[i];
      w, i := w + 1, i + step;
    }
    assert w == |all|;
  }

  lemma {:induction false} StretchBounds(start: int, stop: int, n: nat)
    requires start < stop && Indices(Visited(start, stop, 1), n)
    ensures 0 <= start && stop <= n && |Visited(start, stop, 1)| == stop - start
  {
    VisitedAt(start, stop, 1, 0);
    VisitedAt(start, stop, 1, stop - start - 1);
    VisitedAt(start, stop, 1, stop - start);
  }
}
