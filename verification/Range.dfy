/** Lazy ranges: length, indexing, membership, equality and iteration against the sequence they stand for. */
module Range {
  import opened Arithmetic
  import opened Values

  datatype RangeObj = RangeObj(start: int, stop: int, step: int)

  /** The arguments of `range`: one to three integers, a step of zero is an error. */
  function Make(args: seq<Value>): (r: Option<RangeObj>)
    ensures r.Some? ==> r.value.step != 0 && 1 <= |args| <= 3
  {
    if !(1 <= |args| <= 3) || exists k :: 0 <= k < |args| && !args[k].Int? then None
    else if |args| == 1 then Some(RangeObj(0, args[0].i, 1))
    else if |args| == 2 then Some(RangeObj(args[0].i, args[1].i, 1))
    else if args[2].i == 0 then None
    else Some(RangeObj(args[0].i, args[1].i, args[2].i))
  }

  predicate Exhausted(cur: int, stop: int, step: int)
  {
    (step > 0 && cur >= stop) || (step < 0 && cur <= stop)
  }

  /** The sequence a range stands for. */
  function Elements(r: RangeObj): seq<int>
    requires r.step != 0
    decreases if r.step > 0 then r.stop - r.start else r.start - r.stop
  {
    if Exhausted(r.start, r.stop, r.step) then [] else [r.start] + Elements(r.(start := r.start + r.step))
  }

  function Len(r: RangeObj): int
    requires r.step != 0
  {
    if Exhausted(r.start, r.stop, r.step) then 0 else
    var n := Quotient(r.stop - r.start + r.step - (if r.step > 0 then 1 else -1), r.step);
    if n > 0 then n else 0
  }

  lemma {:induction false} LenIsLength(r: RangeObj)
    requires r.step != 0
    ensures Len(r) == |Elements(r)|
    decreases if r.step > 0 then r.stop - r.start else r.start - r.stop
  {
    if !Exhausted(r.start, r.stop, r.step) {
      LenIsLength(r.(start := r.start + r.step));
      CeilStep(Abs(r.stop - r.start), Abs(r.step));
    }
  }

  /** The k-th element, and where the sequence ends. */
  lemma {:induction false} ElementAt(r: RangeObj, k: nat)
    requires r.step != 0
    ensures k < |Elements(r)| <==> !Exhausted(r.start + k * r.step, r.stop, r.step)
    ensures k < |Elements(r)| ==> Elements(r)[k] == r.start + k * r.step
    decreases if r.step > 0 then r.stop - r.start else r.start - r.stop
  {
    if !Exhausted(r.start, r.stop, r.step) {
      if k > 0 {
        ElementAt(r.(start := r.start + r.step), k - 1);
        assert r.start + r.step + (k - 1) * r.step == r.start + k * r.step;
      }
    } else {
      assert r.step > 0 ==> k * r.step >= 0;
      assert r.step < 0 ==> k * r.step <= 0;
    }
  }

  /** `range(n)` counts from 0 up to n. */
  lemma OneArgument(a: Value)
    ensures Make([a]).Some? <==> a.Int?
    ensures a.Int? ==> |Elements(Make([a]).value)| == (if a.i > 0 then a.i else 0)
    ensures a.Int? ==> forall k :: 0 <= k < a.i ==> Elements(Make([a]).value)[k] == k
  {
    if a.Int? {
      Counting(Make([a]).value);
    }
  }

  /** `range(a, b)` counts from a up to b. */
  lemma TwoArguments(a: Value, b: Value)
    ensures Make([a, b]).Some? <==> a.Int? && b.Int?
    ensures a.Int? && b.Int? ==> |Elements(Make([a, b]).value)| == (if b.i > a.i then b.i - a.i else 0)
    ensures a.Int? && b.Int? ==> forall k :: 0 <= k < b.i - a.i ==> Elements(Make([a, b]).value)[k] == a.i + k
  {
    if a.Int? && b.Int? {
      Counting(Make([a, b]).value);
    }
  }

  /** `range(a, b, c)` goes from a in steps of c for as long as it has not come to b. */
  lemma ThreeArguments(a: Value, b: Value, c: Value)
    ensures Make([a, b, c]).Some? <==> a.Int? && b.Int? && c.Int? && c.i != 0
    ensures Make([a, b, c]).Some? ==> forall k: nat :: k < |Elements(Make([a, b, c]).value)| ==>
      Elements(Make([a, b, c]).value)[k] == a.i + k * c.i
    ensures Make([a, b, c]).Some? ==> forall k: nat :: k < |Elements(Make([a, b, c]).value)| <==>
      if c.i > 0 then a.i + k * c.i < b.i else a.i + k * c.i > b.i
  {
    var args := [a, b, c];
    assert args[0] == a && args[1] == b && args[2] == c;
    assert (exists k :: 0 <= k < 3 && !args[k].Int?) ==> !(a.Int? && b.Int? && c.Int?);
    if Make(args).Some? {
      Stepping(Make(args).value);
    }
  }

  lemma {:induction false} Stepping(r: RangeObj)
    requires r.step != 0
    ensures forall k: nat :: k < |Elements(r)| ==> Elements(r)[k] == r.start + k * r.step
    ensures forall k: nat :: k < |Elements(r)| <==>
      if r.step > 0 then r.start + k * r.step < r.stop else r.start + k * r.step > r.stop
  {
    hide Elements;
    forall k: nat
      ensures k < |Elements(r)| <==> !Exhausted(r.start + k * r.step, r.stop, r.step)
      ensures k < |Elements(r)| ==> Elements(r)[k] == r.start + k * r.step
    {
      ElementAt(r, k);
    }
  }

  lemma {:induction false} Counting(r: RangeObj)
    requires r.step == 1
    ensures |Elements(r)| == if r.stop > r.start then r.stop - r.start else 0
    ensures forall k :: 0 <= k < r.stop - r.start ==> Elements(r)[k] == r.start + k
  {
    hide Elements;
    var n := if r.stop > r.start then r.stop - r.start else 0;
    ElementAt(r, n);
    if n > 0 {
      ElementAt(r, n - 1);
    }
    forall k | 0 <= k < r.stop - r.start ensures Elements(r)[k] == r.start + k {
      ElementAt(r, k);
    }
  }

  /** A negative index counts from the end; anything outside is an index error. */
  function GetItem(r: RangeObj, index: Value): Option<int>
    requires r.step != 0
  {
    if !index.Int? then None else
    var i := if index.i < 0 then index.i + Len(r) else index.i;
    if i < 0 || i >= Len(r) then None else Some(r.start + i * r.step)
  }

  lemma {:induction false} GetItemIndexes(r: RangeObj, i: int)
    requires r.step != 0
    ensures var s := Elements(r);
      GetItem(r, Int(i)) == if 0 <= i < |s| then Some(s[i]) else if -|s| <= i < 0 then Some(s[|s| + i]) else None
  {
    hide Elements;
    LenIsLength(r);
    var k := if i < 0 then i + Len(r) else i;
    if 0 <= k < Len(r) {
      ElementIs(r, k);
    }
  }

  lemma {:induction false} ElementIs(r: RangeObj, k: nat)
    requires r.step != 0 && k < |Elements(r)|
    ensures Elements(r)[k] == r.start + k * r.step
  {
    ElementAt(r, k);
  }

  predicate Contains(r: RangeObj, item: Value)
    requires r.step != 0
  {
    item.Int?
    && if r.step > 0 then r.start <= item.i < r.stop && (item.i - r.start) % r.step == 0
       else r.stop < item.i <= r.start && (r.start - item.i) % (-r.step) == 0
  }

  /** Membership is decided without looking at the elements, and decides it. */
  lemma {:induction false} ContainsIsMembership(r: RangeObj, x: int)
    requires r.step != 0
    ensures Contains(r, Int(x)) <==> x in Elements(r)
  {
    if Contains(r, Int(x)) {
      ContainedIsElement(r, x);
    }
    if x in Elements(r) {
      var k :| 0 <= k < |Elements(r)| && Elements(r)[k] == x;
      ElementAt(r, k);
      ReachedIsContained(r, k, x);
    }
  }

  lemma {:induction false} ContainedIsElement(r: RangeObj, x: int)
    requires r.step != 0 && Contains(r, Int(x))
    ensures x in Elements(r)
  {
    hide Elements;
    var d, m := if r.step > 0 then x - r.start else r.start - x, Abs(r.step);
    ExactQuotient(d, m);
    StepsTo(r.step, m, d / m);
    ElementAt(r, d / m);
    assert Elements(r)[d / m] == x;
  }

  lemma ExactQuotient(d: nat, m: nat)
    requires m > 0 && d % m == 0
    ensures d / m >= 0 && d == m * (d / m)
  {
  }

  /** k steps in either direction. */
  lemma StepsTo(step: int, m: int, k: int)
    requires m == Abs(step)
    ensures k * step == if step > 0 then m * k else -(m * k)
  {
  }

  lemma ReachedIsContained(r: RangeObj, k: nat, x: int)
    requires r.step != 0 && x == r.start + k * r.step && !Exhausted(x, r.stop, r.step)
    ensures Contains(r, Int(x))
  {
    var m := Abs(r.step);
    StepsTo(r.step, m, k);
    assert m * k >= 0;
    QuotientAndRest(m * k, m, k, 0);
  }

  /** Equal lengths, then equal starts, then, with more than one element, equal steps. */
  predicate RangeEq(a: RangeObj, b: RangeObj)
    requires a.step != 0 && b.step != 0
  {
    Len(a) == Len(b) && (Len(a) == 0 || (a.start == b.start && (Len(a) == 1 || a.step == b.step)))
  }

  lemma {:induction false} RangeEqIsSameElements(a: RangeObj, b: RangeObj)
    requires a.step != 0 && b.step != 0
    ensures RangeEq(a, b) <==> Elements(a) == Elements(b)
  {
    LenIsLength(a);
    LenIsLength(b);
    if Len(a) > 0 && Len(b) > 0 {
      ElementAt(a, 0);
      ElementAt(b, 0);
    }
    if Len(a) > 1 && Len(b) > 1 {
      ElementAt(a, 1);
      ElementAt(b, 1);
    }
    if RangeEq(a, b) {
      forall k | 0 <= k < |Elements(a)| ensures Elements(a)[k] == Elements(b)[k] {
        ElementAt(a, k);
        ElementAt(b, k);
      }
    }
  }

  class Iterator {
    var cur: int
    const stop: int
    const step: int

    constructor (r: RangeObj)
      requires r.step != 0
      ensures step == r.step && Rest() == r
    {
      cur, stop, step := r.start, r.stop, r.step;
    }

    /** What is still to come, as a range. */
    ghost function Rest(): RangeObj
      reads this
    {
      RangeObj(cur, stop, step)
    }

    /** The next element, or nil at the end. */
    method Next() returns (v: Value)
      requires step != 0
      modifies this
      ensures old(Elements(Rest())) == [] ==> v == Nil && Rest() == old(Rest())
      ensures old(Elements(Rest())) != [] ==>
        v == Int(old(Elements(Rest()))[0]) && Elements(Rest()) == old(Elements(Rest()))[1..]
    {
      if Exhausted(cur, stop, step) {
        return Nil;
      }
      v := Int(cur);
      cur := cur + step;
    }
  }

  /** Calling the iterator until it says nil yields the elements of the range, in order. */
  method Drain(r: RangeObj) returns (out: seq<int>)
    requires r.step != 0
    ensures out == Elements(r)
  {
    var it := new Iterator(r);
    out := [];
    var v := it.Next();
    while v != Nil
      invariant it.step != 0 && fresh(it)
      invariant v == Nil ==> out == Elements(r)
      invariant v != Nil ==> v.Int? && out + [v.i] + Elements(it.Rest()) == Elements(r)
      decreases if v == Nil then 0 else 1 + |Elements(it.Rest())|
    {
      out := out + [v.i];
      v := it.Next();
    }
  }
}
