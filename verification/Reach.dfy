/** Object graphs and reachability. */
module Reach {
  type Graph<T> = map<T, set<T>>

  /** No reference leaves the graph. */
  ghost predicate NoDangling<T>(g: Graph<T>)
  {
    forall o, k :: o in g && k in g[o] ==> k in g
  }

  /** One reference further. */
  ghost function Spread<T>(g: Graph<T>, s: set<T>): set<T>
  {
    s + set o, k | o in s && o in g && k in g[o] :: k
  }

  /** What at most n references lead to. */
  ghost function Within<T>(g: Graph<T>, s: set<T>, n: nat): set<T>
  {
    if n == 0 then s else Spread(g, Within(g, s, n - 1))
  }

  ghost predicate Reachable<T>(g: Graph<T>, s: set<T>, o: T)
  {
    exists n: nat :: o in Within(g, s, n)
  }

  /** Whatever an object of c refers to is in c. */
  ghost predicate Closed<T>(g: Graph<T>, c: set<T>)
  {
    forall o, k :: o in c && o in g && k in g[o] ==> k in c
  }

  lemma {:induction false} ClosedHoldsAll<T>(g: Graph<T>, s: set<T>, c: set<T>, n: nat)
    requires s <= c && Closed(g, c)
    ensures Within(g, s, n) <= c
  {
    if n > 0 {
      ClosedHoldsAll(g, s, c, n - 1);
    }
  }

  lemma {:induction false} WithinMono<T>(g: Graph<T>, s: set<T>, t: set<T>, n: nat)
    requires s <= t
    ensures Within(g, s, n) <= Within(g, t, n)
  {
    if n > 0 {
      WithinMono(g, s, t, n - 1);
    }
  }

  lemma {:induction false} StepFirst<T>(g: Graph<T>, o: T, n: nat)
    requires o in g
    ensures Within(g, g[o], n) <= Within(g, {o}, n + 1)
  {
    if n > 0 {
      StepFirst(g, o, n - 1);
    } else {
      assert Within(g, {o}, 1) == Spread(g, Within(g, {o}, 0));
      assert g[o] <= Spread(g, {o});
    }
  }

  /** A set that is closed, holds the roots, and holds nothing unreachable is the set of reachable objects. */
  lemma MarksAreReachable<T>(g: Graph<T>, roots: set<T>, marked: set<T>, o: T)
    requires roots <= marked && Closed(g, marked)
    requires forall x :: x in marked ==> Reachable(g, roots, x)
    ensures o in marked <==> Reachable(g, roots, o)
  {
    if Reachable(g, roots, o) {
      var n: nat :| o in Within(g, roots, n);
      ClosedHoldsAll(g, roots, marked, n);
    }
  }

  lemma ReachSelf<T>(g: Graph<T>, o: T)
    ensures Reachable(g, {o}, o)
  {
    assert o in Within(g, {o}, 0);
  }

  /** More objects, with the references of the others as they are. */
  lemma ReachMore<T>(g: Graph<T>, h: Graph<T>, s: set<T>)
    requires forall o :: o in g ==> o in h && h[o] == g[o]
    ensures forall o :: Reachable(g, s, o) ==> Reachable(h, s, o)
  {
    hide Within;
    forall o | Reachable(g, s, o)
      ensures Reachable(h, s, o)
    {
      var n: nat :| o in Within(g, s, n);
      WithinMore(g, h, s, n);
    }
  }

  lemma {:induction false} WithinMore<T>(g: Graph<T>, h: Graph<T>, s: set<T>, n: nat)
    requires forall o :: o in g ==> o in h && h[o] == g[o]
    ensures Within(g, s, n) <= Within(h, s, n)
  {
    if n > 0 {
      WithinMore(g, h, s, n - 1);
    }
  }

  lemma ReachRoot<T>(g: Graph<T>, s: set<T>, o: T)
    requires o in s
    ensures Reachable(g, s, o)
  {
    assert o in Within(g, s, 0);
  }

  lemma ReachStep<T>(g: Graph<T>, o: T, x: T)
    requires o in g && Reachable(g, g[o], x)
    ensures Reachable(g, {o}, x)
  {
    var n: nat :| x in Within(g, g[o], n);
    StepFirst(g, o, n);
    assert x in Within(g, {o}, n + 1);
  }

  lemma ReachFrom<T>(g: Graph<T>, s: set<T>, o: T, x: T)
    requires o in s && Reachable(g, {o}, x)
    ensures Reachable(g, s, x)
  {
    var n: nat :| x in Within(g, {o}, n);
    WithinMono(g, {o}, s, n);
    assert x in Within(g, s, n);
  }

  lemma ReachWider<T>(g: Graph<T>, s: set<T>, t: set<T>, x: T)
    requires s <= t && Reachable(g, s, x)
    ensures Reachable(g, t, x)
  {
    var n: nat :| x in Within(g, s, n);
    WithinMono(g, s, t, n);
    assert x in Within(g, t, n);
  }
}
