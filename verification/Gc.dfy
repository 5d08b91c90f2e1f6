/** The stop-the-world mark and sweep collector and its accounts. */
module Gc {
  import opened Reach

  const INITIAL_THRESHOLD := 1024 * 1024
  const MAX_THRESHOLD := 64 * 1024 * 1024
  const HEADER_SIZE := 16

  /** An object's type tells its size; the type of an instance lives inside its class object. */
  datatype Kind = Untyped | Builtin(size: nat) | Instance(cls: HeapObj)

  /** What has become of an object's memory. */
  datatype State = Intact | Destroyed | Freed

  datatype Val = NotObject | Ref(o: HeapObj)

  class HeapObj {
    const kind: Kind
    const instanceSize: nat
    var fields: seq<Val>
    var mark: bool
    ghost var state: State

    constructor (kind: Kind, instanceSize: nat)
      ensures this.kind == kind && this.instanceSize == instanceSize && fields == [] && !mark && state == Intact
    {
      this.kind, this.instanceSize := kind, instanceSize;
      fields, mark, state := [], false, Intact;
    }

    /** What traverse visits: an instance's class first, then its references. */
    function Visited(): (vs: seq<Val>)
      reads this`fields
    {
      (if kind.Instance? then [Ref(kind.cls)] else []) + fields
    }

    function Size(): nat
    {
      SizeOfKind(kind)
    }

    /** An instance looks into its class, and objects into what they hold. */
    ghost predicate RefersTo(x: HeapObj)
      reads this`fields
    {
      Ref(x) in fields || kind == Instance(x)
    }
  }

  function SizeOfKind(kind: Kind): nat
  {
    match kind
    case Untyped => HEADER_SIZE
    case Builtin(size) => size
    case Instance(cls) => cls.instanceSize
  }

  /** Reads the size through the object's type, which may be consulted only while its memory is there. */
  method SizeThroughType(o: HeapObj) returns (size: nat)
    requires o.state == Intact && (o.kind.Instance? ==> o.kind.cls.state != Freed)
    ensures size == o.Size()
  {
    size := o.Size();
  }

  method Destroy(o: HeapObj)
    requires o.state == Intact && (o.kind.Instance? ==> o.kind.cls.state != Freed)
    modifies o`state
    ensures o.state == Destroyed
  {
    o.state := Destroyed;
  }

  method Free(o: HeapObj)
    requires o.state == Destroyed
    modifies o`state
    ensures o.state == Freed
  {
    o.state := Freed;
  }

  /** Each object on the path refers to the next one. */
  ghost predicate Chain(path: seq<HeapObj>)
    reads (set o | o in path)`fields
  {
    |path| > 0 && forall i :: 0 < i < |path| ==> path[i - 1].RefersTo(path[i])
  }

  ghost function Refs(vs: seq<Val>): set<HeapObj>
  {
    set v | v in vs && v.Ref? :: v.o
  }

  // ---------------------------------------------------------------------
  // Sums and filters over the object list
  // ---------------------------------------------------------------------

  ghost function TotalSize(os: seq<HeapObj>): nat
  {
    if os == [] then 0 else TotalSize(os[..|os| - 1]) + os[|os| - 1].Size()
  }

  /** The objects of s, in order. */
  ghost function Kept(os: seq<HeapObj>, s: set<HeapObj>): (r: seq<HeapObj>)
    ensures |r| <= |os|
  {
    if os == [] then []
    else Kept(os[..|os| - 1], s) + if os[|os| - 1] in s then [os[|os| - 1]] else []
  }

  ghost predicate NoRepeats(os: seq<HeapObj>)
  {
    forall i, j :: 0 <= i < j < |os| ==> os[i] != os[j]
  }

  lemma {:induction false} TotalStep(os: seq<HeapObj>, o: HeapObj)
    ensures TotalSize(os + [o]) == TotalSize(os) + o.Size()
  {
    assert (os + [o])[..|os|] == os;
  }

  lemma {:induction false} KeptSplits(os: seq<HeapObj>, s: set<HeapObj>, dead: set<HeapObj>)
    requires forall o :: o in os ==> (o in s <==> o !in dead)
    ensures TotalSize(os) == TotalSize(Kept(os, s)) + TotalSize(Kept(os, dead))
    ensures |os| == |Kept(os, s)| + |Kept(os, dead)|
  {
    if os != [] {
      var init, last := os[..|os| - 1], os[|os| - 1];
      KeptSplits(init, s, dead);
      assert last in os;
      TotalStep(Kept(init, s), last);
      TotalStep(Kept(init, dead), last);
      assert Kept(init, s) + [] == Kept(init, s) && Kept(init, dead) + [] == Kept(init, dead);
    }
  }

  lemma {:induction false} KeptStep(os: seq<HeapObj>, s: set<HeapObj>, i: nat)
    requires i < |os|
    ensures Kept(os[..i + 1], s) == if os[i] in s then Kept(os[..i], s) + [os[i]] else Kept(os[..i], s)
  {
    assert os[..i + 1][..i] == os[..i];
  }

  lemma {:induction false} KeptNothing(os: seq<HeapObj>, s: set<HeapObj>)
    ensures Kept(os[..0], s) == [] && TotalSize([]) == 0
  {
  }

  lemma {:induction false} KeptMembers(os: seq<HeapObj>, s: set<HeapObj>)
    ensures forall o :: o in Kept(os, s) <==> o in os && o in s
  {
    if os != [] {
      KeptMembers(os[..|os| - 1], s);
      assert os == os[..|os| - 1] + [os[|os| - 1]];
    }
  }

  lemma {:induction false} KeptNoRepeats(os: seq<HeapObj>, s: set<HeapObj>)
    requires NoRepeats(os)
    ensures NoRepeats(Kept(os, s))
  {
    if os != [] {
      var init := os[..|os| - 1];
      KeptNoRepeats(init, s);
      KeptMembers(init, s);
    }
  }

  lemma FewerLeft<T>(all: set<T>, some: set<T>, more: set<T>, x: T)
    requires some <= more && x in all && x in more && x !in some
    ensures |all - more| < |all - some|
  {
    var a, b := all - more, all - some;
    assert a <= b && x in b && x !in a;
    assert b == a + (b - a) && |b - a| > 0 by {
      assert x in b - a;
    }
  }

  lemma NoMoreLeft<T>(all: set<T>, some: set<T>, more: set<T>)
    requires some <= more
    ensures |all - more| <= |all - some|
  {
    assert all - some == (all - more) + (all * (more - some));
  }

  // ---------------------------------------------------------------------
  // The collector
  // ---------------------------------------------------------------------

  ghost predicate FieldsShown(g: Graph<HeapObj>)
    reads g.Keys`fields
  {
    forall o :: o in g ==> g[o] == Refs(o.Visited())
  }

  ghost predicate AllIntact(g: Graph<HeapObj>)
    reads g.Keys`state
  {
    forall o :: o in g ==> o.state == Intact
  }

  /** After the first pass of a sweep. */
  ghost predicate DeadDestroyed(g: Graph<HeapObj>, dead: set<HeapObj>)
    reads g.Keys`state
  {
    forall o :: o in g ==> o.state == if o in dead then Destroyed else Intact
  }

  /** After the second. */
  ghost predicate DeadFreed(g: Graph<HeapObj>, dead: set<HeapObj>)
    reads g.Keys`state, g.Keys`mark
  {
    forall o :: o in g ==> !o.mark && o.state == if o in dead then Freed else Intact
  }

  ghost predicate MarksOf(g: Graph<HeapObj>, marked: set<HeapObj>)
    reads g.Keys`mark
  {
    marked <= g.Keys && forall o :: o in g ==> (o.mark <==> o in marked)
  }

  ghost predicate SelfContained(g: Graph<HeapObj>, s: set<HeapObj>)
  {
    forall o :: o in s ==> o in g && g[o] <= s
  }

  ghost predicate ListedIn(all: seq<HeapObj>, s: set<HeapObj>)
  {
    NoRepeats(all) && (forall o :: o in all ==> o in s) && forall o :: o in s ==> o in all
  }

  class Collector {
    var allObjects: seq<HeapObj>
    var bytesAlloc: nat
    var nextGC: nat
    var numCollects: nat
    var numObjects: nat

    /** The places that are searched for roots. */
    var roots: seq<Val>
    var stack: seq<Val>
    var globals: Val
    var openUpvalues: seq<HeapObj>

    /** The object graph, and the objects marked so far. */
    ghost var graph: Graph<HeapObj>
    ghost var marked: set<HeapObj>

    ghost function RootSet(): set<HeapObj>
      reads this`roots, this`stack, this`globals, this`openUpvalues
    {
      Refs(roots) + Refs(stack) + Refs([globals]) + set u | u in openUpvalues
    }

    /** A path of references that starts at a registered root, in the value stack, at the globals or at an open upvalue. */
    ghost predicate Rooted(path: seq<HeapObj>)
      reads this`roots, this`stack, this`globals, this`openUpvalues, (set o | o in path)`fields
    {
      |path| > 0 && Chain(path)
      && (Ref(path[0]) in roots || Ref(path[0]) in stack || globals == Ref(path[0]) || path[0] in openUpvalues)
    }

    /** The graph shows the references between intact objects. */
    ghost predicate Shown()
      reads this`graph, graph.Keys`fields, graph.Keys`state
    {
      NoDangling(graph) && FieldsShown(graph) && AllIntact(graph)
    }

    ghost predicate MarksShown()
      reads this`graph, this`marked, graph.Keys`mark
    {
      MarksOf(graph, marked)
    }

    ghost predicate Listed()
      reads this`allObjects, this`graph
    {
      ListedIn(allObjects, graph.Keys)
    }

    ghost predicate Accounted()
      reads this`allObjects, this`bytesAlloc, this`numObjects
    {
      bytesAlloc == TotalSize(allObjects) && numObjects == |allObjects|
    }

    ghost predicate Valid()
      reads this, graph.Keys
    {
      Shown() && MarksShown() && marked == {} && Listed() && Accounted() && RootSet() <= graph.Keys
    }

    constructor ()
      ensures Valid() && allObjects == [] && graph == map[] && nextGC == 1024 * 1024
    {
      allObjects, bytesAlloc, nextGC, numCollects, numObjects := [], 0, INITIAL_THRESHOLD, 0, 0;
      roots, stack, globals, openUpvalues := [], [], NotObject, [];
      graph, marked := map[], {};
    }

    /**
      Marks an object and what it leads to. Every object newly marked is reachable from it and has all
      its references marked when the call returns.
    */
    method MarkObject(o: HeapObj)
      requires Shown() && MarksShown() && o in graph
      modifies this`marked, graph.Keys`mark
      ensures Shown() && MarksShown() && old(marked) <= marked && o in marked
      ensures Traced(graph, old(marked), marked, {o}) && Blackened(graph, old(marked), marked)
      decreases |graph.Keys - marked|, 0
    {
      hide Traced, Blackened, Shown, MarksShown;
      ghost var before := marked;
      Unmarked(o);
      if o.mark {
        TracedNothing(graph, marked, {o});
        return;
      }
      var vs := Traverse(o);
      SetMark(o);
      FewerLeft(graph.Keys, before, marked, o);
      MarkValues(vs);
      TracedSelf(graph, before, marked, o);
    }

    method SetMark(o: HeapObj)
      requires Shown() && MarksShown() && o in graph
      modifies this`marked, o`mark
      ensures Shown() && MarksShown() && marked == old(marked) + {o}
    {
      hide Shown;
      o.mark := true;
      marked := marked + {o};
    }

    lemma Unmarked(o: HeapObj)
      requires MarksShown() && o in graph
      ensures o.mark <==> o in marked
    {
    }

    /** The values that the object's traverse function visits. */
    method Traverse(o: HeapObj) returns (vs: seq<Val>)
      requires Shown() && o in graph
      ensures Refs(vs) == graph[o] <= graph.Keys
    {
      vs := o.Visited();
    }

    method MarkValues(vs: seq<Val>)
      requires Shown() && MarksShown() && Refs(vs) <= graph.Keys
      modifies this`marked, graph.Keys`mark
      ensures Shown() && MarksShown() && old(marked) <= marked && Refs(vs) <= marked
      ensures Traced(graph, old(marked), marked, Refs(vs)) && Blackened(graph, old(marked), marked)
      decreases |graph.Keys - marked|, 1
    {
      hide Traced, Blackened, Shown;
      TracedNothing(graph, marked, Refs(vs));
      ghost var before := marked;
      for i := 0 to |vs|
        invariant Shown() && MarksShown() && before <= marked && Refs(vs[..i]) <= marked
        invariant Traced(graph, before, marked, Refs(vs)) && Blackened(graph, before, marked)
      {
        ghost var mid := marked;
        RefsStep(vs, i);
        if vs[i].Ref? {
          NoMoreLeft(graph.Keys, before, mid);
          MarkObject(vs[i].o);
          TracedMore(graph, before, mid, marked, Refs(vs), vs[i].o);
          BlackenedMore(graph, before, mid, marked);
        }
      }
      assert vs[..|vs|] == vs;
    }

    /** The registered roots, the value stack, the globals and the open upvalues, in this order. */
    method MarkRoots()
      requires Shown() && MarksShown() && marked == {} && RootSet() <= graph.Keys
      modifies this`marked, graph.Keys`mark
      ensures Shown() && MarksShown() && RootSet() <= marked
      ensures Traced(graph, {}, marked, RootSet()) && Blackened(graph, {}, marked)
      ensures forall o :: Ref(o) in roots || Ref(o) in stack || globals == Ref(o) || o in openUpvalues ==> o in marked
      ensures forall path :: Rooted(path) ==> path[|path| - 1] in marked
      ensures forall o :: o in marked ==> exists path :: Rooted(path) && path[|path| - 1] == o
    {
      hide Traced, Blackened, Shown, MarksShown;
      TracedNothing(graph, {}, RootSet());
      MarkFrom(roots);
      MarkFrom(stack);
      MarkFrom([globals]);
      var vs := seq(|openUpvalues|, i requires 0 <= i < |openUpvalues| reads this`openUpvalues => Ref(openUpvalues[i]));
      assert Refs(vs) == set u | u in openUpvalues by {
        UpvalueRefs(openUpvalues, vs);
      }
      MarkFrom(vs);
      RootsHeld();
      RootedIsReachable();
      MarkedInGraph();
      MarksRight(graph, RootSet(), marked);
    }

    lemma RootsHeld()
      ensures forall o :: o in RootSet() <==> Ref(o) in roots || Ref(o) in stack || globals == Ref(o) || o in openUpvalues
    {
      assert globals in [globals];
      assert forall v :: v in [globals] ==> v == globals;
    }

    /** A path can be followed reference by reference. */
    lemma {:induction false} PathReached(path: seq<HeapObj>)
      requires Shown() && RootSet() <= graph.Keys && Rooted(path)
      ensures path[|path| - 1] in graph && Reachable(graph, RootSet(), path[|path| - 1])
      decreases |path|
    {
      hide AllIntact;
      RootsHeld();
      if |path| == 1 {
        assert path[0] in Within(graph, RootSet(), 0);
      } else {
        var n := |path| - 1;
        var init := path[..n];
        forall i | 0 < i < n
          ensures init[i - 1].RefersTo(init[i])
        {
          assert path[i - 1].RefersTo(path[i]);
        }
        PathReached(init);
        RefersShown(path[n - 1], path[n]);
        var k: nat :| path[n - 1] in Within(graph, RootSet(), k);
        assert path[n] in Within(graph, RootSet(), k + 1);
      }
    }

    /** And back from what references lead to. */
    lemma {:induction false} WithinRooted(o: HeapObj, n: nat) returns (path: seq<HeapObj>)
      requires Shown() && RootSet() <= graph.Keys && o in Within(graph, RootSet(), n)
      ensures Rooted(path) && path[|path| - 1] == o
      decreases n
    {
      hide NoDangling, AllIntact;
      RootsHeld();
      if o in RootSet() {
        path := [o];
      } else if n > 0 {
        if o in Within(graph, RootSet(), n - 1) {
          path := WithinRooted(o, n - 1);
        } else {
          var p :| p in Within(graph, RootSet(), n - 1) && p in graph && o in graph[p];
          var init := WithinRooted(p, n - 1);
          RefersShown(p, o);
          path := init + [o];
        }
      }
    }

    lemma RefersShown(p: HeapObj, o: HeapObj)
      requires FieldsShown(graph) && p in graph
      ensures p.RefersTo(o) <==> o in graph[p]
    {
      VisitedOf(p);
    }

    method MarkFrom(vs: seq<Val>)
      requires Shown() && MarksShown() && Refs(vs) <= RootSet() <= graph.Keys
      requires Traced(graph, {}, marked, RootSet()) && Blackened(graph, {}, marked)
      modifies this`marked, graph.Keys`mark
      ensures Shown() && MarksShown() && old(marked) <= marked && Refs(vs) <= marked
      ensures Traced(graph, {}, marked, RootSet()) && Blackened(graph, {}, marked)
    {
      hide Traced, Blackened, Shown, MarksShown;
      ghost var mid := marked;
      MarkValues(vs);
      TracedWider(graph, {}, mid, marked, RootSet(), Refs(vs));
      BlackenedMore(graph, {}, mid, marked);
    }

    /** The first pass: sizes are added up and destructors called while every object is still there. */
    method DestroyUnmarked() returns (freedBytes: nat, freedCount: nat, ghost dead: set<HeapObj>)
      requires Shown() && MarksShown() && Listed()
      modifies graph.Keys`state
      ensures dead == graph.Keys - marked
      ensures freedBytes == TotalSize(Kept(allObjects, dead)) && freedCount == |Kept(allObjects, dead)|
      ensures DeadDestroyed(graph, dead)
    {
      hide Kept, TotalSize;
      freedBytes, freedCount, dead := 0, 0, graph.Keys - marked;
      ghost var done: set<HeapObj> := {};
      KeptNothing(allObjects, dead);
      for i := 0 to |allObjects|
        invariant freedBytes == TotalSize(Kept(allObjects[..i], dead)) && freedCount == |Kept(allObjects[..i], dead)|
        invariant forall j :: 0 <= j < |allObjects| ==> (allObjects[j] in done <==> j < i)
        invariant forall o :: o in graph ==> o.state == if o in dead && o in done then Destroyed else Intact
      {
        var obj := allObjects[i];
        KeptStep(allObjects, dead, i);
        if !obj.mark {
          var size := SizeThroughType(obj);
          freedBytes := freedBytes + size;
          freedCount := freedCount + 1;
          Destroy(obj);
          TotalStep(Kept(allObjects[..i], dead), obj);
        }
        done := done + {obj};
      }
      assert allObjects[..|allObjects|] == allObjects;
    }

    /** The second pass: survivors move to the front in their order and lose their marks; the rest is freed. */
    method CompactAndFree(ghost dead: set<HeapObj>)
      requires MarksShown() && Listed() && dead == graph.Keys - marked
      requires DeadDestroyed(graph, dead)
      modifies this`allObjects, graph.Keys`mark, graph.Keys`state
      ensures allObjects == Kept(old(allObjects), marked)
      ensures DeadFreed(graph, dead)
    {
      hide Kept;
      ghost var all := allObjects;
      ghost var done: set<HeapObj> := {};
      KeptNothing(all, marked);
      var writeIdx := 0;
      for i := 0 to |allObjects|
        invariant |allObjects| == |all| && writeIdx <= i && allObjects[..writeIdx] == Kept(all[..i], marked)
        invariant forall j :: i <= j < |all| ==> allObjects[j] == all[j]
        invariant forall j :: 0 <= j < |all| ==> (all[j] in done <==> j < i)
        invariant forall o :: o in graph ==> (o.mark <==> o in marked && o !in done)
        invariant forall o :: o in graph ==> o.state == if o !in dead then Intact else if o in done then Freed else Destroyed
      {
        var obj := allObjects[i];
        KeptStep(all, marked, i);
        if obj.mark {
          obj.mark := false;
          allObjects := allObjects[writeIdx := obj];
          assert allObjects[..writeIdx + 1] == allObjects[..writeIdx] + [obj];
          writeIdx := writeIdx + 1;
        } else {
          Free(obj);
        }
        done := done + {obj};
      }
      assert all[..|all|] == all;
      allObjects := allObjects[..writeIdx];
    }

    /**
      A collection keeps exactly the objects reachable from the roots, in their order, unmarked and
      intact, and destroys and frees the others; the accounts again show the objects that are left.
    */
    method Collect() returns (ghost survivors: set<HeapObj>)
      requires Valid()
      modifies this`allObjects, this`bytesAlloc, this`nextGC, this`numCollects, this`numObjects, this`graph, this`marked,
               graph.Keys`mark, graph.Keys`state
      ensures Valid()
      ensures survivors <= old(graph).Keys
      ensures forall o :: o in old(graph) ==> (o in survivors <==> Reachable(old(graph), RootSet(), o))
      ensures forall o :: Ref(o) in roots || Ref(o) in stack || globals == Ref(o) || o in openUpvalues ==> o in survivors
      ensures forall path :: Rooted(path) ==> path[|path| - 1] in survivors
      ensures forall o :: o in survivors ==> exists path :: Rooted(path) && path[|path| - 1] == o
      ensures forall o :: o in survivors ==> o in allObjects && o.state == Intact && !o.mark
      ensures forall o :: o in old(allObjects) && o !in survivors ==> o.state == Freed
      ensures allObjects == Kept(old(allObjects), survivors)
      ensures graph == old(graph) - (old(graph).Keys - survivors)
      ensures DeadFreed(old(graph), old(graph).Keys - survivors)
      ensures numCollects == old(numCollects) + 1
      ensures nextGC == if bytesAlloc * 2 < MAX_THRESHOLD then bytesAlloc * 2 else MAX_THRESHOLD
    {
      hide Reachable, Kept, TotalSize, FieldsShown, AllIntact, NoDangling, ListedIn, MarksOf, DeadFreed, Chain;
      ghost var all, g := allObjects, graph;
      survivors := MarkAndSweep();
      Fates(g, survivors, all);
      StillReachable(g, survivors, RootSet());
      RootsHeld();
      RootedIsReachable();
    }

    /** Following references by paths and by sets comes to the same. */
    lemma RootedIsReachable()
      requires Shown() && RootSet() <= graph.Keys
      ensures forall path :: Rooted(path) ==> path[|path| - 1] in graph && Reachable(graph, RootSet(), path[|path| - 1])
      ensures forall o :: o in graph && Reachable(graph, RootSet(), o) ==> exists path :: Rooted(path) && path[|path| - 1] == o
    {
      hide FieldsShown, NoDangling, AllIntact, Within, Chain;
      forall path | Rooted(path)
        ensures path[|path| - 1] in graph && Reachable(graph, RootSet(), path[|path| - 1])
      {
        PathReached(path);
      }
      forall o | o in graph && Reachable(graph, RootSet(), o)
        ensures exists path :: Rooted(path) && path[|path| - 1] == o
      {
        var n: nat :| o in Within(graph, RootSet(), n);
        var path := WithinRooted(o, n);
      }
    }

    /** The two halves of a collection, and when the next one is due. */
    method MarkAndSweep() returns (ghost survivors: set<HeapObj>)
      requires Valid()
      modifies this`allObjects, this`bytesAlloc, this`nextGC, this`numCollects, this`numObjects, this`graph, this`marked,
               graph.Keys`mark, graph.Keys`state
      ensures Valid()
      ensures survivors <= old(graph).Keys
      ensures forall o :: o in old(graph) ==> (o in survivors <==> Reachable(old(graph), RootSet(), o))
      ensures allObjects == Kept(old(allObjects), survivors)
      ensures graph == old(graph) - (old(graph).Keys - survivors)
      ensures DeadFreed(old(graph), old(graph).Keys - survivors)
      ensures numCollects == old(numCollects) + 1
      ensures nextGC == if bytesAlloc * 2 < MAX_THRESHOLD then bytesAlloc * 2 else MAX_THRESHOLD
    {
      hide Reachable, Kept, TotalSize, Traced, Blackened, FieldsShown, AllIntact, NoDangling, ListedIn, MarksOf,
           SelfContained, DeadFreed, Rooted, Chain;
      MarkRoots();
      survivors := marked;
      MarkedInGraph();
      MarksRight(graph, RootSet(), marked);
      SweepAndSchedule();
    }

    method SweepAndSchedule()
      requires Shown() && MarksShown() && Listed() && Accounted() && RootSet() <= marked
      requires SelfContained(graph, marked)
      modifies this`allObjects, this`bytesAlloc, this`nextGC, this`numCollects, this`numObjects, this`graph, this`marked,
               graph.Keys`mark, graph.Keys`state
      ensures Valid()
      ensures graph == old(graph) - (old(graph).Keys - old(marked)) && allObjects == Kept(old(allObjects), old(marked))
      ensures DeadFreed(old(graph), old(graph).Keys - old(marked)) && numCollects == old(numCollects) + 1
      ensures nextGC == if bytesAlloc * 2 < MAX_THRESHOLD then bytesAlloc * 2 else MAX_THRESHOLD
    {
      hide Kept, TotalSize, FieldsShown, AllIntact, NoDangling, ListedIn, MarksOf, SelfContained, DeadFreed;
      Sweep();
      Schedule();
    }

    /** The next collection is due when twice the surviving bytes are in use. */
    method Schedule()
      requires Valid()
      modifies this`numCollects, this`nextGC
      ensures Valid() && numCollects == old(numCollects) + 1
      ensures nextGC == if bytesAlloc * 2 < MAX_THRESHOLD then bytesAlloc * 2 else MAX_THRESHOLD
    {
      hide TotalSize, FieldsShown, NoDangling, ListedIn, MarksOf, AllIntact;
      numCollects := numCollects + 1;
      nextGC := if bytesAlloc * 2 < MAX_THRESHOLD then bytesAlloc * 2 else MAX_THRESHOLD;
    }

    lemma MarkedInGraph()
      requires MarksShown()
      ensures marked <= graph.Keys
    {
    }

    method Sweep()
      requires Shown() && MarksShown() && Listed() && Accounted() && RootSet() <= marked
      requires SelfContained(graph, marked)
      modifies this`allObjects, this`bytesAlloc, this`numObjects, this`graph, this`marked, graph.Keys`mark, graph.Keys`state
      ensures Valid()
      ensures graph == old(graph) - (old(graph).Keys - old(marked)) && allObjects == Kept(old(allObjects), old(marked))
      ensures DeadFreed(old(graph), old(graph).Keys - old(marked))
    {
      hide Reachable, Kept, TotalSize, FieldsShown, NoDangling, ListedIn, MarksOf, AllIntact, DeadDestroyed,
           DeadFreed, SelfContained;
      ghost var all, g, survivors := allObjects, graph, marked;
      MarkedInGraph();
      var freedBytes, freedCount, dead := DestroyUnmarked();
      CompactAndFree(dead);
      assert g.Keys == survivors + dead;
      AccountsRight(all, survivors, dead);
      SurvivorsClosed(g, survivors);
      StillShown(g, dead);
      KeysLeft(g, survivors, dead);
      Settle(freedBytes, freedCount, g - dead);
    }

    /** Takes the dead off the accounts. */
    method Settle(freedBytes: nat, freedCount: nat, ghost left: Graph<HeapObj>)
      requires freedBytes <= bytesAlloc && bytesAlloc - freedBytes == TotalSize(allObjects)
      requires freedCount <= numObjects && numObjects - freedCount == |allObjects|
      requires NoDangling(left) && FieldsShown(left) && AllIntact(left) && MarksOf(left, {})
      requires ListedIn(allObjects, left.Keys) && RootSet() <= left.Keys
      modifies this`bytesAlloc, this`numObjects, this`graph, this`marked
      ensures Valid() && graph == left
    {
      hide TotalSize, FieldsShown, NoDangling, ListedIn, MarksOf, AllIntact;
      bytesAlloc := bytesAlloc - freedBytes;
      numObjects := numObjects - freedCount;
      graph := left;
      marked := {};
    }

    /**
      Allocates an object, after a collection if the threshold would be passed. Whoever makes an instance
      must see to it that its class is reachable.
    */
    method Alloc(kind: Kind, instanceSize: nat, size: nat) returns (o: HeapObj)
      requires Valid() && size == SizeOfKind(kind)
      requires kind.Instance? ==> kind.cls in graph && Reachable(graph, RootSet(), kind.cls)
      modifies this`allObjects, this`bytesAlloc, this`nextGC, this`numCollects, this`numObjects, this`graph, this`marked,
               graph.Keys`mark, graph.Keys`state
      ensures Valid() && fresh(o) && o in graph && o.kind == kind && o.fields == []
      ensures graph.Keys - {o} <= old(graph).Keys
      ensures forall x :: x in old(graph) && Reachable(old(graph), RootSet(), x) ==> x in graph
      ensures forall x :: Ref(x) in roots || Ref(x) in stack || globals == Ref(x) || x in openUpvalues ==> x in graph
      ensures forall path :: Rooted(path) ==> path[|path| - 1] in graph
      ensures forall x :: x in graph ==> x in allObjects && x.state == Intact
      ensures old(bytesAlloc) + size > old(nextGC) ==>
        forall x :: x in graph && x != o ==> exists path :: Rooted(path) && path[|path| - 1] == x
      ensures old(bytesAlloc) + size <= old(nextGC) ==> allObjects == old(allObjects) + [o] && bytesAlloc == old(bytesAlloc) + size
      ensures old(bytesAlloc) + size > old(nextGC) ==> numCollects == old(numCollects) + 1
    {
      hide Reachable, Kept, TotalSize, FieldsShown, NoDangling, ListedIn, MarksOf, AllIntact, DeadFreed, Rooted, Chain;
      if bytesAlloc + size > nextGC {
        ghost var g := graph;
        ghost var survivors := Collect();
        StillReachable(g, survivors, RootSet());
      }
      ghost var g := graph;
      o := Register(kind, instanceSize, size);
      ReachMore(g, graph, RootSet());
      RootsHeld();
      RootedIsReachable();
      AllListed();
    }

    lemma AllListed()
      requires Valid()
      ensures forall x :: x in graph ==> x in allObjects && x.state == Intact
    {
    }

    method Register(kind: Kind, instanceSize: nat, size: nat) returns (o: HeapObj)
      requires Valid() && size == SizeOfKind(kind) && (kind.Instance? ==> kind.cls in graph)
      modifies this`allObjects, this`bytesAlloc, this`numObjects, this`graph
      ensures Valid() && fresh(o) && o.kind == kind && o.fields == []
      ensures graph == old(graph)[o := if kind.Instance? then {kind.cls} else {}] && allObjects == old(allObjects) + [o]
      ensures bytesAlloc == old(bytesAlloc) + size
    {
      hide TotalSize, FieldsShown, NoDangling, ListedIn, MarksOf, AllIntact;
      o := new HeapObj(kind, instanceSize);
      VisitedAtFirst(o);
      TotalStep(allObjects, o);
      ghost var g := graph[o := if kind.Instance? then {kind.cls} else {}];
      Joined(graph, o, if kind.Instance? then {kind.cls} else {});
      ListedMore(allObjects, graph.Keys, o);
      assert g.Keys == graph.Keys + {o};
      Enter(o, size, g);
    }

    method Enter(o: HeapObj, size: nat, ghost g: Graph<HeapObj>)
      requires Accounted() && size == o.Size() && TotalSize(allObjects + [o]) == TotalSize(allObjects) + o.Size()
      requires NoDangling(g) && FieldsShown(g) && AllIntact(g) && MarksOf(g, {}) && marked == {}
      requires ListedIn(allObjects + [o], g.Keys) && RootSet() <= g.Keys
      modifies this`allObjects, this`bytesAlloc, this`numObjects, this`graph
      ensures Valid() && graph == g && allObjects == old(allObjects) + [o] && bytesAlloc == old(bytesAlloc) + size
    {
      hide TotalSize, FieldsShown, NoDangling, ListedIn, MarksOf, AllIntact;
      allObjects := allObjects + [o];
      bytesAlloc := bytesAlloc + size;
      numObjects := numObjects + 1;
      graph := g;
    }

    /** The program stores references in an object. */
    method Write(o: HeapObj, fields: seq<Val>)
      requires Valid() && o in graph && Refs(fields) <= graph.Keys
      modifies o`fields, this`graph
      ensures Valid() && o.fields == fields && graph.Keys == old(graph).Keys
      ensures forall x :: x in graph && x != o ==> graph[x] == old(graph)[x]
    {
      hide TotalSize, FieldsShown, NoDangling, ListedIn, MarksOf, AllIntact;
      ghost var g := graph;
      FieldsOf(g);
      VisitedBefore(o);
      o.fields := fields;
      VisitedOf(o);
      Rewired(g, o, Refs(o.Visited()));
      Rewire(g[o := Refs(o.Visited())]);
    }

    ghost method Rewire(g: Graph<HeapObj>)
      requires NoDangling(g) && FieldsShown(g) && AllIntact(graph) && MarksOf(graph, {}) && marked == {}
      requires g.Keys == graph.Keys && ListedIn(allObjects, g.Keys) && RootSet() <= g.Keys && Accounted()
      modifies this`graph
      ensures Valid() && graph == g
    {
      graph := g;
    }

    lemma VisitedBefore(o: HeapObj)
      requires Shown() && o in graph
      ensures o.kind.Instance? ==> o.kind.cls in graph
    {
      ClassesListed(graph);
    }

    method PushRoot(v: Val)
      requires Valid() && Refs([v]) <= graph.Keys
      modifies this`roots
      ensures Valid() && roots == old(roots) + [v]
    {
      roots := roots + [v];
      assert v in [v];
    }

    method PopRoot()
      requires Valid() && |roots| > 0
      modifies this`roots
      ensures Valid() && roots == old(roots)[..|old(roots)| - 1]
    {
      roots := roots[..|roots| - 1];
    }

    /** At the end everything goes, again in two passes because instances look into their classes. */
    method Shutdown()
      requires Valid()
      modifies this, graph.Keys`state
      ensures allObjects == [] && roots == []
      ensures forall o :: o in old(graph) ==> o.state == Freed
    {
      DestroyAll();
      FreeAll();
      allObjects, roots := [], [];
    }

    method DestroyAll()
      requires Listed() && AllIntact(graph) && NoDangling(graph) && FieldsShown(graph)
      modifies graph.Keys`state
      ensures DeadDestroyed(graph, graph.Keys)
    {
      ClassesListed(graph);
      hide FieldsShown, NoDangling;
      ghost var done: set<HeapObj> := {};
      for i := 0 to |allObjects|
        invariant forall j :: 0 <= j < |allObjects| ==> (allObjects[j] in done <==> j < i)
        invariant forall o :: o in graph ==> o.state == if o in done then Destroyed else Intact
      {
        Destroy(allObjects[i]);
        done := done + {allObjects[i]};
      }
    }

    method FreeAll()
      requires Listed() && DeadDestroyed(graph, graph.Keys)
      modifies graph.Keys`state
      ensures forall o :: o in graph ==> o.state == Freed
    {
      ghost var done: set<HeapObj> := {};
      for i := 0 to |allObjects|
        invariant forall j :: 0 <= j < |allObjects| ==> (allObjects[j] in done <==> j < i)
        invariant forall o :: o in graph ==> o.state == if o in done then Freed else Destroyed
      {
        Free(allObjects[i]);
        done := done + {allObjects[i]};
      }
    }
  }

  lemma FieldsOf(g: Graph<HeapObj>)
    requires FieldsShown(g)
    ensures forall o :: o in g ==> g[o] == Refs(o.Visited())
  {
  }

  lemma Rewired(g: Graph<HeapObj>, o: HeapObj, kids: set<HeapObj>)
    requires NoDangling(g) && o in g && kids <= g.Keys && kids == Refs(o.Visited())
    requires forall x :: x in g && x != o ==> g[x] == Refs(x.Visited())
    ensures var h := g[o := kids]; NoDangling(h) && FieldsShown(h) && h.Keys == g.Keys
  {
    var h := g[o := kids];
    assert h.Keys == g.Keys;
  }

  /** Every instance's class is among the objects. */
  lemma ClassesListed(g: Graph<HeapObj>)
    requires NoDangling(g) && FieldsShown(g)
    ensures forall o :: o in g && o.kind.Instance? ==> o.kind.cls in g
  {
    forall o | o in g && o.kind.Instance?
      ensures o.kind.cls in g
    {
      assert o.Visited()[0] == Ref(o.kind.cls);
      assert o.kind.cls in g[o];
    }
  }

  /** A new object joins the graph. */
  lemma Joined(g: Graph<HeapObj>, o: HeapObj, kids: set<HeapObj>)
    requires NoDangling(g) && FieldsShown(g) && AllIntact(g) && MarksOf(g, {}) && o !in g && kids <= g.Keys
    requires o.state == Intact && !o.mark && Refs(o.Visited()) == kids
    ensures var h := g[o := kids]; NoDangling(h) && FieldsShown(h) && AllIntact(h) && MarksOf(h, {})
  {
  }

  lemma ListedMore(all: seq<HeapObj>, s: set<HeapObj>, o: HeapObj)
    requires ListedIn(all, s) && o !in s
    ensures ListedIn(all + [o], s + {o})
  {
  }

  lemma VisitedAtFirst(o: HeapObj)
    requires o.fields == []
    ensures Refs(o.Visited()) == if o.kind.Instance? then {o.kind.cls} else {}
  {
    if o.kind.Instance? {
      assert Ref(o.kind.cls) in o.Visited();
    }
  }

  lemma VisitedOf(o: HeapObj)
    ensures Refs(o.Visited()) == Refs(o.fields) + if o.kind.Instance? then {o.kind.cls} else {}
  {
    forall v | v in o.fields
      ensures v in o.Visited()
    {
    }
    if o.kind.Instance? {
      assert o.Visited()[0] == Ref(o.kind.cls);
    }
  }

  // ---------------------------------------------------------------------
  // Marking
  // ---------------------------------------------------------------------

  /** Everything marked in between is reachable from s. */
  ghost predicate Traced(g: Graph<HeapObj>, before: set<HeapObj>, after: set<HeapObj>, s: set<HeapObj>)
  {
    before <= after && forall x :: x in after - before ==> x in g && Reachable(g, s, x)
  }

  /** Everything marked in between has all its references marked. */
  ghost predicate Blackened(g: Graph<HeapObj>, before: set<HeapObj>, after: set<HeapObj>)
  {
    before <= after && forall x :: x in after - before ==> x in g && g[x] <= after
  }

  lemma TracedNothing(g: Graph<HeapObj>, m: set<HeapObj>, s: set<HeapObj>)
    ensures Traced(g, m, m, s) && Blackened(g, m, m)
  {
  }

  /** An object, then everything its references lead to. */
  lemma TracedSelf(g: Graph<HeapObj>, before: set<HeapObj>, after: set<HeapObj>, o: HeapObj)
    requires o in g && g[o] <= after && Traced(g, before + {o}, after, g[o]) && Blackened(g, before + {o}, after)
    ensures Traced(g, before, after, {o}) && Blackened(g, before, after)
  {
    hide Reachable;
    forall x | x in after - before
      ensures x in g && Reachable(g, {o}, x) && g[x] <= after
    {
      if x == o {
        ReachSelf(g, o);
      } else {
        ReachStep(g, o, x);
      }
    }
  }

  lemma TracedMore(g: Graph<HeapObj>, before: set<HeapObj>, mid: set<HeapObj>, after: set<HeapObj>,
                   s: set<HeapObj>, o: HeapObj)
    requires Traced(g, before, mid, s) && Traced(g, mid, after, {o}) && o in s
    ensures Traced(g, before, after, s)
  {
    hide Reachable;
    forall x | x in after - before
      ensures x in g && Reachable(g, s, x)
    {
      if x !in mid {
        ReachFrom(g, s, o, x);
      }
    }
  }

  /** What has been marked from the roots is what is reachable from them. */
  lemma MarksRight(g: Graph<HeapObj>, roots: set<HeapObj>, marked: set<HeapObj>)
    requires roots <= marked && Traced(g, {}, marked, roots) && Blackened(g, {}, marked)
    ensures forall o :: o in g ==> (o in marked <==> Reachable(g, roots, o))
    ensures SelfContained(g, marked)
  {
    hide Reachable;
    assert marked - {} == marked;
    forall o | o in g
      ensures o in marked <==> Reachable(g, roots, o)
    {
      MarksAreReachable(g, roots, marked, o);
    }
  }

  /** No survivor refers to an object that died. */
  lemma SurvivorsClosed(g: Graph<HeapObj>, survivors: set<HeapObj>)
    requires SelfContained(g, survivors)
    ensures NoDangling(g - (g.Keys - survivors))
  {
  }

  lemma StillShown(g: Graph<HeapObj>, dead: set<HeapObj>)
    requires FieldsShown(g) && DeadFreed(g, dead)
    ensures FieldsShown(g - dead) && AllIntact(g - dead) && MarksOf(g - dead, {})
  {
  }

  lemma KeysLeft(g: Graph<HeapObj>, survivors: set<HeapObj>, dead: set<HeapObj>)
    requires survivors <= g.Keys && dead == g.Keys - survivors
    ensures (g - dead).Keys == survivors
  {
  }

  /** What is reachable stays reachable when the rest is gone. */
  lemma StillReachable(g: Graph<HeapObj>, survivors: set<HeapObj>, roots: set<HeapObj>)
    requires survivors <= g.Keys && roots <= g.Keys && NoDangling(g)
    requires forall o :: o in g ==> (o in survivors <==> Reachable(g, roots, o))
    ensures var h := g - (g.Keys - survivors);
      h.Keys == survivors && roots <= survivors && forall o :: o in survivors ==> Reachable(h, roots, o)
  {
    hide Within;
    var h := g - (g.Keys - survivors);
    forall o | o in roots
      ensures o in survivors
    {
      ReachRoot(g, roots, o);
    }
    forall o | o in survivors
      ensures Reachable(h, roots, o)
    {
      var n: nat :| o in Within(g, roots, n);
      WithinRest(g, survivors, roots, n);
    }
  }

  lemma {:induction false} WithinRest(g: Graph<HeapObj>, survivors: set<HeapObj>, roots: set<HeapObj>, n: nat)
    requires survivors <= g.Keys && roots <= g.Keys && NoDangling(g)
    requires forall o :: o in g ==> (o in survivors <==> Reachable(g, roots, o))
    ensures Within(g, roots, n) <= Within(g - (g.Keys - survivors), roots, n) && Within(g, roots, n) <= g.Keys
  {
    if n > 0 {
      var h := g - (g.Keys - survivors);
      WithinRest(g, survivors, roots, n - 1);
      forall o | o in Within(g, roots, n)
        ensures o in Within(h, roots, n) && o in g
      {
        if o !in Within(g, roots, n - 1) {
          var p :| p in Within(g, roots, n - 1) && p in g && o in g[p];
          assert Reachable(g, roots, p);
          assert p in h && h[p] == g[p] && p in Within(h, roots, n - 1);
        }
      }
    }
  }

  /** The kept objects stand in their old order, and none is left out. */
  lemma {:induction false} KeptInOrder(os: seq<HeapObj>, s: set<HeapObj>) returns (at: seq<nat>)
    ensures |at| == |Kept(os, s)| && forall k :: 0 <= k < |at| ==> at[k] < |os| && os[at[k]] == Kept(os, s)[k]
    ensures forall j, k :: 0 <= j < k < |at| ==> at[j] < at[k]
    ensures forall i :: 0 <= i < |os| && os[i] in s ==> i in at
  {
    if os == [] {
      at := [];
    } else {
      var n := |os| - 1;
      at := KeptInOrder(os[..n], s);
      if os[n] in s {
        at := at + [n];
      }
    }
  }

  /** What has become of each object. */
  lemma {:induction false} Fates(g: Graph<HeapObj>, survivors: set<HeapObj>, all: seq<HeapObj>)
    requires ListedIn(all, g.Keys) && survivors <= g.Keys && DeadFreed(g, g.Keys - survivors)
    ensures forall o :: o in survivors ==> o in Kept(all, survivors) && o.state == Intact && !o.mark
    ensures forall o :: o in all && o !in survivors ==> o.state == Freed
  {
    hide Kept;
    KeptMembers(all, survivors);
  }

  /** What is taken off the accounts is what the dead objects had added. */
  lemma {:induction false} AccountsRight(all: seq<HeapObj>, survivors: set<HeapObj>, dead: set<HeapObj>)
    requires ListedIn(all, survivors + dead) && survivors !! dead
    ensures TotalSize(all) - TotalSize(Kept(all, dead)) == TotalSize(Kept(all, survivors))
    ensures |all| - |Kept(all, dead)| == |Kept(all, survivors)|
    ensures ListedIn(Kept(all, survivors), survivors)
  {
    hide Kept;
    KeptSplits(all, survivors, dead);
    KeptMembers(all, survivors);
    KeptNoRepeats(all, survivors);
    forall o | o in survivors
      ensures o in Kept(all, survivors)
    {
      assert o in survivors + dead;
      assert o in all;
    }
    assert NoRepeats(Kept(all, survivors));
    assert forall o :: o in Kept(all, survivors) ==> o in survivors;
    assert forall o :: o in survivors ==> o in Kept(all, survivors);
  }

  lemma TracedWider(g: Graph<HeapObj>, before: set<HeapObj>, mid: set<HeapObj>, after: set<HeapObj>,
                    s: set<HeapObj>, part: set<HeapObj>)
    requires Traced(g, before, mid, s) && Traced(g, mid, after, part) && part <= s
    ensures Traced(g, before, after, s)
  {
    hide Reachable;
    forall x | x in after - before
      ensures x in g && Reachable(g, s, x)
    {
      if x !in mid {
        ReachWider(g, part, s, x);
      }
    }
  }

  lemma UpvalueRefs(us: seq<HeapObj>, vs: seq<Val>)
    requires |vs| == |us| && forall i :: 0 <= i < |us| ==> vs[i] == Ref(us[i])
    ensures Refs(vs) == set u | u in us
  {
    forall u | u in us
      ensures u in Refs(vs)
    {
      var i :| 0 <= i < |us| && us[i] == u;
      assert vs[i] in vs;
    }
  }

  lemma BlackenedMore(g: Graph<HeapObj>, before: set<HeapObj>, mid: set<HeapObj>, after: set<HeapObj>)
    requires Blackened(g, before, mid) && Blackened(g, mid, after)
    ensures Blackened(g, before, after)
  {
  }

  lemma RefsStep(vs: seq<Val>, i: nat)
    requires i < |vs|
    ensures Refs(vs[..i + 1]) == Refs(vs[..i]) + (if vs[i].Ref? then {vs[i].o} else {})
    ensures vs[i].Ref? ==> vs[i].o in Refs(vs)
  {
    assert vs[..i + 1] == vs[..i] + [vs[i]];
  }
}
