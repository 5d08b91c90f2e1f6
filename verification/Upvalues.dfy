/** The value stack of a thread and its list of open upvalues. */
module Upvalues {
  import opened Values
  import opened Cells

  class Upvalue {
    var location: Location
    var closedVal: Value
    var nextOpen: Upvalue?

    constructor (slot: nat, next: Upvalue?)
      ensures location == Slot(slot) && closedVal == Nil && nextOpen == next
    {
      location, closedVal, nextOpen := Slot(slot), Nil, next;
    }
  }

  type Nodes = map<Upvalue, Node>
  type Links = map<Upvalue, Upvalue?>

  /** The snapshots `nodes` and `links` show the fields of every upvalue ever made. */
  ghost predicate MirrorOf(nodes: Nodes, links: Links)
    reads nodes.Keys
  {
    nodes.Keys == links.Keys
    && forall u :: u in nodes ==>
         u.location == nodes[u].location && u.closedVal == nodes[u].closedVal && u.nextOpen == links[u]
  }

  function After(opens: seq<Upvalue>, i: nat): Upvalue?
  {
    if i + 1 < |opens| then opens[i + 1] else null
  }

  /** The pointers from the head on visit exactly these nodes. */
  ghost predicate Chain(head: Upvalue?, opens: seq<Upvalue>, links: Links)
  {
    (head == if |opens| > 0 then opens[0] else null)
    && (forall i :: 0 <= i < |opens| ==> opens[i] in links)
    && (forall i {:trigger links[opens[i]]} :: 0 <= i < |opens| ==> links[opens[i]] == After(opens, i))
  }

  /** Strictly, so no slot occurs twice. */
  ghost predicate Descending(slots: seq<nat>)
  {
    forall i, j :: 0 <= i < j < |slots| ==> slots[i] > slots[j]
  }

  /** The nodes of the list point at these slots. */
  ghost predicate PointAt(opens: seq<Upvalue>, slots: seq<nat>, nodes: Nodes)
  {
    |opens| == |slots| && forall i :: 0 <= i < |opens| ==> opens[i] in nodes && nodes[opens[i]].location == Slot(slots[i])
  }

  /** Nothing is open that is not on the list. */
  ghost predicate Complete(opens: seq<Upvalue>, nodes: Nodes)
  {
    forall u :: u in nodes && nodes[u].location.Slot? ==> u in opens
  }

  ghost predicate ListOf(head: Upvalue?, opens: seq<Upvalue>, slots: seq<nat>, nodes: Nodes, links: Links)
  {
    Chain(head, opens, links) && Descending(slots) && PointAt(opens, slots, nodes) && Complete(opens, nodes)
  }

  function Insert<T>(s: seq<T>, k: nat, x: T): seq<T>
    requires k <= |s|
  {
    s[..k] + [x] + s[k..]
  }

  /** Different places in the list hold different nodes. */
  lemma OnlyOnce(o: seq<Upvalue>, slots: seq<nat>, nodes: Nodes, j: nat)
    requires Descending(slots) && PointAt(o, slots, nodes) && j < |o|
    ensures forall i :: 0 <= i < |o| && i != j ==> o[i] != o[j]
  {
    forall i | 0 <= i < |o| && i != j
      ensures o[i] != o[j]
    {
      assert slots[if i < j then i else j] > slots[if i < j then j else i];
    }
  }

  lemma AfterInsert(o: seq<Upvalue>, k: nat, uv: Upvalue, i: nat)
    requires k <= |o| && i <= |o|
    ensures var n := Insert(o, k, uv);
            n[i] == (if i < k then o[i] else if i == k then uv else o[i - 1])
            && After(n, i) == if i + 1 == k then uv else if i < k then After(o, i) else if i == k then (if k < |o| then o[k] else null) else After(o, i - 1)
  {
  }

  /** What the pointers look like once a new node has been linked in front of the k-th. */
  function Linking(o: seq<Upvalue>, k: nat, uv: Upvalue, links: Links): Links
    requires k <= |o|
  {
    var l := links[uv := if k < |o| then o[k] else null];
    if k > 0 then l[o[k - 1] := uv] else l
  }

  lemma ChainInsert(head: Upvalue?, o: seq<Upvalue>, slots: seq<nat>, k: nat, uv: Upvalue, nodes: Nodes, links: Links)
    requires Chain(head, o, links) && PointAt(o, slots, nodes) && Descending(slots) && k <= |o| && uv !in links
    ensures Chain(if k > 0 then head else uv, Insert(o, k, uv), Linking(o, k, uv, links))
  {
    if k > 0 {
      OnlyOnce(o, slots, nodes, k - 1);
    }
    hide PointAt, Descending;
    var n, l := Insert(o, k, uv), Linking(o, k, uv, links);
    forall i | 0 <= i < |n|
      ensures n[i] in l && l[n[i]] == After(n, i)
    {
      AfterInsert(o, k, uv, i);
      if i < k {
        assert links[o[i]] == After(o, i);
      } else if i > k {
        assert links[o[i - 1]] == After(o, i - 1);
      }
    }
  }

  lemma DescendingInsert(slots: seq<nat>, k: nat, slot: nat)
    requires Descending(slots) && k <= |slots|
    requires k > 0 ==> slots[k - 1] > slot
    requires k < |slots| ==> slots[k] < slot
    ensures Descending(Insert(slots, k, slot)) && slot !in slots
  {
    forall i | 0 <= i < |slots|
      ensures if i < k then slots[i] > slot else slots[i] < slot
    {
      if i < k {
        assert slots[i] >= slots[k - 1];
      } else {
        assert slots[k] >= slots[i];
      }
    }
  }

  lemma CompleteInsert(o: seq<Upvalue>, k: nat, uv: Upvalue, nodes: Nodes, n: Node)
    requires Complete(o, nodes) && k <= |o|
    ensures Complete(Insert(o, k, uv), nodes[uv := n])
  {
    var after := Insert(o, k, uv);
    assert after[k] == uv;
    forall u | u in nodes && nodes[u].location.Slot?
      ensures u in after
    {
      var i :| 0 <= i < |o| && o[i] == u;
      assert u == if i < k then after[i] else after[i + 1];
    }
  }

  lemma PointAtInsert(o: seq<Upvalue>, slots: seq<nat>, k: nat, uv: Upvalue, slot: nat, nodes: Nodes, n: Node)
    requires PointAt(o, slots, nodes) && k <= |o| && uv !in nodes && n.location == Slot(slot)
    ensures PointAt(Insert(o, k, uv), Insert(slots, k, slot), nodes[uv := n])
  {
  }

  /** A new node enters the list where its slot belongs. */
  lemma ListInsert(head: Upvalue?, o: seq<Upvalue>, slots: seq<nat>, nodes: Nodes, links: Links, k: nat,
                   uv: Upvalue, slot: nat, n: Node)
    requires ListOf(head, o, slots, nodes, links) && k <= |o| && uv !in nodes && uv !in links && n.location == Slot(slot)
    requires |o| == |slots| && (k > 0 ==> slots[k - 1] > slot) && (k < |slots| ==> slots[k] < slot)
    ensures ListOf(if k > 0 then head else uv, Insert(o, k, uv), Insert(slots, k, slot), nodes[uv := n], Linking(o, k, uv, links))
  {
    hide Chain, Descending, PointAt, Complete, Insert, Linking;
    ChainInsert(head, o, slots, k, uv, nodes, links);
    DescendingInsert(slots, k, slot);
    PointAtInsert(o, slots, k, uv, slot, nodes, n);
    CompleteInsert(o, k, uv, nodes, n);
  }

  lemma ChainTail(o: seq<Upvalue>, slots: seq<nat>, nodes: Nodes, links: Links)
    requires |o| > 0 && Chain(o[0], o, links) && PointAt(o, slots, nodes) && Descending(slots)
    ensures Chain(After(o, 0), o[1..], links[o[0] := null])
  {
    OnlyOnce(o, slots, nodes, 0);
    var n, l := o[1..], links[o[0] := null];
    forall i | 0 <= i < |n|
      ensures n[i] in l && l[n[i]] == After(n, i)
    {
      assert n[i] == o[i + 1];
      assert links[o[i + 1]] == After(o, i + 1);
    }
  }

  lemma CompleteTail(o: seq<Upvalue>, nodes: Nodes, n: Node)
    requires |o| > 0 && n.location == Own && Complete(o, nodes)
    ensures Complete(o[1..], nodes[o[0] := n])
  {
    forall u | u in nodes && nodes[u].location.Slot? && u != o[0]
      ensures u in o[1..]
    {
      var i :| 0 <= i < |o| && o[i] == u;
      assert o[1..][i - 1] == u;
    }
  }

  lemma PointAtTail(o: seq<Upvalue>, slots: seq<nat>, nodes: Nodes, n: Node)
    requires |o| > 0 && PointAt(o, slots, nodes) && Descending(slots)
    ensures PointAt(o[1..], slots[1..], nodes[o[0] := n]) && Descending(slots[1..])
  {
    OnlyOnce(o, slots, nodes, 0);
  }

  /** The head leaves the list. */
  lemma ListTail(o: seq<Upvalue>, slots: seq<nat>, nodes: Nodes, links: Links, n: Node)
    requires |o| == |slots| > 0 && ListOf(o[0], o, slots, nodes, links) && n.location == Own
    ensures ListOf(After(o, 0), o[1..], slots[1..], nodes[o[0] := n], links[o[0] := null])
  {
    hide Chain, Descending, PointAt, Complete;
    ChainTail(o, slots, nodes, links);
    PointAtTail(o, slots, nodes, n);
    CompleteTail(o, nodes, n);
  }

  lemma ListFacts(head: Upvalue?, o: seq<Upvalue>, slots: seq<nat>, nodes: Nodes, links: Links)
    requires ListOf(head, o, slots, nodes, links)
    ensures |o| == |slots| && head == (if |o| > 0 then o[0] else null)
    ensures forall i :: 0 <= i < |o| ==> o[i] in nodes && o[i] in links && nodes[o[i]].location == Slot(slots[i])
  {
  }

  lemma ListLink(head: Upvalue?, o: seq<Upvalue>, slots: seq<nat>, nodes: Nodes, links: Links, k: nat)
    requires ListOf(head, o, slots, nodes, links) && k < |o|
    ensures o[k] in links && links[o[k]] == After(o, k)
  {
  }

  /** Open upvalues are on the list, and the slots on it lie below its head's. */
  lemma ListSlots(head: Upvalue?, o: seq<Upvalue>, slots: seq<nat>, nodes: Nodes, links: Links)
    requires ListOf(head, o, slots, nodes, links)
    ensures forall u :: u in nodes && nodes[u].location.Slot? ==> nodes[u].location.slot in slots
    ensures forall i :: 0 <= i < |slots| ==> slots[i] <= slots[0]
  {
    forall u | u in nodes && nodes[u].location.Slot?
      ensures nodes[u].location.slot in slots
    {
      var i :| 0 <= i < |o| && o[i] == u;
      assert slots[i] == nodes[u].location.slot;
    }
  }

  lemma DropOne<T>(s: seq<T>, k: nat)
    requires k < |s|
    ensures s[k..][1..] == s[k + 1..]
  {
  }

  /** The same upvalues stand for the same cells. */
  ghost predicate SameCells(before: Nodes, after: Nodes)
  {
    before.Keys == after.Keys && forall u :: u in before ==> after[u].cell == before[u].cell
  }

  lemma CellsKept(nodes: Nodes)
    ensures SameCells(nodes, nodes)
  {
  }

  lemma CellsStillKept(a: Nodes, b: Nodes, c: Nodes)
    requires SameCells(a, b) && SameCells(b, c)
    ensures SameCells(a, c)
  {
  }

  /** The fields after a new node was linked in front of the k-th. */
  lemma MirrorLinking(o: seq<Upvalue>, k: nat, uv: Upvalue, nodes: Nodes, links: Links, n: Node)
    requires k <= |o| && uv !in nodes && nodes.Keys == links.Keys && (k > 0 ==> o[k - 1] in links)
    requires uv.location == n.location && uv.closedVal == n.closedVal && uv.nextOpen == (if k < |o| then o[k] else null)
    requires forall u :: u in nodes ==> u.location == nodes[u].location && u.closedVal == nodes[u].closedVal
    requires forall u :: u in nodes && (k == 0 || u != o[k - 1]) ==> u.nextOpen == links[u]
    requires k > 0 ==> o[k - 1].nextOpen == uv
    ensures MirrorOf(nodes[uv := n], Linking(o, k, uv, links))
  {
    var m, l := nodes[uv := n], Linking(o, k, uv, links);
    assert m.Keys == l.Keys;
    forall u | u in m
      ensures u.location == m[u].location && u.closedVal == m[u].closedVal && u.nextOpen == l[u]
    {
    }
  }

  /** The fields after one node was changed. */
  lemma MirrorChanged(nodes: Nodes, links: Links, uv: Upvalue, n: Node, next: Upvalue?)
    requires uv in nodes && nodes.Keys == links.Keys
    requires uv.location == n.location && uv.closedVal == n.closedVal && uv.nextOpen == next
    requires forall u :: u in nodes && u != uv ==>
               u.location == nodes[u].location && u.closedVal == nodes[u].closedVal && u.nextOpen == links[u]
    ensures MirrorOf(nodes[uv := n], links[uv := next])
    ensures nodes[uv := n].Keys == nodes.Keys
  {
    assert nodes[uv := n].Keys == nodes.Keys && links[uv := next].Keys == links.Keys;
  }

  lemma MirrorFacts(nodes: Nodes, links: Links)
    requires MirrorOf(nodes, links)
    ensures nodes.Keys == links.Keys
    ensures forall u :: u in nodes ==>
              u.location == nodes[u].location && u.closedVal == nodes[u].closedVal && u.nextOpen == links[u]
  {
  }

  class Thread {
    const stack: array<Value>
    var sp: nat
    var openUpvalues: Upvalue?

    /** The list from its head on, and the slots it points at. */
    ghost var opens: seq<Upvalue>
    ghost var slots: seq<nat>

    /** Every upvalue ever made, and the upvalue that each captured cell has. */
    ghost var nodes: Nodes
    ghost var links: Links
    ghost var owner: map<nat, Upvalue>
    ghost var cells: Cells

    ghost predicate Mirrored()
      reads this`nodes, this`links, nodes.Keys
    {
      MirrorOf(nodes, links)
    }

    ghost predicate Linked()
      reads this`openUpvalues, this`opens, this`slots, this`nodes, this`links
    {
      ListOf(openUpvalues, opens, slots, nodes, links)
    }

    ghost predicate Refines(limit: nat)
      reads this`sp, this`nodes, this`owner, this`cells, stack
    {
      sp <= stack.Length && Implements(stack[..sp], nodes, owner, cells, limit)
    }

    ghost predicate Valid()
      reads this, stack, nodes.Keys
    {
      Mirrored() && Linked() && Refines(sp)
    }

    constructor (capacity: nat)
      ensures Valid() && fresh(stack) && stack.Length == capacity
      ensures cells == Cells([], [], {}) && opens == [] && slots == [] && nodes == map[]
    {
      stack := new Value[capacity](_ => Nil);
      sp, openUpvalues := 0, null;
      opens, slots, nodes, links, owner, cells := [], [], map[], map[], map[], Cells([], [], {});
    }

    method Push(v: Value)
      requires Valid() && sp < stack.Length
      modifies this`sp, this`cells, stack
      ensures Valid() && sp == old(sp) + 1 && cells == Born(old(cells), v)
    {
      hide Implements, ListOf, MirrorOf;
      PushRight(stack[..sp], nodes, owner, cells, v);
      stack[sp] := v;
      assert stack[..sp + 1] == old(stack[..sp]) + [v];
      sp := sp + 1;
      cells := Born(cells, v);
    }

    /** OP_POP is emitted for variables that no closure has captured. */
    method Pop() returns (v: Value)
      requires Valid() && sp > 0 && |cells.env| == sp && cells.env[sp - 1] !in cells.captured
      modifies this`sp, this`cells
      ensures Valid() && sp == old(sp) - 1 && cells == Cut(old(cells), sp)
      ensures v == old(stack[sp - 1])
    {
      hide Implements, ListOf, MirrorOf;
      var k := sp - 1;
      NothingOpenAt(k);
      LowerLimit(stack[..sp], nodes, owner, cells, sp, k);
      CutRight(stack[..sp], nodes, owner, cells, k);
      assert stack[..sp][..k] == stack[..k];
      sp := k;
      v := stack[sp];
      cells := Cut(cells, sp);
    }

    /** If nobody holds the top variable, all open upvalues point below it. */
    lemma NothingOpenAt(k: nat)
      requires Refines(sp) && k + 1 == sp == |cells.env| && cells.env[k] !in cells.captured
      ensures forall u :: u in nodes && nodes[u].location.Slot? ==> nodes[u].location.slot < k
    {
      NobodyHolds(stack[..sp], nodes, owner, cells, sp, k);
      forall u | u in nodes && nodes[u].location.Slot?
        ensures nodes[u].location.slot < k
      {
        assert NodeRight(nodes[u], cells, sp);
      }
    }

    method SetLocal(i: nat, v: Value)
      requires Valid() && i < sp && |cells.env| == sp && cells.env[i] < |cells.heap|
      modifies this`cells, stack
      ensures Valid() && cells == Stored(old(cells), old(cells.env[i]), v)
    {
      hide Implements, ListOf, MirrorOf;
      StoreSlotRight(stack[..sp], nodes, owner, cells, i, v);
      stack[i] := v;
      assert stack[..sp] == old(stack[..sp])[i := v];
      cells := Stored(cells, cells.env[i], v);
    }

    /** `*uv->location`. */
    method GetUpvalue(u: Upvalue) returns (v: Value)
      requires Valid() && u in nodes
      ensures nodes[u].cell < |cells.heap| && v == cells.heap[nodes[u].cell]
    {
      hide Implements, ListOf, MirrorOf;
      ReadRight(stack[..sp], nodes, owner, cells, sp, u);
      Fields(u);
      v := if u.location.Slot? then stack[u.location.slot] else u.closedVal;
    }

    method SetUpvalue(u: Upvalue, v: Value)
      requires Valid() && u in nodes && nodes[u].cell < |cells.heap|
      modifies this`cells, this`nodes, stack, u`closedVal
      ensures Valid() && cells == Stored(old(cells), old(nodes[u].cell), v)
      ensures nodes.Keys == old(nodes).Keys && forall w :: w in nodes ==> nodes[w].cell == old(nodes)[w].cell
    {
      hide Implements, ListOf, MirrorOf;
      Fields(u);
      if u.location.Slot? {
        OpenCell(u);
        SetLocal(u.location.slot, v);
      } else {
        StoreOwn(u, v);
      }
    }

    lemma OpenCell(u: Upvalue)
      requires Refines(sp) && u in nodes && nodes[u].location.Slot?
      ensures nodes[u].location.slot < sp == |cells.env| && nodes[u].cell == cells.env[nodes[u].location.slot]
    {
      assert NodeRight(nodes[u], cells, sp);
    }

    lemma Fields(u: Upvalue)
      requires Mirrored() && u in nodes
      ensures u in links && u.location == nodes[u].location && u.closedVal == nodes[u].closedVal && u.nextOpen == links[u]
    {
    }

    /** Writing a closed upvalue's own field. */
    method StoreOwn(u: Upvalue, v: Value)
      requires Valid() && u in nodes && nodes[u].cell < |cells.heap| && nodes[u].location == Own
      modifies this`cells, this`nodes, u`closedVal
      ensures Valid() && cells == Stored(old(cells), old(nodes[u].cell), v)
      ensures nodes == old(nodes)[u := Node(Own, v, old(nodes[u].cell))]
    {
      hide Implements, ListOf;
      StoreOwnRight(stack[..sp], nodes, owner, cells, u, v);
      ListKept(openUpvalues, opens, slots, nodes, links, u, Node(Own, v, nodes[u].cell));
      u.closedVal := v;
      cells := Stored(cells, nodes[u].cell, v);
      nodes := nodes[u := Node(Own, v, nodes[u].cell)];
      assert nodes.Keys == old(nodes).Keys;
    }

    /** Walks down to the first node at or below the slot. */
    method Walk(slot: nat) returns (prev: Upvalue?, cur: Upvalue?, ghost k: nat)
      requires Mirrored() && Linked()
      ensures k <= |opens| == |slots|
      ensures cur == if k < |opens| then opens[k] else null
      ensures prev == if k > 0 then opens[k - 1] else null
      ensures k > 0 ==> slots[k - 1] > slot
      ensures k < |opens| ==> slots[k] <= slot && opens[k] in nodes && opens[k].location == nodes[opens[k]].location == Slot(slots[k])
    {
      hide ListOf;
      ListFacts(openUpvalues, opens, slots, nodes, links);
      prev, cur, k := null, openUpvalues, 0;
      while cur != null && cur.location.slot > slot
        invariant 0 <= k <= |opens|
        invariant cur == if k < |opens| then opens[k] else null
        invariant prev == if k > 0 then opens[k - 1] else null
        invariant k > 0 ==> slots[k - 1] > slot
        decreases |opens| - k
      {
        ListLink(openUpvalues, opens, slots, nodes, links, k);
        prev := cur;
        cur := cur.nextOpen;
        k := k + 1;
      }
    }

    /** Links a fresh node in front of the k-th. */
    method Link(slot: nat, prev: Upvalue?, cur: Upvalue?, ghost k: nat, ghost cell: nat) returns (uv: Upvalue)
      requires Mirrored() && Linked() && k <= |opens| == |slots|
      requires cur == if k < |opens| then opens[k] else null
      requires prev == if k > 0 then opens[k - 1] else null
      requires k > 0 ==> slots[k - 1] > slot
      requires k < |slots| ==> slots[k] < slot
      modifies this`openUpvalues, this`opens, this`slots, this`nodes, this`links, nodes.Keys`nextOpen
      ensures Mirrored() && Linked() && fresh(uv)
      ensures opens == Insert(old(opens), k, uv) && slots == Insert(old(slots), k, slot)
      ensures nodes == old(nodes)[uv := Node(Slot(slot), Nil, cell)] && uv !in old(nodes)
    {
      hide ListOf, Insert, MirrorOf, Linking;
      ListFacts(openUpvalues, opens, slots, nodes, links);
      MirrorFacts(nodes, links);
      uv := new Upvalue(slot, cur);
      ListInsert(openUpvalues, opens, slots, nodes, links, k, uv, slot, Node(Slot(slot), Nil, cell));
      if prev != null {
        prev.nextOpen := uv;
      } else {
        openUpvalues := uv;
      }
      MirrorLinking(opens, k, uv, nodes, links, Node(Slot(slot), Nil, cell));
      links := Linking(opens, k, uv, links);
      opens, slots := Insert(opens, k, uv), Insert(slots, k, slot);
      nodes := nodes[uv := Node(Slot(slot), Nil, cell)];
    }

    /** Takes the head off the list and lets it keep the value of its slot. */
    method Detach()
      requires Mirrored() && Linked() && |opens| == |slots| > 0 && slots[0] < stack.Length
      modifies this`openUpvalues, this`opens, this`slots, this`nodes, this`links, nodes.Keys
      ensures Mirrored() && Linked()
      ensures opens == old(opens[1..]) && slots == old(slots[1..])
      ensures nodes == old(nodes)[old(opens[0]) := Node(Own, stack[old(slots[0])], old(nodes)[old(opens[0])].cell)]
      ensures nodes.Keys == old(nodes).Keys
    {
      hide ListOf, MirrorOf;
      ListFacts(openUpvalues, opens, slots, nodes, links);
      ListLink(openUpvalues, opens, slots, nodes, links, 0);
      MirrorFacts(nodes, links);
      var uv := openUpvalues;
      ghost var n := Node(Own, stack[slots[0]], nodes[uv].cell);
      ListTail(opens, slots, nodes, links, n);
      uv.closedVal := stack[uv.location.slot];
      uv.location := Own;
      openUpvalues := uv.nextOpen;
      uv.nextOpen := null;
      MirrorChanged(nodes, links, uv, n, null);
      opens, slots, nodes, links := opens[1..], slots[1..], nodes[uv := n], links[uv := null];
    }

    /**
      Finds or makes the upvalue for a live slot. An existing one is returned exactly when the slot is
      captured already; a new one enters the list where its slot belongs. Either way the upvalue stands
      for the slot's cell.
    */
    method Capture(slot: nat) returns (uv: Upvalue, ghost k: nat)
      requires Valid() && slot < sp == |cells.env|
      modifies this`openUpvalues, this`opens, this`slots, this`nodes, this`links, this`owner, this`cells, nodes.Keys`nextOpen
      ensures Valid() && uv in nodes && cells == Held(old(cells), slot) && nodes[uv].cell == cells.env[slot]
      ensures old(nodes).Keys <= nodes.Keys && forall u :: u in old(nodes) ==> nodes[u] == old(nodes)[u]
      ensures slot in old(slots) ==> uv in old(opens) && opens == old(opens) && slots == old(slots) && nodes == old(nodes)
      ensures slot !in old(slots) ==>
                fresh(uv) && nodes.Keys == old(nodes).Keys + {uv} && k <= |old(opens)| == |old(slots)|
                && opens == Insert(old(opens), k, uv) && slots == Insert(old(slots), k, slot)
    {
      hide Implements, ListOf, MirrorOf, Insert;
      var prev, cur;
      prev, cur, k := Walk(slot);
      if cur != null && cur.location == Slot(slot) {
        uv := cur;
        AlreadyHeld(stack[..sp], nodes, owner, cells, slot, uv);
        return;
      }
      NotOnTheList(slot, k);
      uv := Link(slot, prev, cur, k, cells.env[slot]);
      CaptureRight(stack[..sp], old(nodes), owner, cells, slot, uv);
      owner := owner[cells.env[slot] := uv];
      cells := Held(cells, slot);
    }

    lemma NotOnTheList(slot: nat, k: nat)
      requires Linked() && k <= |slots|
      requires (k > 0 ==> slots[k - 1] > slot) && (k < |slots| ==> slots[k] < slot)
      ensures slot !in slots && forall u :: u in nodes ==> nodes[u].location != Slot(slot)
    {
      hide Chain, PointAt, Complete, Insert;
      ListSlots(openUpvalues, opens, slots, nodes, links);
      DescendingInsert(slots, k, slot);
    }

    /** What reading through an upvalue gives now. */
    ghost function Reading(u: Upvalue): Value
      requires u in nodes && sp <= stack.Length
      reads this`nodes, this`sp, stack
    {
      if nodes[u].location.Slot? && nodes[u].location.slot >= sp then Nil else Through(nodes[u], stack[..sp])
    }

    /**
      Takes the nodes at or above a slot off the list, from its head, and gives each its own copy of the
      value. Exactly those are removed, and no upvalue reads differently afterwards.
    */
    method CloseUpvalues(slot: nat) returns (ghost k: nat)
      requires Valid() && slot <= sp == |cells.env|
      modifies this`openUpvalues, this`opens, this`slots, this`nodes, this`links, nodes.Keys
      ensures Mirrored() && Linked() && Refines(slot)
      ensures k <= |old(slots)| == |old(opens)| && slots == old(slots)[k..] && opens == old(opens)[k..]
      ensures forall i :: 0 <= i < |old(slots)| ==> (i < k <==> old(slots)[i] >= slot)
      ensures SameCells(old(nodes), nodes) && forall u :: u in nodes ==> Reading(u) == old(Reading(u))
    {
      hide Implements, ListOf, MirrorOf, Reading;
      ReadingsOf(sp);
      LowerLimit(stack[..sp], nodes, owner, cells, sp, slot);
      k := CloseDownTo(slot);
      ReadingsOf(slot);
    }

    /** One round of the closing loop. */
    method CloseHead(slot: nat)
      requires Mirrored() && Linked() && Refines(slot) && HeadsRight() && |opens| > 0 && slots[0] >= slot
      modifies this`openUpvalues, this`opens, this`slots, this`nodes, this`links, nodes.Keys
      ensures Mirrored() && Linked() && Refines(slot) && HeadsRight() && SameCells(old(nodes), nodes)
      ensures opens == old(opens)[1..] && slots == old(slots)[1..] && nodes.Keys == old(nodes).Keys
    {
      hide Implements, ListOf, MirrorOf;
      HeadAlive(slot);
      CloseRight(stack[..sp], nodes, owner, cells, slot, opens[0]);
      Detach();
      HeadOpen();
    }

    /** The closing loop. */
    method CloseDownTo(slot: nat) returns (ghost k: nat)
      requires Mirrored() && Linked() && Refines(slot)
      modifies this`openUpvalues, this`opens, this`slots, this`nodes, this`links, nodes.Keys
      ensures Mirrored() && Linked() && Refines(slot) && SameCells(old(nodes), nodes)
      ensures k <= |old(slots)| == |old(opens)| && slots == old(slots)[k..] && opens == old(opens)[k..]
      ensures forall i :: 0 <= i < |old(slots)| ==> (i < k <==> old(slots)[i] >= slot)
    {
      hide Implements, ListOf, MirrorOf, SameCells;
      HeadOpen();
      CellsKept(nodes);
      k := 0;
      while openUpvalues != null && openUpvalues.location.slot >= slot
        invariant 0 <= k <= |old(slots)| == |old(opens)| && slots == old(slots)[k..] && opens == old(opens)[k..]
        invariant Mirrored() && Linked() && Refines(slot) && HeadsRight()
        invariant forall i :: 0 <= i < k ==> old(slots)[i] >= slot
        invariant nodes.Keys == old(nodes).Keys && SameCells(old(nodes), nodes)
        decreases |opens|
      {
        DropOne(old(slots), k);
        DropOne(old(opens), k);
        ghost var before := nodes;
        CloseHead(slot);
        CellsStillKept(old(nodes), before, nodes);
        k := k + 1;
      }
      RestBelow(slot);
      assert forall i :: k <= i < |old(slots)| ==> old(slots)[i] == slots[i - k];
    }

    /** The head pointer, the list and the slots agree on the first node. */
    ghost predicate HeadsRight()
      reads this`openUpvalues, this`opens, this`slots, this`nodes, nodes.Keys`location
    {
      |opens| == |slots|
      && (openUpvalues == if |opens| > 0 then opens[0] else null)
      && (|opens| > 0 ==> opens[0] in nodes && nodes[opens[0]].location == Slot(slots[0]) && opens[0].location == Slot(slots[0]))
    }

    lemma HeadOpen()
      requires Mirrored() && Linked()
      ensures HeadsRight()
    {
      hide ListOf;
      ListFacts(openUpvalues, opens, slots, nodes, links);
    }

    lemma HeadAlive(limit: nat)
      requires Refines(limit) && |opens| > 0 && opens[0] in nodes && nodes[opens[0]].location.Slot?
      ensures nodes[opens[0]].location.slot < sp <= stack.Length
    {
      assert NodeRight(nodes[opens[0]], cells, limit);
    }

    /** Whatever else holds, upvalues read their cells. */
    lemma ReadingsOf(limit: nat)
      requires Refines(limit)
      ensures forall u :: u in nodes ==> nodes[u].cell < |cells.heap| && Reading(u) == cells.heap[nodes[u].cell]
    {
      forall u | u in nodes
        ensures nodes[u].cell < |cells.heap| && Reading(u) == cells.heap[nodes[u].cell]
      {
        ReadRight(stack[..sp], nodes, owner, cells, limit, u);
      }
    }

    /** The closing loop stops at the first node below the slot, and the rest are lower still. */
    lemma RestBelow(slot: nat)
      requires Linked() && HeadsRight() && (openUpvalues != null ==> openUpvalues.location.slot < slot)
      ensures forall i :: 0 <= i < |slots| ==> slots[i] < slot
    {
      hide ListOf;
      ListSlots(openUpvalues, opens, slots, nodes, links);
    }

    /** OP_CLOSE_UPVALUE: a captured variable leaves its scope. */
    method CloseTop()
      requires Valid() && sp > 0 && sp == |cells.env|
      modifies this`sp, this`cells, this`openUpvalues, this`opens, this`slots, this`nodes, this`links, nodes.Keys
      ensures Valid() && sp == old(sp) - 1 && cells == Cut(old(cells), sp)
      ensures SameCells(old(nodes), nodes)
    {
      hide Implements, ListOf, MirrorOf, Reading;
      Leave(sp - 1, sp - 1);
    }

    /**
      The end of a frame: everything captured at or above its slots is closed and the stack is cut back to
      the call base, which lies at most below slots that nobody captured (the callee's).
    */
    method Leave(frame: nat, base: nat)
      requires Valid() && base <= frame <= sp == |cells.env|
      requires forall i :: base <= i < frame ==> cells.env[i] !in cells.captured
      modifies this`sp, this`cells, this`openUpvalues, this`opens, this`slots, this`nodes, this`links, nodes.Keys
      ensures Valid() && sp == base && cells == Cut(old(cells), base)
      ensures SameCells(old(nodes), nodes)
    {
      hide Implements, ListOf, MirrorOf, Reading;
      var _ := CloseUpvalues(frame);
      OpenBelow(frame, base);
      LowerLimit(stack[..sp], nodes, owner, cells, frame, base);
      CutRight(stack[..sp], nodes, owner, cells, base);
      assert stack[..sp][..base] == stack[..base];
      sp := base;
      cells := Cut(cells, base);
    }

    lemma OpenBelow(frame: nat, base: nat)
      requires Linked() && Refines(frame) && base <= frame <= |cells.env|
      requires forall i :: 0 <= i < |slots| ==> slots[i] < frame
      requires forall i :: base <= i < frame ==> cells.env[i] !in cells.captured
      ensures forall u :: u in nodes && nodes[u].location.Slot? ==> nodes[u].location.slot < base
    {
      hide ListOf;
      ListSlots(openUpvalues, opens, slots, nodes, links);
      forall u | u in nodes && nodes[u].location.Slot?
        ensures nodes[u].location.slot < base
      {
        assert NodeRight(nodes[u], cells, frame);
      }
    }
  }

  /** The list does not care about what closed upvalues hold. */
  lemma ListKept(head: Upvalue?, o: seq<Upvalue>, slots: seq<nat>, nodes: Nodes, links: Links, u: Upvalue, n: Node)
    requires ListOf(head, o, slots, nodes, links) && u in nodes && nodes[u].location == n.location
    ensures ListOf(head, o, slots, nodes[u := n], links)
  {
  }
}
