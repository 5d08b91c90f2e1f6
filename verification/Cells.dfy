/**
  The specification of captured variables, and what it means to implement it.

  In the specification every stack slot is a variable with a cell of its own, and a closure holds
  cells. In the implementation a captured variable lives in its stack slot while the slot is alive and
  in its upvalue afterwards.
*/
module Cells {
  import opened Values

  /** The cell of each live slot, the contents of all cells ever made, and the cells closures hold. */
  datatype Cells = Cells(env: seq<nat>, heap: seq<Value>, captured: set<nat>)

  ghost predicate Sound(c: Cells)
  {
    (forall i :: 0 <= i < |c.env| ==> c.env[i] < |c.heap|)
    && (forall i, j :: 0 <= i < j < |c.env| ==> c.env[i] != c.env[j])
    && (forall k :: k in c.captured ==> k < |c.heap|)
  }

  function Born(c: Cells, v: Value): Cells
  {
    Cells(c.env + [|c.heap|], c.heap + [v], c.captured)
  }

  /** Slots from k on die; their cells live on for whoever holds them. */
  function Cut(c: Cells, k: nat): Cells
    requires k <= |c.env|
  {
    Cells(c.env[..k], c.heap, c.captured)
  }

  function Stored(c: Cells, cell: nat, v: Value): Cells
    requires cell < |c.heap|
  {
    Cells(c.env, c.heap[cell := v], c.captured)
  }

  function Held(c: Cells, slot: nat): Cells
    requires slot < |c.env|
  {
    Cells(c.env, c.heap, c.captured + {c.env[slot]})
  }

  // ---------------------------------------------------------------------
  // Implementing cells
  // ---------------------------------------------------------------------

  /** An open upvalue points at a stack slot, a closed one at its own field. */
  datatype Location = Slot(slot: nat) | Own

  /** An upvalue's fields, and the cell it stands for. */
  datatype Node = Node(location: Location, closedVal: Value, cell: nat)

  ghost predicate SlotsRight(vals: seq<Value>, c: Cells)
  {
    Sound(c) && |c.env| == |vals| && forall i :: 0 <= i < |vals| ==> vals[i] == c.heap[c.env[i]]
  }

  /** An open node shares its slot's cell; a closed one has its cell to itself, apart from slots at or above the limit. */
  ghost predicate NodeRight(n: Node, c: Cells, limit: nat)
    requires limit <= |c.env|
  {
    n.cell < |c.heap|
    && match n.location
       case Slot(i) => i < |c.env| && n.cell == c.env[i]
       case Own => n.closedVal == c.heap[n.cell] && n.cell !in c.env[..limit]
  }

  ghost predicate NodesRight<T>(nodes: map<T, Node>, c: Cells, limit: nat)
    requires limit <= |c.env|
  {
    forall u :: u in nodes ==> NodeRight(nodes[u], c, limit)
  }

  /** Each captured cell has exactly one upvalue. */
  ghost predicate OwnersRight<T>(nodes: map<T, Node>, owner: map<nat, T>, c: Cells)
  {
    owner.Keys == c.captured
    && (forall k :: k in owner ==> owner[k] in nodes && nodes[owner[k]].cell == k)
    && (forall u :: u in nodes ==> nodes[u].cell in owner && owner[nodes[u].cell] == u)
  }

  ghost predicate Implements<T>(vals: seq<Value>, nodes: map<T, Node>, owner: map<nat, T>, c: Cells, limit: nat)
  {
    limit <= |c.env| && SlotsRight(vals, c) && NodesRight(nodes, c, limit) && OwnersRight(nodes, owner, c)
  }

  /** What reading through a node gives. */
  function Through(n: Node, vals: seq<Value>): Value
    requires n.location.Slot? ==> n.location.slot < |vals|
  {
    if n.location.Slot? then vals[n.location.slot] else n.closedVal
  }

  lemma ReadRight<T>(vals: seq<Value>, nodes: map<T, Node>, owner: map<nat, T>, c: Cells, limit: nat, u: T)
    requires Implements(vals, nodes, owner, c, limit) && u in nodes
    ensures nodes[u].cell < |c.heap| && (nodes[u].location.Slot? ==> nodes[u].location.slot < |vals|)
    ensures Through(nodes[u], vals) == c.heap[nodes[u].cell]
  {
    assert NodeRight(nodes[u], c, limit);
  }

  lemma PushRight<T>(vals: seq<Value>, nodes: map<T, Node>, owner: map<nat, T>, c: Cells, v: Value)
    requires Implements(vals, nodes, owner, c, |vals|)
    ensures Implements(vals + [v], nodes, owner, Born(c, v), |vals| + 1)
  {
    var d := Born(c, v);
    assert d.env[..|vals| + 1] == d.env && c.env[..|vals|] == c.env;
    forall u | u in nodes
      ensures NodeRight(nodes[u], d, |vals| + 1)
    {
      assert NodeRight(nodes[u], c, |vals|);
    }
  }

  /** Dropping the slots from k on, when no open upvalue points there. */
  lemma CutRight<T>(vals: seq<Value>, nodes: map<T, Node>, owner: map<nat, T>, c: Cells, k: nat)
    requires Implements(vals, nodes, owner, c, k)
    requires forall u :: u in nodes && nodes[u].location.Slot? ==> nodes[u].location.slot < k
    ensures Implements(vals[..k], nodes, owner, Cut(c, k), k)
  {
    var d := Cut(c, k);
    assert d.env[..k] == c.env[..k];
    forall u | u in nodes
      ensures NodeRight(nodes[u], d, k)
    {
      assert NodeRight(nodes[u], c, k);
    }
  }

  lemma LowerLimit<T>(vals: seq<Value>, nodes: map<T, Node>, owner: map<nat, T>, c: Cells, limit: nat, k: nat)
    requires Implements(vals, nodes, owner, c, limit) && k <= limit
    ensures Implements(vals, nodes, owner, c, k)
  {
    forall u | u in nodes
      ensures NodeRight(nodes[u], c, k)
    {
      assert NodeRight(nodes[u], c, limit);
      assert forall i :: 0 <= i < k ==> c.env[..limit][i] == c.env[..k][i];
    }
  }

  /** A slot whose cell nobody holds has no open upvalue. */
  lemma NobodyHolds<T>(vals: seq<Value>, nodes: map<T, Node>, owner: map<nat, T>, c: Cells, limit: nat, slot: nat)
    requires Implements(vals, nodes, owner, c, limit) && slot < |vals| && c.env[slot] !in c.captured
    ensures forall u :: u in nodes ==> nodes[u].location != Slot(slot)
  {
    forall u | u in nodes
      ensures nodes[u].location != Slot(slot)
    {
      assert NodeRight(nodes[u], c, limit);
    }
  }

  /** Writing a slot's variable is writing its cell. */
  lemma StoreSlotRight<T>(vals: seq<Value>, nodes: map<T, Node>, owner: map<nat, T>, c: Cells, i: nat, v: Value)
    requires Implements(vals, nodes, owner, c, |vals|) && i < |vals|
    ensures Implements(vals[i := v], nodes, owner, Stored(c, c.env[i], v), |vals|)
  {
    var d := Stored(c, c.env[i], v);
    assert c.env[..|vals|] == c.env;
    forall u | u in nodes
      ensures NodeRight(nodes[u], d, |vals|)
    {
      assert NodeRight(nodes[u], c, |vals|);
    }
  }

  /** Writing a closed upvalue's variable is writing its cell. */
  lemma StoreOwnRight<T>(vals: seq<Value>, nodes: map<T, Node>, owner: map<nat, T>, c: Cells, u: T, v: Value)
    requires Implements(vals, nodes, owner, c, |vals|) && u in nodes && nodes[u].location == Own
    ensures nodes[u].cell < |c.heap|
    ensures Implements(vals, nodes[u := Node(Own, v, nodes[u].cell)], owner, Stored(c, nodes[u].cell, v), |vals|)
  {
    assert NodeRight(nodes[u], c, |vals|);
    var d, after := Stored(c, nodes[u].cell, v), nodes[u := Node(Own, v, nodes[u].cell)];
    assert c.env[..|vals|] == c.env;
    forall i | 0 <= i < |vals|
      ensures vals[i] == d.heap[d.env[i]]
    {
      assert c.env[i] in c.env;
    }
    forall w | w in after
      ensures NodeRight(after[w], d, |vals|)
    {
      assert NodeRight(nodes[w], c, |vals|);
    }
  }

  lemma OwnerCell<T>(nodes: map<T, Node>, owner: map<nat, T>, c: Cells, k: nat)
    requires OwnersRight(nodes, owner, c)
    ensures k in owner ==> owner[k] in nodes && nodes[owner[k]].cell == k
  {
  }

  /** A new open upvalue for a slot that had none. */
  lemma CaptureRight<T>(vals: seq<Value>, nodes: map<T, Node>, owner: map<nat, T>, c: Cells, slot: nat, u: T)
    requires Implements(vals, nodes, owner, c, |vals|) && slot < |vals| && u !in nodes
    requires forall w :: w in nodes ==> nodes[w].location != Slot(slot)
    ensures c.env[slot] !in c.captured
    ensures Implements(vals, nodes[u := Node(Slot(slot), Nil, c.env[slot])], owner[c.env[slot] := u], Held(c, slot), |vals|)
  {
    var k, d := c.env[slot], Held(c, slot);
    var after, owned := nodes[u := Node(Slot(slot), Nil, k)], owner[k := u];
    assert k in c.env[..|vals|];
    OwnerCell(nodes, owner, c, k);
    forall w | w in nodes
      ensures nodes[w].cell != k && NodeRight(nodes[w], d, |vals|)
    {
      assert NodeRight(nodes[w], c, |vals|);
    }
  }

  lemma AlreadyHeld<T>(vals: seq<Value>, nodes: map<T, Node>, owner: map<nat, T>, c: Cells, slot: nat, u: T)
    requires Implements(vals, nodes, owner, c, |vals|) && slot < |vals| && u in nodes && nodes[u].location == Slot(slot)
    ensures nodes[u].cell == c.env[slot] && Held(c, slot) == c
  {
    assert NodeRight(nodes[u], c, |vals|);
    assert c.captured + {c.env[slot]} == c.captured;
  }

  /** An upvalue leaves its slot and takes the value with it. */
  lemma CloseRight<T>(vals: seq<Value>, nodes: map<T, Node>, owner: map<nat, T>, c: Cells, limit: nat, u: T)
    requires Implements(vals, nodes, owner, c, limit) && u in nodes
    requires nodes[u].location.Slot? && limit <= nodes[u].location.slot < |vals|
    ensures Implements(vals, nodes[u := Node(Own, vals[nodes[u].location.slot], nodes[u].cell)], owner, c, limit)
  {
    assert NodeRight(nodes[u], c, limit);
    var after := nodes[u := Node(Own, vals[nodes[u].location.slot], nodes[u].cell)];
    forall w | w in after
      ensures NodeRight(after[w], c, limit)
    {
      assert NodeRight(nodes[w], c, limit);
    }
  }
}
