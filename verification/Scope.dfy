/** Scopes of the function being compiled and of those around it. */
module Scope {
  import opened Values
  import opened Bytecode
  import opened Making
  import opened Lexical

  class Compiler {
    const enclosing: Compiler?
    const isFunction: bool
    var locals: seq<Local>
    var scopeDepth: int
    var upvalues: seq<Desc>

    /** The enclosing compilers, and how many there are. */
    ghost const around: set<Compiler>
    ghost const nesting: nat

    ghost predicate Chained()
      decreases nesting
    {
      this !in around
      && if enclosing == null then around == {} && nesting == 0
         else around == {enclosing} + enclosing.around && nesting == enclosing.nesting + 1 && enclosing.Chained()
    }

    ghost function Snapshot(): (ls: Levels)
      requires Chained()
      reads this, around
      decreases nesting
      ensures |ls| == nesting + 1 && ls[0] == Level(locals, upvalues)
    {
      [Level(locals, upvalues)] + if enclosing == null then [] else enclosing.Snapshot()
    }

    ghost predicate Valid()
      reads this, around
    {
      Chained() && Good(Snapshot())
    }

    constructor (enclosing: Compiler?, isFunction: bool)
      requires enclosing != null ==> enclosing.Valid()
      ensures Valid() && this.enclosing == enclosing && this.isFunction == isFunction
      ensures locals == [] && upvalues == [] && scopeDepth == 0
    {
      this.enclosing, this.isFunction := enclosing, isFunction;
      locals, scopeDepth, upvalues := [], 0, [];
      around := if enclosing == null then {} else {enclosing} + enclosing.around;
      nesting := if enclosing == null then 0 else enclosing.nesting + 1;
      new;
      if enclosing != null {
        assert Snapshot()[1..] == enclosing.Snapshot();
      }
    }

    method Begin()
      requires Valid()
      modifies this`scopeDepth
      ensures Valid() && scopeDepth == old(scopeDepth) + 1
    {
      scopeDepth := scopeDepth + 1;
    }

    /**
      Is the name taken in this scope? A local counts as long as it and all behind it are of this scope or
      still being initialised.
    */
    ghost predicate Blocked(name: Text)
      reads this`locals, this`scopeDepth
    {
      exists i :: 0 <= i < |locals| && locals[i].name == name
        && forall j :: i <= j < |locals| ==> locals[j].depth == -1 || locals[j].depth >= scopeDepth
    }

    /** The locals of the ending scope go, last declared first; captured ones are closed. */
    method End() returns (ops: seq<byte>)
      requires Valid()
      modifies this`locals, this`scopeDepth
      ensures Valid() && scopeDepth == old(scopeDepth) - 1
      ensures |ops| <= |old(locals)| && locals == old(locals)[..|old(locals)| - |ops|]
      ensures forall k :: |locals| <= k < |old(locals)| ==>
                old(locals)[k].depth == old(scopeDepth)
                && ops[|old(locals)| - 1 - k] == if old(locals)[k].captured then OP_CLOSE_UPVALUE else OP_POP
      ensures |locals| > 0 ==> locals[|locals| - 1].depth != old(scopeDepth)
    {
      hide Good, Chained, Snapshot, Older;
      ghost var ls := Snapshot();
      HeadBound(ls);
      ChainFacts();
      SnapshotFacts();
      ops := PopDying();
      scopeDepth := scopeDepth - 1;
      SnapshotFacts();
      HeadLocals(ls, locals);
    }

    method PopDying() returns (ops: seq<byte>)
      modifies this`locals
      ensures |ops| <= |old(locals)| && locals == old(locals)[..|old(locals)| - |ops|]
      ensures forall k :: |locals| <= k < |old(locals)| ==>
                old(locals)[k].depth == scopeDepth
                && ops[|old(locals)| - 1 - k] == if old(locals)[k].captured then OP_CLOSE_UPVALUE else OP_POP
      ensures |locals| > 0 ==> locals[|locals| - 1].depth != scopeDepth
    {
      ops := [];
      while |locals| > 0 && locals[|locals| - 1].depth == scopeDepth
        invariant |ops| <= |old(locals)| && locals == old(locals)[..|old(locals)| - |ops|]
        invariant forall k :: |locals| <= k < |old(locals)| ==>
                    old(locals)[k].depth == scopeDepth
                    && ops[|old(locals)| - 1 - k] == if old(locals)[k].captured then OP_CLOSE_UPVALUE else OP_POP
        decreases |locals|
      {
        assert locals[|locals| - 1] == old(locals)[|old(locals)| - 1 - |ops|];
        ops := ops + [if locals[|locals| - 1].captured then OP_CLOSE_UPVALUE else OP_POP];
        locals := locals[..|locals| - 1];
      }
    }

    /** -1 when there are 256 locals already or the name is taken in this scope. */
    method DeclareLocal(name: Text) returns (slot: int)
      requires Valid()
      modifies this`locals
      ensures Valid()
      ensures slot == -1 <==> old(|locals| >= 256 || Blocked(name))
      ensures slot == -1 ==> locals == old(locals)
      ensures slot != -1 ==> slot == |old(locals)| && locals == old(locals) + [Local(name, UNINITIALIZED, false)]
    {
      hide Good;
      if |locals| >= MAX_LOCALS {
        return -1;
      }
      var i := |locals|;
      while i > 0 && !Older(locals[i - 1], scopeDepth)
        invariant 0 <= i <= |locals|
        invariant forall j :: i <= j < |locals| ==> locals[j].name != name && !Older(locals[j], scopeDepth)
      {
        i := i - 1;
        if locals[i].name == name {
          return -1;
        }
      }
      slot := |locals|;
      locals := locals + [Local(name, UNINITIALIZED, false)];
      SnapshotFacts();
      HeadLocals(old(Snapshot()), locals);
    }

    method MarkInitialized()
      requires Valid() && |locals| > 0
      modifies this`locals
      ensures Valid()
      ensures locals == old(locals)[|old(locals)| - 1 := old(locals)[|old(locals)| - 1].(depth := scopeDepth)]
    {
      hide Good;
      HeadBound(Snapshot());
      var n := |locals| - 1;
      locals := locals[n := locals[n].(depth := scopeDepth)];
      SnapshotFacts();
      HeadLocals(old(Snapshot()), locals);
    }

    /** The most recent local of this name, unless its own initializer is still being compiled. */
    method ResolveLocal(name: Text) returns (slot: int)
      ensures slot == SlotOf(locals, name)
      ensures slot >= 0 ==> slot < |locals| && locals[slot].name == name && locals[slot].depth != -1
      ensures slot >= 0 ==> forall j :: slot < j < |locals| ==> locals[j].name != name
      ensures slot < 0 ==> slot == -1 && forall i :: 0 <= i < |locals| && locals[i].name == name ==>
                locals[i].depth == -1 || exists j :: i < j < |locals| && locals[j].name == name
    {
      var i := |locals| - 1;
      while i >= 0
        invariant -1 <= i < |locals|
        invariant forall j :: i < j < |locals| ==> locals[j].name != name
      {
        if locals[i].name == name {
          LatestIs(locals, name, i);
          return if locals[i].depth == UNINITIALIZED then -1 else i;
        }
        i := i - 1;
      }
      slot := -1;
    }

    /** Reuses an equal descriptor; -1 when a new one is needed and there are 256 already. */
    method AddUpvalue(index: nat, isLocal: bool) returns (r: int)
      modifies this`upvalues
      ensures AddedTo(old(upvalues), Desc(isLocal, index), upvalues, r)
      ensures r == -1 <==> |old(upvalues)| >= 256 && Desc(isLocal, index) !in old(upvalues)
      ensures r >= 0 ==> r < |upvalues| && upvalues[r] == Desc(isLocal, index)
      ensures upvalues == if r < 0 || Desc(isLocal, index) in old(upvalues) then old(upvalues) else old(upvalues) + [Desc(isLocal, index)]
    {
      for i := 0 to |upvalues|
        invariant forall j :: 0 <= j < i ==> upvalues[j] != Desc(isLocal, index)
      {
        if upvalues[i].index == index && upvalues[i].isLocal == isLocal {
          return i;
        }
      }
      if |upvalues| >= MAX_UPVALUES {
        return -1;
      }
      r := |upvalues|;
      upvalues := upvalues + [Desc(isLocal, index)];
    }

    /**
      Resolves a name that is not a local of this function: in the enclosing function's locals first,
      else through a descriptor the enclosing function gets for it.
    */
    method ResolveUpvalue(name: Text) returns (r: int)
      requires Valid()
      modifies this`upvalues, around`locals, around`upvalues
      ensures Valid() && Resolves(old(Snapshot()), Snapshot(), name, r) && r >= -1
      decreases nesting
    {
      hide Good, Chained, Resolves, MarkHead;
      ChainFacts();
      if enclosing == null {
        NothingAround(Snapshot(), name);
        return -1;
      }
      var slot := enclosing.ResolveLocal(name);
      if slot != -1 {
        r := CaptureFrom(enclosing, name, slot);
      } else {
        r := PassOn(enclosing, name);
      }
    }

    /** The variable is a local of the enclosing function. */
    method CaptureFrom(from: Compiler, name: Text, slot: nat) returns (r: int)
      requires Valid() && from == enclosing && slot == SlotOf(from.locals, name)
      modifies this`upvalues, from`locals
      ensures Valid() && Resolves(old(Snapshot()), Snapshot(), name, r) && r >= -1
    {
      hide Good, Chained, Resolves, MarkHead;
      ghost var ls := Snapshot();
      ChainFacts();
      SnapshotFacts();
      GoodTail(ls);
      from.MarkCaptured(slot);
      r := AddUpvalue(slot, true);
      LocalResolved(ls, name, slot, upvalues, r);
      SnapshotFacts();
      ResolvesGood(ls, Snapshot(), name, r);
    }

    /** The variable, if any, is further out; the enclosing function gets a descriptor of it first. */
    method PassOn(from: Compiler, name: Text) returns (r: int)
      requires Valid() && from == enclosing && SlotOf(from.locals, name) < 0
      modifies this`upvalues, around`locals, around`upvalues
      ensures Valid() && Resolves(old(Snapshot()), Snapshot(), name, r) && r >= -1
      decreases nesting, 0
    {
      hide Good, Chained, Resolves, MarkHead;
      ghost var ls := Snapshot();
      ChainFacts();
      SnapshotFacts();
      GoodTail(ls);
      var uvIdx := from.ResolveUpvalue(name);
      ghost var os := from.Snapshot();
      r := -1;
      if uvIdx != -1 {
        r := AddUpvalue(uvIdx, false);
      }
      OuterResolved(ls, os, name, uvIdx, upvalues, r);
      SnapshotFacts();
      ResolvesGood(ls, Snapshot(), name, r);
    }

    method MarkCaptured(slot: nat)
      requires Chained() && slot < |locals|
      modifies this`locals
      ensures Snapshot() == MarkHead(old(Snapshot()), slot)
    {
      hide Chained;
      ChainFacts();
      SnapshotFacts();
      locals := locals[slot := locals[slot].(captured := true)];
      SnapshotFacts();
    }

    lemma {:induction false} ChainFacts()
      requires Chained()
      ensures this !in around
      ensures enclosing != null ==> around == {enclosing} + enclosing.around && nesting == enclosing.nesting + 1 && enclosing.Chained()
      ensures enclosing == null ==> around == {} && nesting == 0
    {
    }

    lemma {:induction false} SnapshotFacts()
      requires Chained()
      ensures Snapshot()[1..] == (if enclosing == null then [] else enclosing.Snapshot())
      ensures Snapshot() == [Level(locals, upvalues)] + Snapshot()[1..]
    {
    }
  }

  predicate Older(l: Local, depth: int)
  {
    l.depth != UNINITIALIZED && l.depth < depth
  }

  lemma {:induction false} HeadLocals(ls: Levels, locals: seq<Local>)
    requires Good(ls) && |ls| > 0 && |locals| <= MAX_LOCALS
    ensures Good([Level(locals, ls[0].upvalues)] + ls[1..])
  {
    var n := [Level(locals, ls[0].upvalues)] + ls[1..];
    assert n[1..] == ls[1..];
    assert GoodHead(ls);
    forall k | 0 <= k < |n[0].upvalues|
      ensures |n| > 1 && GoodDesc(n[0].upvalues[k], n[1])
    {
      assert GoodDesc(ls[0].upvalues[k], ls[1]);
    }
    assert GoodHead(n);
  }

  lemma {:induction false} LatestIs(locals: seq<Local>, name: Text, i: nat)
    requires i < |locals| && locals[i].name == name && forall j :: i < j < |locals| ==> locals[j].name != name
    ensures Latest(locals, name) == i
  {
  }

  lemma ResolvesGood(a: Levels, b: Levels, name: Text, r: int)
    requires Resolves(a, b, name, r)
    ensures Good(b) && r >= -1
  {
  }

  lemma {:induction false} HeadBound(ls: Levels)
    requires Good(ls) && |ls| > 0
    ensures |ls[0].locals| <= MAX_LOCALS && |ls[0].upvalues| <= MAX_UPVALUES
  {
    assert GoodHead(ls);
  }
}
