/**
  How emitted pieces of code are put together: snapshots of the compiler before and after a piece,
  and what appending, patching and leaving a loop do to them.
*/
module Assembly {
  import opened Values
  import opened Bytecode
  import opened Source
  import opened CodeGen
  import opened Patching

  /** What compiling a statement reads and changes. */
  datatype Snap = Snap(syms: seq<Sym>, pool: seq<Value>, names: seq<Local>, depth: nat, breaks: seq<nat>, continues: seq<nat>)

  /** Is there room in the enclosing loop for the jumps of this code? */
  predicate Accepted(r: StmtCode, breaks: nat, continues: nat)
  {
    r.ok && breaks + CountBreaks(r.syms) <= MAX_PATCHES && continues + CountContinues(r.syms) <= MAX_PATCHES
  }

  ghost function Extended(s: Snap, r: StmtCode): Snap
    requires Whole(r.syms)
  {
    Snap(s.syms + r.syms, r.pool, r.names, s.depth,
         s.breaks + Holes(r.syms, ForBreak, |s.syms|), s.continues + Holes(r.syms, ForContinue, |s.syms|))
  }

  /** An error is reported exactly when the code is rejected; otherwise the code is appended. */
  ghost predicate Compiled(before: Snap, errBefore: bool, after: Snap, err: bool, r: StmtCode)
  {
    && err == (errBefore || !Accepted(r, |before.breaks|, |before.continues|))
    && (!err ==> Whole(r.syms) && after == Extended(before, r))
  }

  ghost predicate CompiledExpr(before: Snap, errBefore: bool, after: Snap, err: bool, r: ExprCode)
  {
    && err == (errBefore || !r.ok)
    && (!err ==> after == before.(syms := before.syms + Lift(r.bytes), pool := r.pool))
  }

  ghost function ContextOf(top: bool, s: Snap, loop: Loop): Context
  {
    Context(top, s.names, s.depth, loop)
  }

  /** One piece of code behind another. */
  function Cat(a: StmtCode, b: StmtCode): StmtCode
  {
    StmtCode(a.syms + b.syms, b.pool, b.names, a.ok && b.ok, a.exact && b.exact)
  }

  function Bytes(bytes: seq<byte>, pool: seq<Value>, names: seq<Local>): StmtCode
  {
    Straight(bytes, pool, names, true, true)
  }

  /** The same code, accepted under the same conditions. */
  predicate Same(a: StmtCode, b: StmtCode)
  {
    a.syms == b.syms && a.pool == b.pool && a.names == b.names && a.ok == b.ok
  }

  ghost predicate Room(s: Snap)
  {
    |s.breaks| <= MAX_PATCHES && |s.continues| <= MAX_PATCHES
  }

  lemma SameCompiled(s0: Snap, e0: bool, s1: Snap, e1: bool, a: StmtCode, b: StmtCode)
    requires Compiled(s0, e0, s1, e1, a) && Same(a, b)
    ensures Compiled(s0, e0, s1, e1, b)
  {
  }

  lemma {:induction false} NoJumps(bytes: seq<byte>)
    ensures CountBreaks(Lift(bytes)) == 0 && CountContinues(Lift(bytes)) == 0
    decreases |bytes|
  {
    if bytes != [] {
      assert Lift(bytes)[..|bytes| - 1] == Lift(bytes[..|bytes| - 1]);
      NoJumps(bytes[..|bytes| - 1]);
    }
  }

  /** Straight-line code needs no room and records nothing. */
  lemma StraightCompiled(s0: Snap, e0: bool, s1: Snap, e1: bool, r: StmtCode, bytes: seq<byte>)
    requires Room(s0) && r.syms == Lift(bytes) && e1 == (e0 || !r.ok)
    requires !e1 ==> s1 == s0.(syms := s0.syms + Lift(bytes), pool := r.pool, names := r.names)
    ensures Compiled(s0, e0, s1, e1, r)
  {
    WholeLift(bytes);
    NoJumps(bytes);
  }

  lemma ExprIsStraight(s0: Snap, e0: bool, s1: Snap, e1: bool, r: ExprCode)
    requires Room(s0) && CompiledExpr(s0, e0, s1, e1, r)
    ensures Compiled(s0, e0, s1, e1, Straight(r.bytes, r.pool, s0.names, r.ok, r.exact))
  {
    StraightCompiled(s0, e0, s1, e1, Straight(r.bytes, r.pool, s0.names, r.ok, r.exact), r.bytes);
  }

  lemma ExprEnd(s0: Snap, e0: bool, s1: Snap, e1: bool, r: ExprCode)
    requires CompiledExpr(s0, e0, s1, e1, r)
    ensures !e1 ==> |s1.syms| == |s0.syms| + |r.bytes| && s1.pool == r.pool && s1.names == s0.names && s1.depth == s0.depth
  {
  }

  /** An expression and bytes behind it. */
  lemma ExprThen(s0: Snap, e0: bool, s1: Snap, e1: bool, r: ExprCode, more: seq<byte>, s2: Snap, e2: bool,
                 whole: StmtCode)
    requires Room(s0) && CompiledExpr(s0, e0, s1, e1, r)
    requires whole.syms == Lift(r.bytes + more) && e2 == (e0 || !whole.ok) && (e1 ==> e2)
    requires !e2 ==> s2 == s1.(syms := s1.syms + Lift(more), pool := whole.pool, names := whole.names)
    ensures Compiled(s0, e0, s2, e2, whole)
  {
    hide Compiled;
    LiftAppend(r.bytes, more);
    StraightCompiled(s0, e0, s2, e2, whole, r.bytes + more);
  }

  /** Two expressions and bytes behind them. */
  lemma ExprsThen(s0: Snap, e0: bool, s1: Snap, e1: bool, s2: Snap, e2: bool, a: ExprCode, b: ExprCode, c: ExprCode,
                  more: seq<byte>,
                  s3: Snap, e3: bool, whole: ExprCode)
    requires CompiledExpr(s0, e0, s1, e1, a) && CompiledExpr(s1, e1, s2, e2, b) && (!e1 ==> b == c)
    requires whole.bytes == a.bytes + c.bytes + more && whole.pool == c.pool && e3 == (e0 || !whole.ok) && (e2 ==> e3)
    requires !e3 ==> s3 == s2.(syms := s2.syms + Lift(more))
    ensures CompiledExpr(s0, e0, s3, e3, whole)
  {
    LiftAppend(a.bytes, c.bytes);
    LiftAppend(a.bytes + c.bytes, more);
  }

  /** Two pieces; `b` is what the second one is for the state in which the compiler found itself. */
  lemma CatCompiled(s0: Snap, e0: bool, s1: Snap, e1: bool, s2: Snap, e2: bool, a: StmtCode, b: StmtCode, c: StmtCode)
    requires Compiled(s0, e0, s1, e1, a) && Compiled(s1, e1, s2, e2, b) && (!e1 ==> b == c)
    ensures Compiled(s0, e0, s2, e2, Cat(a, c))
  {
    hide Whole, Holes;
    CountsAppend(a.syms, c.syms);
    if !e1 {
      RoomUsed(s0, a);
      if !e2 {
        WholeAppend(a.syms, c.syms);
        HolesAppend(a.syms, c.syms, ForBreak, |s0.syms|);
        HolesAppend(a.syms, c.syms, ForContinue, |s0.syms|);
        assert s0.syms + (a.syms + c.syms) == (s0.syms + a.syms) + c.syms;
        assert s0.breaks + (Holes(a.syms, ForBreak, |s0.syms|) + Holes(c.syms, ForBreak, |s0.syms| + |a.syms|)) == s2.breaks;
        assert s0.continues + (Holes(a.syms, ForContinue, |s0.syms|) + Holes(c.syms, ForContinue, |s0.syms| + |a.syms|)) == s2.continues;
      }
    }
  }

  lemma RoomUsed(s: Snap, r: StmtCode)
    requires Whole(r.syms)
    ensures |Extended(s, r).breaks| == |s.breaks| + CountBreaks(r.syms)
    ensures |Extended(s, r).continues| == |s.continues| + CountContinues(r.syms)
  {
    HolesCounted(r.syms, |s.syms|);
  }

  /** A jump whose operand is patched once the code it jumps over is there. */
  lemma ForwardCompiled(s0: Snap, e0: bool, s2: Snap, e2: bool, a: StmtCode, op: byte, j: StmtCode, b: StmtCode,
                        s3: Snap)
    requires j.syms == Lift([op] + Unset)
    requires Compiled(s0, e0, s2, e2, Cat(Cat(a, j), b))
    requires !e2 ==> s3 == s2.(syms := PatchSyms(s2.syms, |s0.syms| + |a.syms| + 1, |s2.syms|))
    ensures Compiled(s0, e0, s3, e2, Cat(Cat(a, j.(syms := Lift(Jump(op, |b.syms|)))), b))
  {
    hide PatchSyms, Jump, Whole, Holes, CountBreaks, CountContinues;
    var raw, jump := [op] + Unset, Jump(op, |b.syms|);
    SwapBytes(a.syms, raw, jump, b.syms, |s0.syms|);
    if !e2 {
      PatchForward(s0.syms + a.syms, op, b.syms);
      assert s2.syms == s0.syms + a.syms + Lift(raw) + b.syms;
      assert s0.syms + a.syms + Lift(jump) + b.syms == s0.syms + (a.syms + Lift(jump) + b.syms);
    }
  }

  /** Bytes between two pieces may be exchanged: the holes do not move. */
  lemma SwapBytes(a: seq<Sym>, x: seq<byte>, y: seq<byte>, b: seq<Sym>, at: nat)
    requires |x| == |y| > 0
    ensures var p, q := a + Lift(x) + b, a + Lift(y) + b;
      && CountBreaks(p) == CountBreaks(q) && CountContinues(p) == CountContinues(q)
      && (Whole(p) ==> Whole(q) && Holes(p, ForBreak, at) == Holes(q, ForBreak, at) && Holes(p, ForContinue, at) == Holes(q, ForContinue, at))
  {
    CountsAppend(a + Lift(x), b);
    CountsAppend(a, Lift(x));
    CountsAppend(a + Lift(y), b);
    CountsAppend(a, Lift(y));
    NoJumps(x);
    NoJumps(y);
    if Whole(a + Lift(x) + b) {
      SwapWhole(a, x, y, b, at);
    }
  }

  lemma {:induction false} SwapWhole(a: seq<Sym>, x: seq<byte>, y: seq<byte>, b: seq<Sym>, at: nat)
    requires |x| == |y| && (a != [] ==> x != []) && Whole(a + Lift(x) + b)
    ensures var p, q := a + Lift(x) + b, a + Lift(y) + b;
      Whole(q) && Holes(p, ForBreak, at) == Holes(q, ForBreak, at) && Holes(p, ForContinue, at) == Holes(q, ForContinue, at)
    decreases |a| + |x|
  {
    var p, q := a + Lift(x) + b, a + Lift(y) + b;
    if a == [] {
      if x == [] {
        assert p == q;
      } else {
        assert p[1..] == a + Lift(x[1..]) + b && q[1..] == a + Lift(y[1..]) + b;
        SwapWhole(a, x[1..], y[1..], b, at + 1);
      }
    } else if a[0].B? {
      assert p[1..] == a[1..] + Lift(x) + b && q[1..] == a[1..] + Lift(y) + b;
      SwapWhole(a[1..], x, y, b, at + 1);
    } else {
      SwapHole(a, x, y, b);
      SwapWhole(a[3..], x, y, b, at + 3);
    }
  }

  lemma {:induction false} SwapHole(a: seq<Sym>, x: seq<byte>, y: seq<byte>, b: seq<Sym>)
    requires |x| == |y| > 0 && a != [] && !a[0].B? && Whole(a + Lift(x) + b)
    ensures |a| >= 3
    ensures var p, q := a + Lift(x) + b, a + Lift(y) + b;
      Starts(q) && p[3..] == a[3..] + Lift(x) + b && q[3..] == a[3..] + Lift(y) + b
  {
    var p := a + Lift(x) + b;
    assert p[0] == a[0] && Starts(p);
    assert p[|a|] == Lift(x)[0] == B(x[0]);
  }

  // ---------------------------------------------------------------------
  // Loops
  // ---------------------------------------------------------------------

  /**
    A loop before its `break` jumps are patched: its own lists of jumps started empty, and the
    `continue` jumps lead to the offset `to` of the loop's code.
  */
  ghost predicate CompiledLoop(s0: Snap, e0: bool, s1: Snap, e1: bool, raw: StmtCode, to: int)
  {
    && e1 == (e0 || !Accepted(raw, 0, 0))
    && (!e1 ==> Whole(raw.syms)
                && s1.syms == s0.syms + FillKind(raw.syms, ForContinue, to) && s1.breaks == Holes(raw.syms, ForBreak, |s0.syms|)
                && s1.pool == raw.pool && s1.names == raw.names && s1.depth == s0.depth)
  }

  lemma {:induction false} FillKindAppend(a: seq<Sym>, b: seq<Sym>, kind: Kind, to: int)
    requires Whole(a) && Whole(b) && Whole(a + b)
    ensures FillKind(a + b, kind, to) == FillKind(a, kind, to) + FillKind(b, kind, to - |a|)
    decreases |a|
  {
    hide Whole, Starts, FillKind, Hole, FilledHead;
    if a == [] {
      assert a + b == b;
      assert FillKind(a, kind, to) == [];
    } else {
      FillStep(a, kind, to);
      FillStep(a + b, kind, to);
      var k := if a[0].B? then 1 else 3;
      assert (a + b)[k..] == a[k..] + b && (a + b)[..k] == a[..k];
      FillKindAppend(a[k..], b, kind, to - k);
      Associate(FilledHead(a[..k], kind, to), FillKind(a[k..], kind, to - k), FillKind(b, kind, to - |a|));
    }
  }

  lemma Associate(x: seq<Sym>, y: seq<Sym>, z: seq<Sym>)
    ensures x + (y + z) == (x + y) + z
  {
  }

  /** Filling goes one byte or one operand at a time. */
  lemma FillStep(a: seq<Sym>, kind: Kind, to: int)
    requires Whole(a) && a != []
    ensures var k := if a[0].B? then 1 else 3;
      && |a| >= k && Whole(a[k..])
      && FillKind(a, kind, to) == FilledHead(a[..k], kind, to) + FillKind(a[k..], kind, to - k)
  {
  }

  function FilledHead(s: seq<Sym>, kind: Kind, to: int): seq<Sym>
    requires s != []
  {
    if !s[0].B? && KindOf(s[0]) == kind then Lift(EncodeAX((to - 3) % TWO_24)) else s
  }

  lemma {:induction false} FillKindLift(bytes: seq<byte>, kind: Kind, to: int)
    requires Whole(Lift(bytes))
    ensures FillKind(Lift(bytes), kind, to) == Lift(bytes)
    decreases |bytes|
  {
    if bytes != [] {
      assert Lift(bytes)[1..] == Lift(bytes[1..]);
      FillKindLift(bytes[1..], kind, to - 1);
      assert Lift(bytes) == [B(bytes[0])] + Lift(bytes[1..]);
    }
  }

  /** Bytes around a body: holes and filling concern the body alone. */
  lemma AroundBody(head: seq<byte>, body: seq<Sym>, tail: seq<byte>, at: nat, to: int)
    requires Whole(body)
    ensures var syms := Lift(head) + (body + Lift(tail));
      && Whole(syms)
      && Holes(syms, ForBreak, at) == Holes(body, ForBreak, at + |head|)
      && Holes(syms, ForContinue, at) == Holes(body, ForContinue, at + |head|)
      && FillKind(syms, ForContinue, to) == Lift(head) + (FillKind(body, ForContinue, to - |head|) + Lift(tail))
  {
    hide Whole, Holes, FillKind;
    WholeLift(head);
    WholeLift(tail);
    WholeAppend(body, Lift(tail));
    WholeAppend(Lift(head), body + Lift(tail));
    forall kind ensures Holes(Lift(head) + (body + Lift(tail)), kind, at) == Holes(body, kind, at + |head|) {
      HolesAppend(Lift(head), body + Lift(tail), kind, at);
      HolesAppend(body, Lift(tail), kind, at + |head|);
    }
    FillKindAppend(Lift(head), body + Lift(tail), ForContinue, to);
    FillKindAppend(body, Lift(tail), ForContinue, to - |head|);
    FillKindLift(head, ForContinue, to);
    FillKindLift(tail, ForContinue, to - |head| - |body|);
  }

  lemma {:induction false} AroundCounts(head: seq<byte>, body: seq<Sym>, tail: seq<byte>)
    ensures var syms := Lift(head) + (body + Lift(tail));
      CountBreaks(syms) == CountBreaks(body) && CountContinues(syms) == CountContinues(body)
  {
    CountsAppend(Lift(head), body + Lift(tail));
    CountsAppend(body, Lift(tail));
    NoJumps(head);
    NoJumps(tail);
  }

  /** The code of a loop with an exit jump, as symbols. */
  function LoopSyms(head: seq<byte>, op: byte, body: seq<Sym>, post: seq<byte>, start: int): seq<Sym>
  {
    Lift(head + Jump(op, |body| + |post| + 4)) + (body + Lift(post + Jump(OP_JUMP, start - (|head| + |body| + |post| + 8))))
  }

  /** What the patches of such a loop make of its code: `continue`, the jump back, the exit. */
  ghost function LoopPatched(syms: seq<Sym>, continues: seq<nat>, at: nat, exit: nat, start: int, to: int): seq<Sym>
    requires Inside(continues, |syms|) && at + exit + 4 <= |syms|
  {
    var s3 := PatchAll(syms, continues, at + to);
    var s4 := s3 + Lift(Jump(OP_JUMP, at + start - (|s3| + 4)));
    PatchSyms(s4, at + exit + 1, |s4|)
  }

  lemma LoopCompiled(s0: Snap, e0: bool, s2: Snap, e2: bool, x: StmtCode, head: seq<byte>, op: byte, body: seq<Sym>,
                     post: seq<byte>,
                     start: int, to: int, s3: Snap)
    requires s0.breaks == [] && s0.continues == []
    requires x.syms == Lift(head + ([op] + Unset)) + (body + Lift(post)) && (!e2 ==> Whole(body))
    requires Compiled(s0, e0, s2, e2, x)
    requires !e2 ==> Inside(s2.continues, |s2.syms|)
    requires !e2 ==> s3 == s2.(syms := LoopPatched(s2.syms, s2.continues, |s0.syms|, |head|, start, to))
    ensures CompiledLoop(s0, e0, s3, e2, x.(syms := LoopSyms(head, op, body, post, start)), to)
  {
    hide Whole, Holes, FillKind, PatchSyms, Jump, LoopPatched, LoopSyms, CountBreaks, CountContinues, PatchAll;
    LoopCounts(head, op, body, post, start);
    if !e2 {
      AroundBody(head + ([op] + Unset), body, post, |s0.syms|, to);
      LoopHoles(head, op, body, post, start, |s0.syms|);
      LoopFilled(s0.syms, head, op, body, post, start, to, s2.continues);
    }
  }

  lemma LoopCounts(head: seq<byte>, op: byte, body: seq<Sym>, post: seq<byte>, start: int)
    ensures var raw, syms := Lift(head + ([op] + Unset)) + (body + Lift(post)), LoopSyms(head, op, body, post, start);
      CountBreaks(raw) == CountBreaks(syms) && CountContinues(raw) == CountContinues(syms)
  {
    hide CountBreaks, CountContinues, Jump;
    AroundCounts(head + ([op] + Unset), body, post);
    AroundCounts(head + Jump(op, |body| + |post| + 4), body, post + Jump(OP_JUMP, start - (|head| + |body| + |post| + 8)));
  }

  lemma LoopHoles(head: seq<byte>, op: byte, body: seq<Sym>, post: seq<byte>, start: int, at: nat)
    requires Whole(body)
    ensures Whole(LoopSyms(head, op, body, post, start))
    ensures Holes(LoopSyms(head, op, body, post, start), ForBreak, at) == Holes(body, ForBreak, at + |head| + 4)
  {
    hide Whole, Holes, Jump;
    AroundBody(head + Jump(op, |body| + |post| + 4), body, post + Jump(OP_JUMP, start - (|head| + |body| + |post| + 8)), at, 0);
  }

  lemma LoopFilled(before: seq<Sym>, head: seq<byte>, op: byte, body: seq<Sym>, post: seq<byte>, start: int,
                   to: int, continues: seq<nat>)
    requires Whole(body) && Whole(LoopSyms(head, op, body, post, start))
    requires continues == Holes(body, ForContinue, |before| + |head| + 4)
    ensures var syms := before + (Lift(head + ([op] + Unset)) + (body + Lift(post)));
      && Inside(continues, |syms|)
      && LoopPatched(syms, continues, |before|, |head|, start, to)
         == before + FillKind(LoopSyms(head, op, body, post, start), ForContinue, to)
  {
    hide Whole, Holes, FillKind, PatchSyms, Jump, PatchAll;
    var raw := Lift(head + ([op] + Unset)) + (body + Lift(post));
    var filled := FillKind(body, ForContinue, to - |head| - 4);
    AroundBody(head + ([op] + Unset), body, post, |before|, to);
    HolesInside(raw, ForContinue, |before|);
    PatchAllFills(before, raw, ForContinue, |before| + to);
    var s3 := PatchAll(before + raw, continues, |before| + to);
    var back := Jump(OP_JUMP, start - (|head| + |body| + |post| + 8));
    assert s3 == before + (Lift(head + ([op] + Unset)) + (filled + Lift(post)));
    LiftAppend(head, [op] + Unset);
    assert s3 + Lift(back) == before + Lift(head) + Lift([op] + Unset) + (filled + Lift(post) + Lift(back));
    PatchForward(before + Lift(head), op, filled + Lift(post) + Lift(back));
    LiftAppend(post, back);
    LiftAppend(head, Jump(op, |body| + |post| + 4));
    AroundBody(head + Jump(op, |body| + |post| + 4), body, post + back, |before|, to);
    assert filled + Lift(post) + Lift(back) == filled + Lift(post + back);
    assert before + Lift(head) + Lift(Jump(op, |body| + |post| + 4)) + (filled + Lift(post + back))
      == before + (Lift(head + Jump(op, |body| + |post| + 4)) + (filled + Lift(post + back)));
  }

  /** Patching the `break` jumps finishes the loop; nothing of its lists is left. */
  lemma LoopClosed(s0: Snap, e0: bool, s1: Snap, e1: bool, raw: StmtCode, to: int, outer: Snap, s2: Snap)
    requires Room(outer) && s0 == outer.(breaks := [], continues := []) && CompiledLoop(s0, e0, s1, e1, raw, to)
    requires !e1 ==> Inside(s1.breaks, |s1.syms|)
    requires !e1 ==> s2 == s1.(syms := PatchAll(s1.syms, s1.breaks, |s1.syms|), breaks := outer.breaks, continues := outer.continues)
    ensures Compiled(outer, e0, s2, e1, raw.(syms := Fill(raw.syms, |raw.syms|, to), ok := raw.ok && FewJumps(raw.syms)))
  {
    hide Whole, Holes, FillKind, Fill, PatchAll, CountBreaks, CountContinues;
    FilledCounts(raw.syms, |raw.syms|, to);
    if !e1 {
      var once := FillKind(raw.syms, ForContinue, to);
      FillKindWhole(raw.syms, ForContinue, to);
      PatchAllFills(s0.syms, once, ForBreak, |s1.syms|);
      FillBoth(raw.syms, |raw.syms|, to);
      FillKindWhole(once, ForBreak, |raw.syms|);
    }
  }

  lemma {:induction false} FilledCounts(syms: seq<Sym>, breakTo: int, continueTo: int)
    ensures CountBreaks(Fill(syms, breakTo, continueTo)) == 0 && CountContinues(Fill(syms, breakTo, continueTo)) == 0
    decreases |syms|
  {
    if syms != [] {
      var n := |syms| - 1;
      assert Fill(syms, breakTo, continueTo)[..n] == Fill(syms[..n], breakTo, continueTo);
      FilledCounts(syms[..n], breakTo, continueTo);
    }
  }

  // ---------------------------------------------------------------------
  // Conditions and blocks
  // ---------------------------------------------------------------------

  /** An expression, a jump, and a block behind it. */
  lemma JumpAndBody(s0: Snap, e0: bool, s1: Snap, e1: bool, s2: Snap, e2: bool, c: ExprCode, op: byte,
                    body: seq<Stmt>, top: bool, loop: Loop)
    requires Room(s0) && Room(s1) && CompiledExpr(s0, e0, s1, e1, c)
    requires Compiled(s1.(syms := s1.syms + Lift([op] + Unset)), e1, s2, e2, CompBlock(body, ContextOf(top, s1, loop), s1.pool))
    ensures Compiled(s0, e0, s2, e2,
      Cat(Cat(Straight(c.bytes, c.pool, s0.names, c.ok, c.exact), Bytes([op] + Unset, c.pool, s0.names)),
          CompBlock(body, ContextOf(top, s0, loop), c.pool)))
  {
    hide Compiled, CompBlock, Lift;
    var a := Straight(c.bytes, c.pool, s0.names, c.ok, c.exact);
    var j := Bytes([op] + Unset, c.pool, s0.names);
    var s1j := s1.(syms := s1.syms + Lift([op] + Unset));
    ExprIsStraight(s0, e0, s1, e1, c);
    StraightCompiled(s1, e1, s1j, e1, Bytes([op] + Unset, s1.pool, s1.names), [op] + Unset);
    CatCompiled(s0, e0, s1, e1, s1j, e1, a, Bytes([op] + Unset, s1.pool, s1.names), j);
    CatCompiled(s0, e0, s1j, e1, s2, e2, Cat(a, j), CompBlock(body, ContextOf(top, s1, loop), s1.pool),
                CompBlock(body, ContextOf(top, s0, loop), c.pool));
  }

  /** More bytes behind a piece. */
  lemma BytesBehind(s0: Snap, e0: bool, s1: Snap, e1: bool, a: StmtCode, bytes: seq<byte>, names: seq<Local>, s2: Snap)
    requires Room(s1) && Compiled(s0, e0, s1, e1, a)
    requires !e1 ==> s2 == s1.(syms := s1.syms + Lift(bytes), names := names)
    ensures Compiled(s0, e0, s2, e1, Cat(a, Bytes(bytes, a.pool, names)))
  {
    hide Whole, Holes;
    StraightCompiled(s1, e1, s2, e1, Bytes(bytes, s1.pool, names), bytes);
    CatCompiled(s0, e0, s1, e1, s2, e1, a, Bytes(bytes, s1.pool, names), Bytes(bytes, a.pool, names));
  }
}
