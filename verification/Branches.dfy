/** Putting together the code of branches, blocks, loops and switches from snapshots along the way. */
module Branches {
  import opened Values
  import opened Bytecode
  import opened Source
  import opened CodeGen
  import opened Patching
  import opened Assembly

  /** The locals are sorted by depth. */
  predicate Tidy(names: seq<Local>, depth: nat)
  {
    && (forall i, j :: 0 <= i < j < |names| ==> names[i].depth <= names[j].depth)
    && (forall i :: 0 <= i < |names| ==> names[i].depth <= depth)
  }

  // ---------------------------------------------------------------------
  // If
  // ---------------------------------------------------------------------

  /** Condition, unset jump, block. */
  function CondRaw(c: ExprCode, op: byte, names: seq<Local>, t: StmtCode): StmtCode
  {
    Cat(Cat(Straight(c.bytes, c.pool, names, c.ok, c.exact), Bytes([op] + Unset, c.pool, names)), t)
  }

  function ThenCode(s: Stmt, cx: Context, pool: seq<Value>): StmtCode
    requires s.If?
  {
    CompBlock(s.thn, cx, CompExpr(s.cond, cx.names, pool).pool)
  }

  lemma IfCompiled(s: Stmt, cx: Context, s0: Snap, e0: bool, s1: Snap, s2: Snap, e2: bool, s3: Snap)
    requires s.If? && !s.hasElse && cx == ContextOf(cx.top, s0, cx.loop)
    requires !e2 ==> |s1.syms| == |s0.syms| + |CompExpr(s.cond, s0.names, s0.pool).bytes|
    requires Compiled(s0, e0, s2, e2, CondRaw(CompExpr(s.cond, s0.names, s0.pool), OP_JUMP_IF_FALSE, s0.names, ThenCode(s, cx, s0.pool)))
    requires !e2 ==> |s1.syms| + 4 <= |s2.syms| && s3 == s2.(syms := PatchSyms(s2.syms, |s1.syms| + 1, |s2.syms|))
    ensures Compiled(s0, e0, s3, e2, CompStmt(s, cx, s0.pool))
  {
    hide Compiled, CompExpr, CompBlock, PatchSyms, Jump;
    var c, t := CompExpr(s.cond, s0.names, s0.pool), ThenCode(s, cx, s0.pool);
    var a, j := Straight(c.bytes, c.pool, s0.names, c.ok, c.exact), Bytes([OP_JUMP_IF_FALSE] + Unset, c.pool, s0.names);
    ForwardCompiled(s0, e0, s2, e2, a, OP_JUMP_IF_FALSE, j, t, s3);
    LiftAppend(c.bytes, Jump(OP_JUMP_IF_FALSE, |t.syms|));
    SameCompiled(s0, e0, s3, e2, Cat(Cat(a, j.(syms := Lift(Jump(OP_JUMP_IF_FALSE, |t.syms|)))), t), CompStmt(s, cx, s0.pool));
  }

  lemma IfElseCompiled(s: Stmt, cx: Context, s0: Snap, e0: bool, s1: Snap, s2: Snap, e2: bool, s3: Snap, s4: Snap,
                       e4: bool, s5: Snap)
    requires s.If? && s.hasElse && cx == ContextOf(cx.top, s0, cx.loop) && Room(s2)
    requires !e2 ==> |s1.syms| == |s0.syms| + |CompExpr(s.cond, s0.names, s0.pool).bytes|
    requires Compiled(s0, e0, s2, e2, CondRaw(CompExpr(s.cond, s0.names, s0.pool), OP_JUMP_IF_FALSE, s0.names, ThenCode(s, cx, s0.pool)))
    requires !e2 ==> |s1.syms| + 4 <= |s2.syms|
    requires !e2 ==> s3 == s2.(syms := PatchSyms(s2.syms + Lift([OP_JUMP] + Unset), |s1.syms| + 1, |s2.syms| + 4))
    requires Compiled(s3, e2, s4, e4, CompBlock(s.els, ContextOf(cx.top, s3, cx.loop), s3.pool))
    requires !e4 ==> |s2.syms| + 4 <= |s4.syms| && s5 == s4.(syms := PatchSyms(s4.syms, |s2.syms| + 1, |s4.syms|))
    ensures Compiled(s0, e0, s5, e4, CompStmt(s, cx, s0.pool))
  {
    hide Compiled, CompExpr, CompBlock, PatchSyms, Jump, CompStmt;
    var c, t := CompExpr(s.cond, s0.names, s0.pool), ThenCode(s, cx, s0.pool);
    var f := CompBlock(s.els, cx, t.pool);
    var a, j := Straight(c.bytes, c.pool, s0.names, c.ok, c.exact), Bytes([OP_JUMP_IF_FALSE] + Unset, c.pool, s0.names);
    var e := Bytes([OP_JUMP] + Unset, t.pool, s0.names);
    var s2j := s2.(syms := s2.syms + Lift([OP_JUMP] + Unset));
    ThenPart(s0, e0, s2, e2, c, t, s2j);
    var jf := j.(syms := Lift(Jump(OP_JUMP_IF_FALSE, |t.syms| + 4)));
    ForwardCompiled(s0, e0, s2j, e2, a, OP_JUMP_IF_FALSE, j, Cat(t, e), s3);
    EndOf(s0, e0, s2, e2, CondRaw(c, OP_JUMP_IF_FALSE, s0.names, t));
    EndOf(s0, e0, s3, e2, Cat(Cat(a, jf), Cat(t, e)));
    CatCompiled(s0, e0, s3, e2, s4, e4, Cat(Cat(a, jf), Cat(t, e)), CompBlock(s.els, ContextOf(cx.top, s3, cx.loop), s3.pool), f);
    var a2 := Cat(Cat(a, jf), t);
    assert Same(Cat(Cat(Cat(a, jf), Cat(t, e)), f), Cat(Cat(a2, e), f));
    SameCompiled(s0, e0, s4, e4, Cat(Cat(Cat(a, jf), Cat(t, e)), f), Cat(Cat(a2, e), f));
    ErrStays(s3, e2, s4, e4, CompBlock(s.els, ContextOf(cx.top, s3, cx.loop), s3.pool));
    ForwardCompiled(s0, e0, s4, e4, a2, OP_JUMP, e, f, s5);
    IfElseSame(s, cx, s0.pool, Cat(Cat(a2, e.(syms := Lift(Jump(OP_JUMP, |f.syms|)))), f));
    SameCompiled(s0, e0, s5, e4, Cat(Cat(a2, e.(syms := Lift(Jump(OP_JUMP, |f.syms|)))), f), CompStmt(s, cx, s0.pool));
  }

  /** Where a piece ends, and with which pool and locals. */
  lemma EndOf(s0: Snap, e0: bool, s1: Snap, e1: bool, r: StmtCode)
    requires Compiled(s0, e0, s1, e1, r)
    ensures !e1 ==> |s1.syms| == |s0.syms| + |r.syms| && s1.pool == r.pool && s1.names == r.names && s1.depth == s0.depth
  {
  }

  lemma ErrStays(s0: Snap, e0: bool, s1: Snap, e1: bool, r: StmtCode)
    requires Compiled(s0, e0, s1, e1, r)
    ensures e0 ==> e1
  {
  }

  lemma ThenPart(s0: Snap, e0: bool, s2: Snap, e2: bool, c: ExprCode, t: StmtCode, s2j: Snap)
    requires Room(s2) && Compiled(s0, e0, s2, e2, CondRaw(c, OP_JUMP_IF_FALSE, s0.names, t)) && t.names == s0.names
    requires s2j == s2.(syms := s2.syms + Lift([OP_JUMP] + Unset))
    ensures var a, j := Straight(c.bytes, c.pool, s0.names, c.ok, c.exact), Bytes([OP_JUMP_IF_FALSE] + Unset, c.pool, s0.names);
      Compiled(s0, e0, s2j, e2, Cat(Cat(a, j), Cat(t, Bytes([OP_JUMP] + Unset, t.pool, s0.names))))
  {
    hide Compiled, Lift;
    var x := CondRaw(c, OP_JUMP_IF_FALSE, s0.names, t);
    EndOf(s0, e0, s2, e2, x);
    BytesBehind(s0, e0, s2, e2, x, [OP_JUMP] + Unset, s0.names, s2j);
    var a, j := Straight(c.bytes, c.pool, s0.names, c.ok, c.exact), Bytes([OP_JUMP_IF_FALSE] + Unset, c.pool, s0.names);
    var e := Bytes([OP_JUMP] + Unset, t.pool, s0.names);
    assert Same(Cat(x, e), Cat(Cat(a, j), Cat(t, e)));
    SameCompiled(s0, e0, s2j, e2, Cat(x, e), Cat(Cat(a, j), Cat(t, e)));
  }

  lemma IfElseSame(s: Stmt, cx: Context, pool: seq<Value>, r: StmtCode)
    requires s.If? && s.hasElse
    requires var c, t := CompExpr(s.cond, cx.names, pool), ThenCode(s, cx, pool);
      var f := CompBlock(s.els, cx, t.pool);
      && r.syms == Lift(c.bytes) + Lift(Jump(OP_JUMP_IF_FALSE, |t.syms| + 4)) + t.syms + Lift(Jump(OP_JUMP, |f.syms|)) + f.syms
      && r.pool == f.pool && r.names == f.names && r.ok == (c.ok && t.ok && f.ok)
    ensures Same(r, CompStmt(s, cx, pool))
  {
    hide CompExpr, CompBlock, Jump;
    var c, t := CompExpr(s.cond, cx.names, pool), ThenCode(s, cx, pool);
    LiftAppend(c.bytes, Jump(OP_JUMP_IF_FALSE, |t.syms| + 4));
  }

  // ---------------------------------------------------------------------
  // Blocks
  // ---------------------------------------------------------------------

  /** What has been compiled of a block, with what its remaining statements will give, is the whole. */
  ghost predicate Progress(ss: seq<Stmt>, i: nat, begun: Snap, inner: Context, done: StmtCode, now: Snap)
  {
    && i <= |ss| && Compiled(begun, false, now, false, done)
    && Same(Cat(done, CompSeq(ss[i..], inner.(names := done.names), done.pool)), CompSeq(ss, inner, begun.pool))
  }

  lemma NothingDone(ss: seq<Stmt>, begun: Snap, inner: Context)
    requires Room(begun) && inner.names == begun.names
    ensures Progress(ss, 0, begun, inner, Bytes([], begun.pool, begun.names), begun)
  {
    hide CompSeq;
    StraightCompiled(begun, false, begun, false, Bytes([], begun.pool, begun.names), []);
    assert ss[0..] == ss && inner.(names := begun.names) == inner;
  }

  lemma StepDone(ss: seq<Stmt>, i: nat, begun: Snap, inner: Context, done: StmtCode, at: Snap,
                 now: Snap) returns (next: StmtCode)
    requires i < |ss| && Progress(ss, i, begun, inner, done, at) && inner == ContextOf(inner.top, begun, inner.loop)
    requires Compiled(at, false, now, false, CompStmt(ss[i], ContextOf(inner.top, at, inner.loop), at.pool))
    ensures Progress(ss, i + 1, begun, inner, next, now)
  {
    hide CompStmt, CompSeq, Compiled;
    EndOf(begun, false, at, false, done);
    var r := CompStmt(ss[i], inner.(names := done.names), done.pool);
    next := Cat(done, r);
    CatCompiled(begun, false, at, false, now, false, done, r, r);
    SplitSeq(ss, i, begun, inner, done, at);
  }

  /** Code that was rejected stays rejected whatever comes behind it. */
  lemma RejectedBefore(a: StmtCode, b: StmtCode, breaks: nat, continues: nat)
    requires !Accepted(a, breaks, continues)
    ensures !Accepted(Cat(a, b), breaks, continues)
  {
    CountsAppend(a.syms, b.syms);
  }

  lemma SeqRejected(ss: seq<Stmt>, i: nat, begun: Snap, inner: Context, done: StmtCode, at: Snap, now: Snap)
    requires i < |ss| && inner == ContextOf(inner.top, begun, inner.loop) && Progress(ss, i, begun, inner, done, at)
    requires Compiled(at, false, now, true, CompStmt(ss[i], ContextOf(inner.top, at, inner.loop), at.pool))
    ensures !Accepted(CompSeq(ss, inner, begun.pool), |begun.breaks|, |begun.continues|)
  {
    hide CompStmt, CompSeq, Compiled, CountBreaks, CountContinues;
    EndOf(begun, false, at, false, done);
    var r := CompStmt(ss[i], inner.(names := done.names), done.pool);
    CatCompiled(begun, false, at, false, now, true, done, r, r);
    Unaccepted(begun, now, Cat(done, r));
    var rest := CompSeq(ss[i + 1..], inner.(names := r.names), r.pool);
    RejectedBefore(Cat(done, r), rest, |begun.breaks|, |begun.continues|);
    SplitSeq(ss, i, begun, inner, done, at);
  }

  lemma {:induction false} SeqStep(ss: seq<Stmt>, cx: Context, pool: seq<Value>)
    requires ss != []
    ensures var r0 := CompStmt(ss[0], cx, pool);
      CompSeq(ss, cx, pool) == Cat(r0, CompSeq(ss[1..], cx.(names := r0.names), r0.pool))
  {
    hide CompStmt;
  }

  /** The statement at hand and the ones behind it. */
  lemma SplitSeq(ss: seq<Stmt>, i: nat, begun: Snap, inner: Context, done: StmtCode, at: Snap)
    requires i < |ss| && Progress(ss, i, begun, inner, done, at)
    ensures var r := CompStmt(ss[i], inner.(names := done.names), done.pool);
      Same(Cat(Cat(done, r), CompSeq(ss[i + 1..], inner.(names := r.names), r.pool)), CompSeq(ss, inner, begun.pool))
  {
    hide CompStmt, CompSeq, Compiled;
    var cx := inner.(names := done.names);
    var r := CompStmt(ss[i], cx, done.pool);
    assert ss[i..][0] == ss[i] && ss[i..][1..] == ss[i + 1..];
    SeqStep(ss[i..], cx, done.pool);
    assert cx.(names := r.names) == inner.(names := r.names);
    var rest := CompSeq(ss[i + 1..], inner.(names := r.names), r.pool);
    Associate(done.syms, r.syms, rest.syms);
  }

  lemma Unaccepted(s0: Snap, s1: Snap, r: StmtCode)
    requires Compiled(s0, false, s1, true, r)
    ensures !Accepted(r, |s0.breaks|, |s0.continues|)
  {
  }

  lemma BlockRejected(ss: seq<Stmt>, i: nat, s0: Snap, e0: bool, begun: Snap, cx: Context, done: StmtCode, at: Snap,
                      now: Snap)
    requires i < |ss| && cx == ContextOf(cx.top, s0, cx.loop) && begun == s0.(depth := s0.depth + 1)
    requires !e0 ==> Progress(ss, i, begun, cx.(depth := cx.depth + 1), done, at)
    requires Compiled(at, e0, now, true, CompStmt(ss[i], ContextOf(cx.top, at, cx.loop), at.pool))
    ensures Compiled(s0, e0, now, true, CompBlock(ss, cx, s0.pool))
  {
    hide CompStmt, CompSeq, Whole, Holes, Progress, CountBreaks, CountContinues;
    if !e0 {
      var inner := cx.(depth := cx.depth + 1);
      SeqRejected(ss, i, begun, inner, done, at, now);
      var b := CompSeq(ss, inner, s0.pool);
      RejectedBefore(b, Bytes(Pops(|b.names| - |cx.names|), b.pool, cx.names), |s0.breaks|, |s0.continues|);
    }
  }

  lemma StillRejected(s0: Snap, now: Snap, r: StmtCode)
    ensures Compiled(s0, true, now, true, r)
  {
  }

  predicate AllAt(names: seq<Local>, from: nat, depth: nat)
  {
    forall i :: from <= i < |names| ==> names[i].depth == depth
  }

  /** The locals a statement adds belong to the scope it is in. */
  lemma StmtNames(s: Stmt, cx: Context, pool: seq<Value>)
    ensures AllAt(CompStmt(s, cx, pool).names, |cx.names|, cx.depth)
  {
    hide CompExpr, CompExprs, CompBlock, CompCases, OptExpr, Fill, GetVar, SetVar;
  }

  lemma {:induction false} SeqNames(ss: seq<Stmt>, cx: Context, pool: seq<Value>)
    ensures AllAt(CompSeq(ss, cx, pool).names, |cx.names|, cx.depth)
    decreases |ss|
  {
    hide CompStmt;
    if ss != [] {
      var r0 := CompStmt(ss[0], cx, pool);
      StmtNames(ss[0], cx, pool);
      SeqNames(ss[1..], cx.(names := r0.names), r0.pool);
    }
  }

  lemma BlockCompiled(ss: seq<Stmt>, s0: Snap, begun: Snap, cx: Context, done: StmtCode, end: Snap, now: Snap)
    requires cx == ContextOf(cx.top, s0, cx.loop) && begun == s0.(depth := s0.depth + 1) && Tidy(s0.names, s0.depth) && Room(end)
    requires Progress(ss, |ss|, begun, cx.(depth := cx.depth + 1), done, end)
    requires var n := Dying(end.names, end.depth);
      now == Snap(end.syms + Lift(Pops(n)), end.pool, end.names[..|end.names| - n], end.depth - 1, end.breaks, end.continues)
    ensures Compiled(s0, false, now, false, CompBlock(ss, cx, s0.pool))
  {
    hide Compiled, CompSeq, Pops, Progress, Dying, Tidy;
    var inner := cx.(depth := cx.depth + 1);
    var b := CompSeq(ss, inner, s0.pool);
    AllDone(ss, begun, inner, done, end);
    EndOf(begun, false, end, false, b);
    SeqNames(ss, inner, s0.pool);
    ScopePopped(cx.names, b.names, cx.depth);
    var n := |b.names| - |cx.names|;
    var popped := end.(syms := end.syms + Lift(Pops(n)), names := cx.names);
    BytesBehind(begun, false, end, false, b, Pops(n), cx.names, popped);
    SameCompiled(begun, false, popped, false, Cat(b, Bytes(Pops(n), b.pool, cx.names)), CompBlock(ss, cx, s0.pool));
    Shallower(s0, begun, popped, CompBlock(ss, cx, s0.pool));
  }

  /** Leaving the scope leaves the locals from before it. */
  lemma {:induction false} ScopePopped(before: seq<Local>, names: seq<Local>, depth: nat)
    requires Tidy(before, depth) && before <= names && AllAt(names, |before|, depth + 1)
    ensures Dying(names, depth + 1) == |names| - |before| && names[..|before|] == before
  {
    hide Dying;
    if before != [] {
      assert names[|before| - 1] == before[|before| - 1];
    }
    DyingAre(names, |before|, depth + 1);
  }

  lemma AllDone(ss: seq<Stmt>, begun: Snap, inner: Context, done: StmtCode, end: Snap)
    requires Progress(ss, |ss|, begun, inner, done, end)
    ensures Compiled(begun, false, end, false, CompSeq(ss, inner, begun.pool))
  {
    assert ss[|ss|..] == [];
    SameCompiled(begun, false, end, false, done, CompSeq(ss, inner, begun.pool));
  }

  /** Code that leaves the locals as they were may as well have been compiled one scope further out. */
  lemma Shallower(s0: Snap, begun: Snap, end: Snap, r: StmtCode)
    requires begun == s0.(depth := s0.depth + 1) && Compiled(begun, false, end, false, r)
    ensures Compiled(s0, false, end.(depth := s0.depth), false, r)
  {
  }

  // ---------------------------------------------------------------------
  // Loops
  // ---------------------------------------------------------------------

  /** A loop's code before its jumps are patched; `cx` has the loop in it. */
  function LoopRaw(s: Stmt, cx: Context, pool: seq<Value>): StmtCode
    requires s.While? || s.Forever? || s.ForIn?
  {
    match s
    case While(cond, body) =>
      var c := CompExpr(cond, cx.names, pool);
      var b := CompBlock(body, cx, c.pool);
      StmtCode(WhileSyms(c.bytes, b.syms), b.pool, cx.names, c.ok && b.ok, true)
    case Forever(body) =>
      var b := CompBlock(body, cx, pool);
      StmtCode(ForeverSyms(b.syms), b.pool, cx.names, b.ok, true)
    case ForIn(x, iter, body) =>
      var it := CompExpr(iter, cx.names, pool);
      var b := CompBlock(body, BodyContext(x, cx), it.pool);
      StmtCode(ForInSyms(it.bytes, b.syms), b.pool, cx.names, it.ok && CanBind(x, cx) && b.ok, true)
  }

  function BodyContext(x: Ident, cx: Context): Context
  {
    Context(cx.top, cx.names + [Local(Hidden, cx.depth + 1), Local(Named(x), cx.depth + 1)], cx.depth + 1, cx.loop)
  }

  predicate CanBind(x: Ident, cx: Context)
  {
    var hidden := cx.names + [Local(Hidden, cx.depth + 1)];
    |hidden| <= MAX_LOCALS && CanDeclare(hidden, cx.depth + 1, x)
  }

  /** Where `continue` leads. */
  function LoopStart(s: Stmt, cx: Context, pool: seq<Value>): int
    requires s.While? || s.Forever? || s.ForIn?
  {
    if !s.ForIn? then 0 else
    var it := CompExpr(s.iter, cx.names, pool);
    |it.bytes| + 5 + |CompBlock(s.body, BodyContext(s.x, cx), it.pool).syms|
  }

  lemma ForCompiled(s: Stmt, cx: Context, s0: Snap, e0: bool, s1: Snap, e1: bool, outer: Snap, s2: Snap)
    requires s.While? || s.Forever? || s.ForIn?
    requires Room(outer) && s0 == outer.(breaks := [], continues := []) && cx == ContextOf(cx.top, outer, cx.loop)
    requires var inside := cx.(loop := InLoop(|cx.names|, s.ForIn?));
      CompiledLoop(s0, e0, s1, e1, LoopRaw(s, inside, s0.pool), LoopStart(s, inside, s0.pool))
    requires !e1 ==> Inside(s1.breaks, |s1.syms|)
    requires !e1 ==> s2 == s1.(syms := PatchAll(s1.syms, s1.breaks, |s1.syms|), breaks := outer.breaks, continues := outer.continues)
    ensures Compiled(outer, e0, s2, e1, CompStmt(s, cx, outer.pool))
  {
    hide Compiled, CompiledLoop, PatchAll, CompStmt, LoopRaw, LoopStart;
    var inside := cx.(loop := InLoop(|cx.names|, s.ForIn?));
    var raw, to := LoopRaw(s, inside, s0.pool), LoopStart(s, inside, s0.pool);
    LoopClosed(s0, e0, s1, e1, raw, to, outer, s2);
    LoopSame(s, cx, outer.pool);
    SameCompiled(outer, e0, s2, e1, raw.(syms := Fill(raw.syms, |raw.syms|, to), ok := raw.ok && FewJumps(raw.syms)), CompStmt(s, cx, outer.pool));
  }

  lemma LoopSame(s: Stmt, cx: Context, pool: seq<Value>)
    requires s.While? || s.Forever? || s.ForIn?
    ensures var inside := cx.(loop := InLoop(|cx.names|, s.ForIn?));
      var raw, to := LoopRaw(s, inside, pool), LoopStart(s, inside, pool);
      Same(raw.(syms := Fill(raw.syms, |raw.syms|, to), ok := raw.ok && FewJumps(raw.syms)), CompStmt(s, cx, pool))
  {
    hide CompExpr, CompBlock, Fill, Jump, CountBreaks, CountContinues;
    var inside := cx.(loop := InLoop(|cx.names|, s.ForIn?));
    match s
    case While(cond, body) =>
      var c := CompExpr(cond, cx.names, pool);
      var b := CompBlock(body, inside, c.pool);
      AroundCounts(c.bytes + Jump(OP_JUMP_IF_FALSE, |b.syms| + 4), b.syms, Jump(OP_JUMP, -(|c.bytes| + 8 + |b.syms|)));
    case Forever(body) =>
      var b := CompBlock(body, inside, pool);
      AroundCounts([], b.syms, Jump(OP_JUMP, -(|b.syms| + 4)));
      assert Lift([]) + (b.syms + Lift(Jump(OP_JUMP, -(|b.syms| + 4)))) == b.syms + Lift(Jump(OP_JUMP, -(|b.syms| + 4)));
    case ForIn(x, iter, body) =>
      var it := CompExpr(iter, cx.names, pool);
      var b := CompBlock(body, BodyContext(x, inside), it.pool);
      AroundCounts(it.bytes + [OP_GET_ITER] + Jump(OP_FOR_ITER, |b.syms| + 5), b.syms, [OP_POP] + Jump(OP_JUMP, -(|b.syms| + 9)));
  }

  lemma WhileCompiled(s: Stmt, cx: Context, s0: Snap, e0: bool, s1: Snap, s2: Snap, e2: bool, s3: Snap)
    requires s.While? && cx == ContextOf(cx.top, s0, cx.loop) && s0.breaks == [] && s0.continues == []
    requires !e2 ==> |s1.syms| == |s0.syms| + |CompExpr(s.cond, s0.names, s0.pool).bytes|
    requires var c := CompExpr(s.cond, s0.names, s0.pool);
      Compiled(s0, e0, s2, e2, CondRaw(c, OP_JUMP_IF_FALSE, s0.names, CompBlock(s.body, cx, c.pool)))
    requires !e2 ==> Inside(s2.continues, |s2.syms|) && |s0.syms| <= |s1.syms| && |s1.syms| + 4 <= |s2.syms|
    requires !e2 ==> s3 == s2.(syms := LoopPatched(s2.syms, s2.continues, |s0.syms|, |s1.syms| - |s0.syms|, 0, 0))
    ensures CompiledLoop(s0, e0, s3, e2, LoopRaw(s, cx, s0.pool), LoopStart(s, cx, s0.pool))
  {
    hide CompiledLoop, CompExpr, CompBlock, LoopPatched, Holes, LoopSyms;
    var c := CompExpr(s.cond, s0.names, s0.pool);
    var b := CompBlock(s.body, cx, c.pool);
    var x := CondRaw(c, OP_JUMP_IF_FALSE, s0.names, b);
    var y := x.(syms := Lift(c.bytes + ([OP_JUMP_IF_FALSE] + Unset)) + (b.syms + Lift([])));
    LiftAppend(c.bytes, [OP_JUMP_IF_FALSE] + Unset);
    assert x.syms == y.syms;
    BodyWhole(s0, e0, s2, e2, x, Lift(c.bytes) + Lift([OP_JUMP_IF_FALSE] + Unset), b.syms);
    LoopCompiled(s0, e0, s2, e2, y, c.bytes, OP_JUMP_IF_FALSE, b.syms, [], 0, 0, s3);
    WhileSymsAre(c.bytes, b.syms);
    SameLoop(s0, e0, s3, e2, y.(syms := LoopSyms(c.bytes, OP_JUMP_IF_FALSE, b.syms, [], 0)), LoopRaw(s, cx, s0.pool), 0);
  }

  lemma SameLoop(s0: Snap, e0: bool, s1: Snap, e1: bool, a: StmtCode, b: StmtCode, to: int)
    requires CompiledLoop(s0, e0, s1, e1, a, to) && Same(a, b)
    ensures CompiledLoop(s0, e0, s1, e1, b, to)
  {
  }

  lemma WhileSymsAre(cond: seq<byte>, body: seq<Sym>)
    ensures LoopSyms(cond, OP_JUMP_IF_FALSE, body, [], 0) == WhileSyms(cond, body)
  {
    hide Jump;
    assert [] + Jump(OP_JUMP, -(|cond| + 8 + |body|)) == Jump(OP_JUMP, -(|cond| + 8 + |body|));
  }

  lemma ForInSymsAre(iter: seq<byte>, body: seq<Sym>)
    ensures LoopSyms(iter + [OP_GET_ITER], OP_FOR_ITER, body, [OP_POP], |iter| + 1) == ForInSyms(iter, body)
  {
    hide Jump;
  }

  /** The code behind bytes in a piece that was compiled has whole operands. */
  lemma BodyWhole(s0: Snap, e0: bool, s1: Snap, e1: bool, r: StmtCode, head: seq<Sym>, body: seq<Sym>)
    requires Compiled(s0, e0, s1, e1, r) && r.syms == head + body && forall i :: 0 <= i < |head| ==> head[i].B?
    ensures !e1 ==> Whole(body)
  {
    if !e1 {
      WholeBehind(head, body);
    }
  }

  lemma {:induction false} WholeBehind(head: seq<Sym>, body: seq<Sym>)
    requires Whole(head + body) && forall i :: 0 <= i < |head| ==> head[i].B?
    ensures Whole(body)
    decreases |head|
  {
    if head == [] {
      assert head + body == body;
    } else {
      assert (head + body)[1..] == head[1..] + body;
      WholeBehind(head[1..], body);
    }
  }

  lemma InfiniteCompiled(s: Stmt, cx: Context, s0: Snap, e0: bool, s2: Snap, e2: bool, s3: Snap)
    requires s.Forever? && cx == ContextOf(cx.top, s0, cx.loop) && s0.breaks == [] && s0.continues == []
    requires Compiled(s0, e0, s2, e2, CompBlock(s.body, cx, s0.pool))
    requires !e2 ==> Inside(s2.continues, |s2.syms|)
    requires !e2 ==> s3 == s2.(syms := PatchAll(s2.syms, s2.continues, |s0.syms|)
      + Lift(Jump(OP_JUMP, |s0.syms| - (|s2.syms| + 4))))
    ensures CompiledLoop(s0, e0, s3, e2, LoopRaw(s, cx, s0.pool), LoopStart(s, cx, s0.pool))
  {
    hide CompBlock, PatchAll, FillKind, Whole, Holes, CountBreaks, CountContinues, Jump, CompExpr;
    var b := CompBlock(s.body, cx, s0.pool);
    AroundCounts([], b.syms, Jump(OP_JUMP, -(|b.syms| + 4)));
    assert Lift([]) + ForeverSyms(b.syms) == ForeverSyms(b.syms);
    if !e2 {
      InfiniteFilled(s0.syms, b.syms, s2.continues);
    }
  }

  lemma {:induction false} InfiniteFilled(before: seq<Sym>, body: seq<Sym>, continues: seq<nat>)
    requires Whole(body) && continues == [] + Holes(body, ForContinue, |before|)
    ensures Inside(continues, |before + body|)
    ensures var syms := ForeverSyms(body);
      && Whole(syms) && Holes(syms, ForBreak, |before|) == Holes(body, ForBreak, |before|)
      && PatchAll(before + body, continues, |before|) + Lift(Jump(OP_JUMP, |before| - (|before + body| + 4)))
         == before + FillKind(syms, ForContinue, 0)
  {
    hide PatchAll, FillKind, Whole, Holes, Jump;
    var back := Jump(OP_JUMP, -(|body| + 4));
    AroundBody([], body, back, |before|, 0);
    assert Lift([]) + (body + Lift(back)) == ForeverSyms(body);
    HolesInside(body, ForContinue, |before|);
    PatchAllFills(before, body, ForContinue, |before|);
    assert continues == Holes(body, ForContinue, |before|);
    var filled := FillKind(body, ForContinue, 0);
    assert Lift([]) + (filled + Lift(back)) == filled + Lift(back);
    Associate(before, filled, Lift(back));
  }

  /** The piece of a for-in loop between the iterator and the body: exit jump and loop variable. */
  function BindCode(x: Ident, cx: Context, pool: seq<Value>): StmtCode
  {
    StmtCode(Lift([OP_FOR_ITER] + Unset), pool, BodyContext(x, cx).names, CanBind(x, cx), true)
  }

  /** The compiler inside a for-in loop, ready for its body; `start` is where FOR_ITER is. */
  ghost predicate Opened(s: Stmt, cx: Context, s0: Snap, e0: bool, start: nat, s2: Snap, e2: bool)
    requires s.ForIn?
  {
    var it := CompExpr(s.iter, s0.names, s0.pool);
    && e2 == (e0 || !it.ok || !CanBind(s.x, cx))
    && (!e2 ==> start == |s0.syms| + |it.bytes| + 1
                && s2 == Snap(s0.syms + Lift(it.bytes + [OP_GET_ITER]) + Lift([OP_FOR_ITER] + Unset), it.pool,
                              BodyContext(s.x, cx).names, s0.depth + 1, s0.breaks, s0.continues))
  }

  lemma ForInOpened(s: Stmt, cx: Context, s0: Snap, e0: bool, s1: Snap, e1: bool, start: nat, s2: Snap, e2: bool)
    requires s.ForIn? && cx == ContextOf(cx.top, s0, cx.loop) && s1.names == s0.names
    requires CompiledExpr(s0.(depth := s0.depth + 1), e0, s1, e1, CompExpr(s.iter, s0.names, s0.pool)) && start == |s1.syms| + 1
    requires var hidden := if |s0.names| < MAX_LOCALS then s0.names + [Local(Hidden, s0.depth + 1)] else s0.names;
      && e2 == (e1 || !CanDeclare(hidden, s0.depth + 1, s.x))
      && (!e2 ==> s2 == s1.(syms := s1.syms + Lift([OP_GET_ITER]) + Lift([OP_FOR_ITER] + Unset),
                            names := hidden + [Local(Named(s.x), s0.depth + 1)]))
    ensures Opened(s, cx, s0, e0, start, s2, e2)
  {
    hide CompExpr, Duplicate;
    LiftAppend(CompExpr(s.iter, s0.names, s0.pool).bytes, [OP_GET_ITER]);
  }

  /** The end of a for-in loop: its continue target, the jump back, the patches, the end of its scope. */
  ghost predicate Finished(s3: Snap, at: nat, start: nat, s5: Snap)
  {
    && Inside(s3.continues, |s3.syms|) && at < start && start + 4 <= |s3.syms| && s3.depth > 0
    && var names := if |s3.names| >= 2 then s3.names[..|s3.names| - 2] else [];
    && var n := Dying(names, s3.depth);
    && s5 == Snap(LoopPatched(s3.syms + Lift([OP_POP]), s3.continues, at, start - at, start - at, |s3.syms| - at) + Lift(Pops(n)),
                  s3.pool, names[..|names| - n], s3.depth - 1, s3.breaks, s3.continues)
  }

  lemma ForInCompiled(s: Stmt, cx: Context, s0: Snap, e0: bool, start: nat, s2: Snap, e2: bool, s3: Snap, e3: bool,
                      s5: Snap)
    requires s.ForIn? && cx == ContextOf(cx.top, s0, cx.loop) && s0.breaks == [] && s0.continues == [] && Room(s0) && Room(s3)
    requires !e0 ==> Tidy(s0.names, s0.depth)
    requires Opened(s, cx, s0, e0, start, s2, e2)
    requires Compiled(s2, e2, s3, e3, CompBlock(s.body, ContextOf(cx.top, s2, cx.loop), s2.pool))
    requires Finished(s3, |s0.syms|, start, s5)
    ensures CompiledLoop(s0, e0, s5, e3, LoopRaw(s, cx, s0.pool), LoopStart(s, cx, s0.pool))
  {
    hide Compiled, CompiledLoop, CompExpr, CompBlock, LoopPatched, CanBind, BindCode, LoopRaw, LoopStart, Pops,
         Dying, Tidy;
    var d0 := s0.(depth := s0.depth + 1);
    var it := CompExpr(s.iter, s0.names, s0.pool);
    var b := CompBlock(s.body, BodyContext(s.x, cx), it.pool);
    var e1 := e0 || !it.ok;
    var s1 := d0.(syms := d0.syms + Lift(it.bytes + [OP_GET_ITER]), pool := it.pool);
    ForInPieces(s, cx, d0, e0, s1, e1, s2, e2, s3, e3, it);
    ErrStays(s2, e2, s3, e3, CompBlock(s.body, ContextOf(cx.top, s2, cx.loop), s2.pool));
    var s4 := s3.(names := s0.names, syms := LoopPatched(s3.syms + Lift([OP_POP]), s3.continues, |s0.syms|,
        start - |s0.syms|, start - |s0.syms|, |s3.syms| - |s0.syms|));
    if !e3 {
      EndOf(s2, e2, s3, e3, CompBlock(s.body, ContextOf(cx.top, s2, cx.loop), s2.pool));
      assert BodyContext(s.x, cx).names[..|s0.names|] == s0.names;
      NoneDies(s0.names, s0.depth);
      assert s4.syms + [] == s4.syms;
    }
    ForInLoop(s, cx, s0, d0, e0, s3, e3, it, b, s4, s5);
  }

  lemma {:induction false} NoneDies(names: seq<Local>, depth: nat)
    requires Tidy(names, depth)
    ensures Dying(names, depth + 1) == 0 && names[..|names| - 0] == names && Lift(Pops(0)) == []
  {
  }

  function ForInRaw(it: ExprCode, x: Ident, cx: Context, b: StmtCode): StmtCode
  {
    StmtCode(Lift(it.bytes + [OP_GET_ITER] + ([OP_FOR_ITER] + Unset)) + (b.syms + Lift([OP_POP])), b.pool, cx.names,
             it.ok && CanBind(x, cx) && b.ok, true)
  }

  lemma ForInPieces(s: Stmt, cx: Context, d0: Snap, e0: bool, s1: Snap, e1: bool, s2: Snap, e2: bool, s3: Snap,
                    e3: bool, it: ExprCode)
    requires s.ForIn? && cx.names == d0.names && d0.depth == cx.depth + 1 && d0.breaks == [] && d0.continues == [] && Room(s1) && Room(s3)
    requires e1 == (e0 || !it.ok)
    requires !e1 ==> s1 == d0.(syms := d0.syms + Lift(it.bytes + [OP_GET_ITER]), pool := it.pool)
    requires e2 == (e1 || !CanBind(s.x, cx))
    requires !e2 ==> s2 == s1.(syms := s1.syms + Lift([OP_FOR_ITER] + Unset), names := BodyContext(s.x, cx).names)
    requires Compiled(s2, e2, s3, e3, CompBlock(s.body, ContextOf(cx.top, s2, cx.loop), s2.pool))
    ensures Compiled(d0, e0, s3.(syms := s3.syms + Lift([OP_POP]), names := cx.names), e3,
                     ForInRaw(it, s.x, cx, CompBlock(s.body, BodyContext(s.x, cx), it.pool)))
  {
    hide Compiled, CompBlock, CanBind, Lift;
    var head := it.bytes + [OP_GET_ITER];
    var a := Straight(head, it.pool, cx.names, it.ok, true);
    StraightCompiled(d0, e0, s1, e1, a, head);
    StraightCompiled(s1, e1, s2, e2, BindCode(s.x, cx, s1.pool), [OP_FOR_ITER] + Unset);
    CatCompiled(d0, e0, s1, e1, s2, e2, a, BindCode(s.x, cx, s1.pool), BindCode(s.x, cx, it.pool));
    var b := CompBlock(s.body, BodyContext(s.x, cx), it.pool);
    var ab := Cat(a, BindCode(s.x, cx, it.pool));
    CatCompiled(d0, e0, s2, e2, s3, e3, ab, CompBlock(s.body, ContextOf(cx.top, s2, cx.loop), s2.pool), b);
    BytesBehind(d0, e0, s3, e3, Cat(ab, b), [OP_POP], cx.names, s3.(syms := s3.syms + Lift([OP_POP]), names := cx.names));
    LiftAppend(head, [OP_FOR_ITER] + Unset);
    assert Same(Cat(Cat(ab, b), Bytes([OP_POP], b.pool, cx.names)), ForInRaw(it, s.x, cx, b));
    SameCompiled(d0, e0, s3.(syms := s3.syms + Lift([OP_POP]), names := cx.names), e3,
                 Cat(Cat(ab, b), Bytes([OP_POP], b.pool, cx.names)), ForInRaw(it, s.x, cx, b));
  }

  lemma ForInLoop(s: Stmt, cx: Context, s0: Snap, d0: Snap, e0: bool, s3: Snap, e3: bool, it: ExprCode, b: StmtCode,
                  s4: Snap, s5: Snap)
    requires s.ForIn? && cx.names == s0.names && d0 == s0.(depth := s0.depth + 1) && s0.breaks == [] && s0.continues == []
    requires it == CompExpr(s.iter, s0.names, s0.pool) && b == CompBlock(s.body, BodyContext(s.x, cx), it.pool)
    requires Compiled(d0, e0, s3.(syms := s3.syms + Lift([OP_POP]), names := cx.names), e3, ForInRaw(it, s.x, cx, b))
    requires !e3 ==> Inside(s3.continues, |s3.syms|) && |s3.syms| == |s0.syms| + |it.bytes| + 5 + |b.syms|
    requires !e3 ==> s4 == s3.(names := s0.names, syms := LoopPatched(s3.syms + Lift([OP_POP]), s3.continues, |s0.syms|,
        |it.bytes| + 1, |it.bytes| + 1, |it.bytes| + 5 + |b.syms|))
    requires !e3 ==> s5 == s4.(depth := s0.depth) && s4.depth == d0.depth
    ensures CompiledLoop(s0, e0, s5, e3, LoopRaw(s, cx, s0.pool), LoopStart(s, cx, s0.pool))
  {
    hide CompExpr, CompBlock, LoopPatched, CanBind, Holes, LoopSyms, FillKind;
    var head, to := it.bytes + [OP_GET_ITER], |it.bytes| + 5 + |b.syms|;
    var x := ForInRaw(it, s.x, cx, b);
    var sp := s3.(syms := s3.syms + Lift([OP_POP]), names := cx.names);
    BodyWhole(d0, e0, sp, e3, x, Lift(head + ([OP_FOR_ITER] + Unset)), b.syms + Lift([OP_POP]));
    if !e3 {
      WholeFront(b.syms, [OP_POP]);
    }
    LoopCompiled(d0, e0, sp, e3, x, head, OP_FOR_ITER, b.syms, [OP_POP], |it.bytes| + 1, to, s4);
    ForInSymsAre(it.bytes, b.syms);
  }

  /** Code in front of bytes has whole operands too. */
  lemma {:induction false} WholeFront(body: seq<Sym>, bytes: seq<byte>)
    requires Whole(body + Lift(bytes)) && bytes != []
    ensures Whole(body)
    decreases |body|
  {
    var all := body + Lift(bytes);
    if body != [] {
      if body[0].B? {
        assert all[1..] == body[1..] + Lift(bytes);
        WholeFront(body[1..], bytes);
      } else {
        assert all[|body|] == Lift(bytes)[0] == B(bytes[0]);
        assert all[3..] == body[3..] + Lift(bytes);
        WholeFront(body[3..], bytes);
      }
    }
  }

  // ---------------------------------------------------------------------
  // Several jumps to one place
  // ---------------------------------------------------------------------

  /**
    Code emitted so far (`done`) in which the operands at `ps` are unset, the same code with them set
    (`good`), and the code still to come: once the operands are patched to lead `extra` bytes behind
    everything, the result is `all`.
  */
  ghost predicate Pending(s0: Snap, done: StmtCode, good: seq<Sym>, ps: seq<nat>, rest: StmtCode, all: StmtCode,
                          extra: nat)
  {
    && Alike(done.syms, good, |s0.syms|)
    && good + rest.syms == all.syms && rest.pool == all.pool && rest.names == all.names && (done.ok && rest.ok) == all.ok
    && Inside(ps, |s0.syms| + |done.syms|)
    && PatchAll(s0.syms + done.syms, ps, |s0.syms| + |all.syms| + extra) == s0.syms + good
  }

  /** Same length, same holes. */
  ghost predicate Alike(a: seq<Sym>, b: seq<Sym>, at: nat)
  {
    && |a| == |b| && CountBreaks(a) == CountBreaks(b) && CountContinues(a) == CountContinues(b)
    && (Whole(a) ==> Whole(b) && Holes(a, ForBreak, at) == Holes(b, ForBreak, at) && Holes(a, ForContinue, at) == Holes(b, ForContinue, at))
  }

  lemma NothingPending(s0: Snap, all: StmtCode, extra: nat)
    ensures Pending(s0, Bytes([], s0.pool, s0.names), [], [], all, all, extra)
    ensures Room(s0) ==> Compiled(s0, false, s0, false, Bytes([], s0.pool, s0.names))
  {
    assert [] + all.syms == all.syms;
    if Room(s0) {
      StraightCompiled(s0, false, s0, false, Bytes([], s0.pool, s0.names), []);
    }
  }

  /** The same piece behind both. */
  lemma AlikeAppend(a: seq<Sym>, b: seq<Sym>, x: seq<Sym>, y: seq<Sym>, at: nat)
    requires Alike(a, b, at) && Alike(x, y, at + |a|) && (Whole(a + x) ==> Whole(a) && Whole(x))
    ensures Alike(a + x, b + y, at)
  {
    hide Whole, Holes;
    CountsAppend(a, x);
    CountsAppend(b, y);
    if Whole(a + x) {
      WholeAppend(b, y);
      HolesAppend(a, x, ForBreak, at);
      HolesAppend(a, x, ForContinue, at);
      HolesAppend(b, y, ForBreak, at);
      HolesAppend(b, y, ForContinue, at);
    }
  }

  lemma AlikeBytes(x: seq<byte>, y: seq<byte>, at: nat)
    requires |x| == |y|
    ensures Alike(Lift(x), Lift(y), at)
  {
    hide Whole, Holes;
    WholeLift(x);
    WholeLift(y);
    NoJumps(x);
    NoJumps(y);
  }

  lemma AlikeSelf(x: seq<Sym>, at: nat)
    ensures Alike(x, x, at)
  {
  }

  /** A piece without an unset jump behind it. */
  lemma PendingPiece(s0: Snap, done: StmtCode, good: seq<Sym>, ps: seq<nat>, x: StmtCode, rest: StmtCode,
                     more: StmtCode, all: StmtCode, extra: nat)
    requires Pending(s0, done, good, ps, rest, all, extra) && Whole(done.syms) && Whole(x.syms)
    requires rest.syms == x.syms + more.syms && rest.pool == more.pool && rest.names == more.names && rest.ok == (x.ok && more.ok)
    ensures Pending(s0, Cat(done, x), good + x.syms, ps, more, all, extra)
  {
    hide Whole, Holes, PatchAll, Alike;
    AlikeSelf(x.syms, |s0.syms| + |done.syms|);
    SameLength(done.syms, good, |s0.syms|);
    AlikeAppend(done.syms, good, x.syms, x.syms, |s0.syms|);
    assert good + (x.syms + more.syms) == (good + x.syms) + more.syms;
    var target := |s0.syms| + |all.syms| + extra;
    PatchAllAppend(s0.syms + done.syms, ps, target, x.syms);
    assert s0.syms + (done.syms + x.syms) == (s0.syms + done.syms) + x.syms;
    assert s0.syms + (good + x.syms) == (s0.syms + good) + x.syms;
  }

  lemma SameLength(a: seq<Sym>, b: seq<Sym>, at: nat)
    requires Alike(a, b, at)
    ensures |a| == |b|
  {
  }

  /** A jump with an unset operand, to be recorded. */
  lemma PendingJump(s0: Snap, done: StmtCode, good: seq<Sym>, ps: seq<nat>, op: byte, rest: StmtCode,
                    more: StmtCode, all: StmtCode, extra: nat)
    requires Pending(s0, done, good, ps, rest, all, extra) && Whole(done.syms)
    requires rest.syms == Lift(Jump(op, |more.syms| + extra)) + more.syms
    requires rest.pool == more.pool && rest.names == more.names && rest.ok == more.ok
    ensures Pending(s0, Cat(done, Bytes([op] + Unset, done.pool, done.names)), good + Lift(Jump(op, |more.syms| + extra)),
                    ps + [|s0.syms| + |done.syms| + 1], more, all, extra)
  {
    hide Whole, Holes, PatchAll, Alike, Jump, PatchSyms;
    var raw, jump := [op] + Unset, Jump(op, |more.syms| + extra);
    var p, target := |s0.syms| + |done.syms| + 1, |s0.syms| + |all.syms| + extra;
    WholeLift(raw);
    AlikeBytes(raw, jump, |s0.syms| + |done.syms|);
    SameLength(done.syms, good, |s0.syms|);
    AlikeAppend(done.syms, good, Lift(raw), Lift(jump), |s0.syms|);
    assert good + (Lift(jump) + more.syms) == (good + Lift(jump)) + more.syms;
    var before := s0.syms + done.syms;
    PatchLastFirst(before + Lift(raw), ps, p, target);
    PatchBack(before, op, target);
    assert target - (|before| + 4) == |more.syms| + extra;
    PatchAllAppend(before, ps, target, Lift(jump));
    assert s0.syms + (done.syms + Lift(raw)) == before + Lift(raw);
    assert s0.syms + (good + Lift(jump)) == (s0.syms + good) + Lift(jump);
  }

  /** Everything is there: patching gives the whole code. */
  lemma PendingDone(s0: Snap, s1: Snap, done: StmtCode, good: seq<Sym>, ps: seq<nat>, rest: StmtCode, all: StmtCode,
                    extra: nat, s2: Snap)
    requires Pending(s0, done, good, ps, rest, all, extra) && rest.syms == [] && rest.ok && rest.pool == done.pool && rest.names == done.names
    requires Compiled(s0, false, s1, false, done) && Inside(ps, |s1.syms|)
    requires s2 == s1.(syms := PatchAll(s1.syms, ps, |s1.syms| + extra))
    ensures Compiled(s0, false, s2, false, all)
  {
    hide Whole, Holes, PatchAll, CountBreaks, CountContinues;
    assert good + [] == good;
  }

  // ---------------------------------------------------------------------
  // Switch
  // ---------------------------------------------------------------------

  lemma SubjectCompiled(s: Stmt, s0: Snap, e0: bool, s1: Snap, e1: bool)
    requires s.Switch?
    requires s.subject.Some? ==> CompiledExpr(s0, e0, s1, e1, CompExpr(s.subject.value, s0.names, s0.pool))
    requires s.subject.None? ==> s1 == s0 && e1 == e0
    ensures CompiledExpr(s0, e0, s1, e1, Subject(s.subject, s0.names, s0.pool))
  {
    hide CompExpr;
    assert s0.syms + Lift([]) == s0.syms;
  }

  lemma SwitchCompiled(s: Stmt, cx: Context, s0: Snap, e0: bool, s1: Snap, e1: bool, s2: Snap, e2: bool)
    requires s.Switch? && cx == ContextOf(cx.top, s0, cx.loop) && Room(s0)
    requires CompiledExpr(s0, e0, s1, e1, Subject(s.subject, s0.names, s0.pool))
    requires Compiled(s1, e1, s2, e2, CompCases(s, 0, 0, ContextOf(cx.top, s1, cx.loop), s1.pool))
    ensures Compiled(s0, e0, s2, e2, CompStmt(s, cx, s0.pool))
  {
    hide Compiled, CompCases, Subject;
    var sub := Subject(s.subject, s0.names, s0.pool);
    var a := Straight(sub.bytes, sub.pool, s0.names, sub.ok, sub.exact);
    ExprIsStraight(s0, e0, s1, e1, sub);
    var cs := CompCases(s, 0, 0, cx, sub.pool);
    CatCompiled(s0, e0, s1, e1, s2, e2, a, CompCases(s, 0, 0, ContextOf(cx.top, s1, cx.loop), s1.pool), cs);
    SameCompiled(s0, e0, s2, e2, Cat(a, cs), CompStmt(s, cx, s0.pool));
  }

  function Tests(values: seq<Expr>, j: nat, hasSubject: bool, names: seq<Local>, pool: seq<Value>): StmtCode
  {
    var vs := CompValues(values, j, hasSubject, names, pool);
    Straight(vs.bytes, vs.pool, names, vs.ok, vs.exact)
  }

  /** The tests with the jump over the body behind them, not set yet. */
  function TestsRaw(vs: ExprCode, names: seq<Local>): StmtCode
  {
    Straight(vs.bytes + ([OP_JUMP] + Unset), vs.pool, names, vs.ok, vs.exact)
  }

  function TestBytes(v: ExprCode, hasSubject: bool): seq<byte>
  {
    if hasSubject then [OP_DUP] + v.bytes + [OP_EQ] else v.bytes
  }

  function TestCode(e: Expr, hasSubject: bool, names: seq<Local>, pool: seq<Value>): StmtCode
  {
    var v := CompExpr(e, names, pool);
    Straight(TestBytes(v, hasSubject), v.pool, names, v.ok, true)
  }

  lemma TestEmitted(e: Expr, hasSubject: bool, at: Snap, err: bool, mid: Snap, err2: bool, tested: Snap)
    requires Room(at)
    requires var dup := if hasSubject then at.(syms := at.syms + Lift([OP_DUP])) else at;
      CompiledExpr(dup, err, mid, err2, CompExpr(e, at.names, at.pool))
    requires tested == if hasSubject then mid.(syms := mid.syms + Lift([OP_EQ])) else mid
    ensures Compiled(at, err, tested, err2, TestCode(e, hasSubject, at.names, at.pool))
  {
    hide Compiled, CompExpr;
    var v := CompExpr(e, at.names, at.pool);
    LiftAppend([OP_DUP], v.bytes);
    LiftAppend([OP_DUP] + v.bytes, [OP_EQ]);
    assert at.syms + Lift([OP_DUP]) + Lift(v.bytes) + Lift([OP_EQ]) == at.syms + (Lift([OP_DUP]) + Lift(v.bytes) + Lift([OP_EQ]));
    StraightCompiled(at, err, tested, err2, TestCode(e, hasSubject, at.names, at.pool), TestBytes(v, hasSubject));
  }

  /** One test in front of the others. */
  lemma TestsStep(values: seq<Expr>, j: nat, hasSubject: bool, names: seq<Local>, pool: seq<Value>)
    requires values != []
    ensures var t, rest := TestCode(values[0], hasSubject, names, pool), Tests(values, j, hasSubject, names, pool);
      var more := Tests(values[1..], j + 1, hasSubject, names, t.pool);
      && rest.syms == t.syms + ((if j < MAX_PATCHES then Lift(Jump(OP_JUMP_IF_TRUE, |more.syms| + 4)) else []) + more.syms)
      && rest.pool == more.pool && rest.ok == (t.ok && more.ok)
  {
    hide CompExpr, Jump;
    var v := CompExpr(values[0], names, pool);
    var more := CompValues(values[1..], j + 1, hasSubject, names, v.pool);
    var hit := if j < MAX_PATCHES then Jump(OP_JUMP_IF_TRUE, |more.bytes| + 4) else [];
    LiftAppend(TestBytes(v, hasSubject) + hit, more.bytes);
    LiftAppend(TestBytes(v, hasSubject), hit);
    assert Lift([]) == [];
    Associate(Lift(TestBytes(v, hasSubject)), Lift(hit), Lift(more.bytes));
  }

  lemma TestDone(values: seq<Expr>, j: nat, hasSubject: bool, s0: Snap, done: StmtCode, good: seq<Sym>,
                 ps: seq<nat>, all: StmtCode,
                 at: Snap, tested: Snap, now: Snap) returns (done2: StmtCode, good2: seq<Sym>)
    requires j < |values| && |ps| == (if j < MAX_PATCHES then j else MAX_PATCHES) && Room(tested)
    requires Compiled(s0, false, at, false, done) && at.names == s0.names
    requires Pending(s0, done, good, ps, Tests(values[j..], j, hasSubject, s0.names, done.pool), all, 4)
    requires Compiled(at, false, tested, false, TestCode(values[j], hasSubject, at.names, at.pool))
    requires now == if |ps| < MAX_PATCHES then tested.(syms := tested.syms + Lift([OP_JUMP_IF_TRUE] + Unset)) else tested
    ensures Compiled(s0, false, now, false, done2)
    ensures Pending(s0, done2, good2, if |ps| < MAX_PATCHES then ps + [|tested.syms| + 1] else ps,
                    Tests(values[j + 1..], j + 1, hasSubject, s0.names, done2.pool), all, 4)
  {
    hide Compiled, Tests, TestCode, Pending, Lift, Jump;
    EndOf(s0, false, at, false, done);
    var t := TestCode(values[j], hasSubject, s0.names, done.pool);
    var rest := Tests(values[j..], j, hasSubject, s0.names, done.pool);
    var more := Tests(values[j + 1..], j + 1, hasSubject, s0.names, t.pool);
    assert values[j..][0] == values[j] && values[j..][1..] == values[j + 1..];
    TestsStep(values[j..], j, hasSubject, s0.names, done.pool);
    CatCompiled(s0, false, at, false, tested, false, done, t, t);
    EndOf(s0, false, tested, false, Cat(done, t));
    PiecesWhole(s0, at, done, tested, t);
    WholeAppend(done.syms, t.syms);
    TestNames(values[j..], j, hasSubject, s0.names, done.pool, more, t);
    if |ps| < MAX_PATCHES {
      var jump := Lift(Jump(OP_JUMP_IF_TRUE, |more.syms| + 4));
      var mid := StmtCode(jump + more.syms, more.pool, more.names, more.ok, true);
      PendingPiece(s0, done, good, ps, t, rest, mid, all, 4);
      PendingJump(s0, Cat(done, t), good + t.syms, ps, OP_JUMP_IF_TRUE, mid, more, all, 4);
      done2, good2 := Cat(Cat(done, t), Bytes([OP_JUMP_IF_TRUE] + Unset, t.pool, t.names)), good + t.syms + jump;
      BytesBehind(s0, false, tested, false, Cat(done, t), [OP_JUMP_IF_TRUE] + Unset, t.names, now);
    } else {
      assert [] + more.syms == more.syms;
      PendingPiece(s0, done, good, ps, t, rest, more, all, 4);
      done2, good2 := Cat(done, t), good + t.syms;
    }
  }

  lemma TestNames(values: seq<Expr>, j: nat, hasSubject: bool, names: seq<Local>, pool: seq<Value>, more: StmtCode,
                  t: StmtCode)
    requires values != [] && t == TestCode(values[0], hasSubject, names, pool)
    requires more == Tests(values[1..], j + 1, hasSubject, names, t.pool)
    ensures Tests(values, j, hasSubject, names, pool).names == names && more.names == names && t.names == names
  {
    hide CompValues, CompExpr;
  }

  lemma PiecesWhole(s0: Snap, s1: Snap, a: StmtCode, s2: Snap, b: StmtCode)
    requires Compiled(s0, false, s1, false, a) && Compiled(s1, false, s2, false, b)
    ensures Whole(a.syms) && Whole(b.syms)
  {
  }

  lemma TestRejected(values: seq<Expr>, j: nat, hasSubject: bool, s0: Snap, done: StmtCode, good: seq<Sym>,
                     ps: seq<nat>, all: StmtCode,
                     at: Snap, tested: Snap)
    requires j < |values| && Room(at) && at.names == s0.names && Compiled(s0, false, at, false, done)
    requires Pending(s0, done, good, ps, Tests(values[j..], j, hasSubject, s0.names, done.pool), all, 4)
    requires Compiled(at, false, tested, true, TestCode(values[j], hasSubject, at.names, at.pool))
    ensures !all.ok
  {
    hide Tests, CompExpr, Whole, Holes, PatchAll, Alike;
    var t := TestCode(values[j], hasSubject, s0.names, done.pool);
    assert values[j..][0] == values[j] && values[j..][1..] == values[j + 1..];
    TestsStep(values[j..], j, hasSubject, s0.names, done.pool);
    NoJumps(TestBytes(CompExpr(values[j], s0.names, done.pool), hasSubject));
  }

  lemma TestsCompiled(values: seq<Expr>, hasSubject: bool, s0: Snap, e0: bool, done: StmtCode, good: seq<Sym>,
                      ps: seq<nat>, all: StmtCode,
                      end: Snap, err: bool, now: Snap)
    requires all == Tests(values, 0, hasSubject, s0.names, s0.pool) && Room(end) && Inside(ps, |end.syms|)
    requires err ==> e0 || !all.ok
    requires !err ==> !e0 && Compiled(s0, false, end, false, done) && end.names == s0.names
    requires !err ==> Pending(s0, done, good, ps, Tests(values[|values|..], |values|, hasSubject, s0.names, done.pool), all, 4)
    requires Inside(ps, |end.syms| + 4)
    requires now == end.(syms := PatchAll(end.syms + Lift([OP_JUMP] + Unset), ps, |end.syms| + 4))
    ensures Compiled(s0, e0, now, err, TestsRaw(CompValues(values, 0, hasSubject, s0.names, s0.pool), s0.names))
  {
    hide PatchAll, Pending, CompValues, Compiled, Lift;
    var raw := TestsRaw(CompValues(values, 0, hasSubject, s0.names, s0.pool), s0.names);
    if err {
      RejectedCode(s0, e0, now, raw);
    } else {
      assert values[|values|..] == [];
      NoTests(|values|, hasSubject, s0.names, done.pool);
      EndOf(s0, false, end, false, done);
      var patched := end.(syms := PatchAll(end.syms, ps, |end.syms| + 4));
      PendingDone(s0, end, done, good, ps, Tests([], |values|, hasSubject, s0.names, done.pool), all, 4, patched);
      PatchAllAppend(end.syms, ps, |end.syms| + 4, Lift([OP_JUMP] + Unset));
      BytesBehind(s0, false, patched, false, all, [OP_JUMP] + Unset, s0.names, now);
      LiftAppend(CompValues(values, 0, hasSubject, s0.names, s0.pool).bytes, [OP_JUMP] + Unset);
      SameCompiled(s0, false, now, false, Cat(all, Bytes([OP_JUMP] + Unset, all.pool, s0.names)), raw);
    }
  }

  lemma NoTests(j: nat, hasSubject: bool, names: seq<Local>, pool: seq<Value>)
    ensures var r := Tests([], j, hasSubject, names, pool); r.syms == [] && r.ok && r.pool == pool && r.names == names
  {
  }

  lemma RejectedCode(s0: Snap, e0: bool, s1: Snap, r: StmtCode)
    requires e0 || !Accepted(r, |s0.breaks|, |s0.continues|)
    ensures Compiled(s0, e0, s1, true, r)
  {
  }

  function Drop(s: Stmt): seq<byte>
    requires s.Switch?
  {
    if s.subject.Some? then [OP_POP] else []
  }

  /** One case without its jump to the end of the switch; `end` is the length of that jump. */
  function CaseBody(s: Stmt, i: nat, end: nat, cx: Context, pool: seq<Value>): StmtCode
    requires s.Switch? && i < |s.cases|
  {
    var vs := CompValues(s.cases[i].values, 0, s.subject.Some?, cx.names, pool);
    var b := CompBlock(s.cases[i].body, cx, vs.pool);
    StmtCode(Lift(vs.bytes + Jump(OP_JUMP, |Drop(s)| + |b.syms| + end)) + (Lift(Drop(s)) + b.syms), b.pool, cx.names, vs.ok && b.ok, true)
  }

  /** One case; its jump to the end, of which 256 can be recorded, is not set yet. */
  function CaseRaw(s: Stmt, i: nat, n: nat, cx: Context, pool: seq<Value>): StmtCode
    requires s.Switch? && i < |s.cases|
  {
    if n < MAX_PATCHES then
      var x := CaseBody(s, i, 4, cx, pool);
      Cat(x, Bytes([OP_JUMP] + Unset, x.pool, cx.names))
    else CaseBody(s, i, 0, cx, pool)
  }

  lemma SameCase(s: Stmt, i: nat, a: nat, b: nat, cx: Context, pool: seq<Value>)
    requires s.Switch? && i < |s.cases| && (a < MAX_PATCHES <==> b < MAX_PATCHES)
    ensures CaseRaw(s, i, a, cx, pool) == CaseRaw(s, i, b, cx, pool)
  {
  }

  /** Tests and body with the jump over the body unset, and what comes behind them. */
  lemma CasePieces(s: Stmt, i: nat, cx: Context, s0: Snap, e0: bool, s1: Snap, e1: bool, s2: Snap, s3: Snap, e3: bool)
    requires s.Switch? && i < |s.cases| && cx == ContextOf(cx.top, s0, cx.loop) && Room(s1)
    requires var vs := CompValues(s.cases[i].values, 0, s.subject.Some?, cx.names, s0.pool); Compiled(s0, e0, s1, e1, TestsRaw(vs, cx.names))
    requires s2 == s1.(syms := s1.syms + Lift(Drop(s)))
    requires Compiled(s2, e1, s3, e3, CompBlock(s.cases[i].body, ContextOf(cx.top, s2, cx.loop), s2.pool))
    ensures var vs := CompValues(s.cases[i].values, 0, s.subject.Some?, cx.names, s0.pool);
      var b := CompBlock(s.cases[i].body, cx, vs.pool);
      Compiled(s0, e0, s3, e3, Cat(Cat(TestsRaw(vs, cx.names), Bytes(Drop(s), vs.pool, cx.names)), b))
  {
    hide Compiled, CompBlock, CompValues, Lift, Drop;
    var vs := CompValues(s.cases[i].values, 0, s.subject.Some?, cx.names, s0.pool);
    var b := CompBlock(s.cases[i].body, cx, vs.pool);
    var t := TestsRaw(vs, cx.names);
    EndOf(s0, e0, s1, e1, t);
    BytesBehind(s0, e0, s1, e1, t, Drop(s), s1.names, s2);
    if !e1 {
      assert Bytes(Drop(s), t.pool, s1.names) == Bytes(Drop(s), vs.pool, cx.names);
    } else {
      StillErr(s0, e0, s1, t);
      if !e0 {
        RejectedBefore(t, Bytes(Drop(s), vs.pool, cx.names), |s0.breaks|, |s0.continues|);
      }
      RejectedCode(s0, e0, s2, Cat(t, Bytes(Drop(s), vs.pool, cx.names)));
    }
    CatCompiled(s0, e0, s2, e1, s3, e3, Cat(t, Bytes(Drop(s), vs.pool, cx.names)), CompBlock(s.cases[i].body, ContextOf(cx.top, s2, cx.loop), s2.pool), b);
  }

  lemma StillErr(s0: Snap, e0: bool, s1: Snap, r: StmtCode)
    requires Compiled(s0, e0, s1, true, r)
    ensures e0 || !Accepted(r, |s0.breaks|, |s0.continues|)
  {
  }

  lemma CaseCompiled(s: Stmt, i: nat, n: nat, cx: Context, s0: Snap, e0: bool, s1: Snap, e1: bool, s2: Snap,
                     s3: Snap, e3: bool, s4: Snap, s5: Snap)
    requires s.Switch? && i < |s.cases| && cx == ContextOf(cx.top, s0, cx.loop) && Room(s1) && Room(s3)
    requires var vs := CompValues(s.cases[i].values, 0, s.subject.Some?, cx.names, s0.pool); Compiled(s0, e0, s1, e1, TestsRaw(vs, cx.names))
    requires s2 == s1.(syms := s1.syms + Lift(Drop(s)))
    requires Compiled(s2, e1, s3, e3, CompBlock(s.cases[i].body, ContextOf(cx.top, s2, cx.loop), s2.pool))
    requires s4 == s3.(syms := s3.syms + Lift(EndJump(n)))
    requires 4 <= |s1.syms| <= |s4.syms|
    requires s5 == s4.(syms := PatchSyms(s4.syms, |s1.syms| - 3, |s4.syms|))
    ensures Compiled(s0, e0, s5, e3, CaseRaw(s, i, n, cx, s0.pool))
  {
    hide Compiled, CompBlock, CompValues, Lift, Drop, PatchSyms, CaseRaw, Jump, EndJump;
    var vs := CompValues(s.cases[i].values, 0, s.subject.Some?, cx.names, s0.pool);
    var b := CompBlock(s.cases[i].body, cx, vs.pool);
    CasePieces(s, i, cx, s0, e0, s1, e1, s2, s3, e3);
    ErrStays(s2, e1, s3, e3, CompBlock(s.cases[i].body, ContextOf(cx.top, s2, cx.loop), s2.pool));
    var x := Cat(Cat(TestsRaw(vs, cx.names), Bytes(Drop(s), vs.pool, cx.names)), b);
    EndOf(s0, e0, s3, e3, x);
    BytesBehind(s0, e0, s3, e3, x, EndJump(n), cx.names, s4);
    CaseForward(s, i, n, cx, s0, e0, s1, e1, s4, e3, vs, b, s5);
  }

  function EndJump(n: nat): seq<byte>
  {
    if n < MAX_PATCHES then [OP_JUMP] + Unset else []
  }

  lemma CaseForward(s: Stmt, i: nat, n: nat, cx: Context, s0: Snap, e0: bool, s1: Snap, e1: bool, s4: Snap,
                    e3: bool, vs: ExprCode, b: StmtCode, s5: Snap)
    requires s.Switch? && i < |s.cases| && cx.names == s0.names && (e1 ==> e3)
    requires vs == CompValues(s.cases[i].values, 0, s.subject.Some?, cx.names, s0.pool) && b == CompBlock(s.cases[i].body, cx, vs.pool)
    requires Compiled(s0, e0, s1, e1, TestsRaw(vs, cx.names)) && 4 <= |s1.syms| <= |s4.syms|
    requires Compiled(s0, e0, s4, e3, Cat(Cat(Cat(TestsRaw(vs, cx.names), Bytes(Drop(s), vs.pool, cx.names)), b), Bytes(EndJump(n), b.pool, cx.names)))
    requires s5 == s4.(syms := PatchSyms(s4.syms, |s1.syms| - 3, |s4.syms|))
    ensures Compiled(s0, e0, s5, e3, CaseRaw(s, i, n, cx, s0.pool))
  {
    hide Compiled, CompBlock, CompValues, PatchSyms, Jump, Drop, EndJump, CaseRaw;
    var a, j := Straight(vs.bytes, vs.pool, cx.names, vs.ok, vs.exact), Bytes([OP_JUMP] + Unset, vs.pool, cx.names);
    var drop, end := Bytes(Drop(s), vs.pool, cx.names), Bytes(EndJump(n), b.pool, cx.names);
    var behind := Cat(Cat(drop, b), end);
    var t := TestsRaw(vs, cx.names);
    EndOf(s0, e0, s1, e1, t);
    LiftAppend(vs.bytes, [OP_JUMP] + Unset);
    assert t.syms == a.syms + j.syms;
    assert Same(Cat(Cat(Cat(t, drop), b), end), Cat(Cat(a, j), behind));
    SameCompiled(s0, e0, s4, e3, Cat(Cat(Cat(t, drop), b), end), Cat(Cat(a, j), behind));
    ForwardCompiled(s0, e0, s4, e3, a, OP_JUMP, j, behind, s5);
    CaseSame(s, i, n, cx, s0.pool, Cat(Cat(a, j.(syms := Lift(Jump(OP_JUMP, |behind.syms|)))), behind));
    SameCompiled(s0, e0, s5, e3, Cat(Cat(a, j.(syms := Lift(Jump(OP_JUMP, |behind.syms|)))), behind), CaseRaw(s, i, n, cx, s0.pool));
  }

  lemma CaseSame(s: Stmt, i: nat, n: nat, cx: Context, pool: seq<Value>, r: StmtCode)
    requires s.Switch? && i < |s.cases|
    requires var vs := CompValues(s.cases[i].values, 0, s.subject.Some?, cx.names, pool);
      var b := CompBlock(s.cases[i].body, cx, vs.pool);
      && r.syms == Lift(vs.bytes) + Lift(Jump(OP_JUMP, |Drop(s)| + |b.syms| + |EndJump(n)|)) + (Lift(Drop(s)) + b.syms + Lift(EndJump(n)))
      && r.pool == b.pool && r.names == cx.names && r.ok == (vs.ok && b.ok)
    ensures Same(r, CaseRaw(s, i, n, cx, pool))
  {
    hide CompBlock, CompValues, Jump, Drop;
    var vs := CompValues(s.cases[i].values, 0, s.subject.Some?, cx.names, pool);
    var b := CompBlock(s.cases[i].body, cx, vs.pool);
    LiftAppend(vs.bytes, Jump(OP_JUMP, |Drop(s)| + |b.syms| + |EndJump(n)|));
    assert Lift([]) == [];
  }

  /** A case in front of the other cases. */
  lemma CasesStep(s: Stmt, i: nat, n: nat, cx: Context, pool: seq<Value>)
    requires s.Switch? && i < |s.cases| && s.cases[i].values != []
    ensures var x := CaseBody(s, i, if n < MAX_PATCHES then 4 else 0, cx, pool);
      var more := CompCases(s, i + 1, n + 1, cx, x.pool);
      var rest := CompCases(s, i, n, cx, pool);
      && rest.syms == x.syms + ((if n < MAX_PATCHES then Lift(Jump(OP_JUMP, |more.syms|)) else []) + more.syms)
      && rest.pool == more.pool && rest.names == more.names && rest.ok == (x.ok && more.ok)
  {
    hide CompBlock, CompValues, Jump;
    var vs := CompValues(s.cases[i].values, 0, s.subject.Some?, cx.names, pool);
    var b := CompBlock(s.cases[i].body, cx, vs.pool);
    var more := CompCases(s, i + 1, n + 1, cx, b.pool);
    CaseCodeSplit(Drop(s), vs, b, more, n < MAX_PATCHES, cx.names);
  }

  lemma CaseCodeSplit(drop: seq<byte>, vs: ExprCode, b: StmtCode, more: StmtCode, jumps: bool, names: seq<Local>)
    ensures var toEnd := if jumps then Jump(OP_JUMP, |more.syms|) else [];
      CaseCode(drop, vs, b, more, jumps, names).syms
        == (Lift(vs.bytes + Jump(OP_JUMP, |drop| + |b.syms| + |toEnd|)) + (Lift(drop) + b.syms)) + (Lift(toEnd) + more.syms)
  {
    hide Jump;
  }

  lemma SkipDefault(s: Stmt, i: nat, n: nat, cx: Context, pool: seq<Value>)
    requires s.Switch? && i < |s.cases| && s.cases[i].values == []
    ensures CompCases(s, i, n, cx, pool) == CompCases(s, i + 1, n, cx, pool)
  {
    hide CompBlock, CompValues;
  }

  lemma NoCasesYet(s: Stmt)
    requires s.Switch?
    ensures DefaultCase(s.cases[..0]) == -1
  {
  }

  lemma DefaultStep(cases: seq<Case>, i: nat)
    requires i < |cases|
    ensures DefaultCase(cases[..i + 1]) == if cases[i].values == [] then i else DefaultCase(cases[..i])
  {
    assert cases[..i + 1][..i] == cases[..i] && cases[..i + 1][i] == cases[i];
  }

  lemma CaseDone(s: Stmt, i: nat, n: nat, cx: Context, s0: Snap, done: StmtCode, good: seq<Sym>, ps: seq<nat>,
                 all: StmtCode, at: Snap, now: Snap)
    returns (done2: StmtCode, good2: seq<Sym>)
    requires s.Switch? && i < |s.cases| && s.cases[i].values != [] && cx == ContextOf(cx.top, s0, cx.loop)
    requires Compiled(s0, false, at, false, done) && done.names == s0.names
    requires Pending(s0, done, good, ps, CompCases(s, i, n, cx, done.pool), all, 0)
    requires Compiled(at, false, now, false, CaseRaw(s, i, n, ContextOf(cx.top, at, cx.loop), at.pool)) && |now.syms| >= 3
    ensures Compiled(s0, false, now, false, done2) && done2.names == s0.names
    ensures Pending(s0, done2, good2, if n < MAX_PATCHES then ps + [|now.syms| - 3] else ps, CompCases(s, i + 1, n + 1, cx, done2.pool), all, 0)
  {
    hide Compiled, CompCases, CaseBody, Pending, Lift, Jump, Whole;
    EndOf(s0, false, at, false, done);
    var x := CaseBody(s, i, if n < MAX_PATCHES then 4 else 0, cx, done.pool);
    var raw := CaseRaw(s, i, n, cx, done.pool);
    var rest, more := CompCases(s, i, n, cx, done.pool), CompCases(s, i + 1, n + 1, cx, x.pool);
    CasesStep(s, i, n, cx, done.pool);
    CatCompiled(s0, false, at, false, now, false, done, raw, raw);
    EndOf(s0, false, now, false, Cat(done, raw));
    PiecesWhole(s0, at, done, now, raw);
    CaseNames(s, i, if n < MAX_PATCHES then 4 else 0, cx, done.pool);
    if n < MAX_PATCHES {
      CaseBodyWhole(x);
      WholeAppend(done.syms, x.syms);
      var jump := Lift(Jump(OP_JUMP, |more.syms|));
      var mid := StmtCode(jump + more.syms, more.pool, more.names, more.ok, true);
      PendingPiece(s0, done, good, ps, x, rest, mid, all, 0);
      PendingJump(s0, Cat(done, x), good + x.syms, ps, OP_JUMP, mid, more, all, 0);
      done2, good2 := Cat(Cat(done, x), Bytes([OP_JUMP] + Unset, x.pool, x.names)), good + x.syms + jump;
      Associate(done.syms, x.syms, Lift([OP_JUMP] + Unset));
      SameCompiled(s0, false, now, false, Cat(done, raw), done2);
    } else {
      assert [] + more.syms == more.syms;
      PendingPiece(s0, done, good, ps, x, rest, more, all, 0);
      done2, good2 := Cat(done, x), good + x.syms;
    }
  }

  lemma CaseNames(s: Stmt, i: nat, end: nat, cx: Context, pool: seq<Value>)
    requires s.Switch? && i < |s.cases|
    ensures CaseBody(s, i, end, cx, pool).names == cx.names
  {
  }

  lemma CaseBodyWhole(x: StmtCode)
    requires Whole(x.syms + Lift([OP_JUMP] + Unset))
    ensures Whole(x.syms)
  {
    WholeFront(x.syms, [OP_JUMP] + Unset);
  }

  /** If the whole switch is accepted, so is what has been compiled of it. */
  lemma PendingAccepted(s0: Snap, done: StmtCode, good: seq<Sym>, ps: seq<nat>, x: StmtCode, tail: seq<Sym>,
                        ok: bool, rest: StmtCode, all: StmtCode, extra: nat)
    requires Pending(s0, done, good, ps, rest, all, extra) && rest.syms == x.syms + tail && rest.ok == (x.ok && ok)
    requires Accepted(all, |s0.breaks|, |s0.continues|)
    ensures Accepted(Cat(done, x), |s0.breaks|, |s0.continues|)
  {
    hide Whole, Holes, PatchAll, CountBreaks, CountContinues;
    CountsAppend(good, rest.syms);
    CountsAppend(x.syms, tail);
    CountsAppend(done.syms, x.syms);
  }

  lemma CaseRejected(s: Stmt, i: nat, n: nat, cx: Context, s0: Snap, done: StmtCode, good: seq<Sym>, ps: seq<nat>,
                     all: StmtCode, at: Snap, now: Snap)
    requires s.Switch? && i < |s.cases| && s.cases[i].values != [] && cx == ContextOf(cx.top, s0, cx.loop)
    requires Compiled(s0, false, at, false, done) && done.names == s0.names
    requires Pending(s0, done, good, ps, CompCases(s, i, n, cx, done.pool), all, 0)
    requires Compiled(at, false, now, true, CaseRaw(s, i, n, ContextOf(cx.top, at, cx.loop), at.pool))
    ensures !Accepted(all, |s0.breaks|, |s0.continues|)
  {
    hide Compiled, CompCases, CaseBody, Pending, Lift, Jump, CountBreaks, CountContinues;
    EndOf(s0, false, at, false, done);
    var x := CaseBody(s, i, if n < MAX_PATCHES then 4 else 0, cx, done.pool);
    var raw := CaseRaw(s, i, n, cx, done.pool);
    CasesStep(s, i, n, cx, done.pool);
    CatCompiled(s0, false, at, false, now, true, done, raw, raw);
    Unaccepted(s0, now, Cat(done, raw));
    var more := CompCases(s, i + 1, n + 1, cx, x.pool);
    if Accepted(all, |s0.breaks|, |s0.continues|) {
      PendingAccepted(s0, done, good, ps, x, (if n < MAX_PATCHES then Lift(Jump(OP_JUMP, |more.syms|)) else []) + more.syms, more.ok,
                      CompCases(s, i, n, cx, done.pool), all, 0);
      AcceptedRaw(s0, done, x, n, cx);
    }
  }

  lemma AcceptedRaw(s0: Snap, done: StmtCode, x: StmtCode, n: nat, cx: Context)
    requires Accepted(Cat(done, x), |s0.breaks|, |s0.continues|)
    ensures Accepted(Cat(done, Cat(x, Bytes([OP_JUMP] + Unset, x.pool, cx.names))), |s0.breaks|, |s0.continues|)
  {
    CountsAppend(done.syms + x.syms, Lift([OP_JUMP] + Unset));
    NoJumps([OP_JUMP] + Unset);
    Associate(done.syms, x.syms, Lift([OP_JUMP] + Unset));
  }

  /** What comes behind the cases. */
  function LastCode(s: Stmt, cx: Context, pool: seq<Value>): StmtCode
    requires s.Switch?
  {
    var d := DefaultCase(s.cases);
    if d >= 0 then Cat(Bytes(Drop(s), pool, cx.names), CompBlock(s.cases[d].body, cx, pool))
    else Bytes(Drop(s), pool, cx.names)
  }

  lemma LastIs(s: Stmt, n: nat, cx: Context, pool: seq<Value>)
    requires s.Switch?
    ensures Same(CompCases(s, |s.cases|, n, cx, pool), LastCode(s, cx, pool))
  {
    hide CompBlock;
  }

  lemma CasesCompiled(s: Stmt, n: nat, cx: Context, s0: Snap, e0: bool, done: StmtCode, good: seq<Sym>,
                      ps: seq<nat>, all: StmtCode,
                      at: Snap, err: bool, end: Snap, err2: bool, now: Snap)
    requires s.Switch? && cx == ContextOf(cx.top, s0, cx.loop) && Inside(ps, |end.syms|)
    requires err ==> e0 || !Accepted(all, |s0.breaks|, |s0.continues|)
    requires !err ==> !e0 && Compiled(s0, false, at, false, done) && done.names == s0.names
    requires !err ==> Pending(s0, done, good, ps, CompCases(s, |s.cases|, n, cx, done.pool), all, 0)
    requires Compiled(at, err, end, err2, LastCode(s, ContextOf(cx.top, at, cx.loop), at.pool))
    requires now == end.(syms := PatchAll(end.syms, ps, |end.syms|))
    ensures Compiled(s0, e0, now, err2, all)
  {
    hide Compiled, CompCases, Pending, PatchAll, LastCode, CountBreaks, CountContinues;
    ErrStays(at, err, end, err2, LastCode(s, ContextOf(cx.top, at, cx.loop), at.pool));
    if err {
      RejectedCode(s0, e0, now, all);
    } else {
      EndOf(s0, false, at, false, done);
      var last := LastCode(s, cx, done.pool);
      LastIs(s, n, cx, done.pool);
      CatCompiled(s0, false, at, false, end, err2, done, last, last);
      if err2 {
        Unaccepted(s0, end, Cat(done, last));
        if Accepted(all, |s0.breaks|, |s0.continues|) {
          PendingAccepted(s0, done, good, ps, last, [], true, CompCases(s, |s.cases|, n, cx, done.pool), all, 0);
        }
        RejectedCode(s0, e0, now, all);
      } else {
        var none := Bytes([], last.pool, last.names);
        assert last.syms + none.syms == last.syms;
        CatWhole(s0, at, done, end, last);
        PendingPiece(s0, done, good, ps, last, CompCases(s, |s.cases|, n, cx, done.pool), none, all, 0);
        PendingDone(s0, end, Cat(done, last), good + last.syms, ps, none, all, 0, now);
      }
    }
  }

  /** The default case, if there is one, is compiled behind the cases. */
  lemma LastCompiled(s: Stmt, cx: Context, at: Snap, err: bool, popped: Snap, end: Snap, err2: bool)
    requires s.Switch? && cx == ContextOf(cx.top, at, cx.loop) && Room(at)
    requires popped == at.(syms := at.syms + Lift(Drop(s)))
    requires var d := DefaultCase(s.cases);
      if d >= 0 then Compiled(popped, err, end, err2, CompBlock(s.cases[d].body, ContextOf(cx.top, popped, cx.loop), popped.pool))
      else end == popped && err2 == err
    ensures Compiled(at, err, end, err2, LastCode(s, cx, at.pool))
  {
    hide Compiled, CompBlock, Drop;
    var drop := Bytes(Drop(s), at.pool, cx.names);
    StraightCompiled(at, err, popped, err, drop, Drop(s));
    var d := DefaultCase(s.cases);
    if d >= 0 {
      var b := CompBlock(s.cases[d].body, cx, at.pool);
      CatCompiled(at, err, popped, err, end, err2, drop, b, b);
    }
  }

  lemma CatWhole(s0: Snap, at: Snap, done: StmtCode, end: Snap, last: StmtCode)
    requires Compiled(s0, false, at, false, done) && Compiled(at, false, end, false, last)
    ensures Whole(done.syms) && Whole(last.syms)
  {
  }
}
