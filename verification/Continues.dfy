/**
  `continue` does not drop the locals of the loop body: when that matters, and a program whose result it changes.
*/
module Continues {
  import opened Values
  import opened Bytecode
  import opened Machine
  import opened Source
  import opened CodeGen
  import opened Stepping
  import opened ExprCorrect
  import opened Placement
  import opened SimpleStmts
  import opened StmtCorrect
  import opened Patching
  import opened ProgramCorrect
  import opened Support

  // ---------------------------------------------------------------------
  // What the way to a `continue` declares
  // ---------------------------------------------------------------------

  /** The declarations among these statements, not counting those in blocks of their own. */
  function Declares(ss: seq<Stmt>): nat
  {
    if ss == [] then 0 else (if IsDeclaration(ss[0]) then 1 else 0) + Declares(ss[1..])
  }

  /** For each block from a loop's body down to the `continue`, the statements in front of the next block or the `continue`. */
  type Path = seq<seq<Stmt>>

  function DeclaredAlong(path: Path): nat
  {
    if path == [] then 0 else Declares(path[0]) + DeclaredAlong(path[1..])
  }

  /** The compile-time context at the end of the path; the constants found at each step make no difference. */
  function ContextAlong(path: Path, pools: seq<seq<Value>>, cx: Context): Context
    requires |pools| == |path|
  {
    if path == [] then cx else
    var inner := cx.(depth := cx.depth + 1);
    ContextAlong(path[1..], pools[1..], inner.(names := CompSeq(path[0], inner, pools[0]).names))
  }

  lemma {:induction false} SeqDeclares(ss: seq<Stmt>, cx: Context, pool: seq<Value>)
    ensures |CompSeq(ss, cx, pool).names| == |cx.names| + if cx.top then 0 else Declares(ss)
    decreases ss
  {
    hide CompStmt;
    if ss != [] {
      var r0 := CompStmt(ss[0], cx, pool);
      NamesAfter(ss[0], cx, pool);
      SeqDeclares(ss[1..], cx.(names := r0.names), r0.pool);
    }
  }

  lemma {:induction false} PathDeclares(path: Path, pools: seq<seq<Value>>, cx: Context)
    requires |pools| == |path|
    ensures var at := ContextAlong(path, pools, cx);
      && at.loop == cx.loop && at.top == cx.top
      && |at.names| == |cx.names| + if cx.top then 0 else DeclaredAlong(path)
    decreases |path|
  {
    hide CompSeq;
    if path != [] {
      var inner := cx.(depth := cx.depth + 1);
      SeqDeclares(path[0], inner, pools[0]);
      PathDeclares(path[1..], pools[1..], inner.(names := CompSeq(path[0], inner, pools[0]).names));
    }
  }

  lemma {:induction false} NoneDeclared(path: Path)
    ensures DeclaredAlong(path) == 0 <==> forall k, i :: 0 <= k < |path| && 0 <= i < |path[k]| ==> !IsDeclaration(path[k][i])
    decreases |path|
  {
    if path != [] {
      NoneDeclares(path[0]);
      NoneDeclared(path[1..]);
      assert forall k :: 1 <= k < |path| ==> path[k] == path[1..][k - 1];
      assert forall k :: 0 <= k < |path[1..]| ==> path[1..][k] == path[k + 1];
    }
  }

  lemma {:induction false} NoneDeclares(ss: seq<Stmt>)
    ensures Declares(ss) == 0 <==> forall i :: 0 <= i < |ss| ==> !IsDeclaration(ss[i])
    decreases ss
  {
    if ss != [] {
      NoneDeclares(ss[1..]);
      assert forall i :: 1 <= i < |ss| ==> ss[i] == ss[1..][i - 1];
      assert forall i :: 0 <= i < |ss[1..]| ==> ss[1..][i] == ss[i + 1];
    }
  }

  /**
    A `continue` jumps to the loop's continue target and leaves on the stack one value for every local
    declared on the way to it from the start of the loop's body. So the code there finds the depth it
    expects if and only if nothing has been declared on the way, or the declarations are of globals.
  */
  lemma ContinueExactly(path: Path, pools: seq<seq<Value>>, body: Context, pool: seq<Value>, a: At)
    requires |pools| == |path| && Clear(body) && Loadable(a.m)
    requires var cx := ContextAlong(path, pools, body);
      Framed(cx, a.stack) && Fits(a.m.code, a.pc, ContinueCode(cx, pool).syms, a.breakTo, a.continueTo)
    requires 0 <= a.continueTo <= |a.m.code|
    ensures RunN(a.m, 1, Start(a)) == Run(a.continueTo, a.stack, a.g, a.w)
    ensures |a.stack| == ContinueBase(body.loop) + if body.top then 0 else DeclaredAlong(path)
    ensures |a.stack| == ContinueBase(body.loop) <==>
      body.top || forall k, i :: 0 <= k < |path| && 0 <= i < |path[k]| ==> !IsDeclaration(path[k][i])
  {
    hide RunN, CodeAt, Fits, Execute, ContextAlong, DeclaredAlong;
    var cx := ContextAlong(path, pools, body);
    PathDeclares(path, pools, body);
    NoneDeclared(path);
    FitsContinue(a.m.code, a.pc, a.breakTo, a.continueTo);
    FitsBound(a.m.code, a.pc, ContinueCode(cx, pool).syms, a.breakTo, a.continueTo);
    RunJump(a.m, Start(a), a.continueTo - (a.pc + 4));
  }

  // ---------------------------------------------------------------------
  // An input
  // ---------------------------------------------------------------------

  const C := Text("c")
  const X := Text("x")
  const Z := Text("z")

  /** `var x; c = nil; continue` */
  function Inner(): seq<Stmt>
  {
    [VarDecl(X, None), Assign(C, NilLit), Continue]
  }

  function InnerLoop(): Stmt
  {
    While(Var(C), Inner())
  }

  /** `while c { var x; c = nil; continue }  var z = true; return z` */
  function Example(): seq<Stmt>
  {
    [InnerLoop(), VarDecl(Z, Some(BoolLit(true))), Return(Some(Var(Z)))]
  }

  const Holes := [B(OP_JUMP), ContinueHole(0), ContinueHole(1), ContinueHole(2)]

  /** The loop's body, as emitted; the last byte pops x, but the jump goes around it. */
  function InnerSyms(): seq<Sym>
  {
    Lift([OP_CONST_NIL] + ([OP_CONST_NIL] + OpAX(OP_SET_GLOBAL, 1) + [OP_POP])) + (Holes + Lift([OP_POP]))
  }

  lemma {:induction false} InnerStmts(pool: seq<Value>)
    requires pool == [Str(C)]
    ensures var cx := Context(false, [], 2, InLoop(0, false));
      var x := [Local(Named(X), 2)];
      var r1 := CompStmt(Inner()[1], cx.(names := x), pool);
      && CompStmt(Inner()[0], cx, pool) == StmtCode(Lift([OP_CONST_NIL]), pool, x, true, true)
      && r1.syms == Lift([OP_CONST_NIL] + OpAX(OP_SET_GLOBAL, 1) + [OP_POP])
      && r1.pool == pool + [Str(C)] && r1.names == x && r1.ok
      && CompStmt(Inner()[2], cx.(names := x), r1.pool) == StmtCode(Holes, r1.pool, x, true, false)
  {
    hide OpAX, CompSeq, CompBlock;
    var x := [Local(Named(X), 2)];
    assert Resolve(x, C) == -1 by { assert x[..0] == []; }
  }

  lemma {:induction false} InnerCode(pool: seq<Value>)
    requires pool == [Str(C)]
    ensures CompBlock(Inner(), Context(false, [], 1, InLoop(0, false)), pool)
      == StmtCode(InnerSyms(), pool + [Str(C)], [], true, false)
  {
    hide OpAX, CompStmt;
    var cx := Context(false, [], 2, InLoop(0, false));
    var x := [Local(Named(X), 2)];
    InnerStmts(pool);
    var r0 := CompStmt(Inner()[0], cx, pool);
    var cx1 := cx.(names := x);
    var r1 := CompStmt(Inner()[1], cx1, pool);
    var r2 := CompStmt(Inner()[2], cx1, r1.pool);
    assert Inner()[1..][0] == Inner()[1] && Inner()[1..][1..][0] == Inner()[2] && Inner()[1..][1..][1..] == [];
    var s2 := CompSeq(Inner()[1..][1..], cx1, r1.pool);
    assert s2.syms == Holes + [] == Holes && s2.names == x && s2.ok && !s2.exact && s2.pool == r1.pool;
    var s1 := CompSeq(Inner()[1..], cx1, pool);
    assert s1.syms == r1.syms + Holes && s1.names == x && s1.ok && !s1.exact && s1.pool == r1.pool;
    var s0 := CompSeq(Inner(), cx, pool);
    assert s0.syms == r0.syms + s1.syms && s0.names == x && s0.ok && !s0.exact && s0.pool == r1.pool;
    assert Lift(Pops(1)) == Lift([OP_POP]);
    var a, b := [OP_CONST_NIL], [OP_CONST_NIL] + OpAX(OP_SET_GLOBAL, 1) + [OP_POP];
    assert Lift(a) + (Lift(b) + Holes) + Lift([OP_POP]) == Lift(a + b) + (Holes + Lift([OP_POP]));
  }

  lemma {:induction false} FewHoles(syms: seq<Sym>)
    ensures CountBreaks(syms) <= |syms| && CountContinues(syms) <= |syms|
    decreases syms
  {
    if syms != [] {
      FewHoles(syms[..|syms| - 1]);
    }
  }

  /** The condition, the body and the jump back, with the holes still open. */
  function LoopSyms(): seq<Sym>
  {
    WhileSyms(OpAX(OP_GET_GLOBAL, 0), InnerSyms())
  }

  lemma LoopCode()
    ensures CompStmt(InnerLoop(), Context(false, [], 1, NoLoop), [])
      == StmtCode(Fill(LoopSyms(), |LoopSyms()|, 0), [Str(C), Str(C)], [], true, false)
  {
    hide OpAX, Fill, WhileSyms, CompBlock, InnerSyms, CountBreaks, CountContinues;
    var cx := Context(false, [], 1, NoLoop);
    assert CompExpr(Var(C), [], []) == ExprCode(OpAX(OP_GET_GLOBAL, 0), [Str(C)], true, true);
    InnerCode([Str(C)]);
    assert cx.(loop := InLoop(0, false)) == Context(false, [], 1, InLoop(0, false));
    InnerLength();
    FewHoles(InnerSyms());
  }

  lemma InnerLength()
    ensures |InnerSyms()| == 12
  {
  }

  /** What follows the loop: `z` is taken to be in slot 0. */
  function RestBytes(): seq<byte>
  {
    [OP_CONST_TRUE] + (OpA(OP_GET_LOCAL, 0) + [OP_RETURN])
  }

  function Rest(): seq<Stmt>
  {
    [VarDecl(Z, Some(BoolLit(true))), Return(Some(Var(Z)))]
  }

  lemma {:induction false} RestCode(pool: seq<Value>)
    ensures CompSeq(Rest(), Context(false, [], 1, NoLoop), pool)
      == StmtCode(Lift(RestBytes()), pool, [Local(Named(Z), 1)], true, true)
  {
    hide OpA;
    var cx := Context(false, [], 1, NoLoop);
    var z := [Local(Named(Z), 1)];
    var r1 := CompStmt(Rest()[0], cx, pool);
    assert r1 == StmtCode(Lift([OP_CONST_TRUE]), pool, z, true, true);
    var cx1 := cx.(names := z);
    assert Resolve(z, Z) == 0;
    var r2 := CompStmt(Rest()[1], cx1, pool);
    assert r2 == StmtCode(Lift(OpA(OP_GET_LOCAL, 0) + [OP_RETURN]), pool, z, true, true);
    assert Rest()[1..][0] == Rest()[1] && Rest()[1..][1..] == [];
    var s2 := CompSeq(Rest()[1..], cx1, pool);
    assert s2.syms == r2.syms + [] == r2.syms && s2.names == z && s2.ok && s2.exact && s2.pool == pool;
    var s1 := CompSeq(Rest(), cx, pool);
    assert s1.syms == r1.syms + r2.syms;
    assert r1.syms + r2.syms == Lift(RestBytes());
  }

  lemma ExampleCode()
    ensures var r := CompBlock(Example(), Context(false, [], 0, NoLoop), []);
      && r.ok && !r.exact && r.pool == [Str(C), Str(C)]
      && r.syms == Fill(LoopSyms(), |LoopSyms()|, 0) + (Lift(RestBytes()) + Lift([OP_POP]))
  {
    hide CompStmt, Fill, LoopSyms, RestBytes, InnerLoop, Rest;
    LoopCode();
    var cx := Context(false, [], 1, NoLoop);
    var pool := [Str(C), Str(C)];
    RestCode(pool);
    Tail();
    var loop := Fill(LoopSyms(), |LoopSyms()|, 0);
    var s0 := CompSeq(Example(), cx, []);
    assert s0.syms == loop + Lift(RestBytes()) && |s0.names| == 1 && s0.ok && !s0.exact && s0.pool == pool;
    assert Lift(Pops(1)) == Lift([OP_POP]);
    assert Context(false, [], 0, NoLoop).(depth := 1) == cx;
    assert loop + Lift(RestBytes()) + Lift([OP_POP]) == loop + (Lift(RestBytes()) + Lift([OP_POP]));
  }

  lemma Tail()
    ensures Example()[0] == InnerLoop() && Example()[1..] == Rest()
  {
  }

  /** Where the pieces of the loop are in the finished function. */
  lemma ExamplePlaced(m: Image)
    requires m.code == BytesOf(CompFunction([], Example()).syms)
    ensures |m.code| == 30
    ensures CodeAt(m.code, 0, OpAX(OP_GET_GLOBAL, 0)) && CodeAt(m.code, 4, Jump(OP_JUMP_IF_FALSE, 16))
    ensures CodeAt(m.code, 8, [OP_CONST_NIL] + ([OP_CONST_NIL] + OpAX(OP_SET_GLOBAL, 1) + [OP_POP]))
    ensures CodeAt(m.code, 15, Jump(OP_JUMP, -19)) && CodeAt(m.code, 24, RestBytes())
  {
    hide Fits, CodeAt, OpAX, OpA, Fill, CompBlock, Jump;
    var cx := Context(false, ParamNames([]), 0, NoLoop);
    assert ParamNames([]) == [];
    var r := CompBlock(Example(), cx, []);
    ExampleCode();
    BlockClosed(Example(), cx, []);
    var whole := CompFunction([], Example());
    InnerLength();
    ClosedFits(whole.syms, 0, 0);
    var loop, tail := Fill(LoopSyms(), |LoopSyms()|, 0), Lift(RestBytes()) + Lift([OP_POP]);
    FitsSplit(m.code, 0, r.syms, Lift([OP_RETURN_NIL]), 0, 0);
    FitsSplit(m.code, 0, loop, tail, 0, 0);
    FitsSplit(m.code, 24, Lift(RestBytes()), Lift([OP_POP]), 0, 0);
    FitsLift(m.code, 24, RestBytes(), 0, 0);
    FitsFill(m.code, 0, LoopSyms(), 24, 0, 0, 0);
    var head := OpAX(OP_GET_GLOBAL, 0) + Jump(OP_JUMP_IF_FALSE, 16);
    LoopPieces(m, 0, head, InnerSyms(), Jump(OP_JUMP, -24), 24, 0);
    FitsLift(m.code, 0, head, 24, 0);
    HoldsBoth(m, 0, OpAX(OP_GET_GLOBAL, 0), Jump(OP_JUMP_IF_FALSE, 16));
    var body := [OP_CONST_NIL] + ([OP_CONST_NIL] + OpAX(OP_SET_GLOBAL, 1) + [OP_POP]);
    FitsSplit(m.code, 8, Lift(body), Holes + Lift([OP_POP]), 24, 0);
    FitsLift(m.code, 8, body, 24, 0);
    FitsSplit(m.code, 15, Holes, Lift([OP_POP]), 24, 0);
    FitsContinue(m.code, 15, 24, 0);
  }

  /** One round of the loop's body on an empty frame: `x` is still there when `continue` has gone back. */
  lemma {:induction false} RoundLeavesLocal(m: Image, w: World)
    requires m.code == BytesOf(CompFunction([], Example()).syms) && m.pool == [Str(C), Str(C)]
    requires m.slots.truthy(Bool(true), w)
    ensures RunN(m, 7, Run(0, [], map[C := Bool(true)], w)) == Run(0, [Nil], map[C := Nil], w)
  {
    hide RunN, CodeAt, OpAX, Jump;
    ExamplePlaced(m);
    var g, h: Globals := map[C := Bool(true)], map[C := Nil];
    var set2 := OpAX(OP_SET_GLOBAL, 1);
    HoldsBoth(m, 8, [OP_CONST_NIL], [OP_CONST_NIL] + set2 + [OP_POP]);
    HoldsBoth(m, 9, [OP_CONST_NIL] + set2, [OP_POP]);
    HoldsBoth(m, 9, [OP_CONST_NIL], set2);
    var c := Run(0, [], g, w);
    RunGetGlobal(m, c, 0, C);
    assert [] + [Bool(true)] == [Bool(true)];
    RunPopJump(m, 4, OP_JUMP_IF_FALSE, 16, [], Bool(true), g, w);
    Then(m, 1, 1, c, Run(4, [Bool(true)], g, w));
    RunConstOp(m, Run(8, [], g, w), OP_CONST_NIL, Nil);
    Then(m, 2, 1, c, Run(8, [], g, w));
    assert [] + [Nil] == [Nil] && [Nil] + [Nil] == [Nil, Nil];
    RunConstOp(m, Run(9, [Nil], g, w), OP_CONST_NIL, Nil);
    Then(m, 3, 1, c, Run(9, [Nil], g, w));
    RunSetGlobal(m, 10, 1, C, [Nil], Nil, g, w);
    assert g[C := Nil] == h;
    Then(m, 4, 1, c, Run(10, [Nil, Nil], g, w));
    RunPop(m, 14, [Nil], Nil, h, w);
    Then(m, 5, 1, c, Run(14, [Nil, Nil], h, w));
    RunJump(m, Run(15, [Nil], h, w), -19);
    Then(m, 6, 1, c, Run(15, [Nil], h, w));
  }

  /** The second time the loop ends; then `z` is pushed above the stray value, and slot 0 is read for it. */
  lemma {:induction false} LeavesLoop(m: Image, w: World)
    requires m.code == BytesOf(CompFunction([], Example()).syms) && m.pool == [Str(C), Str(C)]
    requires !m.slots.truthy(Nil, w)
    ensures RunN(m, 5, Run(0, [Nil], map[C := Nil], w)) == Done(Nil, map[C := Nil], w)
  {
    hide RunN, CodeAt, OpAX, OpA, Jump;
    ExamplePlaced(m);
    var h: Globals := map[C := Nil];
    HoldsBoth(m, 24, [OP_CONST_TRUE], OpA(OP_GET_LOCAL, 0) + [OP_RETURN]);
    HoldsBoth(m, 25, OpA(OP_GET_LOCAL, 0), [OP_RETURN]);
    var c := Run(0, [Nil], h, w);
    RunGetGlobal(m, c, 0, C);
    assert [Nil] + [Nil] == [Nil, Nil];
    RunPopJump(m, 4, OP_JUMP_IF_FALSE, 16, [Nil], Nil, h, w);
    Then(m, 1, 1, c, Run(4, [Nil, Nil], h, w));
    RunConstOp(m, Run(24, [Nil], h, w), OP_CONST_TRUE, Bool(true));
    Then(m, 2, 1, c, Run(24, [Nil], h, w));
    var d := Run(25, [Nil] + [Bool(true)], h, w);
    assert d.stack[0] == Nil;
    RunGetLocal(m, d, 0);
    Then(m, 3, 1, c, d);
    RunReturn(m, 27, d.stack, Nil, h, w);
    Then(m, 4, 1, c, Run(27, d.stack + [Nil], h, w));
  }

  /** What the example means: one round, then true. */
  lemma {:induction false} ExampleMeaning(S: Slots, w: World)
    requires S.truthy(Bool(true), w) && !S.truthy(Nil, w)
    ensures ExecBlock(Example(), 2, false, S, State([], map[C := Bool(true)], w)) == Returned(Bool(true), map[C := Nil], w)
  {
    var g, h: Globals := map[C := Bool(true)], map[C := Nil];
    var st, st1 := State([], g, w), State([], h, w);
    RoundMeaning(S, w);
    assert Round(InnerLoop(), 1, false, S, st1) == Normal(st1);
    assert Exec(InnerLoop(), 1, false, S, st1) == Normal(st1);
    assert st.(w := w) == st;
    assert Exec(InnerLoop(), 2, false, S, st) == Normal(st1);
    Tail();
    RestMeaning(S, h, w);
  }

  lemma {:induction false} RoundMeaning(S: Slots, w: World)
    requires S.truthy(Bool(true), w)
    ensures ExecBlock(Inner(), 2, false, S, State([], map[C := Bool(true)], w)) == Continued(State([], map[C := Nil], w))
  {
    var g, h: Globals := map[C := Bool(true)], map[C := Nil];
    var st := State([], g, w);
    var x := State([Binding(X, Nil)], g, w);
    var y := State([Binding(X, Nil)], h, w);
    assert Exec(Inner()[0], 2, false, S, st) == Normal(x);
    assert Lookup(x.env, C) == -1 by { assert x.env[..0] == []; }
    assert g[C := Nil] == h;
    assert Exec(Inner()[1], 2, false, S, x) == Normal(y);
    assert Inner()[1..][0] == Inner()[1] && Inner()[1..][1..][0] == Inner()[2];
    assert ExecSeq(Inner()[1..][1..], 2, false, S, y) == Continued(y);
    assert ExecSeq(Inner()[1..], 2, false, S, x) == Continued(y);
    assert ExecSeq(Inner(), 2, false, S, st) == Continued(y);
    assert y.env[..0] == [];
  }

  lemma {:induction false} RestMeaning(S: Slots, h: Globals, w: World)
    ensures ExecSeq(Rest(), 2, false, S, State([], h, w)) == Returned(Bool(true), h, w)
  {
    var st := State([], h, w);
    var z := State([Binding(Z, Bool(true))], h, w);
    assert Exec(Rest()[0], 2, false, S, st) == Normal(z);
    assert Lookup(z.env, Z) == 0;
    assert Rest()[1..][0] == Rest()[1];
    assert ExecSeq(Rest()[1..], 2, false, S, z) == Returned(Bool(true), h, w);
  }

  /**
    The function `while c { var x; c = nil; continue }  var z = true; return z`, called with c true,
    means to return true. Its code returns nil, which is the x that `continue` left in z's slot.
  */
  lemma {:induction false} ContinueGoesWrong(S: Slots, w: World)
    requires S.truthy(Bool(true), w) && !S.truthy(Nil, w)
    ensures ExecBlock(Example(), 2, false, S, State([], map[C := Bool(true)], w)) == Returned(Bool(true), map[C := Nil], w)
    ensures CompFunction([], Example()).ok && !CompFunction([], Example()).exact
    ensures RunN(Link(CompFunction([], Example()), S), 12, Run(0, [], map[C := Bool(true)], w)) == Done(Nil, map[C := Nil], w)
  {
    hide RunN, CompBlock, Example, ExecBlock, BytesOf;
    ExampleMeaning(S, w);
    ExampleCode();
    assert ParamNames([]) == [];
    var m := Link(CompFunction([], Example()), S);
    RoundLeavesLocal(m, w);
    LeavesLoop(m, w);
    Then(m, 7, 5, Run(0, [], map[C := Bool(true)], w), Run(0, [Nil], map[C := Nil], w));
  }
}
