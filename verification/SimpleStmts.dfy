/** Statements without control flow: running their code changes the machine as the source semantics says. */
module SimpleStmts {
  import opened Values
  import opened Bytecode
  import opened Machine
  import opened Source
  import opened CodeGen
  import opened Stepping
  import opened ExprCorrect
  import opened Placement

  /** A machine about to run a statement's code, and where the code's holes lead. */
  datatype At = At(m: Image, pc: nat, stack: seq<Value>, g: Globals, w: World, breakTo: int, continueTo: int)

  function Start(a: At): Config
  {
    Run(a.pc, a.stack, a.g, a.w)
  }

  function StateAt(cx: Context, a: At): State
    requires |cx.names| == |a.stack|
  {
    State(Visible(cx.names, a.stack), a.g, a.w)
  }

  predicate Ready(r: StmtCode, cx: Context, a: At)
  {
    Framed(cx, a.stack) && Loaded(a.m, a.pc, r, a.breakTo, a.continueTo)
  }

  /** After n rounds the machine is where outcome o of the code r says. */
  predicate Simulates(o: Outcome, r: StmtCode, fuel: nat, cx: Context, a: At, n: nat)
    requires cx.names <= r.names && |a.stack| == |cx.names|
  {
    After(o, RunN(a.m, n, Start(a)), cx, r.names, a.stack, a.pc + |r.syms|, a.breakTo, a.continueTo, n, fuel)
  }

  /** The value of an expression in this frame. */
  function ValueOf(e: Expr, cx: Context, a: At): Eval
    requires |cx.names| == |a.stack|
  {
    ValueIn(e, a.m.slots, StateAt(cx, a))
  }

  function ValuesOf(es: seq<Expr>, cx: Context, a: At): (r: Evals)
    requires |cx.names| == |a.stack|
    ensures r.Vals? ==> |r.vs| == |es|
  {
    ValuesIn(es, a.m.slots, StateAt(cx, a))
  }

  lemma OperandRuns(e: Expr, cx: Context, pool: seq<Value>, a: At) returns (n: nat)
    requires Framed(cx, a.stack) && Holds(a.m, a.pc, CompExpr(e, cx.names, pool))
    ensures var v := ValueOf(e, cx, a);
      v != Stray ==> RunN(a.m, n, Start(a)) == Pushed(v, a.pc + |CompExpr(e, cx.names, pool).bytes|, a.stack, a.g)
  {
    hide RunN, CodeAt, Visible, EvalExpr, CompExpr, FallsThrough;
    assert a.stack[..|cx.names|] == a.stack;
    n := 0;
    if !FallsThrough(e, a.m.slots, Visible(cx.names, a.stack), a.g, a.w) {
      n := ExprRuns(e, cx.names, pool, a.m, a.pc, a.stack, a.g, a.w);
    }
  }

  lemma OperandsRun(es: seq<Expr>, cx: Context, pool: seq<Value>, a: At) returns (n: nat)
    requires Framed(cx, a.stack) && Holds(a.m, a.pc, CompExprs(es, cx.names, pool))
    ensures var v := ValuesOf(es, cx, a);
      v != Strays ==> RunN(a.m, n, Start(a)) == PushedAll(v, a.pc + |CompExprs(es, cx.names, pool).bytes|, a.stack, a.g)
  {
    hide RunN, CodeAt, Visible, EvalExprs, CompExprs, AnyFallsThrough;
    assert a.stack[..|cx.names|] == a.stack;
    n := 0;
    if !AnyFallsThrough(es, a.m.slots, Visible(cx.names, a.stack), a.g, a.w) {
      n := ExprsRun(es, cx.names, pool, a.m, a.pc, a.stack, a.g, a.w);
    }
  }

  lemma OptRuns(e: Option<Expr>, cx: Context, pool: seq<Value>, a: At) returns (n: nat)
    requires Framed(cx, a.stack) && Holds(a.m, a.pc, OptExpr(e, cx.names, pool))
    ensures var v := EvalOpt(e, a.m.slots, StateAt(cx, a));
      v != Stray ==> RunN(a.m, n, Start(a)) == Pushed(v, a.pc + |OptExpr(e, cx.names, pool).bytes|, a.stack, a.g)
  {
    hide RunN, CodeAt, Visible, ValueIn, CompExpr;
    if e.Some? {
      n := OperandRuns(e.value, cx, pool, a);
    } else {
      RunConstOp(a.m, Start(a), OP_CONST_NIL, Nil);
      n := 1;
    }
  }

  /** k more rounds after n. */
  lemma Then(m: Image, n: nat, k: nat, c: Config, d: Config)
    requires RunN(m, n, c) == d
    ensures RunN(m, n + k, c) == RunN(m, k, d)
  {
    hide Step;
    RunNAdd(m, n, k, c);
  }

  /** Straight-line code: an expression first, then the rest. */
  lemma Pieces(r: ExprCode, rest: seq<byte>, code: StmtCode, a: At)
    requires Loaded(a.m, a.pc, code, a.breakTo, a.continueTo)
    requires code.syms == Lift(r.bytes + rest) && r.ok && r.exact && r.pool <= code.pool
    ensures Holds(a.m, a.pc, r) && CodeAt(a.m.code, a.pc + |r.bytes|, rest)
    ensures |code.syms| == |r.bytes| + |rest|
  {
    hide Fits, CodeAt;
    FitsLift(a.m.code, a.pc, r.bytes + rest, a.breakTo, a.continueTo);
    HoldsBoth(a.m, a.pc, r.bytes, rest);
  }

  /** The frame is as before, the code has been passed. */
  lemma EndsNormal(r: StmtCode, fuel: nat, cx: Context, a: At, n: nat, g: Globals, w: World)
    requires r.names == cx.names && Framed(cx, a.stack)
    requires RunN(a.m, n, Start(a)) == Run(a.pc + |r.syms|, a.stack, g, w)
    ensures Simulates(Normal(State(Visible(cx.names, a.stack), g, w)), r, fuel, cx, a, n)
  {
    hide RunN, Visible;
  }

  lemma ExprStmtRuns(e: Expr, fuel: nat, cx: Context, pool: seq<Value>, a: At) returns (n: nat)
    requires Ready(ExprStmtCode(e, cx.names, pool), cx, a)
    ensures Simulates(ExecExprStmt(e, a.m.slots, StateAt(cx, a)), ExprStmtCode(e, cx.names, pool), fuel, cx, a, n)
  {
    hide RunN, CodeAt, Visible, ValueIn, CompExpr, Fits;
    var r, code, v := CompExpr(e, cx.names, pool), ExprStmtCode(e, cx.names, pool), ValueOf(e, cx, a);
    Pieces(r, [OP_POP], code, a);
    n := OperandRuns(e, cx, pool, a);
    if v.Val? {
      Then(a.m, n, 1, Start(a), Run(a.pc + |r.bytes|, a.stack + [v.v], a.g, v.w));
      RunPop(a.m, a.pc + |r.bytes|, a.stack, v.v, a.g, v.w);
      n := n + 1;
      EndsNormal(code, fuel, cx, a, n, a.g, v.w);
    }
  }

  lemma VarDeclRuns(x: Ident, init: Option<Expr>, fuel: nat, cx: Context, pool: seq<Value>, a: At) returns (n: nat)
    requires Ready(VarDeclCode(x, init, cx, pool), cx, a)
    ensures Simulates(ExecVarDecl(x, init, cx.top, a.m.slots, StateAt(cx, a)), VarDeclCode(x, init, cx, pool), fuel, cx, a, n)
  {
    hide VarDeclCode, ExecVarDecl, Simulates, Ready, Visible;
    if cx.top {
      n := GlobalDeclRuns(x, init, fuel, cx, pool, a);
    } else {
      n := LocalDeclRuns(x, init, fuel, cx, pool, a);
    }
  }

  /** A new local's initial value simply stays on the stack, in the slot just declared. */
  lemma LocalDeclRuns(x: Ident, init: Option<Expr>, fuel: nat, cx: Context, pool: seq<Value>, a: At) returns (n: nat)
    requires !cx.top && Ready(VarDeclCode(x, init, cx, pool), cx, a)
    ensures Simulates(ExecVarDecl(x, init, cx.top, a.m.slots, StateAt(cx, a)), VarDeclCode(x, init, cx, pool), fuel, cx, a, n)
  {
    hide RunN, CodeAt, OptExpr, EvalOpt, Fits;
    var r, code, v := OptExpr(init, cx.names, pool), VarDeclCode(x, init, cx, pool), EvalOpt(init, a.m.slots, StateAt(cx, a));
    assert r.bytes + [] == r.bytes;
    Pieces(r, [], code, a);
    n := OptRuns(init, cx, pool, a);
    if v.Val? {
      var names, stack := cx.names + [Local(Named(x), cx.depth)], a.stack + [v.v];
      VisibleSplit(names, stack);
      assert names[..|cx.names|] == cx.names && stack[..|a.stack|] == a.stack;
    }
  }

  lemma GlobalDeclRuns(x: Ident, init: Option<Expr>, fuel: nat, cx: Context, pool: seq<Value>, a: At) returns (n: nat)
    requires cx.top && Ready(VarDeclCode(x, init, cx, pool), cx, a)
    ensures Simulates(ExecVarDecl(x, init, cx.top, a.m.slots, StateAt(cx, a)), VarDeclCode(x, init, cx, pool), fuel, cx, a, n)
  {
    hide RunN, CodeAt, OptExpr, EvalOpt, Fits, Visible;
    var r, code, v := OptExpr(init, cx.names, pool), VarDeclCode(x, init, cx, pool), EvalOpt(init, a.m.slots, StateAt(cx, a));
    var setter, k, pc := OpAX(OP_SET_GLOBAL, |r.pool|), |r.pool|, a.pc + |r.bytes|;
    assert r.bytes + setter + [OP_POP] == r.bytes + (setter + [OP_POP]);
    Pieces(r, setter + [OP_POP], code, a);
    HoldsBoth(a.m, pc, setter, [OP_POP]);
    n := OptRuns(init, cx, pool, a);
    if v.Val? {
      assert a.m.pool[k] == code.pool[k] == Str(x);
      var d := Run(pc + 4, a.stack + [v.v], a.g[x := v.v], v.w);
      Then(a.m, n, 1, Start(a), Run(pc, a.stack + [v.v], a.g, v.w));
      RunSetGlobal(a.m, pc, k, x, a.stack, v.v, a.g, v.w);
      Then(a.m, n + 1, 1, Start(a), d);
      RunPop(a.m, d.pc, a.stack, v.v, d.g, v.w);
      n := n + 2;
      EndsNormal(code, fuel, cx, a, n, d.g, v.w);
    }
  }

  /** Storing the top value in a variable and dropping it. */
  lemma StoreRuns(x: Ident, v: Value, names: seq<Local>, pool: seq<Value>, a: At)
    requires |a.stack| == |names| <= MAX_LOCALS && Loadable(a.m) && SetVar(names, pool, x).pool <= a.m.pool
    requires CodeAt(a.m.code, a.pc, SetVar(names, pool, x).bytes + [OP_POP])
    ensures var c := RunN(a.m, 2, Run(a.pc, a.stack + [v], a.g, a.w));
            c.Run? && c.pc == a.pc + |SetVar(names, pool, x).bytes| + 1
            && Agrees(c, names, Assigned(State(Visible(names, a.stack), a.g, a.w), x, v)) && Kept(names, a.stack, c.stack)
  {
    hide RunN, CodeAt, Visible, Lookup;
    var setter := SetVar(names, pool, x);
    HoldsBoth(a.m, a.pc, setter.bytes, [OP_POP]);
    LookupVisible(names, a.stack, x);
    var i := Resolve(names, x);
    var c := Run(a.pc, a.stack + [v], a.g, a.w);
    if i >= 0 {
      UpdateVisible(names, a.stack, x, v);
      var d := Run(a.pc + 2, a.stack[i := v] + [v], a.g, a.w);
      RunSetLocal(a.m, a.pc, i, a.stack, v, a.g, a.w);
      Then(a.m, 1, 1, c, d);
      RunPop(a.m, d.pc, a.stack[i := v], v, a.g, a.w);
    } else {
      assert a.m.pool[|pool|] == setter.pool[|pool|] == Str(x);
      var d := Run(a.pc + 4, a.stack + [v], a.g[x := v], a.w);
      RunSetGlobal(a.m, a.pc, |pool|, x, a.stack, v, a.g, a.w);
      Then(a.m, 1, 1, c, d);
      RunPop(a.m, d.pc, a.stack, v, d.g, a.w);
    }
  }

  lemma AssignRuns(x: Ident, e: Expr, fuel: nat, cx: Context, pool: seq<Value>, a: At) returns (n: nat)
    requires Ready(AssignCode(x, e, cx.names, pool), cx, a)
    ensures Simulates(ExecAssign(x, e, a.m.slots, StateAt(cx, a)), AssignCode(x, e, cx.names, pool), fuel, cx, a, n)
  {
    hide RunN, CodeAt, Visible, ValueIn, CompExpr, Fits;
    var r := CompExpr(e, cx.names, pool);
    var setter := SetVar(cx.names, r.pool, x);
    assert r.bytes + setter.bytes + [OP_POP] == r.bytes + (setter.bytes + [OP_POP]);
    n := EvalAndStore(x, e, r, cx, pool, r.pool, AssignCode(x, e, cx.names, pool), fuel, a);
  }

  /** Evaluates an expression and stores it in x. */
  lemma EvalAndStore(x: Ident, e: Expr, r: ExprCode, cx: Context, pool: seq<Value>, setPool: seq<Value>,
                     code: StmtCode, fuel: nat, a: At)
    returns (n: nat)
    requires r == CompExpr(e, cx.names, pool) && r.ok && r.exact && r.pool <= code.pool
    requires var setter := SetVar(cx.names, setPool, x);
             setter.pool <= code.pool && code.syms == Lift(r.bytes + (setter.bytes + [OP_POP]))
    requires code.names == cx.names && Ready(code, cx, a)
    ensures Simulates(ExecAssign(x, e, a.m.slots, StateAt(cx, a)), code, fuel, cx, a, n)
  {
    hide RunN, CodeAt, Visible, ValueIn, CompExpr, Fits, Assigned, SetVar;
    var v, setter := ValueOf(e, cx, a), SetVar(cx.names, setPool, x);
    Pieces(r, setter.bytes + [OP_POP], code, a);
    n := OperandRuns(e, cx, pool, a);
    if v.Val? {
      var b := a.(pc := a.pc + |r.bytes|, w := v.w);
      Then(a.m, n, 2, Start(a), Run(b.pc, a.stack + [v.v], a.g, v.w));
      StoreRuns(x, v.v, cx.names, setPool, b);
      n := n + 2;
    }
  }

  /** `x op= e` reads x first; the read and the write share one constant when x is global. */
  lemma CompoundRuns(op: byte, x: Ident, e: Expr, fuel: nat, cx: Context, pool: seq<Value>, a: At) returns (n: nat)
    requires Ready(CompoundCode(op, x, e, cx.names, pool), cx, a)
    ensures Simulates(ExecAssign(x, Binary(op, Var(x), e), a.m.slots, StateAt(cx, a)), CompoundCode(op, x, e, cx.names, pool), fuel, cx, a, n)
  {
    hide RunN, CodeAt, Visible, ValueIn, Fits, ExecAssign, Simulates;
    var getter := GetVar(cx.names, pool, x);
    var setter := SetVar(cx.names, pool, x);
    var r := CompExpr(e, cx.names, getter.pool);
    var value := CompExpr(Binary(op, Var(x), e), cx.names, pool);
    var code := CompoundCode(op, x, e, cx.names, pool);
    BinaryOperand(op, x, e, cx.names, pool);
    assert getter.bytes + r.bytes + [op] + setter.bytes + [OP_POP] == value.bytes + (setter.bytes + [OP_POP]);
    assert setter.pool == getter.pool <= code.pool;
    n := EvalAndStore(x, Binary(op, Var(x), e), value, cx, pool, pool, code, fuel, a);
  }

  lemma BinaryOperand(op: byte, x: Ident, e: Expr, names: seq<Local>, pool: seq<Value>)
    ensures var getter := GetVar(names, pool, x);
            var r := CompExpr(e, names, getter.pool);
            CompExpr(Binary(op, Var(x), e), names, pool) == ExprCode(getter.bytes + r.bytes + [op], r.pool, r.ok && Arity(op) == 2, r.exact)
  {
    hide GetVar;
    var b := Binary(op, Var(x), e);
    var getter := CompExpr(Var(x), names, pool);
    assert getter == GetVar(names, pool, x);
    GetVarOk(names, pool, x);
    var r := CompExpr(e, names, getter.pool);
    assert CompExpr(b, names, pool)
        == ExprCode(getter.bytes + r.bytes + [op], r.pool, getter.ok && r.ok && Arity(op) == 2, getter.exact && r.exact);
  }

  lemma GetVarOk(names: seq<Local>, pool: seq<Value>, x: Ident)
    ensures GetVar(names, pool, x).ok && GetVar(names, pool, x).exact
  {
  }

  lemma SetItemRuns(es: seq<Expr>, fuel: nat, cx: Context, pool: seq<Value>, a: At) returns (n: nat)
    requires |es| == 3 && Ready(SetItemCode(es, cx.names, pool), cx, a)
    ensures Simulates(ExecStore(OP_SET_ITEM, NoName, es, a.m.slots, StateAt(cx, a)), SetItemCode(es, cx.names, pool), fuel, cx, a, n)
  {
    hide RunN, CodeAt, Visible, ValuesIn, CompExprs, Fits, Execute;
    var r, code, v := CompExprs(es, cx.names, pool), SetItemCode(es, cx.names, pool), ValuesOf(es, cx, a);
    assert r.bytes + [OP_SET_ITEM] + [OP_POP] == r.bytes + ([OP_SET_ITEM] + [OP_POP]);
    Pieces(r, [OP_SET_ITEM] + [OP_POP], code, a);
    HoldsBoth(a.m, a.pc + |r.bytes|, [OP_SET_ITEM], [OP_POP]);
    n := OperandsRun(es, cx, pool, a);
    if v.Vals? {
      var next := a.pc + |r.bytes|;
      Then(a.m, n, 1, Start(a), Run(next, a.stack + v.vs, a.g, v.w));
      RunOperator(a.m, next, OP_SET_ITEM, a.stack, v.vs, a.g, v.w);
      n := DropResult(code, fuel, cx, a, n + 1, OP_SET_ITEM, NoName, v.vs, next + 1, v.w);
    }
  }

  lemma SetAttrRuns(es: seq<Expr>, name: Text, fuel: nat, cx: Context, pool: seq<Value>, a: At) returns (n: nat)
    requires |es| == 2 && Ready(SetAttrCode(es, name, cx.names, pool), cx, a)
    ensures Simulates(ExecStore(OP_SET_ATTR, name, es, a.m.slots, StateAt(cx, a)), SetAttrCode(es, name, cx.names, pool), fuel, cx, a, n)
  {
    hide RunN, CodeAt, Visible, ValuesIn, CompExprs, Fits, Execute;
    var r, code, v := CompExprs(es, cx.names, pool), SetAttrCode(es, name, cx.names, pool), ValuesOf(es, cx, a);
    var setter, k := OpAX(OP_SET_ATTR, |r.pool|), |r.pool|;
    assert r.bytes + setter + [OP_POP] == r.bytes + (setter + [OP_POP]);
    Pieces(r, setter + [OP_POP], code, a);
    HoldsBoth(a.m, a.pc + |r.bytes|, setter, [OP_POP]);
    n := OperandsRun(es, cx, pool, a);
    if v.Vals? {
      var next := a.pc + |r.bytes|;
      assert a.m.pool[k] == code.pool[k] == Str(name);
      Then(a.m, n, 1, Start(a), Run(next, a.stack + v.vs, a.g, v.w));
      RunAttr(a.m, next, OP_SET_ATTR, k, name, a.stack, v.vs, a.g, v.w);
      n := DropResult(code, fuel, cx, a, n + 1, OP_SET_ATTR, name, v.vs, next + 4, v.w);
    }
  }

  /** The result of a native store is popped again. */
  lemma DropResult(code: StmtCode, fuel: nat, cx: Context, a: At, k: nat, op: byte, name: Text, vs: seq<Value>,
                   next: nat, w: World)
    returns (n: nat)
    requires RunN(a.m, k, Start(a)) == Applied(a.m, op, name, a.stack, vs, next, a.g, w)
    requires CodeAt(a.m.code, next, [OP_POP]) && a.pc + |code.syms| == next + 1 && code.names == cx.names && Framed(cx, a.stack)
    ensures Simulates(AfterNative(StateAt(cx, a), a.m.slots.native(op, name, vs, w)), code, fuel, cx, a, n)
  {
    hide RunN, CodeAt, Visible;
    n := k;
    match a.m.slots.native(op, name, vs, w) {
      case Throw(_) =>
      case Ok(v, w1) =>
        Then(a.m, k, 1, Start(a), Run(next, a.stack + [v], a.g, w1));
        RunPop(a.m, next, a.stack, v, a.g, w1);
        n := k + 1;
        EndsNormal(code, fuel, cx, a, n, a.g, w1);
    }
  }

  lemma DelItemRuns(es: seq<Expr>, fuel: nat, cx: Context, pool: seq<Value>, a: At) returns (n: nat)
    requires |es| == 2 && Ready(DelItemCode(es, cx.names, pool), cx, a)
    ensures Simulates(ExecStore(OP_DEL_ITEM, NoName, es, a.m.slots, StateAt(cx, a)), DelItemCode(es, cx.names, pool), fuel, cx, a, n)
  {
    hide RunN, CodeAt, Visible, ValuesIn, CompExprs, Fits;
    var r, code, v := CompExprs(es, cx.names, pool), DelItemCode(es, cx.names, pool), ValuesOf(es, cx, a);
    Pieces(r, [OP_DEL_ITEM], code, a);
    n := OperandsRun(es, cx, pool, a);
    if v.Vals? {
      Then(a.m, n, 1, Start(a), Run(a.pc + |r.bytes|, a.stack + v.vs, a.g, v.w));
      RunDelItem(a.m, a.pc + |r.bytes|, a.stack, v.vs, a.g, v.w);
      n := n + 1;
      match a.m.slots.native(OP_DEL_ITEM, NoName, v.vs, v.w) {
        case Throw(_) =>
        case Ok(_, w1) => EndsNormal(code, fuel, cx, a, n, a.g, w1);
      }
    }
  }

  lemma ReturnRuns(e: Option<Expr>, fuel: nat, cx: Context, pool: seq<Value>, a: At) returns (n: nat)
    requires Ready(ReturnCode(e, cx, pool), cx, a)
    ensures Simulates(ExecReturn(e, a.m.slots, StateAt(cx, a)), ReturnCode(e, cx, pool), fuel, cx, a, n)
  {
    hide RunN, CodeAt, Visible, OptExpr, EvalOpt, Fits;
    var r, code, v := OptExpr(e, cx.names, pool), ReturnCode(e, cx, pool), EvalOpt(e, a.m.slots, StateAt(cx, a));
    Pieces(r, [OP_RETURN], code, a);
    n := OptRuns(e, cx, pool, a);
    if v.Val? {
      Then(a.m, n, 1, Start(a), Run(a.pc + |r.bytes|, a.stack + [v.v], a.g, v.w));
      RunReturn(a.m, a.pc + |r.bytes|, a.stack, v.v, a.g, v.w);
      n := n + 1;
    }
  }

  /** `break` pops everything above the loop's own base before it jumps. */
  lemma BreakRuns(fuel: nat, cx: Context, pool: seq<Value>, a: At) returns (n: nat)
    requires Ready(BreakCode(cx, pool), cx, a)
    ensures Simulates(Broke(StateAt(cx, a)), BreakCode(cx, pool), fuel, cx, a, n)
  {
    hide RunN, CodeAt, Fits, Visible, Execute;
    var base := cx.loop.base;
    var live := |cx.names| - base;
    var jump := Lift([OP_JUMP]) + [BreakHole(0), BreakHole(1), BreakHole(2)];
    FitsSplit(a.m.code, a.pc, Lift(Pops(live)), jump, a.breakTo, a.continueTo);
    FitsLift(a.m.code, a.pc, Pops(live), a.breakTo, a.continueTo);
    FitsBreak(a.m.code, a.pc + live, a.breakTo, a.continueTo);
    VisiblePrefix(cx.names, a.stack, base);
    RunPops(a.m, a.pc, live, a.stack, a.g, a.w);
    var c := Run(a.pc + live, a.stack[..base], a.g, a.w);
    Then(a.m, live, 1, Start(a), c);
    FitsBound(a.m.code, a.pc, BreakCode(cx, pool).syms, a.breakTo, a.continueTo);
    RunJump(a.m, c, a.breakTo - (c.pc + 4));
    n := live + 1;
  }

  lemma FitsBound(code: seq<byte>, at: nat, syms: seq<Sym>, breakTo: int, continueTo: int)
    requires Fits(code, at, syms, breakTo, continueTo)
    ensures at + |syms| <= |code|
  {
  }

  /** `continue` jumps at once; exactness says that only the loop's own locals are live here. */
  lemma ContinueRuns(fuel: nat, cx: Context, pool: seq<Value>, a: At) returns (n: nat)
    requires Ready(ContinueCode(cx, pool), cx, a)
    ensures Simulates(Continued(StateAt(cx, a)), ContinueCode(cx, pool), fuel, cx, a, n)
  {
    hide RunN, CodeAt, Fits, Visible, Execute;
    FitsContinue(a.m.code, a.pc, a.breakTo, a.continueTo);
    FitsBound(a.m.code, a.pc, ContinueCode(cx, pool).syms, a.breakTo, a.continueTo);
    RunJump(a.m, Start(a), a.continueTo - (a.pc + 4));
    assert cx.names[..|cx.names|] == cx.names;
    n := 1;
  }
}
