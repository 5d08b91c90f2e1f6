/**
  What a program must look like for the compiler to drop nothing: `exact`, said in terms of the source.
*/
module Support {
  import opened Values
  import opened Bytecode
  import opened Machine
  import opened Source
  import opened CodeGen

  const MAX_ARGS := 255

  // ---------------------------------------------------------------------
  // Expressions
  // ---------------------------------------------------------------------

  predicate IsSuper(f: Expr)
  {
    f.Var? && f.x == Text("super")
  }

  /** No function literal, and no call with more arguments than its operand byte can count; a call of `super` is rejected anyway. */
  predicate SupportedExpr(e: Expr)
    decreases e, 1
  {
    match e
    case Lit(_) => true
    case BoolLit(_) => true
    case NilLit => true
    case Var(_) => true
    case Unary(_, a) => SupportedExpr(a)
    case Plus(a) => SupportedExpr(a)
    case Binary(_, l, r) => SupportedExpr(l) && SupportedExpr(r)
    case And(l, r) => SupportedExpr(l) && SupportedExpr(r)
    case Or(l, r) => SupportedExpr(l) && SupportedExpr(r)
    case Attr(o, _) => SupportedExpr(o)
    case Elems(_, es) => AllSupported(es)
    case Call(f, es) => IsSuper(f) || (SupportedExpr(f) && AllSupported(es) && |es| <= MAX_ARGS)
    case Func(_, _, _) => false
  }

  predicate AllSupported(es: seq<Expr>)
    decreases es, 0
  {
    es != [] ==> SupportedExpr(es[0]) && AllSupported(es[1..])
  }

  lemma {:induction false} ExprExactInSource(e: Expr, names: seq<Local>, pool: seq<Value>)
    ensures CompExpr(e, names, pool).exact <==> SupportedExpr(e)
    decreases e, 1
  {
    hide OpA, OpAX, Jump, Arity, Resolve, BuildOp, UnaryOp;
    match e
    case Unary(_, a) => ExprExactInSource(a, names, pool);
    case Plus(a) => ExprExactInSource(a, names, pool);
    case Binary(_, l, r) =>
      ExprExactInSource(l, names, pool);
      ExprExactInSource(r, names, CompExpr(l, names, pool).pool);
    case And(l, r) =>
      ExprExactInSource(l, names, pool);
      ExprExactInSource(r, names, CompExpr(l, names, pool).pool);
    case Or(l, r) =>
      ExprExactInSource(l, names, pool);
      ExprExactInSource(r, names, CompExpr(l, names, pool).pool);
    case Attr(o, _) => ExprExactInSource(o, names, pool);
    case Elems(_, es) => ExprsExactInSource(es, names, pool);
    case Call(f, es) =>
      ExprExactInSource(f, names, pool);
      ExprsExactInSource(es, names, CompExpr(f, names, pool).pool);
    case _ =>
  }

  lemma {:induction false} ExprsExactInSource(es: seq<Expr>, names: seq<Local>, pool: seq<Value>)
    ensures CompExprs(es, names, pool).exact <==> AllSupported(es)
    decreases es, 0
  {
    hide CompExpr, SupportedExpr;
    if es != [] {
      ExprExactInSource(es[0], names, pool);
      ExprsExactInSource(es[1..], names, CompExpr(es[0], names, pool).pool);
    }
  }

  predicate SupportedOpt(e: Option<Expr>)
  {
    e.Some? ==> SupportedExpr(e.value)
  }

  // ---------------------------------------------------------------------
  // Statements
  // ---------------------------------------------------------------------

  /**
    `loop`: inside a loop; `clear`: no local has been declared in the body of the innermost one so far.
    A `continue` needs that. A switch has at most 256 cases with values, and each at most 256 values.
  */
  predicate Supported(s: Stmt, top: bool, loop: bool, clear: bool)
    decreases s, 1
  {
    match s
    case ExprStmt(e) => SupportedExpr(e)
    case VarDecl(_, init) => SupportedOpt(init)
    case Assign(_, e) => SupportedExpr(e)
    case SetItem(obj, key, e) => AllSupported([e, obj, key])
    case SetAttr(obj, _, e) => AllSupported([e, obj])
    case DelItem(obj, key) => AllSupported([obj, key])
    case Compound(_, _, e) => SupportedExpr(e)
    case If(cond, thn, hasElse, els) =>
      SupportedExpr(cond) && SupportedSeq(thn, top, loop, clear) && (hasElse ==> SupportedSeq(els, top, loop, clear))
    case While(cond, body) => SupportedExpr(cond) && SupportedSeq(body, top, true, true)
    case Forever(body) => SupportedSeq(body, top, true, true)
    case ForIn(_, iter, body) => SupportedExpr(iter) && SupportedSeq(body, top, true, true)
    case Switch(subject, _) => SupportedOpt(subject) && SupportedCases(s, 0, 0, top, loop, clear)
    case Block(ss) => SupportedSeq(ss, top, loop, clear)
    case Break => true
    case Continue => loop ==> clear
    case Pass => true
    case Return(e) => SupportedOpt(e)
    case FuncDecl(_, _) => false
    case ClassDecl(_, _, _) => false
  }

  predicate SupportedSeq(ss: seq<Stmt>, top: bool, loop: bool, clear: bool)
    decreases ss, 0
  {
    ss != [] ==>
      Supported(ss[0], top, loop, clear) && SupportedSeq(ss[1..], top, loop, clear && (top || !IsDeclaration(ss[0])))
  }

  /** Of the default cases only the last one counts. */
  predicate SupportedCases(s: Stmt, i: nat, done: nat, top: bool, loop: bool, clear: bool)
    requires s.Switch? && i <= |s.cases|
    decreases s, 0, |s.cases| - i
  {
    if i == |s.cases| then
      (var d := DefaultCase(s.cases);
       d >= 0 ==> SupportedSeq(s.cases[d].body, top, loop, clear))
    else if s.cases[i].values == [] then SupportedCases(s, i + 1, done, top, loop, clear)
    else
      done < MAX_PATCHES && |s.cases[i].values| <= MAX_PATCHES && AllSupported(s.cases[i].values)
      && SupportedSeq(s.cases[i].body, top, loop, clear) && SupportedCases(s, i + 1, done + 1, top, loop, clear)
  }

  /** Only the loop's own locals are live. */
  predicate Clear(cx: Context)
  {
    cx.loop.InLoop? && |cx.names| == ContinueBase(cx.loop)
  }

  predicate Nested(cx: Context)
  {
    cx.loop.InLoop? ==> |cx.names| >= ContinueBase(cx.loop)
  }

  lemma {:induction false} ValuesExactInSource(values: seq<Expr>, j: nat, hasSubject: bool, names: seq<Local>,
                              pool: seq<Value>)
    ensures CompValues(values, j, hasSubject, names, pool).exact <==>
      AllSupported(values) && (values != [] ==> j + |values| <= MAX_PATCHES)
    decreases values
  {
    hide CompExpr, SupportedExpr, Jump;
    if values != [] {
      ExprExactInSource(values[0], names, pool);
      ValuesExactInSource(values[1..], j + 1, hasSubject, names, CompExpr(values[0], names, pool).pool);
    }
  }

  lemma StraightExactInSource(s: Stmt, cx: Context, pool: seq<Value>)
    requires s.ExprStmt? || s.VarDecl? || s.Assign? || s.SetItem? || s.SetAttr? || s.DelItem? || s.Compound? || s.Pass? || s.Return? || s.Break?
    ensures CompStmt(s, cx, pool).exact <==> Supported(s, cx.top, cx.loop.InLoop?, Clear(cx))
  {
    hide CompExpr, CompExprs, SupportedExpr, AllSupported, GetVar, SetVar, Lift, OpAX;
    match s
    case ExprStmt(e) => ExprExactInSource(e, cx.names, pool);
    case VarDecl(_, init) => if init.Some? { ExprExactInSource(init.value, cx.names, pool); }
    case Assign(_, e) => ExprExactInSource(e, cx.names, pool);
    case SetItem(obj, key, e) => ExprsExactInSource([e, obj, key], cx.names, pool);
    case SetAttr(obj, _, e) => ExprsExactInSource([e, obj], cx.names, pool);
    case DelItem(obj, key) => ExprsExactInSource([obj, key], cx.names, pool);
    case Compound(_, x, e) => ExprExactInSource(e, cx.names, GetVar(cx.names, pool, x).pool);
    case Return(e) => if e.Some? { ExprExactInSource(e.value, cx.names, pool); }
    case _ =>
  }

  /** A statement's code is exact if and only if its source is supported. */
  lemma {:induction false} StmtExactInSource(s: Stmt, cx: Context, pool: seq<Value>)
    requires Nested(cx)
    ensures CompStmt(s, cx, pool).exact <==> Supported(s, cx.top, cx.loop.InLoop?, Clear(cx))
    decreases s, 1
  {
    hide CompExpr, SupportedExpr, CompBlock, CompCases, SupportedSeq, SupportedCases, WhileSyms, ForeverSyms,
         ForInSyms, Fill, FewJumps;
    match s
    case If(cond, thn, hasElse, els) =>
      ExprExactInSource(cond, cx.names, pool);
      var c := CompExpr(cond, cx.names, pool);
      BlockExactInSource(thn, cx, c.pool);
      if hasElse {
        BlockExactInSource(els, cx, CompBlock(thn, cx, c.pool).pool);
      }
    case While(cond, body) =>
      ExprExactInSource(cond, cx.names, pool);
      BlockExactInSource(body, cx.(loop := InLoop(|cx.names|, false)), CompExpr(cond, cx.names, pool).pool);
    case Forever(body) => BlockExactInSource(body, cx.(loop := InLoop(|cx.names|, false)), pool);
    case ForIn(x, iter, body) =>
      ExprExactInSource(iter, cx.names, pool);
      BlockExactInSource(body, InsideForIn(x, cx), CompExpr(iter, cx.names, pool).pool);
    case Switch(subject, _) =>
      if subject.Some? {
        ExprExactInSource(subject.value, cx.names, pool);
      }
      CasesExactInSource(s, 0, 0, cx, Subject(subject, cx.names, pool).pool);
    case Block(ss) => BlockExactInSource(ss, cx, pool);
    case Continue =>
    case FuncDecl(_, _) =>
    case ClassDecl(_, _, _) =>
    case _ => StraightExactInSource(s, cx, pool);
  }

  lemma {:induction false} BlockExactInSource(ss: seq<Stmt>, cx: Context, pool: seq<Value>)
    requires Nested(cx)
    ensures CompBlock(ss, cx, pool).exact <==> SupportedSeq(ss, cx.top, cx.loop.InLoop?, Clear(cx))
    decreases ss, 1
  {
    hide CompSeq, SupportedSeq;
    SeqExactInSource(ss, cx.(depth := cx.depth + 1), pool);
  }

  /** Only a declaration outside the top level adds a local to the sequence it stands in. */
  lemma NamesAfter(s: Stmt, cx: Context, pool: seq<Value>)
    ensures |CompStmt(s, cx, pool).names| == |cx.names| + if IsDeclaration(s) && !cx.top then 1 else 0
  {
    hide CompExpr, CompExprs, CompBlock, CompCases, WhileSyms, ForeverSyms, ForInSyms, Fill, FewJumps, GetVar,
         SetVar, Lift;
  }

  lemma {:induction false} SeqExactInSource(ss: seq<Stmt>, cx: Context, pool: seq<Value>)
    requires Nested(cx)
    ensures CompSeq(ss, cx, pool).exact <==> SupportedSeq(ss, cx.top, cx.loop.InLoop?, Clear(cx))
    decreases ss, 0
  {
    hide CompStmt, Supported;
    if ss != [] {
      var r0 := CompStmt(ss[0], cx, pool);
      StmtExactInSource(ss[0], cx, pool);
      NamesAfter(ss[0], cx, pool);
      SeqExactInSource(ss[1..], cx.(names := r0.names), r0.pool);
    }
  }

  lemma {:induction false} CasesExactInSource(s: Stmt, i: nat, done: nat, cx: Context, pool: seq<Value>)
    requires s.Switch? && i <= |s.cases| && Nested(cx)
    ensures CompCases(s, i, done, cx, pool).exact <==> SupportedCases(s, i, done, cx.top, cx.loop.InLoop?, Clear(cx))
    decreases s, 0, |s.cases| - i
  {
    hide CompBlock, CompValues, SupportedSeq, AllSupported, Lift, Jump;
    if i == |s.cases| {
      var d := DefaultCase(s.cases);
      if d >= 0 {
        BlockExactInSource(s.cases[d].body, cx, pool);
      }
    } else if s.cases[i].values == [] {
      CasesExactInSource(s, i + 1, done, cx, pool);
    } else {
      var vs := CompValues(s.cases[i].values, 0, s.subject.Some?, cx.names, pool);
      var b := CompBlock(s.cases[i].body, cx, vs.pool);
      ValuesExactInSource(s.cases[i].values, 0, s.subject.Some?, cx.names, pool);
      BlockExactInSource(s.cases[i].body, cx, vs.pool);
      CasesExactInSource(s, i + 1, done + 1, cx, b.pool);
    }
  }

  // ---------------------------------------------------------------------
  // Whole chunks
  // ---------------------------------------------------------------------

  /** Which programs the compiler translates without dropping anything. */
  lemma {:induction false} ProgramExactInSource(ss: seq<Stmt>)
    ensures CompProgram(ss).exact <==> SupportedSeq(ss, true, false, false)
  {
    hide CompSeq, SupportedSeq;
    SeqExactInSource(ss, Context(true, [], 0, NoLoop), []);
  }

  lemma {:induction false} FunctionExactInSource(params: seq<Ident>, body: seq<Stmt>)
    ensures CompFunction(params, body).exact <==> SupportedSeq(body, false, false, false)
  {
    hide CompBlock, SupportedSeq;
    BlockExactInSource(body, Context(false, ParamNames(params), 0, NoLoop), []);
  }
}
