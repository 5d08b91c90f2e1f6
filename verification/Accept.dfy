/**
  Which programs the compiler accepts, in terms of the source: nothing here looks at emitted code, slots
  or depths.
*/
module Accept {
  import opened Values
  import opened Bytecode
  import opened Machine
  import opened Source
  import opened CodeGen
  import opened Patching
  import opened Assembly

  // ---------------------------------------------------------------------
  // Operators
  // ---------------------------------------------------------------------

  const ArithmeticOps: set<byte> := {OP_ADD, OP_SUB, OP_MUL, OP_DIV, OP_MOD}
  const BitwiseOps: set<byte> := {OP_BAND, OP_BOR, OP_BXOR, OP_SHL, OP_SHR}
  const ComparisonOps: set<byte> := {OP_EQ, OP_NE, OP_LT, OP_LE, OP_GT, OP_GE, OP_IN, OP_NOT_IN, OP_IS, OP_IS_NOT}

  /** Signs, the complement and `not`. */
  const PrefixOps: set<byte> := {OP_NEG, OP_BNOT, OP_NOT}

  /** All that stands between two operands, and indexing. */
  const InfixOps: set<byte> := ArithmeticOps + BitwiseOps + ComparisonOps + {OP_POW, OP_GET_ITEM}

  /** What can be joined with the assignment sign. */
  const AssignOps: set<byte> := ArithmeticOps + BitwiseOps

  const LiteralOps: set<byte> := {OP_BUILD_LIST, OP_BUILD_TUPLE, OP_BUILD_SET}

  lemma OperatorsAre(op: byte)
    ensures UnaryOp(op) <==> op in PrefixOps
    ensures Arity(op) == 2 <==> op in InfixOps
    ensures CompoundOp(op) <==> op in AssignOps
    ensures BuildOp(op) <==> op in LiteralOps
  {
  }

  // ---------------------------------------------------------------------
  // Expressions
  // ---------------------------------------------------------------------

  /** Every operator is one of its place, a literal has at most 255 elements, and `super` is not called. */
  predicate ExprAccepted(e: Expr)
    decreases e, 1
  {
    match e
    case Lit(_) => true
    case BoolLit(_) => true
    case NilLit => true
    case Var(_) => true
    case Unary(op, a) => op in PrefixOps && ExprAccepted(a)
    case Plus(a) => ExprAccepted(a)
    case Binary(op, l, r) => op in InfixOps && ExprAccepted(l) && ExprAccepted(r)
    case And(l, r) => ExprAccepted(l) && ExprAccepted(r)
    case Or(l, r) => ExprAccepted(l) && ExprAccepted(r)
    case Attr(o, _) => ExprAccepted(o)
    case Elems(op, es) => op in LiteralOps && |es| <= 255 && AllAccepted(es)
    case Call(f, es) => f != Var(Text("super")) && ExprAccepted(f) && AllAccepted(es)
    case Func(ds, _, _) => AllAccepted(ds)
  }

  predicate AllAccepted(es: seq<Expr>)
    decreases es, 0
  {
    forall i :: 0 <= i < |es| ==> ExprAccepted(es[i])
  }

  predicate OptAccepted(e: Option<Expr>)
  {
    e.Some? ==> ExprAccepted(e.value)
  }

  lemma {:induction false} ExprAcceptedExactly(e: Expr, names: seq<Local>, pool: seq<Value>)
    ensures CompExpr(e, names, pool).ok <==> ExprAccepted(e)
    decreases e, 1
  {
    hide OpA, OpAX, Jump, Arity, Resolve, BuildOp, UnaryOp, AllAccepted;
    match e
    case Unary(op, a) =>
      OperatorsAre(op);
      ExprAcceptedExactly(a, names, pool);
    case Plus(a) => ExprAcceptedExactly(a, names, pool);
    case Binary(op, l, r) =>
      OperatorsAre(op);
      ExprAcceptedExactly(l, names, pool);
      ExprAcceptedExactly(r, names, CompExpr(l, names, pool).pool);
    case And(l, r) =>
      ExprAcceptedExactly(l, names, pool);
      ExprAcceptedExactly(r, names, CompExpr(l, names, pool).pool);
    case Or(l, r) =>
      ExprAcceptedExactly(l, names, pool);
      ExprAcceptedExactly(r, names, CompExpr(l, names, pool).pool);
    case Attr(o, _) => ExprAcceptedExactly(o, names, pool);
    case Elems(op, es) =>
      OperatorsAre(op);
      ExprsAcceptedExactly(es, names, pool);
    case Call(f, es) =>
      ExprAcceptedExactly(f, names, pool);
      ExprsAcceptedExactly(es, names, CompExpr(f, names, pool).pool);
    case Func(ds, _, _) => ExprsAcceptedExactly(ds, names, pool);
    case _ =>
  }

  lemma {:induction false} ExprsAcceptedExactly(es: seq<Expr>, names: seq<Local>, pool: seq<Value>)
    ensures CompExprs(es, names, pool).ok <==> AllAccepted(es)
    decreases es, 0
  {
    hide CompExpr, ExprAccepted;
    if es != [] {
      ExprAcceptedExactly(es[0], names, pool);
      ExprsAcceptedExactly(es[1..], names, CompExpr(es[0], names, pool).pool);
      FirstAndRest(es);
    }
  }

  lemma {:induction false} FirstAndRest(es: seq<Expr>)
    requires es != []
    ensures AllAccepted(es) <==> ExprAccepted(es[0]) && AllAccepted(es[1..])
  {
    hide ExprAccepted;
    assert forall i :: 1 <= i < |es| ==> es[i] == es[1..][i - 1];
  }

  // ---------------------------------------------------------------------
  // Statements
  // ---------------------------------------------------------------------

  /**
    Where a statement stands: at the top level of the program or inside a function, how many locals are
    live, which names the innermost block has declared as locals so far, and whether a loop is around it.
  */
  datatype Where = Where(top: bool, live: nat, here: set<Ident>, loop: bool)

  /** Is there a place for a new variable? Globals have no limit and may be declared again. */
  predicate Declares(x: Ident, p: Where)
  {
    p.top || (p.live < 256 && x !in p.here)
  }

  function Inside(p: Where): Where
  {
    p.(here := {})
  }

  /** Case i runs at all: of the cases without values only the last one does. */
  predicate Runs(cases: seq<Case>, i: nat)
    requires i < |cases|
  {
    cases[i].values != [] || forall j :: i < j < |cases| ==> cases[j].values != []
  }

  predicate StmtAccepted(s: Stmt, p: Where)
    decreases s, 1
  {
    match s
    case ExprStmt(e) => ExprAccepted(e)
    case VarDecl(x, init) => OptAccepted(init) && Declares(x, p)
    case Assign(_, e) => ExprAccepted(e)
    case SetItem(obj, key, e) => ExprAccepted(e) && ExprAccepted(obj) && ExprAccepted(key)
    case SetAttr(obj, _, e) => ExprAccepted(e) && ExprAccepted(obj)
    case DelItem(obj, key) => ExprAccepted(obj) && ExprAccepted(key)
    case Compound(op, _, e) => op in AssignOps && ExprAccepted(e)
    case If(cond, thn, hasElse, els) =>
      ExprAccepted(cond) && SeqAccepted(thn, Inside(p)) && (hasElse ==> SeqAccepted(els, Inside(p)))
    case While(cond, body) => ExprAccepted(cond) && BodyAccepted(body, p)
    case Forever(body) => BodyAccepted(body, p)
    case ForIn(_, iter, body) => ExprAccepted(iter) && p.live + 2 <= 256 && BodyAccepted(body, p.(live := p.live + 2))
    case Switch(subject, cases) =>
      OptAccepted(subject)
      && forall i :: 0 <= i < |cases| && Runs(cases, i) ==>
           AllAccepted(cases[i].values) && SeqAccepted(cases[i].body, Inside(p))
    case Block(ss) => SeqAccepted(ss, Inside(p))
    case Break => p.loop
    case Continue => p.loop
    case Pass => true
    case Return(e) => OptAccepted(e) && !p.top
    case FuncDecl(x, f) => ExprAccepted(f) && Declares(x, p)
    case ClassDecl(x, base, ms) => OptAccepted(base) && |ms| <= 255 && Declares(x, p)
  }

  function Declared(s: Stmt): Ident
    requires IsDeclaration(s)
  {
    match s
    case VarDecl(x, _) => x
    case FuncDecl(x, _) => x
    case ClassDecl(x, _, _) => x
  }

  function Behind(s: Stmt, p: Where): Where
  {
    if IsDeclaration(s) && !p.top then p.(live := p.live + 1, here := p.here + {Declared(s)}) else p
  }

  predicate SeqAccepted(ss: seq<Stmt>, p: Where)
    decreases ss, 0
  {
    ss != [] ==> StmtAccepted(ss[0], p) && SeqAccepted(ss[1..], Behind(ss[0], p))
  }

  /** A loop has room for 256 jumps of each kind. */
  predicate BodyAccepted(body: seq<Stmt>, p: Where)
    decreases body, 1
  {
    SeqAccepted(body, Inside(p).(loop := true)) && JumpsIn(body, Break) <= 256 && JumpsIn(body, Continue) <= 256
  }

  // ---------------------------------------------------------------------
  // Breaks and continues of a loop
  // ---------------------------------------------------------------------

  /** How many of the jumps in s, which is `break` or `continue`, belong to the loop around s. */
  function Jumps(s: Stmt, jump: Stmt): nat
    decreases s, 1
  {
    match s
    case If(_, thn, hasElse, els) => JumpsIn(thn, jump) + if hasElse then JumpsIn(els, jump) else 0
    case Switch(_, _) => JumpsInCases(s, 0, jump)
    case Block(ss) => JumpsIn(ss, jump)
    case Break => if jump.Break? then 1 else 0
    case Continue => if jump.Continue? then 1 else 0
    case _ => 0
  }

  function JumpsIn(ss: seq<Stmt>, jump: Stmt): nat
    decreases ss, 0
  {
    if ss == [] then 0 else Jumps(ss[0], jump) + JumpsIn(ss[1..], jump)
  }

  function JumpsInCases(s: Stmt, i: nat, jump: Stmt): nat
    requires s.Switch? && i <= |s.cases|
    decreases s, 0, |s.cases| - i
  {
    if i == |s.cases| then 0
    else (if Runs(s.cases, i) then JumpsIn(s.cases[i].body, jump) else 0) + JumpsInCases(s, i + 1, jump)
  }

  predicate Counted(r: StmtCode, breaks: nat, continues: nat)
  {
    CountBreaks(r.syms) == breaks && CountContinues(r.syms) == continues
  }

  lemma {:induction false} RunsIs(cases: seq<Case>, i: nat)
    requires i < |cases| && cases[i].values == []
    ensures Runs(cases, i) <==> i == DefaultCase(cases)
  {
    assert DefaultCase(cases) > i ==> cases[DefaultCase(cases)].values == [];
  }

  lemma {:induction false} StraightCounted(bytes: seq<byte>, tail: seq<Sym>)
    ensures CountBreaks(Lift(bytes) + tail) == CountBreaks(tail) && CountContinues(Lift(bytes) + tail) == CountContinues(tail)
    ensures CountBreaks(Lift(bytes)) == 0 && CountContinues(Lift(bytes)) == 0
  {
    NoJumps(bytes);
    CountsAppend(Lift(bytes), tail);
  }

  lemma BreakCounted(cx: Context, pool: seq<Value>)
    requires cx.loop.InLoop?
    ensures Counted(BreakCode(cx, pool), 1, 0) && Counted(ContinueCode(cx, pool), 0, 1)
  {
    var live := if |cx.names| > cx.loop.base then |cx.names| - cx.loop.base else 0;
    var holes := [BreakHole(0), BreakHole(1), BreakHole(2)];
    StraightCounted(Pops(live), Lift([OP_JUMP]) + holes);
    StraightCounted([OP_JUMP], holes);
    assert holes == [BreakHole(0)] + [BreakHole(1)] + [BreakHole(2)];
    OneSym(BreakHole(0));
    OneSym(BreakHole(1));
    OneSym(BreakHole(2));
    CountsAppend([BreakHole(0)] + [BreakHole(1)], [BreakHole(2)]);
    CountsAppend([BreakHole(0)], [BreakHole(1)]);
    var jump := [B(OP_JUMP), ContinueHole(0), ContinueHole(1), ContinueHole(2)];
    assert jump == [B(OP_JUMP)] + [ContinueHole(0)] + [ContinueHole(1)] + [ContinueHole(2)];
    OneSym(B(OP_JUMP));
    OneSym(ContinueHole(0));
    OneSym(ContinueHole(1));
    OneSym(ContinueHole(2));
    CountsAppend([B(OP_JUMP)] + [ContinueHole(0)] + [ContinueHole(1)], [ContinueHole(2)]);
    CountsAppend([B(OP_JUMP)] + [ContinueHole(0)], [ContinueHole(1)]);
    CountsAppend([B(OP_JUMP)], [ContinueHole(0)]);
  }

  lemma OneSym(x: Sym)
    ensures CountBreaks([x]) == if x == BreakHole(0) then 1 else 0
    ensures CountContinues([x]) == if x == ContinueHole(0) then 1 else 0
  {
    assert [x][..0] == [];
  }

  /** A statement's code has the holes its `break` and `continue` statements leave, and no others. */
  lemma {:induction false} StmtCounted(s: Stmt, cx: Context, pool: seq<Value>)
    requires cx.loop.InLoop?
    ensures Counted(CompStmt(s, cx, pool), Jumps(s, Break), Jumps(s, Continue))
    decreases s, 1
  {
    hide CompExpr, CompExprs, CompBlock, CompCases, WhileSyms, ForeverSyms, ForInSyms, Fill, CountBreaks,
         CountContinues, Lift, JumpsIn, JumpsInCases, BreakCode, ContinueCode, Jump, OpA, OpAX, GetVar, SetVar, DeclTail;
    match s
    case If(cond, thn, hasElse, els) =>
      var c := CompExpr(cond, cx.names, pool);
      var t := CompBlock(thn, cx, c.pool);
      BlockCounted(thn, cx, c.pool);
      if hasElse {
        var f := CompBlock(els, cx, t.pool);
        BlockCounted(els, cx, t.pool);
        var tail := Lift(Jump(OP_JUMP, |f.syms|)) + f.syms;
        StraightCounted(c.bytes + Jump(OP_JUMP_IF_FALSE, |t.syms| + 4), t.syms + tail);
        CountsAppend(t.syms, tail);
        StraightCounted(Jump(OP_JUMP, |f.syms|), f.syms);
      } else {
        StraightCounted(c.bytes + Jump(OP_JUMP_IF_FALSE, |t.syms|), t.syms);
      }
    case While(cond, body) =>
      var c := CompExpr(cond, cx.names, pool);
      var raw := WhileSyms(c.bytes, CompBlock(body, cx.(loop := InLoop(|cx.names|, false)), c.pool).syms);
      FilledCounts(raw, |raw|, 0);
    case Forever(body) =>
      var raw := ForeverSyms(CompBlock(body, cx.(loop := InLoop(|cx.names|, false)), pool).syms);
      FilledCounts(raw, |raw|, 0);
    case ForIn(x, iter, body) =>
      var it := CompExpr(iter, cx.names, pool);
      var b := CompBlock(body, InsideForIn(x, cx), it.pool);
      var raw := ForInSyms(it.bytes, b.syms);
      FilledCounts(raw, |raw|, |it.bytes| + 5 + |b.syms|);
    case Switch(subject, _) =>
      var sub := Subject(subject, cx.names, pool);
      CasesCounted(s, 0, 0, cx, sub.pool);
      StraightCounted(sub.bytes, CompCases(s, 0, 0, cx, sub.pool).syms);
    case Block(ss) => BlockCounted(ss, cx, pool);
    case Break => BreakCounted(cx, pool);
    case Continue => BreakCounted(cx, pool);
    case _ => PlainCounted(s, cx, pool);
  }

  /** The statements whose code has no holes. */
  lemma PlainCounted(s: Stmt, cx: Context, pool: seq<Value>)
    requires !s.If? && !s.While? && !s.Forever? && !s.ForIn? && !s.Switch? && !s.Block? && !s.Break? && !s.Continue?
    ensures Counted(CompStmt(s, cx, pool), 0, 0)
  {
    hide CompExpr, CompExprs, CompBlock, CompCases, CountBreaks, CountContinues, Lift, Jump, OpA, OpAX, GetVar,
         SetVar, DeclTail, ClassCode, CanDeclare, OptExpr;
    var r := CompStmt(s, cx, pool);
    forall bytes: seq<byte> ensures CountBreaks(Lift(bytes)) == 0 && CountContinues(Lift(bytes)) == 0 {
      NoJumps(bytes);
    }
  }

  lemma {:induction false} BlockCounted(ss: seq<Stmt>, cx: Context, pool: seq<Value>)
    requires cx.loop.InLoop?
    ensures Counted(CompBlock(ss, cx, pool), JumpsIn(ss, Break), JumpsIn(ss, Continue))
    decreases ss, 1
  {
    hide CompSeq, CountBreaks, CountContinues, JumpsIn, Lift, Pops;
    var inner := cx.(depth := cx.depth + 1);
    var b := CompSeq(ss, inner, pool);
    SeqCounted(ss, inner, pool);
    CountsAppend(b.syms, Lift(Pops(|b.names| - |cx.names|)));
    NoJumps(Pops(|b.names| - |cx.names|));
  }

  lemma {:induction false} SeqCounted(ss: seq<Stmt>, cx: Context, pool: seq<Value>)
    requires cx.loop.InLoop?
    ensures Counted(CompSeq(ss, cx, pool), JumpsIn(ss, Break), JumpsIn(ss, Continue))
    decreases ss, 0
  {
    hide CompStmt, Jumps;
    if ss != [] {
      var r0 := CompStmt(ss[0], cx, pool);
      StmtCounted(ss[0], cx, pool);
      SeqCounted(ss[1..], cx.(names := r0.names), r0.pool);
      CountsAppend(r0.syms, CompSeq(ss[1..], cx.(names := r0.names), r0.pool).syms);
    }
  }

  /** The default case comes last, wherever it is written. */
  function DefaultBefore(s: Stmt, i: nat, jump: Stmt): nat
    requires s.Switch? && i <= |s.cases|
  {
    var d := DefaultCase(s.cases);
    if 0 <= d < i then JumpsIn(s.cases[d].body, jump) else 0
  }

  lemma {:induction false} CasesCounted(s: Stmt, i: nat, done: nat, cx: Context, pool: seq<Value>)
    requires s.Switch? && i <= |s.cases| && cx.loop.InLoop?
    ensures Counted(CompCases(s, i, done, cx, pool), JumpsInCases(s, i, Break) + DefaultBefore(s, i, Break),
                    JumpsInCases(s, i, Continue) + DefaultBefore(s, i, Continue))
    decreases s, 0, |s.cases| - i
  {
    hide CompBlock, CompValues, CountBreaks, CountContinues, JumpsIn, Lift, Jump, DefaultCase, Runs, CaseCode;
    var drop := if s.subject.Some? then [OP_POP] else [];
    if i == |s.cases| {
      var d := DefaultCase(s.cases);
      if d >= 0 {
        BlockCounted(s.cases[d].body, cx, pool);
        StraightCounted(drop, CompBlock(s.cases[d].body, cx, pool).syms);
      } else {
        NoJumps(drop);
      }
    } else if s.cases[i].values == [] {
      RunsIs(s.cases, i);
      CasesCounted(s, i + 1, done, cx, pool);
    } else {
      var vs := CompValues(s.cases[i].values, 0, s.subject.Some?, cx.names, pool);
      var b := CompBlock(s.cases[i].body, cx, vs.pool);
      BlockCounted(s.cases[i].body, cx, vs.pool);
      CasesCounted(s, i + 1, done + 1, cx, b.pool);
      CaseCounted(drop, vs, b, CompCases(s, i + 1, done + 1, cx, b.pool), done < MAX_PATCHES, cx.names);
      CaseJumps(s, i, Break);
      CaseJumps(s, i, Continue);
    }
  }

  lemma {:induction false} CaseRuns(cases: seq<Case>, i: nat)
    requires i < |cases| && cases[i].values != []
    ensures Runs(cases, i) && DefaultCase(cases) != i
  {
  }

  lemma CaseJumps(s: Stmt, i: nat, jump: Stmt)
    requires s.Switch? && i < |s.cases| && s.cases[i].values != []
    ensures JumpsInCases(s, i, jump) + DefaultBefore(s, i, jump)
      == JumpsIn(s.cases[i].body, jump) + (JumpsInCases(s, i + 1, jump) + DefaultBefore(s, i + 1, jump))
  {
    hide JumpsIn, DefaultCase, Runs;
    CaseRuns(s.cases, i);
  }

  lemma CaseCounted(drop: seq<byte>, vs: ExprCode, b: StmtCode, rest: StmtCode, jumps: bool, names: seq<Local>)
    ensures Counted(CaseCode(drop, vs, b, rest, jumps, names), CountBreaks(b.syms) + CountBreaks(rest.syms),
                    CountContinues(b.syms) + CountContinues(rest.syms))
  {
    hide CountBreaks, CountContinues, Lift, Jump;
    var toEnd := if jumps then Jump(OP_JUMP, |rest.syms|) else [];
    StraightCounted(vs.bytes + Jump(OP_JUMP, |drop| + |b.syms| + |toEnd|), Lift(drop) + (b.syms + (Lift(toEnd) + rest.syms)));
    StraightCounted(drop, b.syms + (Lift(toEnd) + rest.syms));
    CountsAppend(b.syms, Lift(toEnd) + rest.syms);
    StraightCounted(toEnd, rest.syms);
  }

  // ---------------------------------------------------------------------
  // Acceptance
  // ---------------------------------------------------------------------

  /** What the compiler knows of where it is, and what the source says of it. */
  ghost predicate Stands(cx: Context, p: Where)
  {
    cx.top == p.top && |cx.names| == p.live && cx.loop.InLoop? == p.loop
    && (forall i :: 0 <= i < |cx.names| ==> cx.names[i].depth <= cx.depth)
    && (forall x: Ident :: Duplicate(cx.names, cx.depth, x) <==> x in p.here)
  }

  lemma StandsInside(cx: Context, p: Where)
    requires Stands(cx, p)
    ensures Stands(cx.(depth := cx.depth + 1), Inside(p))
  {
  }

  lemma StandsInLoop(cx: Context, p: Where, loop: Loop)
    requires Stands(cx, p) && loop.InLoop?
    ensures Stands(cx.(loop := loop), p.(loop := true))
  {
    hide Duplicate;
  }

  /** The hidden iterator and the loop variable are in a scope of their own. */
  lemma StandsInForIn(x: Ident, cx: Context, p: Where)
    requires Stands(cx, p)
    ensures |InsideForIn(x, cx).names| == p.live + 2
    ensures Stands(InsideForIn(x, cx), Where(p.top, p.live + 2, {x}, true))
    ensures !Duplicate(cx.names + [Local(Hidden, cx.depth + 1)], cx.depth + 1, x)
  {
    var hidden := cx.names + [Local(Hidden, cx.depth + 1)];
    var both := InsideForIn(x, cx).names;
    assert both == hidden + [Local(Named(x), cx.depth + 1)];
    assert hidden[..|cx.names|] == cx.names && both[..|hidden|] == hidden;
    var d := cx.depth + 1;
    forall y: Ident ensures !Duplicate(hidden, d, y) {
      assert !Duplicate(cx.names, d, y);
    }
    forall y: Ident ensures Duplicate(both, d, y) <==> y == x {
      assert !Duplicate(hidden, d, y);
    }
  }

  /** A declaration adds its name to the block it stands in; nothing else adds a local. */
  lemma StandsBehind(s: Stmt, cx: Context, p: Where, pool: seq<Value>)
    requires Stands(cx, p)
    ensures Stands(cx.(names := CompStmt(s, cx, pool).names), Behind(s, p))
  {
    NamesBehind(s, cx, pool);
    if IsDeclaration(s) && !cx.top {
      var more := cx.names + [Local(Named(Declared(s)), cx.depth)];
      assert more[..|cx.names|] == cx.names;
      forall y: Ident ensures Duplicate(more, cx.depth, y) <==> y in Behind(s, p).here {
      }
    }
  }

  lemma NamesBehind(s: Stmt, cx: Context, pool: seq<Value>)
    ensures CompStmt(s, cx, pool).names
      == cx.names + if IsDeclaration(s) && !cx.top then [Local(Named(Declared(s)), cx.depth)] else []
  {
    hide CompExpr, CompExprs, CompBlock, CompCases, WhileSyms, ForeverSyms, ForInSyms, Fill, FewJumps, GetVar,
         SetVar, Lift;
  }

  lemma DeclaresExactly(x: Ident, cx: Context, p: Where)
    requires Stands(cx, p)
    ensures (cx.top || CanDeclare(cx.names, cx.depth, x)) <==> Declares(x, p)
  {
    hide Duplicate;
  }

  lemma OptAcceptedExactly(e: Option<Expr>, names: seq<Local>, pool: seq<Value>)
    ensures OptExpr(e, names, pool).ok <==> OptAccepted(e)
    ensures Subject(e, names, pool).ok <==> OptAccepted(e)
  {
    hide CompExpr, ExprAccepted;
    if e.Some? {
      ExprAcceptedExactly(e.value, names, pool);
    }
  }

  lemma {:induction false} ValuesAcceptedExactly(values: seq<Expr>, j: nat, hasSubject: bool, names: seq<Local>,
                                                 pool: seq<Value>)
    ensures CompValues(values, j, hasSubject, names, pool).ok <==> AllAccepted(values)
    decreases values
  {
    hide CompExpr, ExprAccepted, AllAccepted, Jump;
    if values != [] {
      ExprAcceptedExactly(values[0], names, pool);
      ValuesAcceptedExactly(values[1..], j + 1, hasSubject, names, CompExpr(values[0], names, pool).pool);
      FirstAndRest(values);
    } else {
      NoneAccepted();
    }
  }

  lemma NoneAccepted()
    ensures AllAccepted([])
  {
  }

  lemma {:induction false} StmtAcceptedExactly(s: Stmt, cx: Context, p: Where, pool: seq<Value>)
    requires Stands(cx, p)
    ensures CompStmt(s, cx, pool).ok <==> StmtAccepted(s, p)
    decreases s, 1
  {
    hide CompExpr, ExprAccepted, CompBlock, CompCases, SeqAccepted, BodyAccepted, WhileSyms, ForeverSyms, ForInSyms,
         Fill, FewJumps, Stands, InsideForIn;
    match s
    case If(cond, thn, hasElse, els) =>
      ExprAcceptedExactly(cond, cx.names, pool);
      var c := CompExpr(cond, cx.names, pool);
      BlockAcceptedExactly(thn, cx, p, c.pool);
      if hasElse {
        BlockAcceptedExactly(els, cx, p, CompBlock(thn, cx, c.pool).pool);
      }
    case While(cond, body) =>
      ExprAcceptedExactly(cond, cx.names, pool);
      BodyAcceptedExactly(body, cx, p, InLoop(|cx.names|, false), CompExpr(cond, cx.names, pool).pool);
    case Forever(body) => BodyAcceptedExactly(body, cx, p, InLoop(|cx.names|, false), pool);
    case ForIn(x, iter, body) =>
      ExprAcceptedExactly(iter, cx.names, pool);
      ForInAcceptedExactly(x, body, cx, p, CompExpr(iter, cx.names, pool).pool);
    case Switch(subject, _) =>
      OptAcceptedExactly(subject, cx.names, pool);
      CasesAcceptedExactly(s, 0, 0, cx, p, Subject(subject, cx.names, pool).pool);
    case Block(ss) => BlockAcceptedExactly(ss, cx, p, pool);
    case _ => PlainAcceptedExactly(s, cx, p, pool);
  }

  lemma PlainAcceptedExactly(s: Stmt, cx: Context, p: Where, pool: seq<Value>)
    requires Stands(cx, p)
    requires !s.If? && !s.While? && !s.Forever? && !s.ForIn? && !s.Switch? && !s.Block?
    ensures CompStmt(s, cx, pool).ok <==> StmtAccepted(s, p)
  {
    hide CompExpr, CompExprs, ExprAccepted, AllAccepted, OptAccepted, GetVar, SetVar, Lift, OpAX, CanDeclare, OptExpr,
         CompoundOp;
    match s
    case ExprStmt(e) => ExprAcceptedExactly(e, cx.names, pool);
    case VarDecl(x, init) =>
      OptAcceptedExactly(init, cx.names, pool);
      DeclaresExactly(x, cx, p);
    case Assign(_, e) => ExprAcceptedExactly(e, cx.names, pool);
    case SetItem(obj, key, e) =>
      ExprsAcceptedExactly([e, obj, key], cx.names, pool);
      EachAccepted([e, obj, key]);
    case SetAttr(obj, _, e) =>
      ExprsAcceptedExactly([e, obj], cx.names, pool);
      EachAccepted([e, obj]);
    case DelItem(obj, key) =>
      ExprsAcceptedExactly([obj, key], cx.names, pool);
      EachAccepted([obj, key]);
    case Compound(op, x, e) =>
      OperatorsAre(op);
      ExprAcceptedExactly(e, cx.names, GetVar(cx.names, pool, x).pool);
    case Return(e) => OptAcceptedExactly(e, cx.names, pool);
    case FuncDecl(x, f) =>
      ExprAcceptedExactly(f, cx.names, pool);
      DeclaresExactly(x, cx, p);
    case ClassDecl(x, base, _) =>
      OptAcceptedExactly(base, cx.names, pool);
      DeclaresExactly(x, cx, p);
    case _ =>
  }

  lemma {:induction false} EachAccepted(es: seq<Expr>)
    requires 2 <= |es| <= 3
    ensures AllAccepted(es) <==> ExprAccepted(es[0]) && ExprAccepted(es[1]) && (|es| == 3 ==> ExprAccepted(es[2]))
  {
    hide ExprAccepted;
  }

  lemma {:induction false} BodyAcceptedExactly(body: seq<Stmt>, cx: Context, p: Where, loop: Loop, pool: seq<Value>)
    requires Stands(cx, p) && loop.InLoop?
    ensures var b := CompBlock(body, cx.(loop := loop), pool);
      (b.ok && FewJumps(b.syms)) <==> BodyAccepted(body, p)
    decreases body, 2
  {
    hide CompBlock, SeqAccepted, CountBreaks, CountContinues, Stands, JumpsIn;
    StandsInLoop(cx, p, loop);
    BlockAcceptedExactly(body, cx.(loop := loop), p.(loop := true), pool);
    BlockCounted(body, cx.(loop := loop), pool);
  }

  lemma {:induction false} ForInAcceptedExactly(x: Ident, body: seq<Stmt>, cx: Context, p: Where, pool: seq<Value>)
    requires Stands(cx, p)
    ensures var b := CompBlock(body, InsideForIn(x, cx), pool);
      var hidden := cx.names + [Local(Hidden, cx.depth + 1)];
      (|hidden| <= MAX_LOCALS && CanDeclare(hidden, cx.depth + 1, x) && b.ok && FewJumps(b.syms)) <==>
      (p.live + 2 <= 256 && BodyAccepted(body, p.(live := p.live + 2)))
    decreases body, 3
  {
    hide CompBlock, SeqAccepted, CountBreaks, CountContinues, JumpsIn, Duplicate;
    StandsInForIn(x, cx, p);
    var inner := InsideForIn(x, cx);
    var q := Where(p.top, p.live + 2, {x}, true);
    assert Inside(q) == Inside(p.(live := p.live + 2)).(loop := true);
    BodyAcceptedExactly(body, inner, q, inner.loop, pool);
    assert inner.(loop := inner.loop) == inner;
  }

  lemma {:induction false} BlockAcceptedExactly(ss: seq<Stmt>, cx: Context, p: Where, pool: seq<Value>)
    requires Stands(cx, p)
    ensures CompBlock(ss, cx, pool).ok <==> SeqAccepted(ss, Inside(p))
    decreases ss, 1
  {
    hide CompSeq, SeqAccepted, Stands;
    StandsInside(cx, p);
    SeqAcceptedExactly(ss, cx.(depth := cx.depth + 1), Inside(p), pool);
  }

  lemma {:induction false} SeqAcceptedExactly(ss: seq<Stmt>, cx: Context, p: Where, pool: seq<Value>)
    requires Stands(cx, p)
    ensures CompSeq(ss, cx, pool).ok <==> SeqAccepted(ss, p)
    decreases ss, 0
  {
    hide CompStmt, StmtAccepted, Stands, Behind;
    if ss != [] {
      var r0 := CompStmt(ss[0], cx, pool);
      StmtAcceptedExactly(ss[0], cx, p, pool);
      StandsBehind(ss[0], cx, p, pool);
      SeqAcceptedExactly(ss[1..], cx.(names := r0.names), Behind(ss[0], p), r0.pool);
    }
  }

  /** Case i is as it should be. */
  predicate CaseAccepted(c: Case, p: Where)
  {
    AllAccepted(c.values) && SeqAccepted(c.body, Inside(p))
  }

  lemma {:induction false} CasesAcceptedExactly(s: Stmt, i: nat, done: nat, cx: Context, p: Where, pool: seq<Value>)
    requires s.Switch? && i <= |s.cases| && Stands(cx, p)
    ensures CompCases(s, i, done, cx, pool).ok <==>
      forall j :: 0 <= j < |s.cases| && Runs(s.cases, j) && (j >= i || j == DefaultCase(s.cases)) ==> CaseAccepted(s.cases[j], p)
    decreases s, 0, |s.cases| - i
  {
    hide CompBlock, CompValues, SeqAccepted, AllAccepted, ExprAccepted, Lift, Jump, Stands, DefaultCase, Runs;
    if i == |s.cases| {
      var d := DefaultCase(s.cases);
      if d >= 0 {
        BlockAcceptedExactly(s.cases[d].body, cx, p, pool);
        RunsIs(s.cases, d);
        NoneAccepted();
      }
    } else if s.cases[i].values == [] {
      RunsIs(s.cases, i);
      CasesAcceptedExactly(s, i + 1, done, cx, p, pool);
    } else {
      CaseRuns(s.cases, i);
      var vs := CompValues(s.cases[i].values, 0, s.subject.Some?, cx.names, pool);
      var b := CompBlock(s.cases[i].body, cx, vs.pool);
      ValuesAcceptedExactly(s.cases[i].values, 0, s.subject.Some?, cx.names, pool);
      BlockAcceptedExactly(s.cases[i].body, cx, p, vs.pool);
      CasesAcceptedExactly(s, i + 1, done + 1, cx, p, b.pool);
    }
  }

  // ---------------------------------------------------------------------
  // Whole chunks
  // ---------------------------------------------------------------------

  const AtTop: Where := Where(true, 0, {}, false)

  lemma {:induction false} ProgramAcceptedExactly(ss: seq<Stmt>)
    ensures CompProgram(ss).ok <==> SeqAccepted(ss, AtTop)
  {
    hide CompSeq, SeqAccepted;
    SeqAcceptedExactly(ss, Context(true, [], 0, NoLoop), AtTop, []);
  }

  /** A function's parameters fill the first slots; a local of the body may have the name of one. */
  lemma {:induction false} FunctionAcceptedExactly(params: seq<Ident>, body: seq<Stmt>)
    ensures CompFunction(params, body).ok <==> SeqAccepted(body, Where(false, |params|, {}, false))
  {
    hide CompSeq, SeqAccepted;
    var cx := Context(false, ParamNames(params), 0, NoLoop);
    var p := Where(false, |params|, {}, false);
    assert Stands(cx.(depth := 1), p);
    SeqAcceptedExactly(body, cx.(depth := 1), p, []);
  }
}
