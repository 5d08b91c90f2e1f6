/**
  The source language: syntax trees as the parser hands them to the compiler, and what they mean.

  The meaning never mentions slots, stacks or code. Locals are a list of bindings, innermost last;
  entering a block remembers how long the list is and leaving it cuts the list back. Loops use fuel:
  one unit an iteration, Timeout when it runs out.
*/
module Source {
  import opened Values
  import opened Bytecode
  import opened Making
  import opened Machine

  type Ident = Text

  /**
    In a function literal `proto` is the constant its compiled body has become, and `captures` are the
    descriptors that resolving the body's names has left. Making functions and classes has its place in
    the code's layout, but no meaning here: code that does it is never `exact`.
  */
  datatype Expr =
    | Lit(v: Value)                                // number or string literal
    | BoolLit(b: bool)
    | NilLit
    | Var(x: Ident)
    | Unary(uop: byte, operand: Expr)              // -, ~, not
    | Plus(plusOperand: Expr)                      // unary +
    | Binary(bop: byte, left: Expr, right: Expr)   // arithmetic, comparison, `is`, `in`, indexing
    | And(left: Expr, right: Expr)
    | Or(left: Expr, right: Expr)
    | Attr(obj: Expr, name: Text)
    | Elems(build: byte, elems: seq<Expr>)         // list, tuple and set literals
    | Call(callee: Expr, args: seq<Expr>)          // positional call of a native function
    | Func(defaults: seq<Expr>, proto: Value, captures: seq<Desc>)

  /** A method: its name and the constant its compiled body has become. */
  datatype Method = Method(name: Text, proto: Value)

  datatype Case = Case(values: seq<Expr>, body: seq<Stmt>)   // no values: the default case

  datatype Stmt =
    | ExprStmt(e: Expr)
    | VarDecl(x: Ident, init: Option<Expr>)
    | Assign(x: Ident, e: Expr)
    | SetItem(obj: Expr, key: Expr, e: Expr)
    | SetAttr(obj: Expr, name: Text, e: Expr)
    | DelItem(obj: Expr, key: Expr)
    | Compound(op: byte, x: Ident, e: Expr)
    | If(cond: Expr, thn: seq<Stmt>, hasElse: bool, els: seq<Stmt>)
    | While(cond: Expr, body: seq<Stmt>)
    | Forever(body: seq<Stmt>)
    | ForIn(x: Ident, iter: Expr, body: seq<Stmt>)
    | Switch(subject: Option<Expr>, cases: seq<Case>)
    | Block(ss: seq<Stmt>)
    | Break
    | Continue
    | Pass
    | Return(result: Option<Expr>)
    | FuncDecl(x: Ident, f: Expr)                  // f is a function literal
    | ClassDecl(x: Ident, base: Option<Expr>, methods: seq<Method>)

  /** Declarations of variables, functions and classes: inside a function each adds a local. */
  predicate IsDeclaration(s: Stmt)
  {
    s.VarDecl? || s.FuncDecl? || s.ClassDecl?
  }

  // ---------------------------------------------------------------------
  // Programs without `and` and `or`
  // ---------------------------------------------------------------------

  /** No `and` and no `or` anywhere in e. */
  predicate Plain(e: Expr)
    decreases e, 1
  {
    match e
    case Lit(_) => true
    case BoolLit(_) => true
    case NilLit => true
    case Var(_) => true
    case Unary(_, a) => Plain(a)
    case Plus(a) => Plain(a)
    case Binary(_, l, r) => Plain(l) && Plain(r)
    case And(_, _) => false
    case Or(_, _) => false
    case Attr(o, _) => Plain(o)
    case Elems(_, es) => AllPlain(es)
    case Call(f, es) => Plain(f) && AllPlain(es)
    case Func(ds, _, _) => AllPlain(ds)
  }

  predicate AllPlain(es: seq<Expr>)
    decreases es, 0
  {
    es != [] ==> Plain(es[0]) && AllPlain(es[1..])
  }

  predicate PlainOpt(e: Option<Expr>)
  {
    e.Some? ==> Plain(e.value)
  }

  predicate PlainStmt(s: Stmt)
    decreases s, 0
  {
    match s
    case ExprStmt(e) => Plain(e)
    case VarDecl(_, init) => PlainOpt(init)
    case Assign(_, e) => Plain(e)
    case SetItem(obj, key, e) => AllPlain([e, obj, key])
    case SetAttr(obj, _, e) => AllPlain([e, obj])
    case DelItem(obj, key) => AllPlain([obj, key])
    case Compound(_, _, e) => Plain(e)
    case If(cond, thn, _, els) => Plain(cond) && PlainSeq(thn) && PlainSeq(els)
    case While(cond, body) => Plain(cond) && PlainSeq(body)
    case Forever(body) => PlainSeq(body)
    case ForIn(_, iter, body) => Plain(iter) && PlainSeq(body)
    case Switch(subject, cases) =>
      PlainOpt(subject) && forall i :: 0 <= i < |cases| ==> AllPlain(cases[i].values) && PlainSeq(cases[i].body)
    case Block(ss) => PlainSeq(ss)
    case Break => true
    case Continue => true
    case Pass => true
    case Return(e) => PlainOpt(e)
    case FuncDecl(_, f) => Plain(f)
    case ClassDecl(_, base, _) => PlainOpt(base)
  }

  predicate PlainSeq(ss: seq<Stmt>)
    decreases ss, 0
  {
    forall i :: 0 <= i < |ss| ==> PlainStmt(ss[i])
  }

  // ---------------------------------------------------------------------
  // Environments
  // ---------------------------------------------------------------------

  datatype Binding = Binding(x: Ident, v: Value)
  type Env = seq<Binding>

  /** The position of the innermost binding of x, or -1. */
  function Lookup(env: Env, x: Text): (i: int)
    ensures -1 <= i < |env|
    ensures i >= 0 ==> env[i].x == x
  {
    if env == [] then -1
    else if env[|env| - 1].x == x then |env| - 1
    else Lookup(env[..|env| - 1], x)
  }

  /** No later binding has that name; without a position, none at all. */
  lemma {:induction false} LookupIsInnermost(env: Env, x: Text)
    ensures forall j :: Lookup(env, x) < j < |env| ==> env[j].x != x
  {
    if env != [] && env[|env| - 1].x != x {
      LookupIsInnermost(env[..|env| - 1], x);
    }
  }

  /** Everything a statement works on. */
  datatype State = State(env: Env, g: Globals, w: World)

  function Assigned(st: State, x: Ident, v: Value): State
  {
    var i := Lookup(st.env, x);
    if i >= 0 then st.(env := st.env[i := Binding(x, v)]) else st.(g := st.g[x := v])
  }

  // ---------------------------------------------------------------------
  // Expressions
  // ---------------------------------------------------------------------

  /** `Stray` is for expressions inside statements only; see ValueIn. */
  datatype Eval = Val(v: Value, w: World) | Fail(w: World) | Stray
  datatype Evals = Vals(vs: seq<Value>, w: World) | Fails(w: World) | Strays

  function FromNative(r: Native): (v: Eval)
    ensures v != Stray
  {
    match r
    case Ok(v, w) => Val(v, w)
    case Throw(w) => Fail(w)
  }

  function EvalExpr(e: Expr, S: Slots, env: Env, g: Globals, w: World): (r: Eval)
    ensures r != Stray
    decreases e, 1
  {
    match e
    case Lit(v) => Val(v, w)
    case BoolLit(b) => Val(Bool(b), w)
    case NilLit => Val(Nil, w)
    case Var(x) =>
      var i := Lookup(env, x);
      if i >= 0 then Val(env[i].v, w) else if x in g then Val(g[x], w) else Fail(w)
    case Unary(op, a) => (
      match EvalExpr(a, S, env, g, w)
      case Fail(w1) => Fail(w1)
      case Val(v, w1) =>
        if op == OP_NOT then Val(Bool(!S.truthy(v, w1)), w1) else FromNative(S.native(op, NoName, [v], w1)))
    case Plus(a) => EvalExpr(a, S, env, g, w)
    case Binary(op, l, r) => (
      match EvalExpr(l, S, env, g, w)
      case Fail(w1) => Fail(w1)
      case Val(v1, w1) =>
        match EvalExpr(r, S, env, g, w1)
        case Fail(w2) => Fail(w2)
        case Val(v2, w2) => FromNative(S.native(op, NoName, [v1, v2], w2)))
    case And(l, r) => (
      match EvalExpr(l, S, env, g, w)
      case Fail(w1) => Fail(w1)
      case Val(v, w1) => if S.truthy(v, w1) then EvalExpr(r, S, env, g, w1) else Val(v, w1))
    case Or(l, r) => (
      match EvalExpr(l, S, env, g, w)
      case Fail(w1) => Fail(w1)
      case Val(v, w1) => if S.truthy(v, w1) then Val(v, w1) else EvalExpr(r, S, env, g, w1))
    case Attr(o, name) => (
      match EvalExpr(o, S, env, g, w)
      case Fail(w1) => Fail(w1)
      case Val(v, w1) => FromNative(S.native(OP_GET_ATTR, name, [v], w1)))
    case Elems(op, es) => (
      match EvalExprs(es, S, env, g, w)
      case Fails(w1) => Fail(w1)
      case Vals(vs, w1) => FromNative(S.native(op, NoName, vs, w1)))
    case Call(f, es) => (
      match EvalExpr(f, S, env, g, w)
      case Fail(w1) => Fail(w1)
      case Val(v, w1) =>
        match EvalExprs(es, S, env, g, w1)
        case Fails(w2) => Fail(w2)
        case Vals(vs, w2) => FromNative(S.native(OP_CALL, NoName, [v] + vs, w2)))
    case Func(_, _, _) => Fail(w)
  }

  /** Left to right; the first failure wins. */
  function EvalExprs(es: seq<Expr>, S: Slots, env: Env, g: Globals, w: World): (r: Evals)
    ensures r != Strays && (r.Vals? ==> |r.vs| == |es|)
    decreases es, 0
  {
    if es == [] then Vals([], w) else
    match EvalExpr(es[0], S, env, g, w)
    case Fail(w1) => Fails(w1)
    case Val(v, w1) =>
      match EvalExprs(es[1..], S, env, g, w1)
      case Fails(w2) => Fails(w2)
      case Vals(vs, w2) => Vals([v] + vs, w2)
  }

  /**
    Does evaluating e take the right operand of some `and` or `or`? The code emitted for those
    leaves the left operand on the stack in that case (see Exactness.ExprExactly).
  */
  predicate FallsThrough(e: Expr, S: Slots, env: Env, g: Globals, w: World)
    decreases e, 1
  {
    match e
    case Lit(_) => false
    case BoolLit(_) => false
    case NilLit => false
    case Var(_) => false
    case Unary(_, a) => FallsThrough(a, S, env, g, w)
    case Plus(a) => FallsThrough(a, S, env, g, w)
    case Attr(o, _) => FallsThrough(o, S, env, g, w)
    case Binary(_, l, r) =>
      FallsThrough(l, S, env, g, w)
      || (var v := EvalExpr(l, S, env, g, w); v.Val? && FallsThrough(r, S, env, g, v.w))
    case And(l, r) =>
      FallsThrough(l, S, env, g, w)
      || (var v := EvalExpr(l, S, env, g, w); v.Val? && S.truthy(v.v, v.w))
    case Or(l, r) =>
      FallsThrough(l, S, env, g, w)
      || (var v := EvalExpr(l, S, env, g, w); v.Val? && !S.truthy(v.v, v.w))
    case Elems(_, es) => AnyFallsThrough(es, S, env, g, w)
    case Call(f, es) =>
      FallsThrough(f, S, env, g, w)
      || (var v := EvalExpr(f, S, env, g, w); v.Val? && AnyFallsThrough(es, S, env, g, v.w))
    case Func(_, _, _) => false
  }

  predicate AnyFallsThrough(es: seq<Expr>, S: Slots, env: Env, g: Globals, w: World)
    decreases es, 0
  {
    es != []
    && (FallsThrough(es[0], S, env, g, w)
        || (var v := EvalExpr(es[0], S, env, g, w); v.Val? && AnyFallsThrough(es[1..], S, env, g, v.w)))
  }

  // ---------------------------------------------------------------------
  // Statements
  // ---------------------------------------------------------------------

  /** `Astray`: an expression has been met whose code leaves too much on the stack; see ValueIn. */
  datatype Outcome =
    | Normal(st: State)
    | Broke(st: State)
    | Continued(st: State)
    | Returned(v: Value, g: Globals, w: World)
    | Raised(g: Globals, w: World)
    | Timeout
    | Astray

  /**
    The value of an expression in a statement, unless an `and` or `or` in it goes on to its right
    operand. From there on the emitted code does not do what the source means.
  */
  function ValueIn(e: Expr, S: Slots, st: State): Eval
  {
    if FallsThrough(e, S, st.env, st.g, st.w) then Stray else EvalExpr(e, S, st.env, st.g, st.w)
  }

  function ValuesIn(es: seq<Expr>, S: Slots, st: State): (r: Evals)
    ensures r.Vals? ==> |r.vs| == |es|
  {
    if AnyFallsThrough(es, S, st.env, st.g, st.w) then Strays else EvalExprs(es, S, st.env, st.g, st.w)
  }

  /** Leaves a block that was entered with n bindings in scope. */
  function Leave(o: Outcome, n: nat): Outcome
  {
    match o
    case Normal(st) => Normal(Cut(st, n))
    case Broke(st) => Broke(Cut(st, n))
    case Continued(st) => Continued(Cut(st, n))
    case _ => o
  }

  function Cut(st: State, n: nat): State
  {
    if n <= |st.env| then st.(env := st.env[..n]) else st
  }

  /** Globals are the variables declared outside functions; `top` says where we are. */
  function Declared(top: bool, st: State, x: Ident, v: Value): State
  {
    if top then st.(g := st.g[x := v]) else st.(env := st.env + [Binding(x, v)])
  }

  function EvalOpt(e: Option<Expr>, S: Slots, st: State): Eval
  {
    if e.None? then Val(Nil, st.w) else ValueIn(e.value, S, st)
  }

  function ExecExprStmt(e: Expr, S: Slots, st: State): Outcome
  {
    match ValueIn(e, S, st)
    case Stray => Astray
    case Fail(w1) => Raised(st.g, w1)
    case Val(_, w1) => Normal(st.(w := w1))
  }

  function ExecVarDecl(x: Ident, init: Option<Expr>, top: bool, S: Slots, st: State): Outcome
  {
    match EvalOpt(init, S, st)
    case Stray => Astray
    case Fail(w1) => Raised(st.g, w1)
    case Val(v, w1) => Normal(Declared(top, st.(w := w1), x, v))
  }

  function ExecAssign(x: Ident, e: Expr, S: Slots, st: State): Outcome
  {
    match ValueIn(e, S, st)
    case Stray => Astray
    case Fail(w1) => Raised(st.g, w1)
    case Val(v, w1) => Normal(Assigned(st.(w := w1), x, v))
  }

  /** Stores and deletions in containers and objects: evaluate the operands in order, then call the slot. */
  function ExecStore(op: byte, name: Text, es: seq<Expr>, S: Slots, st: State): Outcome
  {
    match ValuesIn(es, S, st)
    case Strays => Astray
    case Fails(w1) => Raised(st.g, w1)
    case Vals(vs, w1) => AfterNative(st, S.native(op, name, vs, w1))
  }

  function ExecReturn(e: Option<Expr>, S: Slots, st: State): Outcome
  {
    match EvalOpt(e, S, st)
    case Stray => Astray
    case Fail(w1) => Raised(st.g, w1)
    case Val(v, w1) => Returned(v, st.g, w1)
  }

  function Exec(s: Stmt, fuel: nat, top: bool, S: Slots, st: State): Outcome
    decreases fuel, s, 2
  {
    match s
    case ExprStmt(e) => ExecExprStmt(e, S, st)
    case VarDecl(x, init) => ExecVarDecl(x, init, top, S, st)
    case Assign(x, e) => ExecAssign(x, e, S, st)
    case SetItem(obj, key, e) => ExecStore(OP_SET_ITEM, NoName, [e, obj, key], S, st)
    case SetAttr(obj, name, e) => ExecStore(OP_SET_ATTR, name, [e, obj], S, st)
    case DelItem(obj, key) => ExecStore(OP_DEL_ITEM, NoName, [obj, key], S, st)
    case Compound(op, x, e) => ExecAssign(x, Binary(op, Var(x), e), S, st)
    case If(cond, thn, hasElse, els) => (
      match ValueIn(cond, S, st)
      case Stray => Astray
    case Fail(w1) => Raised(st.g, w1)
      case Val(v, w1) =>
        if S.truthy(v, w1) then ExecBlock(thn, fuel, top, S, st.(w := w1))
        else if hasElse then ExecBlock(els, fuel, top, S, st.(w := w1))
        else Normal(st.(w := w1)))
    case While(cond, body) => if fuel == 0 then Timeout else Round(s, fuel, top, S, st)
    case Forever(body) => if fuel == 0 then Timeout else Round(s, fuel, top, S, st)
    case ForIn(x, iter, body) => (
      match ValueIn(iter, S, st)
      case Stray => Astray
    case Fail(w1) => Raised(st.g, w1)
      case Val(v, w1) =>
        match S.native(OP_GET_ITER, NoName, [v], w1)
        case Throw(w2) => Raised(st.g, w2)
        case Ok(it, w2) => Iterate(s, it, fuel, top, S, st.(w := w2)))
    case Switch(subject, cases) => (
      match EvalOpt(subject, S, st)
      case Stray => Astray
    case Fail(w1) => Raised(st.g, w1)
      case Val(v, w1) => ExecCases(s, 0, v, fuel, top, S, st.(w := w1)))
    case Block(ss) => ExecBlock(ss, fuel, top, S, st)
    case Break => Broke(st)
    case Continue => Continued(st)
    case Pass => Normal(st)
    case Return(e) => ExecReturn(e, S, st)
    case FuncDecl(_, _) => Raised(st.g, st.w)
    case ClassDecl(_, _, _) => Raised(st.g, st.w)
  }

  /** One round of a loop, and the rounds after it. */
  function Round(s: Stmt, fuel: nat, top: bool, S: Slots, st: State): Outcome
    requires (s.While? || s.Forever?) && fuel > 0
    decreases fuel, s, 1
  {
    match (if s.While? then ValueIn(s.cond, S, st) else Val(Bool(true), st.w))
    case Stray => Astray
    case Fail(w1) => Raised(st.g, w1)
    case Val(v, w1) =>
      if s.While? && !S.truthy(v, w1) then Normal(st.(w := w1)) else
      match ExecBlock(s.body, fuel, top, S, st.(w := w1))
      case Normal(st1) => Exec(s, fuel - 1, top, S, st1)
      case Continued(st1) => Exec(s, fuel - 1, top, S, st1)
      case Broke(st1) => Normal(st1)
      case other => other
  }

  function AfterNative(st: State, r: Native): Outcome
  {
    match r
    case Throw(w) => Raised(st.g, w)
    case Ok(_, w) => Normal(st.(w := w))
  }

  /** The rounds of `for x in it`: the loop variable is bound around the body. */
  function Iterate(s: Stmt, it: Value, fuel: nat, top: bool, S: Slots, st: State): Outcome
    requires s.ForIn?
    decreases fuel, s, 1
  {
    if fuel == 0 then Timeout else
    match S.native(OP_FOR_ITER, NoName, [it], st.w)
    case Throw(w1) => Raised(st.g, w1)
    case Ok(v, w1) =>
      if v == Nil then Normal(st.(w := w1)) else
      var bound := State(st.env + [Binding(s.x, v)], st.g, w1);
      match Leave(ExecBlock(s.body, fuel, top, S, bound), |st.env|)
      case Normal(st1) => Iterate(s, it, fuel - 1, top, S, st1)
      case Continued(st1) => Iterate(s, it, fuel - 1, top, S, st1)
      case Broke(st1) => Normal(st1)
      case other => other
  }

  function ExecBlock(ss: seq<Stmt>, fuel: nat, top: bool, S: Slots, st: State): Outcome
    decreases fuel, ss, 1
  {
    Leave(ExecSeq(ss, fuel, top, S, st), |st.env|)
  }

  function ExecSeq(ss: seq<Stmt>, fuel: nat, top: bool, S: Slots, st: State): Outcome
    decreases fuel, ss, 0
  {
    if ss == [] then Normal(st) else
    match Exec(ss[0], fuel, top, S, st)
    case Normal(st1) => ExecSeq(ss[1..], fuel, top, S, st1)
    case other => other
  }

  /** Cases are tried in order from the i-th; the default case waits until no other matches. */
  function ExecCases(s: Stmt, i: nat, v: Value, fuel: nat, top: bool, S: Slots, st: State): Outcome
    requires s.Switch? && i <= |s.cases|
    decreases fuel, s, 1, |s.cases| - i
  {
    if i == |s.cases| then
      (var d := DefaultCase(s.cases);
       if d >= 0 then ExecBlock(s.cases[d].body, fuel, top, S, st) else Normal(st))
    else
      match Matches(s.cases[i].values, s.subject.Some?, v, S, st)
      case Lost => Astray
      case Failing(w1) => Raised(st.g, w1)
      case Hit(w1) => ExecBlock(s.cases[i].body, fuel, top, S, st.(w := w1))
      case Miss(w1) => ExecCases(s, i + 1, v, fuel, top, S, st.(w := w1))
  }

  datatype Match = Hit(w: World) | Miss(w: World) | Failing(w: World) | Lost

  /** The condition a case value stands for: equality with the subject, or, without one, the value itself. */
  function Test(e: Expr, hasSubject: bool, v: Value, S: Slots, st: State): Eval
  {
    match ValueIn(e, S, st)
    case Stray => Stray
    case Fail(w1) => Fail(w1)
    case Val(u, w1) => if hasSubject then FromNative(S.native(OP_EQ, NoName, [v, u], w1)) else Val(u, w1)
  }

  function Matches(values: seq<Expr>, hasSubject: bool, v: Value, S: Slots, st: State): Match
  {
    if values == [] then Miss(st.w) else
    match Test(values[0], hasSubject, v, S, st)
    case Stray => Lost
    case Fail(w1) => Failing(w1)
    case Val(hit, w1) => if S.truthy(hit, w1) then Hit(w1) else Matches(values[1..], hasSubject, v, S, st.(w := w1))
  }

  /** The last case without values, or -1. */
  function DefaultCase(cases: seq<Case>): (d: int)
    ensures -1 <= d < |cases|
    ensures d >= 0 ==> cases[d].values == []
    ensures forall j :: d < j < |cases| ==> cases[j].values != []
  {
    if cases == [] then -1
    else if cases[|cases| - 1].values == [] then |cases| - 1
    else DefaultCase(cases[..|cases| - 1])
  }
}
