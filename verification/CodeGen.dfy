/**
  What the single-pass compiler emits, as functions from syntax to code.

  A statement's code may contain jumps whose targets are not known yet: `break` and `continue` leave
  holes, which the enclosing loop fills. Everything else is relative, so code can be placed anywhere.
*/
module CodeGen {
  import opened Values
  import opened Bytecode
  import opened Making
  import opened Machine
  import opened Source

  const MAX_LOCALS := 256
  const MAX_PATCHES := 256

  /** A compile-time local; the iterator of a for-in loop is hidden: the source gives it the empty name. */
  datatype LocalName = Hidden | Named(x: Ident)

  datatype Local = Local(name: LocalName, depth: nat)

  /** One byte of emitted code, or the k-th byte of a jump operand the enclosing loop will fill in. */
  datatype Sym = B(b: byte) | BreakHole(k: nat) | ContinueHole(k: nat)

  datatype Loop = NoLoop | InLoop(base: nat, forIn: bool)

  datatype Context = Context(top: bool, names: seq<Local>, depth: nat, loop: Loop)

  /**
    Code, the constant pool so far, whether the compiler accepts, and whether it is `exact`: it has a
    meaning here and the compiler drops nothing silently (no argument count is cut to its lowest byte).
  */
  datatype ExprCode = ExprCode(bytes: seq<byte>, pool: seq<Value>, ok: bool, exact: bool)

  /**
    In addition the locals afterwards. A statement is `exact` when its expressions are, every `continue`
    finds only its loop's own locals live, and no switch has so many cases or values that a jump is left
    out.
  */
  datatype StmtCode = StmtCode(syms: seq<Sym>, pool: seq<Value>, names: seq<Local>, ok: bool, exact: bool)

  function Lift(bytes: seq<byte>): (syms: seq<Sym>)
    ensures |syms| == |bytes|
  {
    seq(|bytes|, i requires 0 <= i < |bytes| => B(bytes[i]))
  }

  function OpA(op: byte, a: int): (bytes: seq<byte>)
    ensures |bytes| == 2
  {
    [op, a % 0x100]
  }

  function OpAX(op: byte, ax: int): (bytes: seq<byte>)
    ensures |bytes| == 4
  {
    [op] + EncodeAX(ax)
  }

  function Jump(op: byte, distance: int): (bytes: seq<byte>)
    ensures |bytes| == 4
  {
    OpAX(op, distance % TWO_24)
  }

  function Pops(n: nat): (bytes: seq<byte>)
    ensures |bytes| == n
  {
    seq(n, _ => OP_POP)
  }

  // ---------------------------------------------------------------------
  // Locals
  // ---------------------------------------------------------------------

  /** The slot of the most recent local called x, or -1. */
  function Resolve(names: seq<Local>, x: Text): (i: int)
    ensures -1 <= i < |names|
    ensures i >= 0 ==> names[i].name == Named(x)
  {
    if names == [] then -1
    else if names[|names| - 1].name == Named(x) then |names| - 1
    else Resolve(names[..|names| - 1], x)
  }

  lemma {:induction false} ResolveIsMostRecent(names: seq<Local>, x: Text)
    ensures forall j :: Resolve(names, x) < j < |names| ==> names[j].name != Named(x)
  {
    if names != [] && names[|names| - 1].name != Named(x) {
      ResolveIsMostRecent(names[..|names| - 1], x);
    }
  }

  /** Is x already declared at this depth? */
  predicate Duplicate(names: seq<Local>, depth: nat, x: Text)
  {
    names != []
    && names[|names| - 1].depth >= depth
    && (names[|names| - 1].name == Named(x) || Duplicate(names[..|names| - 1], depth, x))
  }

  predicate CanDeclare(names: seq<Local>, depth: nat, x: Text)
  {
    |names| < MAX_LOCALS && !Duplicate(names, depth, x)
  }

  /** The number of locals that die with the scope at this depth. */
  function Dying(names: seq<Local>, depth: nat): (n: nat)
    ensures n <= |names|
  {
    if names != [] && names[|names| - 1].depth == depth then Dying(names[..|names| - 1], depth) + 1 else 0
  }

  // ---------------------------------------------------------------------
  // Expressions
  // ---------------------------------------------------------------------

  function GetVar(names: seq<Local>, pool: seq<Value>, x: Text): ExprCode
  {
    var i := Resolve(names, x);
    if i >= 0 then ExprCode(OpA(OP_GET_LOCAL, i), pool, true, true)
    else ExprCode(OpAX(OP_GET_GLOBAL, |pool|), pool + [Str(x)], true, true)
  }

  function SetVar(names: seq<Local>, pool: seq<Value>, x: Text): ExprCode
  {
    var i := Resolve(names, x);
    if i >= 0 then ExprCode(OpA(OP_SET_LOCAL, i), pool, true, true)
    else ExprCode(OpAX(OP_SET_GLOBAL, |pool|), pool + [Str(x)], true, true)
  }

  predicate UnaryOp(op: byte)
  {
    op == OP_NEG || op == OP_NOT || op == OP_BNOT
  }

  predicate BuildOp(op: byte)
  {
    op == OP_BUILD_LIST || op == OP_BUILD_TUPLE || op == OP_BUILD_SET
  }

  function CompExpr(e: Expr, names: seq<Local>, pool: seq<Value>): (r: ExprCode)
    ensures pool <= r.pool
    decreases e, 1
  {
    match e
    case Lit(v) => ExprCode(OpAX(OP_CONST, |pool|), pool + [v], true, true)
    case BoolLit(b) => ExprCode([if b then OP_CONST_TRUE else OP_CONST_FALSE], pool, true, true)
    case NilLit => ExprCode([OP_CONST_NIL], pool, true, true)
    case Var(x) => GetVar(names, pool, x)
    case Unary(op, a) =>
      var ra := CompExpr(a, names, pool);
      ExprCode(ra.bytes + [op], ra.pool, ra.ok && UnaryOp(op), ra.exact)
    case Plus(a) => CompExpr(a, names, pool)
    case Binary(op, l, r) =>
      var rl := CompExpr(l, names, pool);
      var rr := CompExpr(r, names, rl.pool);
      ExprCode(rl.bytes + rr.bytes + [op], rr.pool, rl.ok && rr.ok && Arity(op) == 2, rl.exact && rr.exact)
    case And(l, r) =>
      var rl := CompExpr(l, names, pool);
      var rr := CompExpr(r, names, rl.pool);
      ExprCode(rl.bytes + Jump(OP_AND_JMP, |rr.bytes|) + rr.bytes, rr.pool, rl.ok && rr.ok, rl.exact && rr.exact)
    case Or(l, r) =>
      var rl := CompExpr(l, names, pool);
      var rr := CompExpr(r, names, rl.pool);
      ExprCode(rl.bytes + Jump(OP_OR_JMP, |rr.bytes|) + rr.bytes, rr.pool, rl.ok && rr.ok, rl.exact && rr.exact)
    case Attr(o, name) =>
      var ro := CompExpr(o, names, pool);
      ExprCode(ro.bytes + OpAX(OP_GET_ATTR, |ro.pool|), ro.pool + [Str(name)], ro.ok, ro.exact)
    case Elems(op, es) =>
      var res := CompExprs(es, names, pool);
      ExprCode(res.bytes + OpA(op, |es|), res.pool, res.ok && |es| <= 255 && BuildOp(op), res.exact)
    case Call(f, es) =>
      if f.Var? && f.x == Text("super") then ExprCode([], pool, false, true) else
      var rf := CompExpr(f, names, pool);
      var res := CompExprs(es, names, rf.pool);
      ExprCode(rf.bytes + res.bytes + OpA(OP_CALL, |es|), res.pool, rf.ok && res.ok, rf.exact && res.exact && |es| <= 255)
    case Func(ds, proto, captures) =>
      var rs := CompExprs(ds, names, pool);
      ExprCode(rs.bytes + MakeFunc(|rs.pool|, captures), rs.pool + [proto], rs.ok, false)
  }

  function CompExprs(es: seq<Expr>, names: seq<Local>, pool: seq<Value>): (r: ExprCode)
    ensures pool <= r.pool
    decreases es, 0
  {
    if es == [] then ExprCode([], pool, true, true) else
    var r0 := CompExpr(es[0], names, pool);
    var r1 := CompExprs(es[1..], names, r0.pool);
    ExprCode(r0.bytes + r1.bytes, r1.pool, r0.ok && r1.ok, r0.exact && r1.exact)
  }

  /** `and` and `or`, with the jump that leaves the left operand as the result. */
  predicate IsShort(e: Expr, left: Expr, op: byte, right: Expr)
  {
    (e == And(left, right) && op == OP_AND_JMP) || (e == Or(left, right) && op == OP_OR_JMP)
  }

  lemma ShortCode(e: Expr, left: Expr, op: byte, right: Expr, names: seq<Local>, pool: seq<Value>)
    requires IsShort(e, left, op, right)
    ensures var l := CompExpr(left, names, pool);
      var r := CompExpr(right, names, l.pool);
      CompExpr(e, names, pool) == ExprCode(l.bytes + Jump(op, |r.bytes|) + r.bytes, r.pool, l.ok && r.ok, l.exact && r.exact)
  {
    hide CompExpr, Jump;
    if e.And? {
      AndCode(left, right, names, pool);
    } else {
      OrCode(left, right, names, pool);
    }
  }

  lemma AndCode(left: Expr, right: Expr, names: seq<Local>, pool: seq<Value>)
    ensures var l := CompExpr(left, names, pool);
      var r := CompExpr(right, names, l.pool);
      CompExpr(And(left, right), names, pool)
        == ExprCode(l.bytes + Jump(OP_AND_JMP, |r.bytes|) + r.bytes, r.pool, l.ok && r.ok, l.exact && r.exact)
  {
    hide Jump, GetVar, SetVar, CompExprs, OpAX, OpA, Arity, UnaryOp, BuildOp, MakeFunc;
  }

  lemma OrCode(left: Expr, right: Expr, names: seq<Local>, pool: seq<Value>)
    ensures var l := CompExpr(left, names, pool);
      var r := CompExpr(right, names, l.pool);
      CompExpr(Or(left, right), names, pool)
        == ExprCode(l.bytes + Jump(OP_OR_JMP, |r.bytes|) + r.bytes, r.pool, l.ok && r.ok, l.exact && r.exact)
  {
    hide Jump, GetVar, SetVar, CompExprs, OpAX, OpA, Arity, UnaryOp, BuildOp, MakeFunc;
  }

  // ---------------------------------------------------------------------
  // Statements
  // ---------------------------------------------------------------------

  predicate CompoundOp(op: byte)
  {
    op == OP_ADD || op == OP_SUB || op == OP_MUL || op == OP_DIV || op == OP_MOD
    || op == OP_BAND || op == OP_BOR || op == OP_BXOR || op == OP_SHL || op == OP_SHR
  }

  /** Straight-line code that leaves the locals as they are. */
  function Straight(bytes: seq<byte>, pool: seq<Value>, names: seq<Local>, ok: bool, exact: bool): StmtCode
  {
    StmtCode(Lift(bytes), pool, names, ok, exact)
  }

  function OptExpr(e: Option<Expr>, names: seq<Local>, pool: seq<Value>): (r: ExprCode)
    ensures pool <= r.pool
  {
    if e.Some? then CompExpr(e.value, names, pool) else ExprCode([OP_CONST_NIL], pool, true, true)
  }

  /** The k-th byte of a jump operand for the given distance. */
  function OperandByte(distance: int, k: nat): byte
  {
    if k < 3 then EncodeAX(distance % TWO_24)[k] else 0
  }

  /** Fills the holes of a loop's code, given the offsets in that code where `break` and `continue` go. */
  function Fill(syms: seq<Sym>, breakTo: int, continueTo: int): (filled: seq<Sym>)
    ensures |filled| == |syms|
  {
    seq(|syms|, i requires 0 <= i < |syms| =>
      match syms[i]
      case B(_) => syms[i]
      case BreakHole(k) => B(OperandByte(breakTo - (i - k + 3), k))
      case ContinueHole(k) => B(OperandByte(continueTo - (i - k + 3), k)))
  }

  function CountBreaks(syms: seq<Sym>): nat
  {
    if syms == [] then 0
    else CountBreaks(syms[..|syms| - 1]) + if syms[|syms| - 1] == BreakHole(0) then 1 else 0
  }

  function CountContinues(syms: seq<Sym>): nat
  {
    if syms == [] then 0
    else CountContinues(syms[..|syms| - 1]) + if syms[|syms| - 1] == ContinueHole(0) then 1 else 0
  }

  /** A loop records at most 256 jumps of each kind. */
  predicate FewJumps(body: seq<Sym>)
  {
    CountBreaks(body) <= MAX_PATCHES && CountContinues(body) <= MAX_PATCHES
  }

  function ExprStmtCode(e: Expr, names: seq<Local>, pool: seq<Value>): (r: StmtCode)
    ensures pool <= r.pool
  {
    var r := CompExpr(e, names, pool);
    Straight(r.bytes + [OP_POP], r.pool, names, r.ok, r.exact)
  }

  function VarDeclCode(x: Ident, init: Option<Expr>, cx: Context, pool: seq<Value>): (r: StmtCode)
    ensures pool <= r.pool && cx.names <= r.names
  {
    var r := OptExpr(init, cx.names, pool);
    if cx.top then
      Straight(r.bytes + OpAX(OP_SET_GLOBAL, |r.pool|) + [OP_POP], r.pool + [Str(x)], cx.names, r.ok, r.exact)
    else
      Straight(r.bytes, r.pool, cx.names + [Local(Named(x), cx.depth)], r.ok && CanDeclare(cx.names, cx.depth, x), r.exact)
  }

  function AssignCode(x: Ident, e: Expr, names: seq<Local>, pool: seq<Value>): (r: StmtCode)
    ensures pool <= r.pool
  {
    var r := CompExpr(e, names, pool);
    var v := SetVar(names, r.pool, x);
    Straight(r.bytes + v.bytes + [OP_POP], v.pool, names, r.ok, r.exact)
  }

  /** One constant serves the read and the write of a global. */
  function CompoundCode(op: byte, x: Ident, e: Expr, names: seq<Local>, pool: seq<Value>): (r: StmtCode)
    ensures pool <= r.pool
  {
    var getter := GetVar(names, pool, x);
    var setter := SetVar(names, pool, x);
    var r := CompExpr(e, names, getter.pool);
    Straight(getter.bytes + r.bytes + [op] + setter.bytes + [OP_POP], r.pool, names, r.ok && CompoundOp(op), r.exact)
  }

  function SetItemCode(es: seq<Expr>, names: seq<Local>, pool: seq<Value>): (r: StmtCode)
    ensures pool <= r.pool
  {
    var r := CompExprs(es, names, pool);
    Straight(r.bytes + [OP_SET_ITEM] + [OP_POP], r.pool, names, r.ok, r.exact)
  }

  function SetAttrCode(es: seq<Expr>, name: Text, names: seq<Local>, pool: seq<Value>): (r: StmtCode)
    ensures pool <= r.pool
  {
    var r := CompExprs(es, names, pool);
    Straight(r.bytes + OpAX(OP_SET_ATTR, |r.pool|) + [OP_POP], r.pool + [Str(name)], names, r.ok, r.exact)
  }

  function DelItemCode(es: seq<Expr>, names: seq<Local>, pool: seq<Value>): (r: StmtCode)
    ensures pool <= r.pool
  {
    var r := CompExprs(es, names, pool);
    Straight(r.bytes + [OP_DEL_ITEM], r.pool, names, r.ok, r.exact)
  }

  function ReturnCode(e: Option<Expr>, cx: Context, pool: seq<Value>): (r: StmtCode)
    ensures pool <= r.pool
  {
    var r := OptExpr(e, cx.names, pool);
    Straight(r.bytes + [OP_RETURN], r.pool, cx.names, r.ok && !cx.top, r.exact)
  }

  /** What a declaration has behind its value: a store and a pop. Inside a function the variable is a new local. */
  function DeclTail(r: ExprCode, cx: Context): seq<byte>
  {
    (if cx.top then OpAX(OP_SET_GLOBAL, |r.pool|) else OpA(OP_SET_LOCAL, |cx.names|)) + [OP_POP]
  }

  function DeclCode(r: ExprCode, x: Ident, cx: Context): (code: StmtCode)
    ensures r.pool <= code.pool && cx.names <= code.names
  {
    if cx.top then
      Straight(r.bytes + DeclTail(r, cx), r.pool + [Str(x)], cx.names, r.ok, false)
    else
      Straight(r.bytes + DeclTail(r, cx), r.pool, cx.names + [Local(Named(x), cx.depth)], r.ok && CanDeclare(cx.names, cx.depth, x), false)
  }

  /** Each of the first n methods has added its function and its name to the constants. */
  function MethodPool(ms: seq<Method>, n: nat, pool: seq<Value>): (r: seq<Value>)
    requires n <= |ms|
    ensures pool <= r && |r| == |pool| + 2 * n
  {
    if n == 0 then pool else MethodPool(ms, n - 1, pool) + [ms[n - 1].proto] + [Str(ms[n - 1].name)]
  }

  function Numbered(n: nat, first: nat): (ms: seq<Member>)
    ensures |ms| == n
  {
    seq(n, k requires 0 <= k < n => Member(first + 2 * k + 1, first + 2 * k))
  }

  /** The base, if any, lies on the stack; the class's name is a constant of its own. */
  function ClassCode(x: Ident, base: Option<Expr>, ms: seq<Method>, names: seq<Local>, pool: seq<Value>): (r: ExprCode)
    ensures pool <= r.pool
  {
    var b := Subject(base, names, pool);
    var p := MethodPool(ms, |ms|, b.pool);
    ExprCode(b.bytes + MakeClass(|p|, if base.Some? then 1 else 0, Numbered(|ms|, |b.pool|)), p + [Str(x)],
             b.ok && |ms| <= MAX_COUNT, false)
  }

  function BreakCode(cx: Context, pool: seq<Value>): StmtCode
  {
    if cx.loop == NoLoop then Straight([], pool, cx.names, false, true) else
    var live := if |cx.names| > cx.loop.base then |cx.names| - cx.loop.base else 0;
    StmtCode(Lift(Pops(live)) + (Lift([OP_JUMP]) + [BreakHole(0), BreakHole(1), BreakHole(2)]), pool, cx.names, true, true)
  }

  function ContinueCode(cx: Context, pool: seq<Value>): StmtCode
  {
    if cx.loop == NoLoop then Straight([], pool, cx.names, false, true) else
    StmtCode([B(OP_JUMP), ContinueHole(0), ContinueHole(1), ContinueHole(2)], pool, cx.names, true,
             |cx.names| == ContinueBase(cx.loop))
  }

  /** The pieces of an if statement, put together; `f` is the else block. */
  function IfCode(c: ExprCode, t: StmtCode, hasElse: bool, f: StmtCode, names: seq<Local>): StmtCode
  {
    if hasElse then
      StmtCode(Lift(c.bytes + Jump(OP_JUMP_IF_FALSE, |t.syms| + 4)) + (t.syms + (Lift(Jump(OP_JUMP, |f.syms|)) + f.syms)),
               f.pool, names, c.ok && t.ok && f.ok, c.exact && t.exact && f.exact)
    else
      StmtCode(Lift(c.bytes + Jump(OP_JUMP_IF_FALSE, |t.syms|)) + t.syms, t.pool, names, c.ok && t.ok, c.exact && t.exact)
  }

  function WhileCode(c: ExprCode, b: StmtCode, names: seq<Local>): StmtCode
  {
    var raw := WhileSyms(c.bytes, b.syms);
    StmtCode(Fill(raw, |raw|, 0), b.pool, names, c.ok && b.ok && FewJumps(b.syms), c.exact && b.exact)
  }

  function WhileSyms(cond: seq<byte>, body: seq<Sym>): seq<Sym>
  {
    Lift(cond + Jump(OP_JUMP_IF_FALSE, |body| + 4)) + (body + Lift(Jump(OP_JUMP, -(|cond| + 8 + |body|))))
  }

  function ForeverCode(b: StmtCode, names: seq<Local>): StmtCode
  {
    var raw := ForeverSyms(b.syms);
    StmtCode(Fill(raw, |raw|, 0), b.pool, names, b.ok && FewJumps(b.syms), b.exact)
  }

  function ForeverSyms(body: seq<Sym>): seq<Sym>
  {
    body + Lift(Jump(OP_JUMP, -(|body| + 4)))
  }

  /** The hidden iterator and the loop variable take the two slots above the locals. */
  function InsideForIn(x: Ident, cx: Context): Context
  {
    Context(cx.top, cx.names + [Local(Hidden, cx.depth + 1), Local(Named(x), cx.depth + 1)], cx.depth + 1, InLoop(|cx.names|, true))
  }

  function ForInCode(x: Ident, it: ExprCode, b: StmtCode, cx: Context): StmtCode
  {
    var hidden := cx.names + [Local(Hidden, cx.depth + 1)];
    var raw := ForInSyms(it.bytes, b.syms);
    StmtCode(Fill(raw, |raw|, |it.bytes| + 5 + |b.syms|), b.pool, cx.names,
             it.ok && |hidden| <= MAX_LOCALS && CanDeclare(hidden, cx.depth + 1, x) && b.ok && FewJumps(b.syms),
             it.exact && b.exact)
  }

  function ForInSyms(iter: seq<byte>, body: seq<Sym>): seq<Sym>
  {
    Lift(iter + [OP_GET_ITER] + Jump(OP_FOR_ITER, |body| + 5))
    + (body + Lift([OP_POP] + Jump(OP_JUMP, -(|body| + 9))))
  }

  function SwitchCode(sub: ExprCode, cs: StmtCode, names: seq<Local>): StmtCode
  {
    StmtCode(Lift(sub.bytes) + cs.syms, cs.pool, names, sub.ok && cs.ok, sub.exact && cs.exact)
  }

  function Subject(e: Option<Expr>, names: seq<Local>, pool: seq<Value>): (r: ExprCode)
    ensures pool <= r.pool
  {
    if e.Some? then CompExpr(e.value, names, pool) else ExprCode([], pool, true, true)
  }

  function CompStmt(s: Stmt, cx: Context, pool: seq<Value>): (r: StmtCode)
    ensures pool <= r.pool && cx.names <= r.names
    decreases s, 1
  {
    match s
    case ExprStmt(e) => ExprStmtCode(e, cx.names, pool)
    case VarDecl(x, init) => VarDeclCode(x, init, cx, pool)
    case Assign(x, e) => AssignCode(x, e, cx.names, pool)
    case SetItem(obj, key, e) => SetItemCode([e, obj, key], cx.names, pool)
    case SetAttr(obj, name, e) => SetAttrCode([e, obj], name, cx.names, pool)
    case DelItem(obj, key) => DelItemCode([obj, key], cx.names, pool)
    case Compound(op, x, e) => CompoundCode(op, x, e, cx.names, pool)
    case If(cond, thn, hasElse, els) =>
      var c := CompExpr(cond, cx.names, pool);
      var t := CompBlock(thn, cx, c.pool);
      IfCode(c, t, hasElse, CompBlock(els, cx, t.pool), cx.names)
    case While(cond, body) =>
      var c := CompExpr(cond, cx.names, pool);
      WhileCode(c, CompBlock(body, cx.(loop := InLoop(|cx.names|, false)), c.pool), cx.names)
    case Forever(body) => ForeverCode(CompBlock(body, cx.(loop := InLoop(|cx.names|, false)), pool), cx.names)
    case ForIn(x, iter, body) =>
      var it := CompExpr(iter, cx.names, pool);
      ForInCode(x, it, CompBlock(body, InsideForIn(x, cx), it.pool), cx)
    case Switch(subject, cases) =>
      var sub := Subject(subject, cx.names, pool);
      SwitchCode(sub, CompCases(s, 0, 0, cx, sub.pool), cx.names)
    case Block(ss) => CompBlock(ss, cx, pool)
    case Break => BreakCode(cx, pool)
    case Continue => ContinueCode(cx, pool)
    case Pass => Straight([], pool, cx.names, true, true)
    case Return(e) => ReturnCode(e, cx, pool)
    case FuncDecl(x, f) => DeclCode(CompExpr(f, cx.names, pool), x, cx)
    case ClassDecl(x, base, ms) => DeclCode(ClassCode(x, base, ms, cx.names, pool), x, cx)
  }

  /** How many locals the code at a loop's continue target expects. */
  function ContinueBase(loop: Loop): nat
    requires loop.InLoop?
  {
    if loop.forIn then loop.base + 2 else loop.base
  }

  function CompBlock(ss: seq<Stmt>, cx: Context, pool: seq<Value>): (r: StmtCode)
    ensures pool <= r.pool
    ensures r.names == cx.names
    decreases ss, 1
  {
    var b := CompSeq(ss, cx.(depth := cx.depth + 1), pool);
    StmtCode(b.syms + Lift(Pops(|b.names| - |cx.names|)), b.pool, cx.names, b.ok, b.exact)
  }

  function CompSeq(ss: seq<Stmt>, cx: Context, pool: seq<Value>): (r: StmtCode)
    ensures pool <= r.pool
    ensures cx.names <= r.names
    decreases ss, 0
  {
    if ss == [] then StmtCode([], pool, cx.names, true, true) else
    var r0 := CompStmt(ss[0], cx, pool);
    var r1 := CompSeq(ss[1..], cx.(names := r0.names), r0.pool);
    StmtCode(r0.syms + r1.syms, r1.pool, r1.names, r0.ok && r1.ok, r0.exact && r1.exact)
  }

  /** The i-th case onwards, then the default; `done` cases have already emitted their jump to the end. */
  function CompCases(s: Stmt, i: nat, done: nat, cx: Context, pool: seq<Value>): (r: StmtCode)
    requires s.Switch? && i <= |s.cases|
    ensures pool <= r.pool && cx.names == r.names
    decreases s, 0, |s.cases| - i
  {
    var drop := if s.subject.Some? then [OP_POP] else [];
    if i == |s.cases| then
      var d := DefaultCase(s.cases);
      if d >= 0 then DefaultCode(drop, CompBlock(s.cases[d].body, cx, pool), cx.names)
      else Straight(drop, pool, cx.names, true, true)
    else if s.cases[i].values == [] then CompCases(s, i + 1, done, cx, pool)
    else
      var vs := CompValues(s.cases[i].values, 0, s.subject.Some?, cx.names, pool);
      var b := CompBlock(s.cases[i].body, cx, vs.pool);
      CaseCode(drop, vs, b, CompCases(s, i + 1, done + 1, cx, b.pool), done < MAX_PATCHES, cx.names)
  }

  function DefaultCode(drop: seq<byte>, b: StmtCode, names: seq<Local>): StmtCode
  {
    StmtCode(Lift(drop) + b.syms, b.pool, names, b.ok, b.exact)
  }

  function CaseCode(drop: seq<byte>, vs: ExprCode, b: StmtCode, rest: StmtCode, jumps: bool,
                    names: seq<Local>): StmtCode
  {
    var toEnd := if jumps then Jump(OP_JUMP, |rest.syms|) else [];
    StmtCode(Lift(vs.bytes + Jump(OP_JUMP, |drop| + |b.syms| + |toEnd|))
             + (Lift(drop) + (b.syms + (Lift(toEnd) + rest.syms))),
             rest.pool, names, vs.ok && b.ok && rest.ok, vs.exact && b.exact && rest.exact && jumps)
  }

  /** The tests of one case; each match jumps over the rest of the tests and the jump behind them. */
  function CompValues(values: seq<Expr>, j: nat, hasSubject: bool, names: seq<Local>, pool: seq<Value>): (r: ExprCode)
    ensures pool <= r.pool
  {
    if values == [] then ExprCode([], pool, true, true) else
    var v := CompExpr(values[0], names, pool);
    var rest := CompValues(values[1..], j + 1, hasSubject, names, v.pool);
    var test := if hasSubject then [OP_DUP] + v.bytes + [OP_EQ] else v.bytes;
    var hit := if j < MAX_PATCHES then Jump(OP_JUMP_IF_TRUE, |rest.bytes| + 4) else [];
    ExprCode(test + hit + rest.bytes, rest.pool, v.ok && rest.ok, v.exact && rest.exact && j < MAX_PATCHES)
  }

  // ---------------------------------------------------------------------
  // Whole chunks
  // ---------------------------------------------------------------------

  function CompProgram(ss: seq<Stmt>): StmtCode
  {
    var r := CompSeq(ss, Context(true, [], 0, NoLoop), []);
    r.(syms := r.syms + Lift([OP_RETURN_NIL]))
  }

  function ParamNames(params: seq<Ident>): (names: seq<Local>)
    ensures |names| == |params|
  {
    seq(|params|, i requires 0 <= i < |params| => Local(Named(params[i]), 0))
  }

  /** A function whose parameters fill the first slots; its body sees no enclosing function's locals. */
  function CompFunction(params: seq<Ident>, body: seq<Stmt>): StmtCode
  {
    var r := CompBlock(body, Context(false, ParamNames(params), 0, NoLoop), []);
    r.(syms := r.syms + Lift([OP_RETURN_NIL]))
  }

  /** When exactly the locals from base on have the given depth, those are the ones that die. */
  lemma {:induction false} DyingAre(names: seq<Local>, base: nat, depth: nat)
    requires base <= |names|
    requires forall i :: base <= i < |names| ==> names[i].depth == depth
    ensures Dying(names, depth) >= |names| - base
    ensures base == 0 || names[base - 1].depth != depth ==> Dying(names, depth) == |names| - base
  {
    if |names| > base {
      DyingAre(names[..|names| - 1], base, depth);
    }
  }
}
