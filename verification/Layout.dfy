/**
  The shape of finished chunks: decoding them from the front, with the operand lengths of the
  disassembler's table, meets exactly the emitted instructions, and every jump leads to one of them
  or to the end. This needs nothing but that the compiler accepted the code, that it is short enough
  for 24-bit distances, and that no function literal captures 256 variables.
*/
module Layout {
  import opened Values
  import opened Bytecode
  import opened Making
  import opened Machine
  import opened Source
  import opened CodeGen
  import opened Patching
  import opened Stepping
  import opened Placement
  import opened SimpleStmts
  import opened StmtCorrect
  import opened ProgramCorrect

  // ---------------------------------------------------------------------
  // Captures that can be counted in a byte
  // ---------------------------------------------------------------------

  /** No function literal in e has more descriptors than its count byte can say. */
  predicate Counted(e: Expr)
    decreases e, 1
  {
    match e
    case Lit(_) => true
    case BoolLit(_) => true
    case NilLit => true
    case Var(_) => true
    case Unary(_, a) => Counted(a)
    case Plus(a) => Counted(a)
    case Binary(_, l, r) => Counted(l) && Counted(r)
    case And(l, r) => Counted(l) && Counted(r)
    case Or(l, r) => Counted(l) && Counted(r)
    case Attr(o, _) => Counted(o)
    case Elems(_, es) => AllCounted(es)
    case Call(f, es) => Counted(f) && AllCounted(es)
    case Func(ds, _, captures) => AllCounted(ds) && |captures| <= MAX_COUNT
  }

  predicate AllCounted(es: seq<Expr>)
    decreases es, 0
  {
    es != [] ==> Counted(es[0]) && AllCounted(es[1..])
  }

  predicate CountedOpt(e: Option<Expr>)
  {
    e.Some? ==> Counted(e.value)
  }

  predicate CountedStmt(s: Stmt)
    decreases s, 0
  {
    match s
    case ExprStmt(e) => Counted(e)
    case VarDecl(_, init) => CountedOpt(init)
    case Assign(_, e) => Counted(e)
    case SetItem(obj, key, e) => AllCounted([e, obj, key])
    case SetAttr(obj, _, e) => AllCounted([e, obj])
    case DelItem(obj, key) => AllCounted([obj, key])
    case Compound(_, _, e) => Counted(e)
    case If(cond, thn, _, els) => Counted(cond) && CountedSeq(thn) && CountedSeq(els)
    case While(cond, body) => Counted(cond) && CountedSeq(body)
    case Forever(body) => CountedSeq(body)
    case ForIn(_, iter, body) => Counted(iter) && CountedSeq(body)
    case Switch(subject, cases) =>
      CountedOpt(subject) && forall i :: 0 <= i < |cases| ==> AllCounted(cases[i].values) && CountedSeq(cases[i].body)
    case Block(ss) => CountedSeq(ss)
    case Break => true
    case Continue => true
    case Pass => true
    case Return(e) => CountedOpt(e)
    case FuncDecl(_, f) => Counted(f)
    case ClassDecl(_, base, _) => CountedOpt(base)
  }

  predicate CountedSeq(ss: seq<Stmt>)
    decreases ss, 0
  {
    forall i :: 0 <= i < |ss| ==> CountedStmt(ss[i])
  }

  // ---------------------------------------------------------------------
  // Stretches of instructions
  // ---------------------------------------------------------------------

  /** Decoding from `from` comes to `to`. */
  ghost predicate Steps(code: seq<byte>, from: nat, to: nat)
    decreases to - from
  {
    from == to
    || (from < to && Fetch(code, from).Fetched? && 0 < Fetch(code, from).instr.len <= to - from
        && Steps(code, from + Fetch(code, from).instr.len, to))
  }

  ghost predicate OnBoundary(code: seq<byte>, t: int)
  {
    0 <= t <= |code| && Steps(code, 0, t)
  }

  predicate IsJump(code: seq<byte>, q: nat)
  {
    q < |code| && FormatOf(code[q]) == FmtJump && Fetch(code, q).Fetched?
  }

  function Target(code: seq<byte>, q: nat): int
    requires IsJump(code, q)
  {
    q + 4 + Fetch(code, q).instr.arg
  }

  /** Every jump in this stretch of code leads to an instruction or to the end of the chunk. */
  ghost predicate Lands(code: seq<byte>, from: nat, to: nat)
  {
    forall q: nat {:trigger Steps(code, from, q)} :: q < to && Steps(code, from, q) && IsJump(code, q) ==> OnBoundary(code, Target(code, q))
  }

  /** A stretch of whole instructions whose jumps land, if it begins at one and its open jumps lead to one. */
  ghost predicate Laid(code: seq<byte>, from: nat, to: nat, brk: int, cont: int)
  {
    && from <= to <= |code| && Steps(code, from, to)
    && (OnBoundary(code, from) && OnBoundary(code, brk) && OnBoundary(code, cont) ==> Lands(code, from, to))
  }

  lemma {:induction false} StepsJoin(code: seq<byte>, a: nat, b: nat, c: nat)
    requires Steps(code, a, b) && Steps(code, b, c)
    ensures Steps(code, a, c) && a <= b <= c
    decreases b - a
  {
    hide Fetch;
    StepsForward(code, a, b);
    StepsForward(code, b, c);
    if a != b {
      StepsJoin(code, a + Fetch(code, a).instr.len, b, c);
    }
  }

  lemma {:induction false} StepsForward(code: seq<byte>, a: nat, b: nat)
    requires Steps(code, a, b)
    ensures a <= b
  {
  }

  /** Decoding is deterministic. */
  lemma {:induction false} StepsSplit(code: seq<byte>, a: nat, b: nat, c: nat)
    requires Steps(code, a, b) && Steps(code, a, c) && b <= c
    ensures Steps(code, b, c)
    decreases b - a
  {
    hide Fetch;
    StepsForward(code, a, b);
    if a != b {
      StepsSplit(code, a + Fetch(code, a).instr.len, b, c);
    }
  }

  lemma {:induction false} LandsJoin(code: seq<byte>, a: nat, b: nat, c: nat)
    requires Steps(code, a, b) && Lands(code, a, b) && Lands(code, b, c)
    ensures Lands(code, a, c)
  {
    hide Steps, OnBoundary, IsJump, Target;
    forall q: nat | q < c && Steps(code, a, q) && IsJump(code, q) ensures OnBoundary(code, Target(code, q)) {
      if q >= b {
        StepsSplit(code, a, b, q);
      }
    }
  }

  lemma {:induction false} BoundaryAfter(code: seq<byte>, a: nat, b: nat)
    requires OnBoundary(code, a) && Steps(code, a, b) && b <= |code|
    ensures OnBoundary(code, b)
  {
    hide Steps;
    StepsJoin(code, 0, a, b);
  }

  lemma LaidJoin(code: seq<byte>, a: nat, b: nat, c: nat, brk: int, cont: int)
    requires Laid(code, a, b, brk, cont) && Laid(code, b, c, brk, cont)
    ensures Laid(code, a, c, brk, cont)
  {
    hide Steps, Lands, OnBoundary;
    StepsJoin(code, a, b, c);
    if OnBoundary(code, a) && OnBoundary(code, brk) && OnBoundary(code, cont) {
      BoundaryAfter(code, a, b);
      LandsJoin(code, a, b, c);
    }
  }

  lemma LaidSteps(code: seq<byte>, a: nat, b: nat, brk: int, cont: int)
    requires Laid(code, a, b, brk, cont)
    ensures Steps(code, a, b) && a <= b <= |code|
  {
    hide Steps;
  }

  lemma LaidNothing(code: seq<byte>, a: nat, brk: int, cont: int)
    requires a <= |code|
    ensures Laid(code, a, a, brk, cont)
  {
    hide Fetch;
    forall q: nat | q < a && Steps(code, a, q) ensures false {
      StepsForward(code, a, q);
    }
  }

  // ---------------------------------------------------------------------
  // Single instructions
  // ---------------------------------------------------------------------

  lemma {:induction false} FirstStep(code: seq<byte>, p: nat, q: nat)
    requires Steps(code, p, q)
    ensures q == p || (Fetch(code, p).Fetched? && q >= p + Fetch(code, p).instr.len)
  {
    hide Fetch;
  }

  /** An instruction that is no jump. */
  lemma OneLaid(code: seq<byte>, p: nat, len: nat, brk: int, cont: int)
    requires p + len <= |code| && len > 0 && Fetch(code, p).Fetched? && Fetch(code, p).instr.len == len && FormatOf(code[p]) != FmtJump
    ensures Laid(code, p, p + len, brk, cont)
  {
    hide Fetch, FormatOf;
    assert Steps(code, p + len, p + len);
    forall q: nat | q < p + len && Steps(code, p, q) ensures !IsJump(code, q) {
      FirstStep(code, p, q);
    }
  }

  lemma PlainLaid(code: seq<byte>, p: nat, op: byte, brk: int, cont: int)
    requires CodeAt(code, p, [op]) && FormatOf(op) == FmtNone
    ensures Laid(code, p, p + 1, brk, cont)
  {
    hide Laid, FormatOf;
    FetchPlain(code, p, op);
    assert code[p + 0] == [op][0];
    OneLaid(code, p, 1, brk, cont);
  }

  lemma ALaid(code: seq<byte>, p: nat, op: byte, a: int, brk: int, cont: int)
    requires CodeAt(code, p, OpA(op, a)) && FormatOf(op) == FmtA
    ensures Laid(code, p, p + 2, brk, cont)
  {
    hide Laid, FormatOf;
    assert OpA(op, a) == OpA(op, a % 0x100);
    FetchA(code, p, op, a % 0x100);
    assert code[p + 0] == OpA(op, a)[0];
    OneLaid(code, p, 2, brk, cont);
  }

  lemma AXLaid(code: seq<byte>, p: nat, op: byte, ax: int, brk: int, cont: int)
    requires CodeAt(code, p, OpAX(op, ax)) && FormatOf(op) == FmtAX
    ensures Laid(code, p, p + 4, brk, cont)
  {
    hide Laid, FormatOf;
    assert code[p + 0] == OpAX(op, ax)[0];
    OneLaid(code, p, 4, brk, cont);
  }

  predicate InReach(code: seq<byte>)
  {
    |code| < TWO_23
  }

  lemma {:induction false} JumpSteps(code: seq<byte>, p: nat, op: byte, d: int)
    requires CodeAt(code, p, Jump(op, d)) && FormatOf(op) == FmtJump && InReach(code) && 0 <= p + 4 + d <= |code|
    ensures p + 4 <= |code| && Steps(code, p, p + 4) && IsJump(code, p) && Target(code, p) == p + 4 + d
  {
    hide FormatOf, SignExtendVM;
    FetchJump(code, p, op, d);
    assert code[p + 0] == Jump(op, d)[0];
  }

  /** A jump lands when its target does. */
  lemma JumpLands(code: seq<byte>, p: nat, op: byte, d: int)
    requires CodeAt(code, p, Jump(op, d)) && FormatOf(op) == FmtJump && InReach(code) && 0 <= p + 4 + d <= |code|
    requires OnBoundary(code, p + 4 + d)
    ensures Lands(code, p, p + 4)
  {
    hide FormatOf, SignExtendVM, CodeAt, Jump;
    JumpSteps(code, p, op, d);
    JumpLength(code, p);
    forall q: nat | q < p + 4 && Steps(code, p, q) && IsJump(code, q) ensures OnBoundary(code, Target(code, q)) {
      StepsForward(code, p, q);
    }
  }

  lemma JumpLength(code: seq<byte>, p: nat)
    requires IsJump(code, p)
    ensures Fetch(code, p).instr.len == 4
  {
    hide SignExtendVM, FormatOf;
  }

  /** A jump over a stretch of whole instructions. */
  lemma ForwardLaid(code: seq<byte>, p: nat, op: byte, d: nat, brk: int, cont: int)
    requires CodeAt(code, p, Jump(op, d)) && FormatOf(op) == FmtJump && InReach(code) && p + 4 + d <= |code|
    requires Steps(code, p + 4, p + 4 + d)
    ensures Laid(code, p, p + 4, brk, cont)
  {
    hide FormatOf, Steps, Lands, OnBoundary, CodeAt, Jump;
    JumpSteps(code, p, op, d);
    if OnBoundary(code, p) {
      BoundaryAfter(code, p, p + 4);
      BoundaryAfter(code, p + 4, p + 4 + d);
      JumpLands(code, p, op, d);
    }
  }

  /** The jump of a `break` or a `continue`. */
  lemma OutLaid(code: seq<byte>, p: nat, target: int, brk: int, cont: int)
    requires CodeAt(code, p, Jump(OP_JUMP, target - (p + 4))) && InReach(code) && 0 <= target <= |code| && (target == brk || target == cont)
    ensures Laid(code, p, p + 4, brk, cont)
  {
    hide Steps, Lands, OnBoundary, CodeAt, Jump;
    JumpSteps(code, p, OP_JUMP, target - (p + 4));
    if OnBoundary(code, target) {
      JumpLands(code, p, OP_JUMP, target - (p + 4));
    }
  }

  // ---------------------------------------------------------------------
  // Expressions
  // ---------------------------------------------------------------------

  lemma {:induction false} ExprLaid(e: Expr, names: seq<Local>, pool: seq<Value>, code: seq<byte>, at: nat,
                              brk: int, cont: int)
    requires CompExpr(e, names, pool).ok && CodeAt(code, at, CompExpr(e, names, pool).bytes) && InReach(code) && Counted(e)
    ensures Laid(code, at, at + |CompExpr(e, names, pool).bytes|, brk, cont)
    decreases e, 1
  {
    hide Laid, CodeAt, OpA, OpAX, Resolve;
    match e
    case Lit(v) => AXLaid(code, at, OP_CONST, |pool|, brk, cont);
    case BoolLit(b) => PlainLaid(code, at, if b then OP_CONST_TRUE else OP_CONST_FALSE, brk, cont);
    case NilLit => PlainLaid(code, at, OP_CONST_NIL, brk, cont);
    case Var(x) =>
      if Resolve(names, x) >= 0 {
        ALaid(code, at, OP_GET_LOCAL, Resolve(names, x), brk, cont);
      } else {
        AXLaid(code, at, OP_GET_GLOBAL, |pool|, brk, cont);
      }
    case Unary(_, _) => UnaryLaid(e, names, pool, code, at, brk, cont);
    case Plus(a) => ExprLaid(a, names, pool, code, at, brk, cont);
    case Binary(_, _, _) => BinaryLaid(e, names, pool, code, at, brk, cont);
    case And(l, r) => ShortLaid(e, l, r, OP_AND_JMP, names, pool, code, at, brk, cont);
    case Or(l, r) => ShortLaid(e, l, r, OP_OR_JMP, names, pool, code, at, brk, cont);
    case Attr(_, _) => AttrLaid(e, names, pool, code, at, brk, cont);
    case Elems(_, _) => ElemsLaid(e, names, pool, code, at, brk, cont);
    case Call(_, _) => CallLaid(e, names, pool, code, at, brk, cont);
    case Func(_, _, _) => FuncLaid(e, names, pool, code, at, brk, cont);
  }

  lemma UnaryLaid(e: Expr, names: seq<Local>, pool: seq<Value>, code: seq<byte>, at: nat, brk: int, cont: int)
    requires e.Unary? && CompExpr(e, names, pool).ok && CodeAt(code, at, CompExpr(e, names, pool).bytes) && InReach(code) && Counted(e)
    ensures Laid(code, at, at + |CompExpr(e, names, pool).bytes|, brk, cont)
    decreases e, 0
  {
    hide Laid, CodeAt;
    var a := CompExpr(e.operand, names, pool);
    CodeAtSplit(code, at, a.bytes, [e.uop]);
    ExprLaid(e.operand, names, pool, code, at, brk, cont);
    PlainLaid(code, at + |a.bytes|, e.uop, brk, cont);
    LaidJoin(code, at, at + |a.bytes|, at + |a.bytes| + 1, brk, cont);
  }

  lemma AttrLaid(e: Expr, names: seq<Local>, pool: seq<Value>, code: seq<byte>, at: nat, brk: int, cont: int)
    requires e.Attr? && CompExpr(e, names, pool).ok && CodeAt(code, at, CompExpr(e, names, pool).bytes) && InReach(code) && Counted(e)
    ensures Laid(code, at, at + |CompExpr(e, names, pool).bytes|, brk, cont)
    decreases e, 0
  {
    hide Laid, CodeAt;
    var o := CompExpr(e.obj, names, pool);
    CodeAtSplit(code, at, o.bytes, OpAX(OP_GET_ATTR, |o.pool|));
    ExprLaid(e.obj, names, pool, code, at, brk, cont);
    AXLaid(code, at + |o.bytes|, OP_GET_ATTR, |o.pool|, brk, cont);
    LaidJoin(code, at, at + |o.bytes|, at + |o.bytes| + 4, brk, cont);
  }

  lemma ElemsLaid(e: Expr, names: seq<Local>, pool: seq<Value>, code: seq<byte>, at: nat, brk: int, cont: int)
    requires e.Elems? && CompExpr(e, names, pool).ok && CodeAt(code, at, CompExpr(e, names, pool).bytes) && InReach(code) && Counted(e)
    ensures Laid(code, at, at + |CompExpr(e, names, pool).bytes|, brk, cont)
    decreases e, 0
  {
    hide Laid, CodeAt;
    var a := CompExprs(e.elems, names, pool);
    CodeAtSplit(code, at, a.bytes, OpA(e.build, |e.elems|));
    ExprsLaid(e.elems, names, pool, code, at, brk, cont);
    ALaid(code, at + |a.bytes|, e.build, |e.elems|, brk, cont);
    LaidJoin(code, at, at + |a.bytes|, at + |a.bytes| + 2, brk, cont);
  }

  lemma BinaryLaid(e: Expr, names: seq<Local>, pool: seq<Value>, code: seq<byte>, at: nat, brk: int, cont: int)
    requires e.Binary? && CompExpr(e, names, pool).ok && CodeAt(code, at, CompExpr(e, names, pool).bytes) && InReach(code) && Counted(e)
    ensures Laid(code, at, at + |CompExpr(e, names, pool).bytes|, brk, cont)
    decreases e, 0
  {
    hide Laid, CodeAt;
    var l := CompExpr(e.left, names, pool);
    var r := CompExpr(e.right, names, l.pool);
    CodeAtSplit(code, at, l.bytes + r.bytes, [e.bop]);
    CodeAtSplit(code, at, l.bytes, r.bytes);
    ExprLaid(e.left, names, pool, code, at, brk, cont);
    ExprLaid(e.right, names, l.pool, code, at + |l.bytes|, brk, cont);
    var m := at + |l.bytes| + |r.bytes|;
    LaidJoin(code, at, at + |l.bytes|, m, brk, cont);
    BinaryPlain(e.bop);
    PlainLaid(code, m, e.bop, brk, cont);
    LaidJoin(code, at, m, m + 1, brk, cont);
  }

  lemma BinaryPlain(op: byte)
    requires Arity(op) == 2
    ensures FormatOf(op) == FmtNone
  {
  }

  lemma ShortFormat()
    ensures FormatOf(OP_AND_JMP) == FmtJump && FormatOf(OP_OR_JMP) == FmtJump && FormatOf(OP_JUMP_IF_TRUE) == FmtJump
  {
  }

  lemma ShortLaid(e: Expr, left: Expr, right: Expr, op: byte, names: seq<Local>, pool: seq<Value>, code: seq<byte>,
                  at: nat, brk: int, cont: int)
    requires IsShort(e, left, op, right)
    requires CompExpr(e, names, pool).ok && CodeAt(code, at, CompExpr(e, names, pool).bytes) && InReach(code) && Counted(e)
    ensures Laid(code, at, at + |CompExpr(e, names, pool).bytes|, brk, cont)
    decreases e, 0
  {
    hide CodeAt, Laid, Steps, Jump, CompExpr, FormatOf;
    ShortCode(e, left, op, right, names, pool);
    ShortFormat();
    var l := CompExpr(left, names, pool);
    var r := CompExpr(right, names, l.pool);
    CodeAtSplit(code, at, l.bytes + Jump(op, |r.bytes|), r.bytes);
    CodeAtSplit(code, at, l.bytes, Jump(op, |r.bytes|));
    ExprLaid(left, names, pool, code, at, brk, cont);
    ExprLaid(right, names, l.pool, code, at + |l.bytes| + 4, brk, cont);
    JumpBetween(code, at, at + |l.bytes|, op, |r.bytes|, brk, cont);
  }

  /** A stretch, a jump over the next one, and that one. */
  lemma JumpBetween(code: seq<byte>, at: nat, p: nat, op: byte, d: nat, brk: int, cont: int)
    requires Laid(code, at, p, brk, cont) && Laid(code, p + 4, p + 4 + d, brk, cont)
    requires CodeAt(code, p, Jump(op, d)) && FormatOf(op) == FmtJump && InReach(code)
    ensures Laid(code, at, p + 4 + d, brk, cont)
  {
    hide CodeAt, Laid, Steps, Jump, FormatOf;
    LaidSteps(code, p + 4, p + 4 + d, brk, cont);
    ForwardLaid(code, p, op, d, brk, cont);
    LaidJoin(code, at, p, p + 4, brk, cont);
    LaidJoin(code, at, p + 4, p + 4 + d, brk, cont);
  }

  lemma CallLaid(e: Expr, names: seq<Local>, pool: seq<Value>, code: seq<byte>, at: nat, brk: int, cont: int)
    requires e.Call? && CompExpr(e, names, pool).ok && CodeAt(code, at, CompExpr(e, names, pool).bytes) && InReach(code) && Counted(e)
    ensures Laid(code, at, at + |CompExpr(e, names, pool).bytes|, brk, cont)
    decreases e, 0
  {
    hide Laid, CodeAt;
    var f := CompExpr(e.callee, names, pool);
    var a := CompExprs(e.args, names, f.pool);
    CodeAtSplit(code, at, f.bytes + a.bytes, OpA(OP_CALL, |e.args|));
    CodeAtSplit(code, at, f.bytes, a.bytes);
    ExprLaid(e.callee, names, pool, code, at, brk, cont);
    ExprsLaid(e.args, names, f.pool, code, at + |f.bytes|, brk, cont);
    var m := at + |f.bytes| + |a.bytes|;
    LaidJoin(code, at, at + |f.bytes|, m, brk, cont);
    ALaid(code, m, OP_CALL, |e.args|, brk, cont);
    LaidJoin(code, at, m, m + 2, brk, cont);
  }

  lemma FuncLaid(e: Expr, names: seq<Local>, pool: seq<Value>, code: seq<byte>, at: nat, brk: int, cont: int)
    requires e.Func? && CompExpr(e, names, pool).ok && CodeAt(code, at, CompExpr(e, names, pool).bytes) && InReach(code) && Counted(e)
    ensures Laid(code, at, at + |CompExpr(e, names, pool).bytes|, brk, cont)
    decreases e, 0
  {
    hide Laid, CodeAt, MakeFunc;
    var rs := CompExprs(e.defaults, names, pool);
    var make := MakeFunc(|rs.pool|, e.captures);
    CodeAtSplit(code, at, rs.bytes, make);
    ExprsLaid(e.defaults, names, pool, code, at, brk, cont);
    var p := at + |rs.bytes|;
    MakeFuncLaid(|rs.pool|, e.captures, code, p, brk, cont);
    LaidJoin(code, at, p, p + |make|, brk, cont);
  }

  /** With at most 255 descriptors the count says how long the instruction is. */
  lemma MakeFuncLaid(k: nat, captures: seq<Desc>, code: seq<byte>, p: nat, brk: int, cont: int)
    requires CodeAt(code, p, MakeFunc(k, captures)) && |captures| <= MAX_COUNT
    ensures Laid(code, p, p + |MakeFunc(k, captures)|, brk, cont)
  {
    hide Laid, MakeFunc, Fetch, Taken, CodeAt;
    HeadBytes(code, p, k, captures);
    TakesFirst(code, p, k, captures);
    OneLaid(code, p, 5 + 2 * |captures|, brk, cont);
  }

  lemma MakeClassLaid(k: nat, bases: nat, ms: seq<Member>, code: seq<byte>, p: nat, brk: int, cont: int)
    requires CodeAt(code, p, MakeClass(k, bases, ms)) && |ms| <= MAX_COUNT
    ensures Laid(code, p, p + |MakeClass(k, bases, ms)|, brk, cont)
  {
    hide Laid, MakeClass, Fetch, TakenMembers, CodeAt;
    ClassHead(code, p, k, bases, ms);
    MembersReadBack(code, p, k, bases, ms);
    OneLaid(code, p, 5 + 4 * |ms|, brk, cont);
  }

  lemma {:induction false} ExprsLaid(es: seq<Expr>, names: seq<Local>, pool: seq<Value>, code: seq<byte>, at: nat,
                              brk: int, cont: int)
    requires CompExprs(es, names, pool).ok && CodeAt(code, at, CompExprs(es, names, pool).bytes) && InReach(code) && AllCounted(es)
    ensures Laid(code, at, at + |CompExprs(es, names, pool).bytes|, brk, cont)
    decreases es, 0
  {
    hide Laid;
    if es == [] {
      LaidNothing(code, at, brk, cont);
    } else {
      var r0 := CompExpr(es[0], names, pool);
      var r1 := CompExprs(es[1..], names, r0.pool);
      CodeAtSplit(code, at, r0.bytes, r1.bytes);
      ExprLaid(es[0], names, pool, code, at, brk, cont);
      ExprsLaid(es[1..], names, r0.pool, code, at + |r0.bytes|, brk, cont);
      LaidJoin(code, at, at + |r0.bytes|, at + |r0.bytes| + |r1.bytes|, brk, cont);
    }
  }

  // ---------------------------------------------------------------------
  // Statements
  // ---------------------------------------------------------------------

  ghost predicate Sits(code: seq<byte>, at: nat, r: StmtCode, brk: int, cont: int)
  {
    r.ok && Fits(code, at, r.syms, brk, cont) && InReach(code) && 0 <= brk <= |code| && 0 <= cont <= |code|
  }

  /** Straight-line code, given as bytes. */
  lemma StraightSits(code: seq<byte>, at: nat, bytes: seq<byte>, brk: int, cont: int)
    requires Fits(code, at, Lift(bytes), brk, cont)
    ensures CodeAt(code, at, bytes)
  {
    FitsLift(code, at, bytes, brk, cont);
  }

  /** An expression and a known tail behind it. */
  lemma ExprAndTail(e: Expr, names: seq<Local>, pool: seq<Value>, tail: seq<byte>, code: seq<byte>, at: nat,
                    brk: int, cont: int)
    requires var r := CompExpr(e, names, pool); r.ok && CodeAt(code, at, r.bytes + tail) && InReach(code) && Counted(e)
    ensures var r := CompExpr(e, names, pool);
      CodeAt(code, at + |r.bytes|, tail) && Laid(code, at, at + |r.bytes|, brk, cont)
  {
    hide Laid, CompExpr, CodeAt;
    CodeAtSplit(code, at, CompExpr(e, names, pool).bytes, tail);
    ExprLaid(e, names, pool, code, at, brk, cont);
  }

  lemma ExprsAndTail(es: seq<Expr>, names: seq<Local>, pool: seq<Value>, tail: seq<byte>, code: seq<byte>, at: nat,
                     brk: int, cont: int)
    requires var r := CompExprs(es, names, pool); r.ok && CodeAt(code, at, r.bytes + tail) && InReach(code) && AllCounted(es)
    ensures var r := CompExprs(es, names, pool);
      CodeAt(code, at + |r.bytes|, tail) && Laid(code, at, at + |r.bytes|, brk, cont)
  {
    hide Laid, CompExprs, CodeAt;
    CodeAtSplit(code, at, CompExprs(es, names, pool).bytes, tail);
    ExprsLaid(es, names, pool, code, at, brk, cont);
  }

  /** One instruction in front of OP_POP. */
  lemma StoreAndPop(code: seq<byte>, p: nat, store: seq<byte>, end: nat, brk: int, cont: int)
    requires CodeAt(code, p, store + [OP_POP]) && end == p + |store| + 1 && Laid(code, p, p + |store|, brk, cont)
    ensures Laid(code, p, end, brk, cont)
  {
    hide Laid, CodeAt;
    CodeAtSplit(code, p, store, [OP_POP]);
    PlainLaid(code, p + |store|, OP_POP, brk, cont);
    LaidJoin(code, p, p + |store|, end, brk, cont);
  }

  lemma SetterLaid(x: Ident, names: seq<Local>, pool: seq<Value>, code: seq<byte>, p: nat, brk: int, cont: int)
    requires CodeAt(code, p, SetVar(names, pool, x).bytes)
    ensures Laid(code, p, p + |SetVar(names, pool, x).bytes|, brk, cont)
  {
    hide Laid, CodeAt, Resolve;
    if Resolve(names, x) >= 0 {
      ALaid(code, p, OP_SET_LOCAL, Resolve(names, x), brk, cont);
    } else {
      AXLaid(code, p, OP_SET_GLOBAL, |pool|, brk, cont);
    }
  }

  lemma GetterLaid(x: Ident, names: seq<Local>, pool: seq<Value>, code: seq<byte>, p: nat, brk: int, cont: int)
    requires CodeAt(code, p, GetVar(names, pool, x).bytes)
    ensures Laid(code, p, p + |GetVar(names, pool, x).bytes|, brk, cont)
  {
    hide Laid, CodeAt, Resolve;
    if Resolve(names, x) >= 0 {
      ALaid(code, p, OP_GET_LOCAL, Resolve(names, x), brk, cont);
    } else {
      AXLaid(code, p, OP_GET_GLOBAL, |pool|, brk, cont);
    }
  }

  lemma ExprStmtLaid(e: Expr, names: seq<Local>, pool: seq<Value>, code: seq<byte>, at: nat, brk: int, cont: int)
    requires Sits(code, at, ExprStmtCode(e, names, pool), brk, cont) && Counted(e)
    ensures Laid(code, at, at + |ExprStmtCode(e, names, pool).syms|, brk, cont)
  {
    hide Laid, CompExpr, Fits, CodeAt;
    var r := CompExpr(e, names, pool);
    StraightSits(code, at, r.bytes + [OP_POP], brk, cont);
    ExprAndTail(e, names, pool, [OP_POP], code, at, brk, cont);
    PlainLaid(code, at + |r.bytes|, OP_POP, brk, cont);
    LaidJoin(code, at, at + |r.bytes|, at + |r.bytes| + 1, brk, cont);
  }

  lemma OptAndTail(e: Option<Expr>, names: seq<Local>, pool: seq<Value>, tail: seq<byte>, code: seq<byte>, at: nat,
                   brk: int, cont: int)
    requires var r := OptExpr(e, names, pool); r.ok && CodeAt(code, at, r.bytes + tail) && InReach(code) && CountedOpt(e)
    ensures var r := OptExpr(e, names, pool);
      CodeAt(code, at + |r.bytes|, tail) && Laid(code, at, at + |r.bytes|, brk, cont)
  {
    hide Laid, CompExpr, CodeAt;
    if e.Some? {
      ExprAndTail(e.value, names, pool, tail, code, at, brk, cont);
    } else {
      CodeAtSplit(code, at, [OP_CONST_NIL], tail);
      PlainLaid(code, at, OP_CONST_NIL, brk, cont);
    }
  }

  lemma VarDeclLaid(x: Ident, init: Option<Expr>, cx: Context, pool: seq<Value>, code: seq<byte>, at: nat, brk: int,
                    cont: int)
    requires Sits(code, at, VarDeclCode(x, init, cx, pool), brk, cont) && CountedOpt(init)
    ensures Laid(code, at, at + |VarDeclCode(x, init, cx, pool).syms|, brk, cont)
  {
    hide Laid, OptExpr, Fits, CodeAt, OpAX;
    var r := OptExpr(init, cx.names, pool);
    if cx.top {
      var store := OpAX(OP_SET_GLOBAL, |r.pool|);
      assert r.bytes + store + [OP_POP] == r.bytes + (store + [OP_POP]);
      StraightSits(code, at, r.bytes + (store + [OP_POP]), brk, cont);
      OptAndTail(init, cx.names, pool, store + [OP_POP], code, at, brk, cont);
      var p := at + |r.bytes|;
      CodeAtSplit(code, p, store, [OP_POP]);
      AXLaid(code, p, OP_SET_GLOBAL, |r.pool|, brk, cont);
      StoreAndPop(code, p, store, p + 5, brk, cont);
      LaidJoin(code, at, p, p + 5, brk, cont);
    } else {
      StraightSits(code, at, r.bytes, brk, cont);
      assert r.bytes + [] == r.bytes;
      OptAndTail(init, cx.names, pool, [], code, at, brk, cont);
    }
  }

  lemma AssignLaid(x: Ident, e: Expr, names: seq<Local>, pool: seq<Value>, code: seq<byte>, at: nat, brk: int,
                   cont: int)
    requires Sits(code, at, AssignCode(x, e, names, pool), brk, cont) && Counted(e)
    ensures Laid(code, at, at + |AssignCode(x, e, names, pool).syms|, brk, cont)
  {
    hide Laid, CompExpr, Fits, CodeAt, SetVar;
    var r := CompExpr(e, names, pool);
    var store := SetVar(names, r.pool, x).bytes;
    assert r.bytes + store + [OP_POP] == r.bytes + (store + [OP_POP]);
    StraightSits(code, at, r.bytes + (store + [OP_POP]), brk, cont);
    ExprAndTail(e, names, pool, store + [OP_POP], code, at, brk, cont);
    var p := at + |r.bytes|;
    CodeAtSplit(code, p, store, [OP_POP]);
    SetterLaid(x, names, r.pool, code, p, brk, cont);
    StoreAndPop(code, p, store, p + |store| + 1, brk, cont);
    LaidJoin(code, at, p, p + |store| + 1, brk, cont);
  }

  lemma CompoundLaid(op: byte, x: Ident, e: Expr, names: seq<Local>, pool: seq<Value>, code: seq<byte>, at: nat,
                     brk: int, cont: int)
    requires Sits(code, at, CompoundCode(op, x, e, names, pool), brk, cont) && Counted(e)
    ensures Laid(code, at, at + |CompoundCode(op, x, e, names, pool).syms|, brk, cont)
  {
    hide Laid, CompExpr, Fits, CodeAt, SetVar, GetVar;
    var get := GetVar(names, pool, x);
    var r := CompExpr(e, names, get.pool);
    var store := SetVar(names, pool, x).bytes;
    assert get.bytes + r.bytes + [op] + store + [OP_POP] == get.bytes + (r.bytes + ([op] + (store + [OP_POP])));
    StraightSits(code, at, get.bytes + (r.bytes + ([op] + (store + [OP_POP]))), brk, cont);
    CodeAtSplit(code, at, get.bytes, r.bytes + ([op] + (store + [OP_POP])));
    var p := at + |get.bytes|;
    GetterLaid(x, names, pool, code, at, brk, cont);
    ExprAndTail(e, names, get.pool, [op] + (store + [OP_POP]), code, p, brk, cont);
    var q := p + |r.bytes|;
    CodeAtSplit(code, q, [op], store + [OP_POP]);
    CompoundPlain(op);
    PlainLaid(code, q, op, brk, cont);
    CodeAtSplit(code, q + 1, store, [OP_POP]);
    SetterLaid(x, names, pool, code, q + 1, brk, cont);
    var end := q + 1 + |store| + 1;
    StoreAndPop(code, q + 1, store, end, brk, cont);
    LaidJoin(code, at, p, q, brk, cont);
    LaidJoin(code, at, q, q + 1, brk, cont);
    LaidJoin(code, at, q + 1, end, brk, cont);
  }

  lemma CompoundPlain(op: byte)
    requires CompoundOp(op)
    ensures FormatOf(op) == FmtNone
  {
  }

  /** Stores to items and attributes, and deletions: operands, one instruction, perhaps a pop. */
  lemma StoreLaid(s: Stmt, cx: Context, pool: seq<Value>, code: seq<byte>, at: nat, brk: int, cont: int)
    requires (s.SetItem? || s.SetAttr? || s.DelItem?) && Sits(code, at, CompStmt(s, cx, pool), brk, cont) && CountedStmt(s)
    ensures Laid(code, at, at + |CompStmt(s, cx, pool).syms|, brk, cont)
  {
    hide Laid, CompExprs, Fits, CodeAt, OpAX;
    match s
    case SetItem(obj, key, e) =>
      var r := CompExprs([e, obj, key], cx.names, pool);
      assert r.bytes + [OP_SET_ITEM] + [OP_POP] == r.bytes + ([OP_SET_ITEM] + [OP_POP]);
      StraightSits(code, at, r.bytes + ([OP_SET_ITEM] + [OP_POP]), brk, cont);
      ExprsAndTail([e, obj, key], cx.names, pool, [OP_SET_ITEM] + [OP_POP], code, at, brk, cont);
      var p := at + |r.bytes|;
      CodeAtSplit(code, p, [OP_SET_ITEM], [OP_POP]);
      PlainLaid(code, p, OP_SET_ITEM, brk, cont);
      StoreAndPop(code, p, [OP_SET_ITEM], p + 2, brk, cont);
      LaidJoin(code, at, p, p + 2, brk, cont);
    case SetAttr(obj, name, e) =>
      var r := CompExprs([e, obj], cx.names, pool);
      var store := OpAX(OP_SET_ATTR, |r.pool|);
      assert r.bytes + store + [OP_POP] == r.bytes + (store + [OP_POP]);
      StraightSits(code, at, r.bytes + (store + [OP_POP]), brk, cont);
      ExprsAndTail([e, obj], cx.names, pool, store + [OP_POP], code, at, brk, cont);
      var p := at + |r.bytes|;
      CodeAtSplit(code, p, store, [OP_POP]);
      AXLaid(code, p, OP_SET_ATTR, |r.pool|, brk, cont);
      StoreAndPop(code, p, store, p + 5, brk, cont);
      LaidJoin(code, at, p, p + 5, brk, cont);
    case DelItem(obj, key) =>
      var r := CompExprs([obj, key], cx.names, pool);
      StraightSits(code, at, r.bytes + [OP_DEL_ITEM], brk, cont);
      ExprsAndTail([obj, key], cx.names, pool, [OP_DEL_ITEM], code, at, brk, cont);
      PlainLaid(code, at + |r.bytes|, OP_DEL_ITEM, brk, cont);
      LaidJoin(code, at, at + |r.bytes|, at + |r.bytes| + 1, brk, cont);
  }

  lemma ReturnLaid(e: Option<Expr>, cx: Context, pool: seq<Value>, code: seq<byte>, at: nat, brk: int, cont: int)
    requires Sits(code, at, ReturnCode(e, cx, pool), brk, cont) && CountedOpt(e)
    ensures Laid(code, at, at + |ReturnCode(e, cx, pool).syms|, brk, cont)
  {
    hide Laid, OptExpr, Fits, CodeAt;
    var r := OptExpr(e, cx.names, pool);
    StraightSits(code, at, r.bytes + [OP_RETURN], brk, cont);
    OptAndTail(e, cx.names, pool, [OP_RETURN], code, at, brk, cont);
    PlainLaid(code, at + |r.bytes|, OP_RETURN, brk, cont);
    LaidJoin(code, at, at + |r.bytes|, at + |r.bytes| + 1, brk, cont);
  }

  lemma {:induction false} PopsLaid(n: nat, code: seq<byte>, at: nat, brk: int, cont: int)
    requires CodeAt(code, at, Pops(n))
    ensures Laid(code, at, at + n, brk, cont)
    decreases n
  {
    hide Laid;
    if n == 0 {
      LaidNothing(code, at, brk, cont);
    } else {
      assert Pops(n) == [OP_POP] + Pops(n - 1);
      CodeAtSplit(code, at, [OP_POP], Pops(n - 1));
      PlainLaid(code, at, OP_POP, brk, cont);
      PopsLaid(n - 1, code, at + 1, brk, cont);
      LaidJoin(code, at, at + 1, at + n, brk, cont);
    }
  }

  lemma BreakLaid(cx: Context, pool: seq<Value>, code: seq<byte>, at: nat, brk: int, cont: int)
    requires Sits(code, at, BreakCode(cx, pool), brk, cont)
    ensures Laid(code, at, at + |BreakCode(cx, pool).syms|, brk, cont)
  {
    hide Laid, Fits, CodeAt, Pops, Jump;
    var live := if |cx.names| > cx.loop.base then |cx.names| - cx.loop.base else 0;
    var hole := Lift([OP_JUMP]) + [BreakHole(0), BreakHole(1), BreakHole(2)];
    FitsSplit(code, at, Lift(Pops(live)), hole, brk, cont);
    FitsLift(code, at, Pops(live), brk, cont);
    FitsBreak(code, at + live, brk, cont);
    PopsLaid(live, code, at, brk, cont);
    OutLaid(code, at + live, brk, brk, cont);
    LaidJoin(code, at, at + live, at + live + 4, brk, cont);
  }

  lemma ContinueLaid(cx: Context, pool: seq<Value>, code: seq<byte>, at: nat, brk: int, cont: int)
    requires Sits(code, at, ContinueCode(cx, pool), brk, cont)
    ensures Laid(code, at, at + |ContinueCode(cx, pool).syms|, brk, cont)
  {
    hide Laid, Fits, CodeAt, Jump;
    FitsContinue(code, at, brk, cont);
    OutLaid(code, at, cont, brk, cont);
  }

  // ---------------------------------------------------------------------
  // Control flow
  // ---------------------------------------------------------------------

  lemma {:induction false} StmtLaid(s: Stmt, cx: Context, pool: seq<Value>, code: seq<byte>, at: nat, brk: int,
                              cont: int)
    requires Sits(code, at, CompStmt(s, cx, pool), brk, cont) && CountedStmt(s)
    ensures Laid(code, at, at + |CompStmt(s, cx, pool).syms|, brk, cont)
    decreases s, 2
  {
    hide Laid, Sits, CompBlock, CompCases, CompExpr, CompExprs, Fill;
    match s
    case ExprStmt(e) => ExprStmtLaid(e, cx.names, pool, code, at, brk, cont);
    case VarDecl(x, init) => VarDeclLaid(x, init, cx, pool, code, at, brk, cont);
    case Assign(x, e) => AssignLaid(x, e, cx.names, pool, code, at, brk, cont);
    case SetItem(_, _, _) => StoreLaid(s, cx, pool, code, at, brk, cont);
    case SetAttr(_, _, _) => StoreLaid(s, cx, pool, code, at, brk, cont);
    case DelItem(_, _) => StoreLaid(s, cx, pool, code, at, brk, cont);
    case Compound(op, x, e) => CompoundLaid(op, x, e, cx.names, pool, code, at, brk, cont);
    case If(_, _, _, _) => IfLaid(s, cx, pool, code, at, brk, cont);
    case While(_, _) => WhileLaid(s, cx, pool, code, at, brk, cont);
    case Forever(_) => ForeverLaid(s, cx, pool, code, at, brk, cont);
    case ForIn(_, _, _) => ForInLaid(s, cx, pool, code, at, brk, cont);
    case Switch(_, _) => SwitchLaid(s, cx, pool, code, at, brk, cont);
    case Block(ss) => BlockLaid(ss, cx, pool, code, at, brk, cont);
    case Break => BreakLaid(cx, pool, code, at, brk, cont);
    case Continue => ContinueLaid(cx, pool, code, at, brk, cont);
    case Pass => PassLaid(cx, pool, code, at, brk, cont);
    case Return(e) => ReturnLaid(e, cx, pool, code, at, brk, cont);
    case FuncDecl(x, f) => FuncDeclLaid(x, f, cx, pool, code, at, brk, cont);
    case ClassDecl(x, base, ms) => ClassDeclLaid(x, base, ms, cx, pool, code, at, brk, cont);
  }

  lemma FuncDeclLaid(x: Ident, f: Expr, cx: Context, pool: seq<Value>, code: seq<byte>, at: nat, brk: int, cont: int)
    requires Sits(code, at, DeclCode(CompExpr(f, cx.names, pool), x, cx), brk, cont) && Counted(f)
    ensures Laid(code, at, at + |DeclCode(CompExpr(f, cx.names, pool), x, cx).syms|, brk, cont)
  {
    hide Laid, CompExpr, Fits, CodeAt, DeclTail;
    var r := CompExpr(f, cx.names, pool);
    DeclPieces(r, x, cx, code, at, brk, cont);
    ExprLaid(f, cx.names, pool, code, at, brk, cont);
    DeclTailLaid(r, cx, code, at + |r.bytes|, brk, cont);
    LaidJoin(code, at, at + |r.bytes|, at + |r.bytes| + |DeclTail(r, cx)|, brk, cont);
  }

  lemma ClassDeclLaid(x: Ident, base: Option<Expr>, ms: seq<Method>, cx: Context, pool: seq<Value>, code: seq<byte>,
                      at: nat, brk: int, cont: int)
    requires Sits(code, at, DeclCode(ClassCode(x, base, ms, cx.names, pool), x, cx), brk, cont) && CountedOpt(base)
    ensures Laid(code, at, at + |DeclCode(ClassCode(x, base, ms, cx.names, pool), x, cx).syms|, brk, cont)
  {
    hide Laid, ClassCode, Fits, CodeAt, DeclTail;
    var r := ClassCode(x, base, ms, cx.names, pool);
    DeclPieces(r, x, cx, code, at, brk, cont);
    ClassLaid(x, base, ms, cx.names, pool, code, at, brk, cont);
    DeclTailLaid(r, cx, code, at + |r.bytes|, brk, cont);
    LaidJoin(code, at, at + |r.bytes|, at + |r.bytes| + |DeclTail(r, cx)|, brk, cont);
  }

  lemma DeclPieces(r: ExprCode, x: Ident, cx: Context, code: seq<byte>, at: nat, brk: int, cont: int)
    requires Sits(code, at, DeclCode(r, x, cx), brk, cont)
    ensures r.ok && CodeAt(code, at, r.bytes) && CodeAt(code, at + |r.bytes|, DeclTail(r, cx)) && InReach(code)
    ensures |DeclCode(r, x, cx).syms| == |r.bytes| + |DeclTail(r, cx)|
  {
    hide Fits, CodeAt;
    StraightSits(code, at, r.bytes + DeclTail(r, cx), brk, cont);
    CodeAtSplit(code, at, r.bytes, DeclTail(r, cx));
  }

  lemma DeclTailLaid(r: ExprCode, cx: Context, code: seq<byte>, p: nat, brk: int, cont: int)
    requires CodeAt(code, p, DeclTail(r, cx))
    ensures Laid(code, p, p + |DeclTail(r, cx)|, brk, cont)
  {
    hide Laid, CodeAt, OpA, OpAX;
    if cx.top {
      var store := OpAX(OP_SET_GLOBAL, |r.pool|);
      CodeAtSplit(code, p, store, [OP_POP]);
      AXLaid(code, p, OP_SET_GLOBAL, |r.pool|, brk, cont);
      StoreAndPop(code, p, store, p + 5, brk, cont);
    } else {
      var store := OpA(OP_SET_LOCAL, |cx.names|);
      CodeAtSplit(code, p, store, [OP_POP]);
      ALaid(code, p, OP_SET_LOCAL, |cx.names|, brk, cont);
      StoreAndPop(code, p, store, p + 3, brk, cont);
    }
  }

  lemma ClassLaid(x: Ident, base: Option<Expr>, ms: seq<Method>, names: seq<Local>, pool: seq<Value>,
                  code: seq<byte>, at: nat, brk: int, cont: int)
    requires var r := ClassCode(x, base, ms, names, pool); r.ok && CodeAt(code, at, r.bytes) && InReach(code) && CountedOpt(base)
    ensures Laid(code, at, at + |ClassCode(x, base, ms, names, pool).bytes|, brk, cont)
  {
    hide Laid, CodeAt, MakeClass, CompExpr, MethodPool, Numbered;
    var b := Subject(base, names, pool);
    var k, bases, members := |MethodPool(ms, |ms|, b.pool)|, if base.Some? then 1 else 0, Numbered(|ms|, |b.pool|);
    CodeAtSplit(code, at, b.bytes, MakeClass(k, bases, members));
    if base.Some? {
      ExprLaid(base.value, names, pool, code, at, brk, cont);
    } else {
      HeadFits(code, at, k, bases, members);
      LaidNothing(code, at, brk, cont);
    }
    var p := at + |b.bytes|;
    MakeClassLaid(k, bases, members, code, p, brk, cont);
    LaidJoin(code, at, p, p + |MakeClass(k, bases, members)|, brk, cont);
  }

  lemma HeadFits(code: seq<byte>, at: nat, k: nat, bases: nat, ms: seq<Member>)
    requires CodeAt(code, at, MakeClass(k, bases, ms))
    ensures at <= |code|
  {
    hide MakeClass;
  }

  lemma PassLaid(cx: Context, pool: seq<Value>, code: seq<byte>, at: nat, brk: int, cont: int)
    requires Sits(code, at, Straight([], pool, cx.names, true, true), brk, cont)
    ensures Laid(code, at, at, brk, cont)
  {
    hide Laid;
    LaidNothing(code, at, brk, cont);
  }

  /** A condition and its jump over `skip` bytes that are whole instructions. */
  lemma CondLaid(c: Expr, names: seq<Local>, pool: seq<Value>, skip: nat, code: seq<byte>, at: nat, brk: int, cont: int)
    requires var r := CompExpr(c, names, pool);
      && r.ok && CodeAt(code, at, r.bytes + Jump(OP_JUMP_IF_FALSE, skip)) && InReach(code) && Counted(c)
      && at + |r.bytes| + 4 + skip <= |code| && Steps(code, at + |r.bytes| + 4, at + |r.bytes| + 4 + skip)
    ensures Laid(code, at, at + |CompExpr(c, names, pool).bytes| + 4, brk, cont)
  {
    hide Laid, CompExpr, CodeAt, Jump, Steps;
    var p := at + |CompExpr(c, names, pool).bytes|;
    ExprAndTail(c, names, pool, Jump(OP_JUMP_IF_FALSE, skip), code, at, brk, cont);
    ForwardLaid(code, p, OP_JUMP_IF_FALSE, skip, brk, cont);
    LaidJoin(code, at, p, p + 4, brk, cont);
  }

  lemma IfLaid(s: Stmt, cx: Context, pool: seq<Value>, code: seq<byte>, at: nat, brk: int, cont: int)
    requires s.If? && Sits(code, at, CompStmt(s, cx, pool), brk, cont) && CountedStmt(s)
    ensures Laid(code, at, at + |CompStmt(s, cx, pool).syms|, brk, cont)
    decreases s, 1
  {
    hide Steps, Lands, OnBoundary, CompExpr, CompBlock, Fits, CodeAt, Jump;
    var c := CompExpr(s.cond, cx.names, pool);
    var t := CompBlock(s.thn, cx, c.pool);
    var f := CompBlock(s.els, cx, t.pool);
    var p := at + |c.bytes| + 4;
    if s.hasElse {
      var jump := Jump(OP_JUMP, |f.syms|);
      var head := c.bytes + Jump(OP_JUMP_IF_FALSE, |t.syms| + 4);
      FitsSplit(code, at, Lift(head), t.syms + (Lift(jump) + f.syms), brk, cont);
      FitsSplit(code, p, t.syms, Lift(jump) + f.syms, brk, cont);
      var q := p + |t.syms|;
      FitsSplit(code, q, Lift(jump), f.syms, brk, cont);
      FitsLift(code, at, head, brk, cont);
      FitsLift(code, q, jump, brk, cont);
      BlockLaid(s.thn, cx, c.pool, code, p, brk, cont);
      BlockLaid(s.els, cx, t.pool, code, q + 4, brk, cont);
      ForwardLaid(code, q, OP_JUMP, |f.syms|, brk, cont);
      LaidJoin(code, p, q, q + 4, brk, cont);
      CondLaid(s.cond, cx.names, pool, |t.syms| + 4, code, at, brk, cont);
      LaidJoin(code, at, p, q + 4, brk, cont);
      LaidJoin(code, at, q + 4, q + 4 + |f.syms|, brk, cont);
    } else {
      var head := c.bytes + Jump(OP_JUMP_IF_FALSE, |t.syms|);
      FitsSplit(code, at, Lift(head), t.syms, brk, cont);
      FitsLift(code, at, head, brk, cont);
      BlockLaid(s.thn, cx, c.pool, code, p, brk, cont);
      CondLaid(s.cond, cx.names, pool, |t.syms|, code, at, brk, cont);
      LaidJoin(code, at, p, p + |t.syms|, brk, cont);
    }
  }

  lemma {:induction false} BlockLaid(ss: seq<Stmt>, cx: Context, pool: seq<Value>, code: seq<byte>, at: nat,
                              brk: int, cont: int)
    requires Sits(code, at, CompBlock(ss, cx, pool), brk, cont) && CountedSeq(ss)
    ensures Laid(code, at, at + |CompBlock(ss, cx, pool).syms|, brk, cont)
    decreases ss, 1
  {
    hide Laid, CompSeq, Fits, CodeAt, Pops;
    var inner := cx.(depth := cx.depth + 1);
    var b := CompSeq(ss, inner, pool);
    var n := |b.names| - |cx.names|;
    FitsSplit(code, at, b.syms, Lift(Pops(n)), brk, cont);
    FitsLift(code, at + |b.syms|, Pops(n), brk, cont);
    SeqLaid(ss, inner, pool, code, at, brk, cont);
    PopsLaid(n, code, at + |b.syms|, brk, cont);
    LaidJoin(code, at, at + |b.syms|, at + |b.syms| + n, brk, cont);
  }

  lemma {:induction false} SeqLaid(ss: seq<Stmt>, cx: Context, pool: seq<Value>, code: seq<byte>, at: nat, brk: int,
                              cont: int)
    requires Sits(code, at, CompSeq(ss, cx, pool), brk, cont) && CountedSeq(ss)
    ensures Laid(code, at, at + |CompSeq(ss, cx, pool).syms|, brk, cont)
    decreases ss, 0
  {
    hide Laid, CompStmt;
    if ss == [] {
      LaidNothing(code, at, brk, cont);
    } else {
      var r0 := CompStmt(ss[0], cx, pool);
      var r1 := CompSeq(ss[1..], cx.(names := r0.names), r0.pool);
      FitsSplit(code, at, r0.syms, r1.syms, brk, cont);
      StmtLaid(ss[0], cx, pool, code, at, brk, cont);
      SeqLaid(ss[1..], cx.(names := r0.names), r0.pool, code, at + |r0.syms|, brk, cont);
      LaidJoin(code, at, at + |r0.syms|, at + |r0.syms| + |r1.syms|, brk, cont);
    }
  }

  /**
    A loop: head and body laid out with the loop's own targets, a tail that ends in the jump back to
    the start. The `break` target is the end; `next`, where `continue` goes, is an instruction.
  */
  lemma LoopLaid(code: seq<byte>, at: nat, body: nat, next: nat, jump: nat, start: nat, end: nat, brk: int,
                 cont: int, to: int)
    requires Laid(code, at, body, end, to) && Laid(code, body, next, end, to) && Laid(code, next, jump, end, to)
    requires CodeAt(code, jump, Jump(OP_JUMP, start - (jump + 4))) && end == jump + 4 <= |code| && InReach(code)
    requires at <= start <= |code| && Steps(code, at, start) && 0 <= to <= |code| && Steps(code, at, to)
    ensures Laid(code, at, end, brk, cont)
  {
    hide Steps, Lands, OnBoundary, CodeAt, Jump;
    JumpSteps(code, jump, OP_JUMP, start - (jump + 4));
    LaidJoin(code, at, body, next, end, to);
    LaidJoin(code, at, next, jump, end, to);
    StepsJoin(code, at, jump, end);
    if OnBoundary(code, at) {
      BoundaryAfter(code, at, end);
      BoundaryAfter(code, at, start);
      BoundaryAfter(code, at, to);
      JumpLands(code, jump, OP_JUMP, start - (jump + 4));
      LandsJoin(code, at, jump, end);
    }
  }

  lemma WhileLaid(s: Stmt, cx: Context, pool: seq<Value>, code: seq<byte>, at: nat, brk: int, cont: int)
    requires s.While? && Sits(code, at, CompStmt(s, cx, pool), brk, cont) && CountedStmt(s)
    ensures Laid(code, at, at + |CompStmt(s, cx, pool).syms|, brk, cont)
    decreases s, 1
  {
    hide Steps, Lands, OnBoundary, CompExpr, CompBlock, Fits, CodeAt, Jump, Fill, FewJumps;
    var c := CompExpr(s.cond, cx.names, pool);
    var inside := cx.(loop := InLoop(|cx.names|, false));
    var b := CompBlock(s.body, inside, c.pool);
    var raw := WhileSyms(c.bytes, b.syms);
    var p, q, end := at + |c.bytes| + 4, at + |c.bytes| + 4 + |b.syms|, at + |raw|;
    var head, back := c.bytes + Jump(OP_JUMP_IF_FALSE, |b.syms| + 4), Jump(OP_JUMP, -(|c.bytes| + 8 + |b.syms|));
    FitsFill(code, at, raw, |raw|, 0, brk, cont);
    LoopPieces(Image(code, [], NoSlots()), at, head, b.syms, back, end, at);
    FitsLift(code, at, head, end, at);
    BlockLaid(s.body, inside, c.pool, code, p, end, at);
    JumpSteps(code, q, OP_JUMP, at - end);
    StepsJoin(code, p, q, end);
    CondLaid(s.cond, cx.names, pool, |b.syms| + 4, code, at, end, at);
    LaidNothing(code, at, end, at);
    LaidNothing(code, q, end, at);
    LoopLaid(code, at, p, q, q, at, end, brk, cont, at);
  }

  /** Native behaviour does not matter to the shape of code. */
  function NoSlots(): Slots
  {
    Slots((v, w) => false, (op, name, args, w) => Throw(w))
  }

  lemma ForeverLaid(s: Stmt, cx: Context, pool: seq<Value>, code: seq<byte>, at: nat, brk: int, cont: int)
    requires s.Forever? && Sits(code, at, CompStmt(s, cx, pool), brk, cont) && CountedStmt(s)
    ensures Laid(code, at, at + |CompStmt(s, cx, pool).syms|, brk, cont)
    decreases s, 1
  {
    hide Steps, Lands, OnBoundary, CompBlock, Fits, CodeAt, Jump, Fill, FewJumps;
    var inside := cx.(loop := InLoop(|cx.names|, false));
    var b := CompBlock(s.body, inside, pool);
    var raw := ForeverSyms(b.syms);
    var q, end := at + |b.syms|, at + |raw|;
    var back := Jump(OP_JUMP, -(|b.syms| + 4));
    FitsFill(code, at, raw, |raw|, 0, brk, cont);
    assert raw == Lift([]) + (b.syms + Lift(back));
    LoopPieces(Image(code, [], NoSlots()), at, [], b.syms, back, end, at);
    BlockLaid(s.body, inside, pool, code, at, end, at);
    LaidNothing(code, at, end, at);
    LaidNothing(code, q, end, at);
    LoopLaid(code, at, at, q, q, at, end, brk, cont, at);
  }

  lemma ForInLaid(s: Stmt, cx: Context, pool: seq<Value>, code: seq<byte>, at: nat, brk: int, cont: int)
    requires s.ForIn? && Sits(code, at, CompStmt(s, cx, pool), brk, cont) && CountedStmt(s)
    ensures Laid(code, at, at + |CompStmt(s, cx, pool).syms|, brk, cont)
    decreases s, 1
  {
    hide Steps, Lands, OnBoundary, CompExpr, CompBlock, Fits, CodeAt, Jump, Fill, FewJumps, CanDeclare;
    var it := CompExpr(s.iter, cx.names, pool);
    var b := CompBlock(s.body, InsideForIn(s.x, cx), it.pool);
    var raw := ForInSyms(it.bytes, b.syms);
    var start := at + |it.bytes| + 1;
    var p, next, end := start + 4, start + 4 + |b.syms|, at + |raw|;
    var enter, back := Jump(OP_FOR_ITER, |b.syms| + 5), Jump(OP_JUMP, -(|b.syms| + 9));
    FitsFill(code, at, raw, |raw|, |it.bytes| + 5 + |b.syms|, brk, cont);
    LoopPieces(Image(code, [], NoSlots()), at, it.bytes + [OP_GET_ITER] + enter, b.syms, [OP_POP] + back, end, next);
    FitsLift(code, at, it.bytes + [OP_GET_ITER] + enter, end, next);
    CodeAtSplit(code, at, it.bytes + [OP_GET_ITER], enter);
    CodeAtSplit(code, at, it.bytes, [OP_GET_ITER]);
    CodeAtSplit(code, next, [OP_POP], back);
    ExprLaid(s.iter, cx.names, pool, code, at, end, next);
    PlainLaid(code, start - 1, OP_GET_ITER, end, next);
    LaidJoin(code, at, start - 1, start, end, next);
    BlockLaid(s.body, InsideForIn(s.x, cx), it.pool, code, p, end, next);
    PlainLaid(code, next, OP_POP, end, next);
    JumpSteps(code, next + 1, OP_JUMP, -(|b.syms| + 9));
    StepsJoin(code, next, next + 1, end);
    StepsJoin(code, p, next, end);
    ForwardLaid(code, start, OP_FOR_ITER, |b.syms| + 5, end, next);
    LaidJoin(code, at, start, p, end, next);
    StepsJoin(code, at, p, next);
    LaidJoin(code, p, next, next + 1, end, next);
    LoopLaid(code, at, p, next, next + 1, start, end, brk, cont, next);
  }

  // ---------------------------------------------------------------------
  // Switch
  // ---------------------------------------------------------------------

  lemma SwitchLaid(s: Stmt, cx: Context, pool: seq<Value>, code: seq<byte>, at: nat, brk: int, cont: int)
    requires s.Switch? && Sits(code, at, CompStmt(s, cx, pool), brk, cont) && CountedStmt(s)
    ensures Laid(code, at, at + |CompStmt(s, cx, pool).syms|, brk, cont)
    decreases s, 1
  {
    hide Laid, CompExpr, CompCases, Fits, CodeAt;
    var sub := Subject(s.subject, cx.names, pool);
    var cs := CompCases(s, 0, 0, cx, sub.pool);
    FitsSplit(code, at, Lift(sub.bytes), cs.syms, brk, cont);
    FitsLift(code, at, sub.bytes, brk, cont);
    if s.subject.Some? {
      ExprLaid(s.subject.value, cx.names, pool, code, at, brk, cont);
    } else {
      FitsBound(code, at, Lift([]) + cs.syms, brk, cont);
      LaidNothing(code, at, brk, cont);
    }
    CasesLaid(s, 0, 0, cx, sub.pool, code, at + |sub.bytes|, brk, cont);
    LaidJoin(code, at, at + |sub.bytes|, at + |sub.bytes| + |cs.syms|, brk, cont);
  }

  lemma DropLaid(drop: seq<byte>, code: seq<byte>, at: nat, brk: int, cont: int)
    requires (drop == [OP_POP] || drop == []) && CodeAt(code, at, drop)
    ensures Laid(code, at, at + |drop|, brk, cont)
  {
    hide Laid;
    if drop == [] {
      LaidNothing(code, at, brk, cont);
    } else {
      PlainLaid(code, at, OP_POP, brk, cont);
    }
  }

  lemma {:induction false} CasesLaid(s: Stmt, i: nat, n: nat, cx: Context, pool: seq<Value>, code: seq<byte>,
                              at: nat, brk: int, cont: int)
    requires s.Switch? && i <= |s.cases| && Sits(code, at, CompCases(s, i, n, cx, pool), brk, cont) && CountedStmt(s)
    ensures Laid(code, at, at + |CompCases(s, i, n, cx, pool).syms|, brk, cont)
    decreases s, 0, |s.cases| - i, 1
  {
    hide Laid, CompBlock, CompValues, Fits, CodeAt;
    var drop := if s.subject.Some? then [OP_POP] else [];
    if i == |s.cases| {
      var d := DefaultCase(s.cases);
      if d >= 0 {
        var b := CompBlock(s.cases[d].body, cx, pool);
        FitsSplit(code, at, Lift(drop), b.syms, brk, cont);
        FitsLift(code, at, drop, brk, cont);
        DropLaid(drop, code, at, brk, cont);
        BlockLaid(s.cases[d].body, cx, pool, code, at + |drop|, brk, cont);
        LaidJoin(code, at, at + |drop|, at + |drop| + |b.syms|, brk, cont);
      } else {
        FitsLift(code, at, drop, brk, cont);
        DropLaid(drop, code, at, brk, cont);
      }
    } else if s.cases[i].values == [] {
      CasesLaid(s, i + 1, n, cx, pool, code, at, brk, cont);
    } else {
      CaseLaid(s, i, n, cx, pool, code, at, brk, cont);
    }
  }

  lemma CaseLaid(s: Stmt, i: nat, n: nat, cx: Context, pool: seq<Value>, code: seq<byte>, at: nat, brk: int, cont: int)
    requires s.Switch? && i < |s.cases| && s.cases[i].values != [] && Sits(code, at, CompCases(s, i, n, cx, pool), brk, cont) && CountedStmt(s)
    ensures Laid(code, at, at + |CompCases(s, i, n, cx, pool).syms|, brk, cont)
    decreases s, 0, |s.cases| - i, 0
  {
    hide Steps, Lands, OnBoundary, CompBlock, CompValues, CompCases, Fits, CodeAt, Jump;
    var drop := if s.subject.Some? then [OP_POP] else [];
    var vs := CompValues(s.cases[i].values, 0, s.subject.Some?, cx.names, pool);
    var b := CompBlock(s.cases[i].body, cx, vs.pool);
    var rest := CompCases(s, i + 1, n + 1, cx, b.pool);
    var toEnd := if n < MAX_PATCHES then Jump(OP_JUMP, |rest.syms|) else [];
    CaseIs(s, i, n, cx, pool);
    var skip := at + |vs.bytes|;
    var p := skip + 4;
    var q, e := p + |drop|, p + |drop| + |b.syms|;
    var r := e + |toEnd|;
    var over := |drop| + |b.syms| + |toEnd|;
    CaseSplit(vs.bytes, Jump(OP_JUMP, over), drop, b.syms, toEnd, rest.syms, code, at, brk, cont);
    DropLaid(drop, code, p, brk, cont);
    BlockLaid(s.cases[i].body, cx, vs.pool, code, q, brk, cont);
    CasesLaid(s, i + 1, n + 1, cx, b.pool, code, r, brk, cont);
    if n < MAX_PATCHES {
      ForwardLaid(code, e, OP_JUMP, |rest.syms|, brk, cont);
    } else {
      LaidNothing(code, e, brk, cont);
    }
    LaidJoin(code, p, q, e, brk, cont);
    LaidJoin(code, p, e, r, brk, cont);
    ForwardLaid(code, skip, OP_JUMP, over, brk, cont);
    ValuesLaid(s.cases[i].values, 0, s.subject.Some?, cx.names, pool, code, at, brk, cont);
    LaidJoin(code, at, skip, p, brk, cont);
    LaidJoin(code, at, p, r, brk, cont);
    LaidJoin(code, at, r, r + |rest.syms|, brk, cont);
  }

  lemma CaseIs(s: Stmt, i: nat, n: nat, cx: Context, pool: seq<Value>)
    requires s.Switch? && i < |s.cases| && s.cases[i].values != []
    ensures var drop := if s.subject.Some? then [OP_POP] else [];
      var vs := CompValues(s.cases[i].values, 0, s.subject.Some?, cx.names, pool);
      var b := CompBlock(s.cases[i].body, cx, vs.pool);
      CompCases(s, i, n, cx, pool) == CaseCode(drop, vs, b, CompCases(s, i + 1, n + 1, cx, b.pool), n < MAX_PATCHES, cx.names)
  {
    hide CompBlock, CompValues;
  }

  /** The pieces of one case in the chunk. */
  lemma CaseSplit(tests: seq<byte>, skip: seq<byte>, drop: seq<byte>, body: seq<Sym>, toEnd: seq<byte>, rest: seq<Sym>,
                  code: seq<byte>, at: nat, brk: int, cont: int)
    requires Fits(code, at, Lift(tests + skip) + (Lift(drop) + (body + (Lift(toEnd) + rest))), brk, cont)
    ensures var p := at + |tests| + |skip|;
      var q := p + |drop|;
      var e := q + |body|;
      && CodeAt(code, at, tests) && CodeAt(code, at + |tests|, skip) && CodeAt(code, p, drop)
      && Fits(code, q, body, brk, cont) && CodeAt(code, e, toEnd) && Fits(code, e + |toEnd|, rest, brk, cont)
      && e + |toEnd| + |rest| <= |code|
  {
    FitsBound(code, at, Lift(tests + skip) + (Lift(drop) + (body + (Lift(toEnd) + rest))), brk, cont);
    hide Fits, CodeAt;
    var p := at + |tests| + |skip|;
    var q := p + |drop|;
    var e := q + |body|;
    FitsSplit(code, at, Lift(tests + skip), Lift(drop) + (body + (Lift(toEnd) + rest)), brk, cont);
    FitsSplit(code, p, Lift(drop), body + (Lift(toEnd) + rest), brk, cont);
    FitsSplit(code, q, body, Lift(toEnd) + rest, brk, cont);
    FitsSplit(code, e, Lift(toEnd), rest, brk, cont);
    FitsLift(code, at, tests + skip, brk, cont);
    FitsLift(code, p, drop, brk, cont);
    FitsLift(code, e, toEnd, brk, cont);
    CodeAtSplit(code, at, tests, skip);
  }

  /** The tests of a case; those that succeed jump behind the instruction that follows the tests. */
  lemma {:induction false} ValuesLaid(values: seq<Expr>, j: nat, hasSubject: bool, names: seq<Local>,
                              pool: seq<Value>, code: seq<byte>, at: nat, brk: int, cont: int)
    requires var vs := CompValues(values, j, hasSubject, names, pool);
      && vs.ok && CodeAt(code, at, vs.bytes) && InReach(code) && at + |vs.bytes| + 4 <= |code| && AllCounted(values)
      && Steps(code, at + |vs.bytes|, at + |vs.bytes| + 4)
    ensures Laid(code, at, at + |CompValues(values, j, hasSubject, names, pool).bytes|, brk, cont)
    decreases values
  {
    hide Steps, Lands, OnBoundary, CompExpr, Jump, FormatOf;
    ShortFormat();
    if values == [] {
      LaidNothing(code, at, brk, cont);
    } else {
      var v := CompExpr(values[0], names, pool);
      var rest := CompValues(values[1..], j + 1, hasSubject, names, v.pool);
      var test := if hasSubject then [OP_DUP] + v.bytes + [OP_EQ] else v.bytes;
      var hit := if j < MAX_PATCHES then Jump(OP_JUMP_IF_TRUE, |rest.bytes| + 4) else [];
      CodeAtSplit(code, at, test + hit, rest.bytes);
      CodeAtSplit(code, at, test, hit);
      var p := at + |test|;
      var q := p + |hit|;
      var end := q + |rest.bytes|;
      TestLaid(values[0], hasSubject, names, pool, code, at, brk, cont);
      ValuesLaid(values[1..], j + 1, hasSubject, names, v.pool, code, q, brk, cont);
      StepsJoin(code, q, end, end + 4);
      if j < MAX_PATCHES {
        ForwardLaid(code, p, OP_JUMP_IF_TRUE, |rest.bytes| + 4, brk, cont);
      } else {
        LaidNothing(code, p, brk, cont);
      }
      LaidJoin(code, at, p, q, brk, cont);
      LaidJoin(code, at, q, end, brk, cont);
    }
  }

  lemma TestLaid(e: Expr, hasSubject: bool, names: seq<Local>, pool: seq<Value>, code: seq<byte>, at: nat, brk: int,
                 cont: int)
    requires var v := CompExpr(e, names, pool);
      v.ok && CodeAt(code, at, if hasSubject then [OP_DUP] + v.bytes + [OP_EQ] else v.bytes) && InReach(code) && Counted(e)
    ensures var v := CompExpr(e, names, pool);
      Laid(code, at, at + |v.bytes| + (if hasSubject then 2 else 0), brk, cont)
  {
    hide Laid, CompExpr, CodeAt;
    var v := CompExpr(e, names, pool);
    if hasSubject {
      CodeAtSplit(code, at, [OP_DUP] + v.bytes, [OP_EQ]);
      CodeAtSplit(code, at, [OP_DUP], v.bytes);
      PlainLaid(code, at, OP_DUP, brk, cont);
      ExprLaid(e, names, pool, code, at + 1, brk, cont);
      PlainLaid(code, at + 1 + |v.bytes|, OP_EQ, brk, cont);
      LaidJoin(code, at, at + 1, at + 1 + |v.bytes|, brk, cont);
      LaidJoin(code, at, at + 1 + |v.bytes|, at + 2 + |v.bytes|, brk, cont);
    } else {
      ExprLaid(e, names, pool, code, at, brk, cont);
    }
  }

  // ---------------------------------------------------------------------
  // Whole chunks
  // ---------------------------------------------------------------------

  /** Decoding from the front meets the end of the chunk, and every jump leads to an instruction on the way. */
  ghost predicate WellFormed(code: seq<byte>)
  {
    Steps(code, 0, |code|) && forall q: nat :: OnBoundary(code, q) && IsJump(code, q) ==> OnBoundary(code, Target(code, q))
  }

  lemma BodyWellFormed(body: StmtCode)
    requires Closed(body.syms) && InReach(BytesOf(body.syms + Lift([OP_RETURN_NIL])))
    requires Laid(BytesOf(body.syms + Lift([OP_RETURN_NIL])), 0, |body.syms|, 0, 0)
    ensures WellFormed(BytesOf(body.syms + Lift([OP_RETURN_NIL])))
  {
    hide Steps;
    var whole := body.syms + Lift([OP_RETURN_NIL]);
    var code := BytesOf(whole);
    ClosedFits(whole, 0, 0);
    FitsSplit(code, 0, body.syms, Lift([OP_RETURN_NIL]), 0, 0);
    FitsLift(code, |body.syms|, [OP_RETURN_NIL], 0, 0);
    PlainLaid(code, |body.syms|, OP_RETURN_NIL, 0, 0);
    LaidJoin(code, 0, |body.syms|, |code|, 0, 0);
    LaidNothing(code, 0, 0, 0);
    assert Lands(code, 0, |code|);
  }

  lemma BodySits(body: StmtCode)
    requires body.ok && Closed(body.syms) && |body.syms| + 1 < TWO_23
    ensures Sits(BytesOf(body.syms + Lift([OP_RETURN_NIL])), 0, body, 0, 0)
  {
    var whole := body.syms + Lift([OP_RETURN_NIL]);
    ClosedFits(whole, 0, 0);
    FitsSplit(BytesOf(whole), 0, body.syms, Lift([OP_RETURN_NIL]), 0, 0);
  }

  /** Every accepted program below 2^23 bytes compiles to a well-formed chunk. */
  lemma {:induction false} ProgramWellFormed(ss: seq<Stmt>)
    requires CompProgram(ss).ok && |CompProgram(ss).syms| < TWO_23 && CountedSeq(ss)
    ensures WellFormed(BytesOf(CompProgram(ss).syms))
  {
    hide CompSeq, BytesOf, Laid, WellFormed;
    var cx := Context(true, [], 0, NoLoop);
    var r := CompSeq(ss, cx, []);
    SeqClosed(ss, cx, []);
    BodySits(r);
    SeqLaid(ss, cx, [], BytesOf(r.syms + Lift([OP_RETURN_NIL])), 0, 0, 0);
    BodyWellFormed(r);
  }

  lemma {:induction false} FunctionWellFormed(params: seq<Ident>, body: seq<Stmt>)
    requires CompFunction(params, body).ok && |CompFunction(params, body).syms| < TWO_23 && CountedSeq(body)
    ensures WellFormed(BytesOf(CompFunction(params, body).syms))
  {
    hide CompBlock, BytesOf, Laid, WellFormed;
    var cx := Context(false, ParamNames(params), 0, NoLoop);
    var r := CompBlock(body, cx, []);
    BlockClosed(body, cx, []);
    BodySits(r);
    BlockLaid(body, cx, [], BytesOf(r.syms + Lift([OP_RETURN_NIL])), 0, 0, 0);
    BodyWellFormed(r);
  }

  // ---------------------------------------------------------------------
  // Captured locals
  // ---------------------------------------------------------------------

  /** A captured local is closed where another one would be popped; nothing else is different. */
  ghost predicate Closing(code: seq<byte>, other: seq<byte>)
  {
    |other| == |code|
    && forall q: nat :: q < |code| && other[q] != code[q] ==>
         code[q] == OP_POP && other[q] == OP_CLOSE_UPVALUE && Steps(code, 0, q)
  }

  /** Inside an instruction there is no boundary. */
  lemma {:induction false} InsideIsNoBoundary(code: seq<byte>, q: nat, r: nat)
    requires Steps(code, 0, q) && Steps(code, 0, r) && q < r
    ensures Fetch(code, q).Fetched? && r >= q + Fetch(code, q).instr.len
  {
    hide Fetch, Steps;
    StepsSplit(code, 0, q, r);
    FirstStep(code, q, r);
  }

  lemma {:induction false} SameInstruction(code: seq<byte>, other: seq<byte>, q: nat)
    requires Closing(code, other) && q < |code| && Steps(code, 0, q) && Fetch(code, q).Fetched? && q + Fetch(code, q).instr.len <= |code|
    ensures Fetch(other, q).Fetched? && Fetch(other, q).instr.len == Fetch(code, q).instr.len
    ensures IsJump(other, q) == IsJump(code, q) && (IsJump(code, q) ==> Target(other, q) == Target(code, q))
  {
    hide SignExtendVM, Steps;
    forall k: nat | q < k < q + Fetch(code, q).instr.len ensures other[k] == code[k] {
      if other[k] != code[k] {
        InsideIsNoBoundary(code, q, k);
      }
    }
    if other[q] == code[q] {
      SameFetch(code, other, q);
    }
  }

  lemma SameFetch(code: seq<byte>, other: seq<byte>, q: nat)
    requires |code| == |other| && Fetch(code, q).Fetched? && q + Fetch(code, q).instr.len <= |code|
    requires forall k: nat :: q <= k < q + Fetch(code, q).instr.len ==> other[k] == code[k]
    ensures Fetch(other, q) == Fetch(code, q) && other[q] == code[q]
  {
    hide SignExtendVM, FormatOf;
  }

  lemma {:induction false} SameSteps(code: seq<byte>, other: seq<byte>, q: nat, t: nat)
    requires Closing(code, other) && Steps(code, 0, q) && Steps(code, 0, |code|) && q <= t <= |code|
    ensures Steps(code, q, t) <==> Steps(other, q, t)
    decreases t - q
  {
    hide Fetch, Closing;
    if q < t {
      StepsSplit(code, 0, q, |code|);
      FirstStep(code, q, |code|);
      SameInstruction(code, other, q);
      var n := q + Fetch(code, q).instr.len;
      if Fetch(code, q).instr.len > 0 && n <= t {
        StepsJoin(code, 0, q, n);
        SameSteps(code, other, n, t);
      }
    }
  }

  /** So chunks whose functions capture locals are as well-formed as those whose functions do not. */
  lemma ClosingKeepsForm(code: seq<byte>, other: seq<byte>)
    requires WellFormed(code) && Closing(code, other)
    ensures WellFormed(other)
  {
    hide Fetch, Closing, Steps, Target;
    SameLength(code, other);
    assert Steps(code, 0, 0) by { StepsNowhere(code); }
    SameSteps(code, other, 0, |code|);
    forall q: nat | OnBoundary(other, q) && IsJump(other, q) ensures OnBoundary(other, Target(other, q)) {
      SameSteps(code, other, 0, q);
      InsideIsNoBoundary(code, q, |code|);
      SameInstruction(code, other, q);
      SameSteps(code, other, 0, Target(code, q));
    }
  }

  lemma {:induction false} StepsNowhere(code: seq<byte>)
    ensures Steps(code, 0, 0)
  {
  }

  lemma SameLength(code: seq<byte>, other: seq<byte>)
    requires Closing(code, other)
    ensures |other| == |code|
  {
  }
}
