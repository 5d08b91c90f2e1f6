/**
  Exactly when emitted code leaves the stack as the source means it to.

  The code for `and` and `or` does not drop the left operand before it computes the right one.
*/
module Exactness {
  import opened Values
  import opened Bytecode
  import opened Machine
  import opened Source
  import opened CodeGen
  import opened Stepping
  import opened ExprCorrect
  import opened Placement
  import opened SimpleStmts
  import opened ProgramCorrect

  /** The code up to `end` has run (or failed) and left at least k values more than before. */
  predicate Leaves(c: Config, end: nat, stack: seq<Value>, g: Globals, k: nat)
  {
    c.Failed? || (c.Run? && c.pc == end && c.g == g && |c.stack| >= |stack| + k && forall i :: 0 <= i < |stack| ==> c.stack[i] == stack[i])
  }

  /** What falling through adds: at least one value that nobody asked for. */
  function Extra(falls: bool): nat
  {
    if falls then 1 else 0
  }

  /** Values on top do not hide the locals. */
  lemma SameLocals(names: seq<Local>, stack: seq<Value>, c: Config, end: nat, g: Globals, k: nat)
    requires Locals(names, stack) && c.Run? && Leaves(c, end, stack, g, k)
    ensures Locals(names, c.stack) && EnvOf(names, c.stack) == EnvOf(names, stack)
  {
    hide Visible;
    assert c.stack[..|names|] == stack[..|names|];
  }

  lemma LeavesTrans(c: Config, end: nat, mid: seq<Value>, stack: seq<Value>, g: Globals, j: nat, k: nat)
    requires |mid| >= |stack| + j && (forall i :: 0 <= i < |stack| ==> mid[i] == stack[i])
    requires Leaves(c, end, mid, g, k)
    ensures Leaves(c, end, stack, g, j + k)
  {
  }

  /** An operator replaces its n operands by one result. */
  lemma AppliedLeaves(m: Image, op: byte, name: Text, args: seq<Value>, rest: seq<Value>, next: nat,
                      stack: seq<Value>, g: Globals, w: World, k: nat)
    requires |rest| >= |stack| + k && (forall i :: 0 <= i < |stack| ==> rest[i] == stack[i])
    ensures Leaves(Applied(m, op, name, rest, args, next, g, w), next, stack, g, k + 1)
  {
  }

  /**
    The code of an accepted expression always ends just past itself (unless it fails) and always
    pushes something; when an `and` or `or` falls through, it pushes at least two values.
  */
  lemma {:induction false} ExprLeaves(e: Expr, names: seq<Local>, pool: seq<Value>, m: Image, pc: nat,
                              stack: seq<Value>, g: Globals, w: World)
    returns (n: nat)
    requires Holds(m, pc, CompExpr(e, names, pool)) && Locals(names, stack)
    ensures Leaves(RunN(m, n, Run(pc, stack, g, w)), pc + |CompExpr(e, names, pool).bytes|, stack, g,
                   1 + Extra(FallsThrough(e, m.slots, EnvOf(names, stack), g, w)))
    ensures !FallsThrough(e, m.slots, EnvOf(names, stack), g, w) ==>
            RunN(m, n, Run(pc, stack, g, w))
            == Pushed(EvalExpr(e, m.slots, EnvOf(names, stack), g, w), pc + |CompExpr(e, names, pool).bytes|, stack, g)
    decreases e, 1
  {
    hide RunN, CodeAt, EnvOf, Visible;
    if !FallsThrough(e, m.slots, EnvOf(names, stack), g, w) {
      n := ExprRuns(e, names, pool, m, pc, stack, g, w);
    } else {
      match e {
        case Plus(a) => n := ExprLeaves(a, names, pool, m, pc, stack, g, w);
        case Unary(_, _) => n := UnaryLeaves(e, names, pool, m, pc, stack, g, w);
        case Binary(_, _, _) => n := BinaryLeaves(e, names, pool, m, pc, stack, g, w);
        case And(l, r) => n := ShortLeaves(e, l, r, OP_AND_JMP, names, pool, m, pc, stack, g, w);
        case Or(l, r) => n := ShortLeaves(e, l, r, OP_OR_JMP, names, pool, m, pc, stack, g, w);
        case Attr(_, _) => n := AttrLeaves(e, names, pool, m, pc, stack, g, w);
        case Elems(_, _) => n := ElemsLeave(e, names, pool, m, pc, stack, g, w);
        case Call(_, _) => n := CallLeaves(e, names, pool, m, pc, stack, g, w);
        case _ => assert false;
      }
    }
  }

  /** The top value of a longer stack. */
  lemma TopOff(s: seq<Value>)
    requires |s| > 0
    ensures s == s[..|s| - 1] + [s[|s| - 1]]
  {
  }

  lemma TopsOff(s: seq<Value>, k: nat)
    requires |s| >= k
    ensures s == s[..|s| - k] + s[|s| - k..]
  {
  }

  lemma {:induction false} UnaryLeaves(e: Expr, names: seq<Local>, pool: seq<Value>, m: Image, pc: nat,
                              stack: seq<Value>, g: Globals, w: World)
    returns (n: nat)
    requires e.Unary? && Holds(m, pc, CompExpr(e, names, pool)) && Locals(names, stack)
    requires FallsThrough(e, m.slots, EnvOf(names, stack), g, w)
    ensures Leaves(RunN(m, n, Run(pc, stack, g, w)), pc + |CompExpr(e, names, pool).bytes|, stack, g, 2)
    decreases e, 0
  {
    hide RunN, CodeAt, EnvOf, Visible;
    var a := CompExpr(e.operand, names, pool);
    var c := Run(pc, stack, g, w);
    HoldsBoth(m, pc, a.bytes, [e.uop]);
    n := ExprLeaves(e.operand, names, pool, m, pc, stack, g, w);
    var d := RunN(m, n, c);
    if d.Run? {
      TopOff(d.stack);
      var rest, v := d.stack[..|d.stack| - 1], d.stack[|d.stack| - 1];
      Then(m, n, 1, c, d);
      n := n + 1;
      if e.uop == OP_NOT {
        RunNot(m, d.pc, rest, v, g, d.w);
      } else {
        RunOperator(m, d.pc, e.uop, rest, [v], g, d.w);
        AppliedLeaves(m, e.uop, NoName, [v], rest, d.pc + 1, stack, g, d.w, 1);
      }
    }
  }

  lemma {:induction false} AttrLeaves(e: Expr, names: seq<Local>, pool: seq<Value>, m: Image, pc: nat,
                              stack: seq<Value>, g: Globals, w: World)
    returns (n: nat)
    requires e.Attr? && Holds(m, pc, CompExpr(e, names, pool)) && Locals(names, stack)
    requires FallsThrough(e, m.slots, EnvOf(names, stack), g, w)
    ensures Leaves(RunN(m, n, Run(pc, stack, g, w)), pc + |CompExpr(e, names, pool).bytes|, stack, g, 2)
    decreases e, 0
  {
    hide RunN, CodeAt, EnvOf, Visible;
    var o := CompExpr(e.obj, names, pool);
    var r := CompExpr(e, names, pool);
    var c := Run(pc, stack, g, w);
    HoldsBoth(m, pc, o.bytes, OpAX(OP_GET_ATTR, |o.pool|));
    n := ExprLeaves(e.obj, names, pool, m, pc, stack, g, w);
    var d := RunN(m, n, c);
    if d.Run? {
      TopOff(d.stack);
      var rest, v := d.stack[..|d.stack| - 1], d.stack[|d.stack| - 1];
      Then(m, n, 1, c, d);
      n := n + 1;
      assert m.pool[|o.pool|] == r.pool[|o.pool|];
      RunAttr(m, d.pc, OP_GET_ATTR, |o.pool|, e.name, rest, [v], g, d.w);
      AppliedLeaves(m, OP_GET_ATTR, e.name, [v], rest, d.pc + 4, stack, g, d.w, 1);
    }
  }

  lemma {:induction false} BinaryLeaves(e: Expr, names: seq<Local>, pool: seq<Value>, m: Image, pc: nat,
                              stack: seq<Value>, g: Globals, w: World)
    returns (n: nat)
    requires e.Binary? && Holds(m, pc, CompExpr(e, names, pool)) && Locals(names, stack)
    requires FallsThrough(e, m.slots, EnvOf(names, stack), g, w)
    ensures Leaves(RunN(m, n, Run(pc, stack, g, w)), pc + |CompExpr(e, names, pool).bytes|, stack, g, 2)
    decreases e, 0
  {
    hide RunN, CodeAt, EnvOf, Visible, Resolve, UnaryOp, BuildOp, Lookup, Jump, Fetch, Step;
    var env := EnvOf(names, stack);
    var l := CompExpr(e.left, names, pool);
    var r := CompExpr(e.right, names, l.pool);
    var c := Run(pc, stack, g, w);
    HoldsBoth(m, pc, l.bytes + r.bytes, [e.bop]);
    HoldsBoth(m, pc, l.bytes, r.bytes);
    var leftFalls := FallsThrough(e.left, m.slots, env, g, w);
    n := ExprLeaves(e.left, names, pool, m, pc, stack, g, w);
    var d := RunN(m, n, c);
    if d.Run? {
      SameLocals(names, stack, d, pc + |l.bytes|, g, 1);
      var rightFalls := FallsThrough(e.right, m.slots, env, g, d.w);
      assert leftFalls || rightFalls;
      var n2 := ExprLeaves(e.right, names, l.pool, m, d.pc, d.stack, g, d.w);
      Then(m, n, n2, c, d);
      n := n + n2;
      var f := RunN(m, n, c);
      LeavesTrans(f, d.pc + |r.bytes|, d.stack, stack, g, 1 + Extra(leftFalls), 1 + Extra(rightFalls));
      if f.Run? {
        TopsOff(f.stack, 2);
        var rest, vs := f.stack[..|f.stack| - 2], f.stack[|f.stack| - 2..];
        Then(m, n, 1, c, f);
        n := n + 1;
        RunOperator(m, f.pc, e.bop, rest, vs, g, f.w);
        AppliedLeaves(m, e.bop, NoName, vs, rest, f.pc + 1, stack, g, f.w, 1);
      }
    }
  }

  /** The two ways in which `and` or `or` can fall through. */
  lemma ShortFalls(e: Expr, l: Expr, r: Expr, op: byte, S: Slots, env: Env, g: Globals, w: World)
    requires (e == And(l, r) && op == OP_AND_JMP) || (e == Or(l, r) && op == OP_OR_JMP)
    requires FallsThrough(e, S, env, g, w)
    ensures var v := EvalExpr(l, S, env, g, w);
            FallsThrough(l, S, env, g, w) || (v.Val? && S.truthy(v.v, v.w) == (op == OP_AND_JMP))
  {
    hide EvalExpr;
  }

  lemma ShortPieces(e: Expr, l: Expr, r: Expr, op: byte, names: seq<Local>, pool: seq<Value>, m: Image, pc: nat)
    requires (e == And(l, r) && op == OP_AND_JMP) || (e == Or(l, r) && op == OP_OR_JMP)
    requires Holds(m, pc, CompExpr(e, names, pool))
    ensures var cl := CompExpr(l, names, pool);
            var cr := CompExpr(r, names, cl.pool);
            Holds(m, pc, cl) && CodeAt(m.code, pc + |cl.bytes|, Jump(op, |cr.bytes|)) && Holds(m, pc + |cl.bytes| + 4, cr)
            && |CompExpr(e, names, pool).bytes| == |cl.bytes| + 4 + |cr.bytes| && |cr.bytes| < TWO_23
  {
    hide CodeAt;
    var cl := CompExpr(l, names, pool);
    var cr := CompExpr(r, names, cl.pool);
    HoldsBoth(m, pc, cl.bytes + Jump(op, |cr.bytes|), cr.bytes);
    HoldsBoth(m, pc, cl.bytes, Jump(op, |cr.bytes|));
    CodeInside(m.code, pc + |cl.bytes| + 4, cr.bytes);
  }

  lemma CodeInside(code: seq<byte>, at: nat, bytes: seq<byte>)
    requires CodeAt(code, at, bytes)
    ensures at + |bytes| <= |code|
  {
  }

  lemma {:induction false} ShortLeaves(e: Expr, l: Expr, r: Expr, op: byte, names: seq<Local>, pool: seq<Value>,
                                       m: Image, pc: nat, stack: seq<Value>, g: Globals, w: World)
    returns (n: nat)
    requires (e == And(l, r) && op == OP_AND_JMP) || (e == Or(l, r) && op == OP_OR_JMP)
    requires Holds(m, pc, CompExpr(e, names, pool)) && Locals(names, stack)
    requires FallsThrough(e, m.slots, EnvOf(names, stack), g, w)
    ensures Leaves(RunN(m, n, Run(pc, stack, g, w)), pc + |CompExpr(e, names, pool).bytes|, stack, g, 2)
    decreases e, 0
  {
    hide RunN, CodeAt, EnvOf, Visible, CompExpr, EvalExpr, FallsThrough, Holds, Jump, Step, Resolve, Fetch;
    var env := EnvOf(names, stack);
    var cl := CompExpr(l, names, pool);
    var cr := CompExpr(r, names, cl.pool);
    var c := Run(pc, stack, g, w);
    ShortPieces(e, l, r, op, names, pool, m, pc);
    ShortFalls(e, l, r, op, m.slots, env, g, w);
    n := ExprLeaves(l, names, pool, m, pc, stack, g, w);
    var d := RunN(m, n, c);
    if d.Run? {
      TopOff(d.stack);
      var rest, v := d.stack[..|d.stack| - 1], d.stack[|d.stack| - 1];
      Then(m, n, 1, c, d);
      RunPeekJump(m, d.pc, op, |cr.bytes|, rest, v, g, d.w);
      n := n + 1;
      if m.slots.truthy(v, d.w) == (op == OP_AND_JMP) {
        var f := Run(d.pc + 4, d.stack, g, d.w);
        SameLocals(names, stack, d, pc + |cl.bytes|, g, 1);
        var n2 := ExprLeaves(r, names, cl.pool, m, f.pc, f.stack, g, f.w);
        Then(m, n, n2, c, f);
        n := n + n2;
        LeavesTrans(RunN(m, n, c), f.pc + |cr.bytes|, f.stack, stack, g, 1, 1);
      }
    }
  }

  lemma {:induction false} ExprsLeave(es: seq<Expr>, names: seq<Local>, pool: seq<Value>, m: Image, pc: nat,
                              stack: seq<Value>, g: Globals, w: World)
    returns (n: nat)
    requires Holds(m, pc, CompExprs(es, names, pool)) && Locals(names, stack)
    ensures Leaves(RunN(m, n, Run(pc, stack, g, w)), pc + |CompExprs(es, names, pool).bytes|, stack, g,
                   |es| + Extra(AnyFallsThrough(es, m.slots, EnvOf(names, stack), g, w)))
    decreases es, 0
  {
    hide RunN, CodeAt, EnvOf, Visible;
    var env := EnvOf(names, stack);
    var c := Run(pc, stack, g, w);
    if es == [] {
      n := 0;
      RunNothing(m, c);
    } else {
      var r0 := CompExpr(es[0], names, pool);
      var r1 := CompExprs(es[1..], names, r0.pool);
      HoldsBoth(m, pc, r0.bytes, r1.bytes);
      var falls := FallsThrough(es[0], m.slots, env, g, w);
      n := ExprLeaves(es[0], names, pool, m, pc, stack, g, w);
      var d := RunN(m, n, c);
      if d.Run? {
        SameLocals(names, stack, d, pc + |r0.bytes|, g, 1);
        var n2 := ExprsLeave(es[1..], names, r0.pool, m, d.pc, d.stack, g, d.w);
        Then(m, n, n2, c, d);
        n := n + n2;
        LeavesTrans(RunN(m, n, c), d.pc + |r1.bytes|, d.stack, stack, g, 1 + Extra(falls),
                    |es| - 1 + Extra(AnyFallsThrough(es[1..], m.slots, env, g, d.w)));
      }
    }
  }

  lemma {:induction false} ElemsLeave(e: Expr, names: seq<Local>, pool: seq<Value>, m: Image, pc: nat,
                              stack: seq<Value>, g: Globals, w: World)
    returns (n: nat)
    requires e.Elems? && Holds(m, pc, CompExpr(e, names, pool)) && Locals(names, stack)
    requires FallsThrough(e, m.slots, EnvOf(names, stack), g, w)
    ensures Leaves(RunN(m, n, Run(pc, stack, g, w)), pc + |CompExpr(e, names, pool).bytes|, stack, g, 2)
    decreases e, 0
  {
    hide RunN, CodeAt, EnvOf, Visible;
    var es := CompExprs(e.elems, names, pool);
    var c := Run(pc, stack, g, w);
    var k := |e.elems|;
    HoldsBoth(m, pc, es.bytes, OpA(e.build, k));
    n := ExprsLeave(e.elems, names, pool, m, pc, stack, g, w);
    var d := RunN(m, n, c);
    if d.Run? {
      TopsOff(d.stack, k);
      var rest, vs := d.stack[..|d.stack| - k], d.stack[|d.stack| - k..];
      Then(m, n, 1, c, d);
      n := n + 1;
      RunBuild(m, d.pc, e.build, rest, vs, g, d.w);
      AppliedLeaves(m, e.build, NoName, vs, rest, d.pc + 2, stack, g, d.w, 1);
    }
  }

  lemma {:induction false} CallLeaves(e: Expr, names: seq<Local>, pool: seq<Value>, m: Image, pc: nat,
                              stack: seq<Value>, g: Globals, w: World)
    returns (n: nat)
    requires e.Call? && Holds(m, pc, CompExpr(e, names, pool)) && Locals(names, stack)
    requires FallsThrough(e, m.slots, EnvOf(names, stack), g, w)
    ensures Leaves(RunN(m, n, Run(pc, stack, g, w)), pc + |CompExpr(e, names, pool).bytes|, stack, g, 2)
    decreases e, 0
  {
    hide RunN, CodeAt, EnvOf, Visible;
    var env := EnvOf(names, stack);
    var f := CompExpr(e.callee, names, pool);
    var es := CompExprs(e.args, names, f.pool);
    var c := Run(pc, stack, g, w);
    var k := |e.args|;
    HoldsBoth(m, pc, f.bytes + es.bytes, OpA(OP_CALL, k));
    HoldsBoth(m, pc, f.bytes, es.bytes);
    var falls := FallsThrough(e.callee, m.slots, env, g, w);
    n := ExprLeaves(e.callee, names, pool, m, pc, stack, g, w);
    var d := RunN(m, n, c);
    if d.Run? {
      SameLocals(names, stack, d, pc + |f.bytes|, g, 1);
      var argsFall := AnyFallsThrough(e.args, m.slots, env, g, d.w);
      assert falls || argsFall;
      var n2 := ExprsLeave(e.args, names, f.pool, m, d.pc, d.stack, g, d.w);
      Then(m, n, n2, c, d);
      n := n + n2;
      var h := RunN(m, n, c);
      LeavesTrans(h, d.pc + |es.bytes|, d.stack, stack, g, 1 + Extra(falls), k + Extra(argsFall));
      if h.Run? {
        TopsOff(h.stack, k + 1);
        var rest, vs := h.stack[..|h.stack| - (k + 1)], h.stack[|h.stack| - (k + 1)..];
        Then(m, n, 1, c, h);
        n := n + 1;
        RunCall(m, h.pc, k, rest, vs, g, h.w);
        AppliedLeaves(m, OP_CALL, NoName, vs, rest, h.pc + 2, stack, g, h.w, 1);
      }
    }
  }

  /**
    The exact condition for the contract of an expression's code. From any stack the code ends just
    past itself or fails. If it gets to its end, then it has pushed exactly one value if and only if
    no `and` or `or` fell through; and in that case the value is the expression's.
  */
  lemma ExprExactly(e: Expr, names: seq<Local>, pool: seq<Value>, m: Image, pc: nat, stack: seq<Value>, g: Globals,
                    w: World) returns (n: nat)
    requires Holds(m, pc, CompExpr(e, names, pool)) && Locals(names, stack)
    ensures var c := RunN(m, n, Run(pc, stack, g, w));
            var falls := FallsThrough(e, m.slots, EnvOf(names, stack), g, w);
            !c.Done?
            && (c.Run? ==> c.pc == pc + |CompExpr(e, names, pool).bytes| && (|c.stack| == |stack| + 1 <==> !falls))
            && (!falls ==> c == Pushed(EvalExpr(e, m.slots, EnvOf(names, stack), g, w), pc + |CompExpr(e, names, pool).bytes|, stack, g))
  {
    hide RunN, CodeAt, EnvOf, Visible, CompExpr, EvalExpr, FallsThrough;
    n := ExprLeaves(e, names, pool, m, pc, stack, g, w);
  }

  // ---------------------------------------------------------------------
  // Programs that never go astray
  // ---------------------------------------------------------------------

  lemma PlainIsWorthSomething(e: Expr, S: Slots, st: State)
    requires Plain(e)
    ensures ValueIn(e, S, st) != Stray
  {
    PlainNeverFalls(e, S, st.env, st.g, st.w);
  }

  lemma {:induction false} PlainMatches(values: seq<Expr>, hasSubject: bool, v: Value, S: Slots, st: State)
    requires AllPlain(values)
    ensures Matches(values, hasSubject, v, S, st) != Lost
    decreases values
  {
    hide ValueIn, Plain;
    if values != [] {
      PlainIsWorthSomething(values[0], S, st);
      var t := Test(values[0], hasSubject, v, S, st);
      if t.Val? {
        PlainMatches(values[1..], hasSubject, v, S, st.(w := t.w));
      }
    }
  }

  lemma PlainStraight(s: Stmt, fuel: nat, top: bool, S: Slots, st: State)
    requires PlainStmt(s)
    requires s.ExprStmt? || s.VarDecl? || s.Assign? || s.SetItem? || s.SetAttr? || s.DelItem? || s.Compound? || s.Return?
    ensures Exec(s, fuel, top, S, st) != Astray
  {
    hide ValueIn, EvalExprs, AnyFallsThrough, AllPlain;
    match s
    case ExprStmt(e) => PlainIsWorthSomething(e, S, st);
    case VarDecl(_, init) => if init.Some? { PlainIsWorthSomething(init.value, S, st); }
    case Assign(_, e) => PlainIsWorthSomething(e, S, st);
    case SetItem(obj, key, e) => AllPlainNeverFall([e, obj, key], S, st.env, st.g, st.w);
    case SetAttr(obj, _, e) => AllPlainNeverFall([e, obj], S, st.env, st.g, st.w);
    case DelItem(obj, key) => AllPlainNeverFall([obj, key], S, st.env, st.g, st.w);
    case Compound(op, x, e) =>
      assert Plain(Var(x)) && Plain(Binary(op, Var(x), e));
      PlainIsWorthSomething(Binary(op, Var(x), e), S, st);
    case Return(e) => if e.Some? { PlainIsWorthSomething(e.value, S, st); }
  }

  /** Without `and` and `or` no statement goes astray. */
  lemma {:induction false} PlainNeverStrays(s: Stmt, fuel: nat, top: bool, S: Slots, st: State)
    requires PlainStmt(s)
    ensures Exec(s, fuel, top, S, st) != Astray
    decreases fuel, s, 2
  {
    hide ValueIn, ExecBlock, ExecCases, Iterate, Round, Plain, PlainSeq;
    match s
    case If(cond, thn, _, els) =>
      PlainIsWorthSomething(cond, S, st);
      var v := ValueIn(cond, S, st);
      if v.Val? {
        PlainBlock(thn, fuel, top, S, st.(w := v.w));
        PlainBlock(els, fuel, top, S, st.(w := v.w));
      }
    case While(_, _) => if fuel > 0 { PlainRound(s, fuel, top, S, st); }
    case Forever(_) => if fuel > 0 { PlainRound(s, fuel, top, S, st); }
    case ForIn(_, iter, _) =>
      PlainIsWorthSomething(iter, S, st);
      var v := ValueIn(iter, S, st);
      if v.Val? {
        var it := S.native(OP_GET_ITER, NoName, [v.v], v.w);
        if it.Ok? {
          PlainIterate(s, it.v, fuel, top, S, st.(w := it.w));
        }
      }
    case Switch(subject, _) =>
      if subject.Some? {
        PlainIsWorthSomething(subject.value, S, st);
      }
      var v := EvalOpt(subject, S, st);
      if v.Val? {
        PlainCases(s, 0, v.v, fuel, top, S, st.(w := v.w));
      }
    case Block(ss) => PlainBlock(ss, fuel, top, S, st);
    case Break =>
    case Continue =>
    case Pass =>
    case FuncDecl(_, _) =>
    case ClassDecl(_, _, _) =>
    case _ => PlainStraight(s, fuel, top, S, st);
  }

  lemma {:induction false} PlainRound(s: Stmt, fuel: nat, top: bool, S: Slots, st: State)
    requires (s.While? || s.Forever?) && PlainStmt(s) && fuel > 0
    ensures Round(s, fuel, top, S, st) != Astray
    decreases fuel, s, 1
  {
    hide ValueIn, ExecBlock, Exec, Plain, PlainSeq;
    if s.While? {
      PlainIsWorthSomething(s.cond, S, st);
    }
    var v := if s.While? then ValueIn(s.cond, S, st) else Val(Bool(true), st.w);
    if v.Val? {
      PlainBlock(s.body, fuel, top, S, st.(w := v.w));
      var o := ExecBlock(s.body, fuel, top, S, st.(w := v.w));
      if o.Normal? || o.Continued? {
        PlainNeverStrays(s, fuel - 1, top, S, o.st);
      }
    }
  }

  lemma {:induction false} PlainIterate(s: Stmt, it: Value, fuel: nat, top: bool, S: Slots, st: State)
    requires s.ForIn? && PlainStmt(s)
    ensures Iterate(s, it, fuel, top, S, st) != Astray
    decreases fuel, s, 1
  {
    hide ExecBlock, Plain, PlainSeq;
    if fuel > 0 {
      var r := S.native(OP_FOR_ITER, NoName, [it], st.w);
      if r.Ok? && r.v != Nil {
        var bound := State(st.env + [Binding(s.x, r.v)], st.g, r.w);
        PlainBlock(s.body, fuel, top, S, bound);
        var o := Leave(ExecBlock(s.body, fuel, top, S, bound), |st.env|);
        if o.Normal? || o.Continued? {
          PlainIterate(s, it, fuel - 1, top, S, o.st);
        }
      }
    }
  }

  lemma {:induction false} PlainBlock(ss: seq<Stmt>, fuel: nat, top: bool, S: Slots, st: State)
    requires PlainSeq(ss)
    ensures ExecBlock(ss, fuel, top, S, st) != Astray
    decreases fuel, ss, 1
  {
    hide ExecSeq, PlainSeq;
    PlainRuns(ss, fuel, top, S, st);
  }

  lemma {:induction false} PlainRuns(ss: seq<Stmt>, fuel: nat, top: bool, S: Slots, st: State)
    requires PlainSeq(ss)
    ensures ExecSeq(ss, fuel, top, S, st) != Astray
    decreases fuel, ss, 0
  {
    hide Exec, PlainStmt;
    if ss != [] {
      PlainNeverStrays(ss[0], fuel, top, S, st);
      var o := Exec(ss[0], fuel, top, S, st);
      if o.Normal? {
        PlainRuns(ss[1..], fuel, top, S, o.st);
      }
    }
  }

  lemma {:induction false} PlainCases(s: Stmt, i: nat, v: Value, fuel: nat, top: bool, S: Slots, st: State)
    requires s.Switch? && i <= |s.cases| && PlainStmt(s)
    ensures ExecCases(s, i, v, fuel, top, S, st) != Astray
    decreases fuel, s, 1, |s.cases| - i
  {
    hide ExecBlock, Matches, AllPlain, PlainSeq;
    if i == |s.cases| {
      var d := DefaultCase(s.cases);
      if d >= 0 {
        PlainBlock(s.cases[d].body, fuel, top, S, st);
      }
    } else {
      PlainMatches(s.cases[i].values, s.subject.Some?, v, S, st);
      match Matches(s.cases[i].values, s.subject.Some?, v, S, st)
      case Failing(_) =>
      case Hit(w1) => PlainBlock(s.cases[i].body, fuel, top, S, st.(w := w1));
      case Miss(w1) => PlainCases(s, i + 1, v, fuel, top, S, st.(w := w1));
    }
  }

  /** A program without `and` and `or` stays on its way whatever it computes. */
  lemma PlainStaysOn(ss: seq<Stmt>, S: Slots, g: Globals, w: World)
    requires PlainSeq(ss)
    ensures StaysOn(ss, S, g, w)
  {
    hide ExecSeq, PlainSeq;
    forall fuel: nat ensures ExecSeq(ss, fuel, true, S, State([], g, w)) != Astray {
      PlainRuns(ss, fuel, true, S, State([], g, w));
    }
  }

  lemma PlainBodyStaysOn(body: seq<Stmt>, S: Slots, st: State)
    requires PlainSeq(body)
    ensures BodyStaysOn(body, S, st)
  {
    hide ExecBlock, PlainSeq;
    forall fuel: nat ensures ExecBlock(body, fuel, false, S, st) != Astray {
      PlainBlock(body, fuel, false, S, st);
    }
  }

  // ---------------------------------------------------------------------
  // Counterexamples
  // ---------------------------------------------------------------------

  /** `true and nil`, with truth as usual: after the code of an expression worth one value, two lie on the stack. */
  lemma {:induction false} AndLeavesTwo(S: Slots, g: Globals, w: World)
    requires S.truthy(Bool(true), w)
    ensures var r := CompExpr(And(BoolLit(true), NilLit), [], []);
            RunN(Image(r.bytes, [], S), 3, Run(0, [], g, w)) == Run(|r.bytes|, [Bool(true), Nil], g, w)
    ensures EvalExpr(And(BoolLit(true), NilLit), S, [], g, w) == Val(Nil, w)
  {
    hide RunN, CodeAt;
    var r := CompExpr(And(BoolLit(true), NilLit), [], []);
    var m := Image(r.bytes, [], S);
    assert CompExpr(NilLit, [], []).bytes == [OP_CONST_NIL];
    assert CompExpr(BoolLit(true), [], []).bytes == [OP_CONST_TRUE];
    assert r.bytes == [OP_CONST_TRUE] + Jump(OP_AND_JMP, 1) + [OP_CONST_NIL];
    WholeCode(r.bytes);
    HoldsBoth(m, 0, [OP_CONST_TRUE] + Jump(OP_AND_JMP, 1), [OP_CONST_NIL]);
    HoldsBoth(m, 0, [OP_CONST_TRUE], Jump(OP_AND_JMP, 1));
    var c := Run(0, [], g, w);
    var d := Run(1, [Bool(true)], g, w);
    RunConstOp(m, c, OP_CONST_TRUE, Bool(true));
    assert [] + [Bool(true)] == [Bool(true)];
    RunPeekJump(m, 1, OP_AND_JMP, 1, [], Bool(true), g, w);
    Then(m, 1, 1, c, d);
    var e := Run(5, [Bool(true)], g, w);
    RunConstOp(m, e, OP_CONST_NIL, Nil);
    Then(m, 2, 1, c, e);
  }

  lemma WholeCode(bytes: seq<byte>)
    ensures CodeAt(bytes, 0, bytes)
  {
  }
}
