/** Running the code emitted for an expression computes the expression's value. */
module ExprCorrect {
  import opened Values
  import opened Bytecode
  import opened Machine
  import opened Source
  import opened CodeGen
  import opened Stepping

  // ---------------------------------------------------------------------
  // Slots and bindings
  // ---------------------------------------------------------------------

  /** The bindings that the named slots hold; the hidden iterator of a for-in loop is no binding. */
  function Visible(names: seq<Local>, stack: seq<Value>): (env: Env)
    requires |names| == |stack|
    ensures |env| <= |names|
  {
    if names == [] then [] else
    var k := |names| - 1;
    Visible(names[..k], stack[..k]) + (if names[k].name == Hidden then [] else [Binding(names[k].name.x, stack[k])])
  }

  lemma {:induction false} LookupVisible(names: seq<Local>, stack: seq<Value>, x: Ident)
    requires |names| == |stack|
    ensures Resolve(names, x) < 0 <==> Lookup(Visible(names, stack), x) < 0
    ensures Resolve(names, x) >= 0 ==> Visible(names, stack)[Lookup(Visible(names, stack), x)].v == stack[Resolve(names, x)]
  {
    if names != [] {
      var k := |names| - 1;
      var env, init := Visible(names, stack), Visible(names[..k], stack[..k]);
      if names[k].name == Hidden {
        assert env == init;
      } else {
        assert env[..|env| - 1] == init;
      }
      LookupVisible(names[..k], stack[..k], x);
    }
  }

  /** What the topmost slot contributes. */
  function Topmost(names: seq<Local>, stack: seq<Value>): (env: Env)
    requires |names| == |stack| > 0
    ensures |env| <= 1
  {
    var k := |names| - 1;
    if names[k].name == Hidden then [] else [Binding(names[k].name.x, stack[k])]
  }

  lemma {:induction false} VisibleSplit(names: seq<Local>, stack: seq<Value>)
    requires |names| == |stack| > 0
    ensures Visible(names, stack) == Visible(names[..|names| - 1], stack[..|names| - 1]) + Topmost(names, stack)
  {
  }

  /** Storing into the resolved slot rebinds exactly the innermost binding. */
  lemma {:induction false} UpdateVisible(names: seq<Local>, stack: seq<Value>, x: Ident, v: Value)
    requires |names| == |stack| && Resolve(names, x) >= 0
    ensures var i := Lookup(Visible(names, stack), x);
            i >= 0 && Visible(names, stack[Resolve(names, x) := v]) == Visible(names, stack)[i := Binding(x, v)]
  {
    var k := |names| - 1;
    var i := Resolve(names, x);
    var stored := stack[i := v];
    var init, last := Visible(names[..k], stack[..k]), Topmost(names, stack);
    VisibleSplit(names, stack);
    VisibleSplit(names, stored);
    hide Visible;
    if names[k].name == Named(x) {
      assert stored[..k] == stack[..k];
      assert Lookup(init + last, x) == |init|;
      assert Topmost(names, stored) == [Binding(x, v)];
      assert (init + last)[|init| := Binding(x, v)] == init + [Binding(x, v)];
    } else {
      ResolveBelow(names, x);
      UpdateVisible(names[..k], stack[..k], x, v);
      UpdateBelowTop(names, stack, x, v, i, Lookup(init, x));
    }
  }

  lemma {:induction false} ResolveBelow(names: seq<Local>, x: Ident)
    requires names != [] && names[|names| - 1].name != Named(x)
    ensures Resolve(names, x) == Resolve(names[..|names| - 1], x)
  {
  }

  lemma UpdateBelowTop(names: seq<Local>, stack: seq<Value>, x: Ident, v: Value, i: nat, j: nat)
    requires |names| == |stack| > 0 && i < |names| - 1 && names[|names| - 1].name != Named(x)
    requires var k := |names| - 1;
             j == Lookup(Visible(names[..k], stack[..k]), x)
             && Visible(names[..k], stack[..k][i := v]) == Visible(names[..k], stack[..k])[j := Binding(x, v)]
    ensures Lookup(Visible(names, stack), x) == j
    ensures Visible(names, stack[i := v]) == Visible(names, stack)[j := Binding(x, v)]
  {
    hide Visible, Topmost, Lookup;
    var k := |names| - 1;
    var init, last := Visible(names[..k], stack[..k]), Topmost(names, stack);
    VisibleSplit(names, stack);
    VisibleSplit(names, stack[i := v]);
    UpdateTake(stack, i, v);
    TopmostOther(names, stack, x, v, i);
    LookupPastOther(init, last, x);
    UpdateConcat(init, last, j, Binding(x, v));
  }

  lemma TopmostOther(names: seq<Local>, stack: seq<Value>, x: Ident, v: Value, i: nat)
    requires |names| == |stack| > 0 && i < |names| - 1 && names[|names| - 1].name != Named(x)
    ensures Topmost(names, stack[i := v]) == Topmost(names, stack)
    ensures Topmost(names, stack) != [] ==> Topmost(names, stack)[0].x != x
  {
  }

  lemma UpdateTake<T>(s: seq<T>, i: nat, v: T)
    requires i < |s| - 1
    ensures s[i := v][..|s| - 1] == s[..|s| - 1][i := v]
  {
  }

  lemma UpdateConcat<T>(a: seq<T>, b: seq<T>, i: nat, v: T)
    requires i < |a|
    ensures (a + b)[i := v] == a[i := v] + b
  {
  }

  lemma {:induction false} LookupPastOther(init: Env, last: Env, x: Ident)
    requires |last| <= 1 && (last != [] ==> last[0].x != x)
    ensures Lookup(init + last, x) == Lookup(init, x)
  {
    if last == [] {
      assert init + last == init;
    } else {
      assert (init + last)[..|init|] == init;
    }
  }

  lemma {:induction false} VisiblePrefix(names: seq<Local>, stack: seq<Value>, k: nat)
    requires |names| == |stack| && k <= |names|
    ensures Visible(names[..k], stack[..k]) <= Visible(names, stack)
  {
    if k < |names| {
      var n := |names| - 1;
      assert names[..n][..k] == names[..k] && stack[..n][..k] == stack[..k];
      VisiblePrefix(names[..n], stack[..n], k);
    } else {
      assert names[..k] == names && stack[..k] == stack;
    }
  }

  // ---------------------------------------------------------------------
  // The loaded chunk
  // ---------------------------------------------------------------------

  /** Small enough for 24-bit operands. */
  predicate Loadable(m: Image)
  {
    |m.code| < TWO_23 && |m.pool| <= TWO_24
  }

  /** The chunk holds this code at pc and these constants. */
  predicate Holds(m: Image, pc: nat, r: ExprCode)
  {
    Loadable(m) && r.ok && r.exact && CodeAt(m.code, pc, r.bytes) && r.pool <= m.pool
  }

  /** An expression's result, as the machine leaves it. */
  function Pushed(r: Eval, pc: nat, stack: seq<Value>, g: Globals): Config
    requires r != Stray
  {
    match r
    case Val(v, w) => Run(pc, stack + [v], g, w)
    case Fail(w) => Failed(g, w)
  }

  function PushedAll(r: Evals, pc: nat, stack: seq<Value>, g: Globals): Config
    requires r != Strays
  {
    match r
    case Vals(vs, w) => Run(pc, stack + vs, g, w)
    case Fails(w) => Failed(g, w)
  }

  /** The slots of the live locals are below; operands in progress may lie on top of them. */
  predicate Locals(names: seq<Local>, stack: seq<Value>)
  {
    |names| <= |stack| && |names| <= MAX_LOCALS
  }

  function EnvOf(names: seq<Local>, stack: seq<Value>): Env
    requires Locals(names, stack)
  {
    Visible(names, stack[..|names|])
  }

  lemma EnvOfPush(names: seq<Local>, stack: seq<Value>, more: seq<Value>)
    requires Locals(names, stack)
    ensures Locals(names, stack + more) && EnvOf(names, stack + more) == EnvOf(names, stack)
  {
    assert (stack + more)[..|names|] == stack[..|names|];
  }

  lemma VarCorrect(x: Ident, names: seq<Local>, pool: seq<Value>, m: Image, pc: nat, stack: seq<Value>, g: Globals,
                   w: World)
    requires Holds(m, pc, GetVar(names, pool, x)) && Locals(names, stack)
    ensures RunN(m, 1, Run(pc, stack, g, w))
         == Pushed(EvalExpr(Var(x), m.slots, EnvOf(names, stack), g, w), pc + |GetVar(names, pool, x).bytes|, stack, g)
  {
    hide RunN, CodeAt, Visible;
    LookupVisible(names, stack[..|names|], x);
    var i := Resolve(names, x);
    if i >= 0 {
      RunGetLocal(m, Run(pc, stack, g, w), i);
    } else {
      assert m.pool[|pool|] == GetVar(names, pool, x).pool[|pool|];
      RunGetGlobal(m, Run(pc, stack, g, w), |pool|, x);
    }
  }

  /** Two stretches of code in a row. */
  lemma HoldsBoth(m: Image, pc: nat, a: seq<byte>, b: seq<byte>)
    requires CodeAt(m.code, pc, a + b)
    ensures CodeAt(m.code, pc, a) && CodeAt(m.code, pc + |a|, b)
  {
    CodeAtSplit(m.code, pc, a, b);
  }

  /**
    Unless some `and` or `or` falls through, running an expression's code from any stack ends just
    past it with exactly the expression's value pushed, or fails with the expression's failure, with
    the same effects on the world in the same order.
  */
  lemma {:induction false} ExprRuns(e: Expr, names: seq<Local>, pool: seq<Value>, m: Image, pc: nat,
                              stack: seq<Value>, g: Globals, w: World)
    returns (n: nat)
    requires Holds(m, pc, CompExpr(e, names, pool)) && Locals(names, stack)
    requires !FallsThrough(e, m.slots, EnvOf(names, stack), g, w)
    ensures RunN(m, n, Run(pc, stack, g, w))
         == Pushed(EvalExpr(e, m.slots, EnvOf(names, stack), g, w), pc + |CompExpr(e, names, pool).bytes|, stack, g)
    decreases e, 1
  {
    hide RunN, CodeAt, EnvOf, Visible;
    var env := EnvOf(names, stack);
    var r := CompExpr(e, names, pool);
    var c := Run(pc, stack, g, w);
    match e {
      case Lit(v) =>
        assert m.pool[|pool|] == r.pool[|pool|];
        RunConst(m, c, |pool|);
        n := 1;
      case BoolLit(b) =>
        RunConstOp(m, c, r.bytes[0], Bool(b));
        n := 1;
      case NilLit =>
        RunConstOp(m, c, OP_CONST_NIL, Nil);
        n := 1;
      case Var(x) =>
        VarCorrect(x, names, pool, m, pc, stack, g, w);
        n := 1;
      case Plus(a) =>
        n := ExprRuns(a, names, pool, m, pc, stack, g, w);
      case Unary(op, a) =>
        n := UnaryRuns(e, names, pool, m, pc, stack, g, w);
      case Binary(op, l, r) =>
        n := BinaryRuns(e, names, pool, m, pc, stack, g, w);
      case And(l, r) =>
        n := ShortRuns(e, l, r, OP_AND_JMP, names, pool, m, pc, stack, g, w);
      case Or(l, r) =>
        n := ShortRuns(e, l, r, OP_OR_JMP, names, pool, m, pc, stack, g, w);
      case Attr(o, name) =>
        n := AttrRuns(e, names, pool, m, pc, stack, g, w);
      case Elems(op, es) =>
        n := ElemsRuns(e, names, pool, m, pc, stack, g, w);
      case Call(f, es) =>
        n := CallRuns(e, names, pool, m, pc, stack, g, w);
    }
  }

  lemma {:induction false} UnaryRuns(e: Expr, names: seq<Local>, pool: seq<Value>, m: Image, pc: nat,
                              stack: seq<Value>, g: Globals, w: World)
    returns (n: nat)
    requires e.Unary? && Holds(m, pc, CompExpr(e, names, pool)) && Locals(names, stack)
    requires !FallsThrough(e, m.slots, EnvOf(names, stack), g, w)
    ensures RunN(m, n, Run(pc, stack, g, w))
         == Pushed(EvalExpr(e, m.slots, EnvOf(names, stack), g, w), pc + |CompExpr(e, names, pool).bytes|, stack, g)
    decreases e, 0
  {
    hide RunN, CodeAt, EnvOf, Visible;
    var a := CompExpr(e.operand, names, pool);
    var c := Run(pc, stack, g, w);
    HoldsBoth(m, pc, a.bytes, [e.uop]);
    n := ExprRuns(e.operand, names, pool, m, pc, stack, g, w);
    match EvalExpr(e.operand, m.slots, EnvOf(names, stack), g, w) {
      case Fail(_) =>
      case Val(v, w1) =>
        RunNAdd(m, n, 1, c);
        n := n + 1;
        if e.uop == OP_NOT {
          RunNot(m, pc + |a.bytes|, stack, v, g, w1);
        } else {
          RunOperator(m, pc + |a.bytes|, e.uop, stack, [v], g, w1);
        }
    }
  }

  lemma {:induction false} BinaryRuns(e: Expr, names: seq<Local>, pool: seq<Value>, m: Image, pc: nat,
                              stack: seq<Value>, g: Globals, w: World)
    returns (n: nat)
    requires e.Binary? && Holds(m, pc, CompExpr(e, names, pool)) && Locals(names, stack)
    requires !FallsThrough(e, m.slots, EnvOf(names, stack), g, w)
    ensures RunN(m, n, Run(pc, stack, g, w))
         == Pushed(EvalExpr(e, m.slots, EnvOf(names, stack), g, w), pc + |CompExpr(e, names, pool).bytes|, stack, g)
    decreases e, 0
  {
    hide RunN, CodeAt, EnvOf, Visible;
    var env := EnvOf(names, stack);
    var l := CompExpr(e.left, names, pool);
    var r := CompExpr(e.right, names, l.pool);
    var c := Run(pc, stack, g, w);
    HoldsBoth(m, pc, l.bytes + r.bytes, [e.bop]);
    HoldsBoth(m, pc, l.bytes, r.bytes);
    n := ExprRuns(e.left, names, pool, m, pc, stack, g, w);
    match EvalExpr(e.left, m.slots, env, g, w) {
      case Fail(_) =>
      case Val(v1, w1) =>
        EnvOfPush(names, stack, [v1]);
        var n2 := ExprRuns(e.right, names, l.pool, m, pc + |l.bytes|, stack + [v1], g, w1);
        RunNAdd(m, n, n2, c);
        n := n + n2;
        match EvalExpr(e.right, m.slots, env, g, w1) {
          case Fail(_) =>
          case Val(v2, w2) =>
            RunNAdd(m, n, 1, c);
            n := n + 1;
            assert stack + [v1] + [v2] == stack + [v1, v2];
            RunOperator(m, pc + |l.bytes| + |r.bytes|, e.bop, stack, [v1, v2], g, w2);
        }
    }
  }

  /** `and`, `or`: here the jump over the right operand is always taken. */
  lemma {:induction false} ShortRuns(e: Expr, l: Expr, r: Expr, op: byte, names: seq<Local>, pool: seq<Value>,
                                     m: Image, pc: nat, stack: seq<Value>, g: Globals, w: World)
    returns (n: nat)
    requires (e == And(l, r) && op == OP_AND_JMP) || (e == Or(l, r) && op == OP_OR_JMP)
    requires Holds(m, pc, CompExpr(e, names, pool)) && Locals(names, stack)
    requires !FallsThrough(e, m.slots, EnvOf(names, stack), g, w)
    ensures RunN(m, n, Run(pc, stack, g, w))
         == Pushed(EvalExpr(e, m.slots, EnvOf(names, stack), g, w), pc + |CompExpr(e, names, pool).bytes|, stack, g)
    decreases e, 0
  {
    hide RunN, CodeAt, EnvOf, Visible;
    var cl := CompExpr(l, names, pool);
    var cr := CompExpr(r, names, cl.pool);
    var c := Run(pc, stack, g, w);
    HoldsBoth(m, pc, cl.bytes + Jump(op, |cr.bytes|), cr.bytes);
    HoldsBoth(m, pc, cl.bytes, Jump(op, |cr.bytes|));
    n := ExprRuns(l, names, pool, m, pc, stack, g, w);
    match EvalExpr(l, m.slots, EnvOf(names, stack), g, w) {
      case Fail(_) =>
      case Val(v, w1) =>
        RunNAdd(m, n, 1, c);
        n := n + 1;
        RunPeekJump(m, pc + |cl.bytes|, op, |cr.bytes|, stack, v, g, w1);
    }
  }

  lemma {:induction false} AttrRuns(e: Expr, names: seq<Local>, pool: seq<Value>, m: Image, pc: nat,
                              stack: seq<Value>, g: Globals, w: World)
    returns (n: nat)
    requires e.Attr? && Holds(m, pc, CompExpr(e, names, pool)) && Locals(names, stack)
    requires !FallsThrough(e, m.slots, EnvOf(names, stack), g, w)
    ensures RunN(m, n, Run(pc, stack, g, w))
         == Pushed(EvalExpr(e, m.slots, EnvOf(names, stack), g, w), pc + |CompExpr(e, names, pool).bytes|, stack, g)
    decreases e, 0
  {
    hide RunN, CodeAt, EnvOf, Visible;
    var o := CompExpr(e.obj, names, pool);
    var r := CompExpr(e, names, pool);
    var c := Run(pc, stack, g, w);
    HoldsBoth(m, pc, o.bytes, OpAX(OP_GET_ATTR, |o.pool|));
    n := ExprRuns(e.obj, names, pool, m, pc, stack, g, w);
    match EvalExpr(e.obj, m.slots, EnvOf(names, stack), g, w) {
      case Fail(_) =>
      case Val(v, w1) =>
        RunNAdd(m, n, 1, c);
        n := n + 1;
        assert m.pool[|o.pool|] == r.pool[|o.pool|];
        RunAttr(m, pc + |o.bytes|, OP_GET_ATTR, |o.pool|, e.name, stack, [v], g, w1);
    }
  }

  lemma {:induction false} ElemsRuns(e: Expr, names: seq<Local>, pool: seq<Value>, m: Image, pc: nat,
                              stack: seq<Value>, g: Globals, w: World)
    returns (n: nat)
    requires e.Elems? && Holds(m, pc, CompExpr(e, names, pool)) && Locals(names, stack)
    requires !FallsThrough(e, m.slots, EnvOf(names, stack), g, w)
    ensures RunN(m, n, Run(pc, stack, g, w))
         == Pushed(EvalExpr(e, m.slots, EnvOf(names, stack), g, w), pc + |CompExpr(e, names, pool).bytes|, stack, g)
    decreases e, 0
  {
    hide RunN, CodeAt, EnvOf, Visible;
    var es := CompExprs(e.elems, names, pool);
    var c := Run(pc, stack, g, w);
    HoldsBoth(m, pc, es.bytes, OpA(e.build, |e.elems|));
    n := ExprsRun(e.elems, names, pool, m, pc, stack, g, w);
    match EvalExprs(e.elems, m.slots, EnvOf(names, stack), g, w) {
      case Fails(_) =>
      case Vals(vs, w1) =>
        RunNAdd(m, n, 1, c);
        n := n + 1;
        RunBuild(m, pc + |es.bytes|, e.build, stack, vs, g, w1);
    }
  }

  lemma {:induction false} CallRuns(e: Expr, names: seq<Local>, pool: seq<Value>, m: Image, pc: nat,
                              stack: seq<Value>, g: Globals, w: World)
    returns (n: nat)
    requires e.Call? && Holds(m, pc, CompExpr(e, names, pool)) && Locals(names, stack)
    requires !FallsThrough(e, m.slots, EnvOf(names, stack), g, w)
    ensures RunN(m, n, Run(pc, stack, g, w))
         == Pushed(EvalExpr(e, m.slots, EnvOf(names, stack), g, w), pc + |CompExpr(e, names, pool).bytes|, stack, g)
    decreases e, 0
  {
    hide RunN, CodeAt, EnvOf, Visible, Resolve, UnaryOp, BuildOp, Lookup, Jump, Fetch;
    var env := EnvOf(names, stack);
    var f := CompExpr(e.callee, names, pool);
    var es := CompExprs(e.args, names, f.pool);
    var c := Run(pc, stack, g, w);
    HoldsBoth(m, pc, f.bytes + es.bytes, OpA(OP_CALL, |e.args|));
    HoldsBoth(m, pc, f.bytes, es.bytes);
    n := ExprRuns(e.callee, names, pool, m, pc, stack, g, w);
    match EvalExpr(e.callee, m.slots, env, g, w) {
      case Fail(_) =>
      case Val(v, w1) =>
        EnvOfPush(names, stack, [v]);
        var n2 := ExprsRun(e.args, names, f.pool, m, pc + |f.bytes|, stack + [v], g, w1);
        RunNAdd(m, n, n2, c);
        n := n + n2;
        match EvalExprs(e.args, m.slots, env, g, w1) {
          case Fails(_) =>
          case Vals(vs, w2) =>
            RunNAdd(m, n, 1, c);
            n := n + 1;
            assert stack + [v] + vs == stack + ([v] + vs);
            RunCall(m, pc + |f.bytes| + |es.bytes|, |e.args|, stack, [v] + vs, g, w2);
        }
    }
  }

  lemma {:induction false} ExprsRun(es: seq<Expr>, names: seq<Local>, pool: seq<Value>, m: Image, pc: nat,
                              stack: seq<Value>, g: Globals, w: World)
    returns (n: nat)
    requires Holds(m, pc, CompExprs(es, names, pool)) && Locals(names, stack)
    requires !AnyFallsThrough(es, m.slots, EnvOf(names, stack), g, w)
    ensures RunN(m, n, Run(pc, stack, g, w))
         == PushedAll(EvalExprs(es, m.slots, EnvOf(names, stack), g, w), pc + |CompExprs(es, names, pool).bytes|, stack, g)
    decreases es, 0
  {
    hide RunN, CodeAt, EnvOf, Visible;
    var env := EnvOf(names, stack);
    var c := Run(pc, stack, g, w);
    if es == [] {
      n := 0;
      assert stack + [] == stack;
      assert RunN(m, 0, c) == c by { RunNothing(m, c); }
    } else {
      var r0 := CompExpr(es[0], names, pool);
      var r1 := CompExprs(es[1..], names, r0.pool);
      HoldsBoth(m, pc, r0.bytes, r1.bytes);
      n := ExprRuns(es[0], names, pool, m, pc, stack, g, w);
      match EvalExpr(es[0], m.slots, env, g, w) {
        case Fail(_) =>
        case Val(v, w1) =>
          EnvOfPush(names, stack, [v]);
          var n2 := ExprsRun(es[1..], names, r0.pool, m, pc + |r0.bytes|, stack + [v], g, w1);
          RunNAdd(m, n, n2, c);
          n := n + n2;
          match EvalExprs(es[1..], m.slots, env, g, w1) {
            case Fails(_) =>
            case Vals(vs, w2) => assert stack + [v] + vs == stack + ([v] + vs);
          }
      }
    }
  }

  lemma {:induction false} RunNothing(m: Image, c: Config)
    ensures RunN(m, 0, c) == c
  {
  }

  /** Without `and` and `or` there is nothing to fall through. */
  lemma {:induction false} PlainNeverFalls(e: Expr, S: Slots, env: Env, g: Globals, w: World)
    requires Plain(e)
    ensures !FallsThrough(e, S, env, g, w)
    decreases e, 1
  {
    match e {
      case Unary(_, a) => PlainNeverFalls(a, S, env, g, w);
      case Plus(a) => PlainNeverFalls(a, S, env, g, w);
      case Attr(o, _) => PlainNeverFalls(o, S, env, g, w);
      case Binary(_, l, r) =>
        PlainNeverFalls(l, S, env, g, w);
        PlainNeverFalls(r, S, env, g, EvalExpr(l, S, env, g, w).w);
      case Elems(_, es) => AllPlainNeverFall(es, S, env, g, w);
      case Call(f, es) =>
        PlainNeverFalls(f, S, env, g, w);
        AllPlainNeverFall(es, S, env, g, EvalExpr(f, S, env, g, w).w);
      case _ =>
    }
  }

  lemma {:induction false} AllPlainNeverFall(es: seq<Expr>, S: Slots, env: Env, g: Globals, w: World)
    requires AllPlain(es)
    ensures !AnyFallsThrough(es, S, env, g, w)
    decreases es, 0
  {
    if es != [] {
      PlainNeverFalls(es[0], S, env, g, w);
      AllPlainNeverFall(es[1..], S, env, g, EvalExpr(es[0], S, env, g, w).w);
    }
  }
}
