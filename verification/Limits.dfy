/**
  Where the compiler's fixed widths run out: a call's argument count in one byte, and the 256 jumps a
  switch can remember. In each case what the emitted code does instead, exactly, and an input.
*/
module Limits {
  import opened Values
  import opened Bytecode
  import opened Machine
  import opened Source
  import opened CodeGen
  import opened Stepping
  import opened ExprCorrect
  import opened Placement
  import opened SimpleStmts
  import opened StmtCorrect
  import opened Patching
  import opened ProgramCorrect
  import opened Support

  // ---------------------------------------------------------------------
  // Calls
  // ---------------------------------------------------------------------

  /** The operands of a call, on the stack. */
  ghost predicate CallPlaced(e: Expr, names: seq<Local>, pool: seq<Value>, m: Image, pc: nat)
  {
    e.Call? && !IsSuper(e.callee) && Loadable(m)
    && var f := CompExpr(e.callee, names, pool);
       var es := CompExprs(e.args, names, f.pool);
       f.ok && es.ok && f.exact && es.exact && es.pool <= m.pool
       && CodeAt(m.code, pc, f.bytes + es.bytes + OpA(OP_CALL, |e.args|))
  }

  lemma OperandCut(k: nat)
    ensures OpA(OP_CALL, k) == OpA(OP_CALL, k % 0x100)
  {
  }

  /**
    The code of a call with any number of arguments: the function called is the one below the last
    `|args| mod 256` arguments, and the operands beneath it stay.
  */
  lemma CallRuns(e: Expr, names: seq<Local>, pool: seq<Value>, m: Image, pc: nat, stack: seq<Value>, g: Globals,
                 w: World)
    returns (n: nat)
    requires e.Call? && CallPlaced(e, names, pool, m, pc) && Locals(names, stack)
    requires !FallsThrough(e, m.slots, EnvOf(names, stack), g, w)
    ensures var env := EnvOf(names, stack);
      var cut := |e.args| - |e.args| % 0x100;
      match EvalExpr(e.callee, m.slots, env, g, w)
      case Fail(w1) => RunN(m, n, Run(pc, stack, g, w)) == Failed(g, w1)
      case Val(f, w1) =>
        match EvalExprs(e.args, m.slots, env, g, w1)
        case Fails(w2) => RunN(m, n, Run(pc, stack, g, w)) == Failed(g, w2)
        case Vals(vs, w2) =>
          RunN(m, n, Run(pc, stack, g, w)) == Applied(m, OP_CALL, NoName, stack + ([f] + vs)[..cut], ([f] + vs)[cut..],
                                                      pc + |CompExpr(e, names, pool).bytes|, g, w2)
  {
    hide RunN, CodeAt, EnvOf, Visible, CompExprs, EvalExprs, Applied, AnyFallsThrough, OpA;
    var env := EnvOf(names, stack);
    var f := CompExpr(e.callee, names, pool);
    var es := CompExprs(e.args, names, f.pool);
    var c := Run(pc, stack, g, w);
    HoldsBoth(m, pc, f.bytes + es.bytes, OpA(OP_CALL, |e.args|));
    HoldsBoth(m, pc, f.bytes, es.bytes);
    n := ExprRuns(e.callee, names, pool, m, pc, stack, g, w);
    match EvalExpr(e.callee, m.slots, env, g, w) {
      case Fail(_) =>
      case Val(v, w1) =>
        EnvOfPush(names, stack, [v]);
        var n2 := ExprsRun(e.args, names, f.pool, m, pc + |f.bytes|, stack + [v], g, w1);
        RunNAdd(m, n, n2, c);
        n := n + n2;
        match EvalExprs(e.args, m.slots, env, g, w1) {
          case Fails(_) =>
          case Vals(vs, w2) =>
            RunNAdd(m, n, 1, c);
            n := n + 1;
            var all, k := [v] + vs, |e.args| % 0x100;
            var cut := |e.args| - k;
            OperandCut(|e.args|);
            assert stack + [v] + vs == (stack + all[..cut]) + all[cut..];
            RunCall(m, pc + |f.bytes| + |es.bytes|, k, stack + all[..cut], all[cut..], g, w2);
        }
    }
  }

  /** Whenever the code of a call gets to its end, it has pushed exactly one value if and only if the byte holds the count. */
  lemma CallExactly(e: Expr, names: seq<Local>, pool: seq<Value>, m: Image, pc: nat, stack: seq<Value>, g: Globals,
                    w: World)
    returns (n: nat)
    requires e.Call? && CallPlaced(e, names, pool, m, pc) && Locals(names, stack)
    requires !FallsThrough(e, m.slots, EnvOf(names, stack), g, w)
    ensures var c := RunN(m, n, Run(pc, stack, g, w));
      !c.Done? && (c.Run? ==> c.pc == pc + |CompExpr(e, names, pool).bytes| && (|c.stack| == |stack| + 1 <==> |e.args| <= MAX_ARGS))
  {
    hide RunN, CodeAt, EnvOf, Visible, CompExprs, CompExpr, EvalExpr, EvalExprs, FallsThrough, CallPlaced;
    n := CallRuns(e, names, pool, m, pc, stack, g, w);
    Whole(|e.args|);
  }

  lemma Whole(k: nat)
    ensures k - k % 0x100 == 0 <==> k <= MAX_ARGS
  {
  }

  function Nils(k: nat): (es: seq<Expr>)
    ensures |es| == k
  {
    seq(k, _ => NilLit)
  }

  lemma {:induction false} NilsCode(k: nat, names: seq<Local>, pool: seq<Value>)
    ensures CompExprs(Nils(k), names, pool) == ExprCode(seq(k, _ => OP_CONST_NIL), pool, true, true)
  {
    if k > 0 {
      NilsCode(k - 1, names, pool);
      assert Nils(k)[1..] == Nils(k - 1) && Nils(k)[0] == NilLit;
      assert [OP_CONST_NIL] + seq(k - 1, _ => OP_CONST_NIL) == seq(k, _ => OP_CONST_NIL);
      assert CompExpr(NilLit, names, pool) == ExprCode([OP_CONST_NIL], pool, true, true);
    }
  }

  lemma {:induction false} NilsValue(k: nat, S: Slots, env: Env, g: Globals, w: World)
    ensures EvalExprs(Nils(k), S, env, g, w) == Vals(seq(k, _ => Nil), w) && !AnyFallsThrough(Nils(k), S, env, g, w)
  {
    if k > 0 {
      NilsValue(k - 1, S, env, g, w);
      assert Nils(k)[1..] == Nils(k - 1) && Nils(k)[0] == NilLit;
      assert [Nil] + seq(k - 1, _ => Nil) == seq(k, _ => Nil);
    }
  }

  /** `true(nil, nil, ...)` with 256 arguments: the last `nil` is called instead of `true`, with none. */
  lemma {:induction false} CallCutsArguments(S: Slots, g: Globals, w: World)
    ensures var e := Call(BoolLit(true), Nils(256));
      var m := Image(CompExpr(e, [], []).bytes, [], S);
      RunN(m, 258, Run(0, [], g, w))
        == Applied(m, OP_CALL, NoName, [Bool(true)] + seq(255, _ => Nil), [Nil], |m.code|, g, w)
  {
    hide RunN, CodeAt, Applied, CompExprs, OpA;
    var e := Call(BoolLit(true), Nils(256));
    NilsCode(256, [], []);
    var f := CompExpr(e.callee, [], []);
    var es := CompExprs(e.args, [], f.pool);
    assert f == ExprCode([OP_CONST_TRUE], [], true, true);
    assert CompExpr(e, [], []).bytes == f.bytes + es.bytes + OpA(OP_CALL, 256);
    var m := Image(CompExpr(e, [], []).bytes, [], S);
    SelfPlaced(m.code);
    HoldsBoth(m, 0, f.bytes + es.bytes, OpA(OP_CALL, 256));
    HoldsBoth(m, 0, f.bytes, es.bytes);
    var c := Run(0, [], g, w);
    RunConstOp(m, c, OP_CONST_TRUE, Bool(true));
    assert [] + [Bool(true)] == [Bool(true)];
    PushNils(m, 1, 256, [Bool(true)], g, w);
    Then(m, 1, 256, c, Run(1, [Bool(true)], g, w));
    var d := Run(257, [Bool(true)] + seq(256, _ => Nil), g, w);
    Then(m, 257, 1, c, d);
    OperandCut(256);
    assert d.stack == ([Bool(true)] + seq(255, _ => Nil)) + [Nil];
    RunCall(m, 257, 0, [Bool(true)] + seq(255, _ => Nil), [Nil], g, w);
  }

  lemma SelfPlaced(bytes: seq<byte>)
    ensures CodeAt(bytes, 0, bytes)
  {
  }

  lemma {:induction false} PushNils(m: Image, pc: nat, k: nat, stack: seq<Value>, g: Globals, w: World)
    requires CodeAt(m.code, pc, seq(k, _ => OP_CONST_NIL))
    ensures RunN(m, k, Run(pc, stack, g, w)) == Run(pc + k, stack + seq(k, _ => Nil), g, w)
    decreases k
  {
    hide CodeAt, RunN, Step;
    var c := Run(pc, stack, g, w);
    if k == 0 {
      RunNothing(m, c);
      assert stack + seq(0, _ => Nil) == stack;
    } else {
      assert [OP_CONST_NIL] + seq(k - 1, _ => OP_CONST_NIL) == seq(k, _ => OP_CONST_NIL);
      HoldsBoth(m, pc, [OP_CONST_NIL], seq(k - 1, _ => OP_CONST_NIL));
      RunConstOp(m, c, OP_CONST_NIL, Nil);
      PushNils(m, pc + 1, k - 1, stack + [Nil], g, w);
      Then(m, 1, k - 1, c, Run(pc + 1, stack + [Nil], g, w));
      assert stack + [Nil] + seq(k - 1, _ => Nil) == stack + seq(k, _ => Nil);
    }
  }

  // ---------------------------------------------------------------------
  // The values of a case
  // ---------------------------------------------------------------------

  /** How many of n tests, the first of them the j-th, have no jump. */
  function Jumpless(j: nat, n: nat): nat
  {
    if j >= MAX_PATCHES then n else if j + n > MAX_PATCHES then j + n - MAX_PATCHES else 0
  }

  ghost predicate TestsPlaced(values: seq<Expr>, j: nat, hasSubject: bool, names: seq<Local>, pool: seq<Value>,
                              m: Image, pc: nat)
  {
    var r := CompValues(values, j, hasSubject, names, pool);
    Loadable(m) && r.ok && r.pool <= m.pool && AllSupported(values) && AllPlain(values) && CodeAt(m.code, pc, r.bytes) && pc + |r.bytes| + 4 <= |m.code|
  }

  /** A test pushes one value, whatever lies on the stack. */
  lemma TestPushes(e: Expr, hasSubject: bool, names: seq<Local>, pool: seq<Value>, m: Image, pc: nat,
                   stack: seq<Value>, g: Globals, w: World)
    returns (n: nat)
    requires Locals(names, stack) && Loadable(m) && SupportedExpr(e) && Plain(e) && (hasSubject ==> stack != [])
    requires var r := CompExpr(e, names, pool);
      r.ok && r.pool <= m.pool && CodeAt(m.code, pc, if hasSubject then [OP_DUP] + r.bytes + [OP_EQ] else r.bytes)
    ensures var c := RunN(m, n, Run(pc, stack, g, w));
      var next := pc + |CompExpr(e, names, pool).bytes| + if hasSubject then 2 else 0;
      c.Failed? || (c.Run? && c.pc == next && c.g == g && |c.stack| == |stack| + 1 && c.stack[..|stack|] == stack)
  {
    hide RunN, CodeAt, Visible, EvalExpr, CompExpr, Plain, SupportedExpr, FallsThrough, Execute, EnvOf;
    var r := CompExpr(e, names, pool);
    var env := EnvOf(names, stack);
    ExprExactInSource(e, names, pool);
    PlainNeverFalls(e, m.slots, env, g, w);
    if hasSubject {
      var rest, v := stack[..|stack| - 1], stack[|stack| - 1];
      assert stack == rest + [v];
      HoldsBoth(m, pc, [OP_DUP] + r.bytes, [OP_EQ]);
      HoldsBoth(m, pc, [OP_DUP], r.bytes);
      RunDup(m, pc, rest, v, g, w);
      var c := Run(pc, stack, g, w);
      EnvOfPush(names, stack, [v]);
      n := ExprRuns(e, names, pool, m, pc + 1, stack + [v], g, w);
      Then(m, 1, n, c, Run(pc + 1, stack + [v], g, w));
      n := 1 + n;
      var t := EvalExpr(e, m.slots, env, g, w);
      if t.Val? {
        assert stack + [v] + [t.v] == stack + [v, t.v];
        Then(m, n, 1, c, Run(pc + 1 + |r.bytes|, stack + [v, t.v], g, t.w));
        RunOperator(m, pc + 1 + |r.bytes|, OP_EQ, stack, [v, t.v], g, t.w);
        n := n + 1;
      }
    } else {
      n := ExprRuns(e, names, pool, m, pc, stack, g, w);
    }
  }

  lemma TestsLayout(values: seq<Expr>, j: nat, hasSubject: bool, names: seq<Local>, pool: seq<Value>, m: Image, pc: nat)
    requires values != [] && TestsPlaced(values, j, hasSubject, names, pool, m, pc)
    ensures var r := CompExpr(values[0], names, pool);
      var rest := CompValues(values[1..], j + 1, hasSubject, names, r.pool);
      var at := pc + |r.bytes| + if hasSubject then 2 else 0;
      var next := if j < MAX_PATCHES then at + 4 else at;
      && r.ok && r.pool <= m.pool && SupportedExpr(values[0]) && Plain(values[0])
      && CodeAt(m.code, pc, if hasSubject then [OP_DUP] + r.bytes + [OP_EQ] else r.bytes)
      && (j < MAX_PATCHES ==> CodeAt(m.code, at, Jump(OP_JUMP_IF_TRUE, |rest.bytes| + 4)))
      && TestsPlaced(values[1..], j + 1, hasSubject, names, r.pool, m, next)
      && next + |rest.bytes| == pc + |CompValues(values, j, hasSubject, names, pool).bytes|
  {
    hide CodeAt, CompExpr, Plain, SupportedExpr;
    var r := CompExpr(values[0], names, pool);
    var rest := CompValues(values[1..], j + 1, hasSubject, names, r.pool);
    var test := if hasSubject then [OP_DUP] + r.bytes + [OP_EQ] else r.bytes;
    var hit := if j < MAX_PATCHES then Jump(OP_JUMP_IF_TRUE, |rest.bytes| + 4) else [];
    HoldsBoth(m, pc, test + hit, rest.bytes);
    HoldsBoth(m, pc, test, hit);
  }

  /** All tests of a case: a hit keeps the stack, and what has no jump stays on it. */
  lemma {:induction false} TestsRun(values: seq<Expr>, j: nat, hasSubject: bool, names: seq<Local>, pool: seq<Value>,
                                    m: Image, pc: nat, stack: seq<Value>, g: Globals, w: World) returns (n: nat)
    requires TestsPlaced(values, j, hasSubject, names, pool, m, pc) && Locals(names, stack) && (hasSubject ==> stack != [])
    ensures var at := pc + |CompValues(values, j, hasSubject, names, pool).bytes|;
      var c := RunN(m, n, Run(pc, stack, g, w));
      c.Failed? || (c.Run? && c.pc == at + 4 && c.stack == stack)
      || (c.Run? && c.pc == at && |c.stack| == |stack| + Jumpless(j, |values|) && c.stack[..|stack|] == stack)
    decreases values
  {
    hide RunN, CodeAt, CompExpr, CompValues, TestsPlaced, Locals;
    var c := Run(pc, stack, g, w);
    if values == [] {
      n := 0;
      NoTestsPlaced(j, hasSubject, names, pool);
      RunNothing(m, c);
    } else {
      var r := CompExpr(values[0], names, pool);
      var rest := CompValues(values[1..], j + 1, hasSubject, names, r.pool);
      TestsLayout(values, j, hasSubject, names, pool, m, pc);
      PlacedLoadable(values, j, hasSubject, names, pool, m, pc);
      n := TestPushes(values[0], hasSubject, names, pool, m, pc, stack, g, w);
      var d := RunN(m, n, c);
      if d.Run? {
        var t := d.stack[|stack|];
        assert d.stack == stack + [t];
        if j < MAX_PATCHES {
          ReachableTest(values[1..], j + 1, hasSubject, names, r.pool, m, d.pc + 4);
          Then(m, n, 1, c, d);
          RunPopJump(m, d.pc, OP_JUMP_IF_TRUE, |rest.bytes| + 4, stack, t, g, d.w);
          n := n + 1;
          if !m.slots.truthy(t, d.w) {
            var n1 := TestsRun(values[1..], j + 1, hasSubject, names, r.pool, m, d.pc + 4, stack, g, d.w);
            Then(m, n, n1, c, Run(d.pc + 4, stack, g, d.w));
            n := n + n1;
          }
        } else {
          LocalsPush(names, stack, d.stack);
          var n1 := LateTestsRun(values[1..], j + 1, hasSubject, names, r.pool, m, d.pc, d.stack, g, d.w);
          Then(m, n, n1, c, d);
          n := n + n1;
          var x := RunN(m, n, c);
          assert x.Run? ==> x.stack[..|stack|] == x.stack[..|d.stack|][..|stack|];
        }
      }
    }
  }

  /** Tests without jumps: each leaves its value. */
  lemma {:induction false} LateTestsRun(values: seq<Expr>, j: nat, hasSubject: bool, names: seq<Local>,
                              pool: seq<Value>,
                                        m: Image, pc: nat, stack: seq<Value>, g: Globals, w: World) returns (n: nat)
    requires j >= MAX_PATCHES
    requires TestsPlaced(values, j, hasSubject, names, pool, m, pc) && Locals(names, stack) && (hasSubject ==> stack != [])
    ensures var c := RunN(m, n, Run(pc, stack, g, w));
      c.Failed?
      || (c.Run? && c.pc == pc + |CompValues(values, j, hasSubject, names, pool).bytes|
          && |c.stack| == |stack| + |values| && c.stack[..|stack|] == stack)
    decreases values
  {
    hide RunN, CodeAt, CompExpr, CompValues, TestsPlaced, Locals;
    var c := Run(pc, stack, g, w);
    if values == [] {
      n := 0;
      NoTestsPlaced(j, hasSubject, names, pool);
      RunNothing(m, c);
    } else {
      var r := CompExpr(values[0], names, pool);
      TestsLayout(values, j, hasSubject, names, pool, m, pc);
      PlacedLoadable(values, j, hasSubject, names, pool, m, pc);
      n := TestPushes(values[0], hasSubject, names, pool, m, pc, stack, g, w);
      var d := RunN(m, n, c);
      if d.Run? {
        LocalsPush(names, stack, d.stack);
        var n1 := LateTestsRun(values[1..], j + 1, hasSubject, names, r.pool, m, d.pc, d.stack, g, d.w);
        Then(m, n, n1, c, d);
        n := n + n1;
        var x := RunN(m, n, c);
        assert x.Run? ==> x.stack[..|stack|] == x.stack[..|d.stack|][..|stack|];
      }
    }
  }

  lemma LocalsPush(names: seq<Local>, stack: seq<Value>, more: seq<Value>)
    requires Locals(names, stack) && |more| >= |stack|
    ensures Locals(names, more)
  {
  }

  lemma NoTestsPlaced(j: nat, hasSubject: bool, names: seq<Local>, pool: seq<Value>)
    ensures CompValues([], j, hasSubject, names, pool).bytes == []
  {
  }

  lemma PlacedLoadable(values: seq<Expr>, j: nat, hasSubject: bool, names: seq<Local>, pool: seq<Value>, m: Image,
                       pc: nat)
    requires TestsPlaced(values, j, hasSubject, names, pool, m, pc)
    ensures Loadable(m)
  {
  }

  lemma ReachableTest(values: seq<Expr>, j: nat, hasSubject: bool, names: seq<Local>, pool: seq<Value>, m: Image,
                      pc: nat)
    requires TestsPlaced(values, j, hasSubject, names, pool, m, pc) && pc >= 4
    ensures Reachable(pc - 4, |CompValues(values, j, hasSubject, names, pool).bytes| + 4)
  {
  }

  /**
    The tests of a case end with the stack as it was if and only if there are at most 256 of them,
    unless one of the first 256 hits: that one jumps to the body with the stack as it was.
  */
  lemma TestsExactly(values: seq<Expr>, hasSubject: bool, names: seq<Local>, pool: seq<Value>,
                     m: Image, pc: nat, stack: seq<Value>, g: Globals, w: World) returns (n: nat)
    requires TestsPlaced(values, 0, hasSubject, names, pool, m, pc) && Locals(names, stack) && (hasSubject ==> stack != [])
    ensures var at := pc + |CompValues(values, 0, hasSubject, names, pool).bytes|;
      var c := RunN(m, n, Run(pc, stack, g, w));
      && !c.Done? && (c.Run? ==> c.pc == at || c.pc == at + 4)
      && (c.Run? && c.pc == at + 4 ==> c.stack == stack)
      && (c.Run? && c.pc == at ==> (c.stack == stack <==> |values| <= MAX_PATCHES))
  {
    hide RunN, CompValues, TestsPlaced, Locals;
    n := TestsRun(values, 0, hasSubject, names, pool, m, pc, stack, g, w);
  }

  // An input: a case with 257 values that are all nil, none of which hits.

  lemma {:induction false} NilTestsCode(k: nat, j: nat)
    ensures var r := CompValues(Nils(k), j, false, [], []);
      r.ok && r.pool == [] && |r.bytes| <= 5 * k && AllSupported(Nils(k)) && AllPlain(Nils(k))
  {
    if k > 0 {
      NilTestsCode(k - 1, j + 1);
      assert Nils(k)[1..] == Nils(k - 1) && Nils(k)[0] == NilLit;
      assert CompExpr(NilLit, [], []) == ExprCode([OP_CONST_NIL], [], true, true);
    }
  }

  lemma {:induction false} NilTestsRun(k: nat, j: nat, m: Image, pc: nat, stack: seq<Value>, g: Globals,
                              w: World) returns (n: nat)
    requires TestsPlaced(Nils(k), j, false, [], [], m, pc) && !m.slots.truthy(Nil, w)
    ensures RunN(m, n, Run(pc, stack, g, w))
      == Run(pc + |CompValues(Nils(k), j, false, [], []).bytes|, stack + seq(Jumpless(j, k), _ => Nil), g, w)
    decreases k
  {
    hide RunN, CodeAt, CompValues, TestsPlaced;
    var c := Run(pc, stack, g, w);
    if k == 0 {
      n := 0;
      assert Nils(0) == [];
      NoTestsPlaced(j, false, [], []);
      RunNothing(m, c);
      assert stack + seq(0, _ => Nil) == stack;
    } else {
      assert Nils(k)[1..] == Nils(k - 1) && Nils(k)[0] == NilLit;
      TestsLayout(Nils(k), j, false, [], [], m, pc);
      var rest := CompValues(Nils(k - 1), j + 1, false, [], []);
      assert CompExpr(NilLit, [], []) == ExprCode([OP_CONST_NIL], [], true, true);
      RunConstOp(m, c, OP_CONST_NIL, Nil);
      n := 1;
      if j < MAX_PATCHES {
        ReachableTest(Nils(k - 1), j + 1, false, [], [], m, pc + 5);
        Then(m, 1, 1, c, Run(pc + 1, stack + [Nil], g, w));
        RunPopJump(m, pc + 1, OP_JUMP_IF_TRUE, |rest.bytes| + 4, stack, Nil, g, w);
        n := NilTestsRun(k - 1, j + 1, m, pc + 5, stack, g, w);
        Then(m, 2, n, c, Run(pc + 5, stack, g, w));
        n := n + 2;
      } else {
        n := NilTestsRun(k - 1, j + 1, m, pc + 1, stack + [Nil], g, w);
        Then(m, 1, n, c, Run(pc + 1, stack + [Nil], g, w));
        n := n + 1;
        assert stack + [Nil] + seq(k - 1, _ => Nil) == stack + seq(k, _ => Nil);
      }
    }
  }

  /** `switch { case nil, nil, ...: }` with 257 values: behind the tests a value is left on the stack. */
  lemma TestLeftBehind(S: Slots, g: Globals, w: World) returns (n: nat)
    requires !S.truthy(Nil, w)
    ensures var r := CompValues(Nils(257), 0, false, [], []);
      RunN(Image(r.bytes + Jump(OP_JUMP, 0), [], S), n, Run(0, [], g, w)) == Run(|r.bytes|, [Nil], g, w)
  {
    hide RunN, CodeAt, CompValues, Jump;
    var r := CompValues(Nils(257), 0, false, [], []);
    var m := Image(r.bytes + Jump(OP_JUMP, 0), [], S);
    NilTestsCode(257, 0);
    SelfPlaced(m.code);
    HoldsBoth(m, 0, r.bytes, Jump(OP_JUMP, 0));
    n := NilTestsRun(257, 0, m, 0, [], g, w);
    assert [] + seq(1, _ => Nil) == [Nil];
  }

  // ---------------------------------------------------------------------
  // The ends of the cases
  // ---------------------------------------------------------------------

  /** The pieces of a case, wherever they have been put. */
  lemma CaseSplit(drop: seq<byte>, vs: ExprCode, b: StmtCode, rest: StmtCode, jumps: bool, names: seq<Local>,
                  code: seq<byte>, pc: nat, breakTo: int, continueTo: int)
    requires Fits(code, pc, CaseCode(drop, vs, b, rest, jumps, names).syms, breakTo, continueTo)
    ensures var toEnd := if jumps then 4 else 0;
      var body := pc + |vs.bytes| + 4 + |drop|;
      && CodeAt(code, pc, vs.bytes + Jump(OP_JUMP, |drop| + |b.syms| + toEnd))
      && CodeAt(code, pc + |vs.bytes| + 4, drop)
      && Fits(code, body, b.syms, breakTo, continueTo)
      && (jumps ==> CodeAt(code, body + |b.syms|, Jump(OP_JUMP, |rest.syms|)))
      && Fits(code, body + |b.syms| + toEnd, rest.syms, breakTo, continueTo)
      && body + |b.syms| + toEnd + |rest.syms| == pc + |CaseCode(drop, vs, b, rest, jumps, names).syms| <= |code|
  {
    FitsBound(code, pc, CaseCode(drop, vs, b, rest, jumps, names).syms, breakTo, continueTo);
    hide Fits, CodeAt;
    var over := if jumps then Jump(OP_JUMP, |rest.syms|) else [];
    var head := vs.bytes + Jump(OP_JUMP, |drop| + |b.syms| + |over|);
    var tail3 := Lift(over) + rest.syms;
    var tail2 := b.syms + tail3;
    var tail1 := Lift(drop) + tail2;
    FitsSplit(code, pc, Lift(head), tail1, breakTo, continueTo);
    FitsLift(code, pc, head, breakTo, continueTo);
    var at := pc + |head|;
    FitsSplit(code, at, Lift(drop), tail2, breakTo, continueTo);
    FitsLift(code, at, drop, breakTo, continueTo);
    FitsSplit(code, at + |drop|, b.syms, tail3, breakTo, continueTo);
    FitsSplit(code, at + |drop| + |b.syms|, Lift(over), rest.syms, breakTo, continueTo);
    FitsLift(code, at + |drop| + |b.syms|, over, breakTo, continueTo);
  }

  lemma CaseShape(s: Stmt, i: nat, done: nat, cx: Context, pool: seq<Value>)
    requires s.Switch? && i < |s.cases| && s.cases[i].values != []
    ensures var has := s.subject.Some?;
      var vs := CompValues(s.cases[i].values, 0, has, cx.names, pool);
      var b := CompBlock(s.cases[i].body, cx, vs.pool);
      CompCases(s, i, done, cx, pool)
      == CaseCode(if has then [OP_POP] else [], vs, b, CompCases(s, i + 1, done + 1, cx, b.pool), done < MAX_PATCHES, cx.names)
  {
    hide CompBlock, CompValues, CaseCode;
  }

  /**
    Behind the body of a case the switch is left at once if and only if fewer than 256 cases with
    values came before it; otherwise the machine is already at the tests of the next case, or at the
    default, as if it had matched nothing.
  */
  lemma CaseEndExactly(s: Stmt, i: nat, done: nat, cx: Context, pool: seq<Value>, m: Image, pc: nat, breakTo: int,
                       continueTo: int,
                       stack: seq<Value>, g: Globals, w: World)
    requires s.Switch? && i < |s.cases| && s.cases[i].values != [] && Loadable(m)
    requires Fits(m.code, pc, CompCases(s, i, done, cx, pool).syms, breakTo, continueTo)
    ensures var has := s.subject.Some?;
      var vs := CompValues(s.cases[i].values, 0, has, cx.names, pool);
      var b := CompBlock(s.cases[i].body, cx, vs.pool);
      var rest := CompCases(s, i + 1, done + 1, cx, b.pool);
      var bodyEnd := pc + |vs.bytes| + 4 + (if has then 1 else 0) + |b.syms|;
      var end := pc + |CompCases(s, i, done, cx, pool).syms|;
      && (done < MAX_PATCHES ==> RunN(m, 1, Run(bodyEnd, stack, g, w)) == Run(end, stack, g, w))
      && (done < MAX_PATCHES <==> bodyEnd + |rest.syms| < end)
      && (done >= MAX_PATCHES ==> Fits(m.code, bodyEnd, rest.syms, breakTo, continueTo) && bodyEnd + |rest.syms| == end)
  {
    hide RunN, CodeAt, CompBlock, CompValues, CompCases, CaseCode, Fits;
    var has := s.subject.Some?;
    var drop := if has then [OP_POP] else [];
    var vs := CompValues(s.cases[i].values, 0, has, cx.names, pool);
    var b := CompBlock(s.cases[i].body, cx, vs.pool);
    var rest := CompCases(s, i + 1, done + 1, cx, b.pool);
    CaseShape(s, i, done, cx, pool);
    CaseSplit(drop, vs, b, rest, done < MAX_PATCHES, cx.names, m.code, pc, breakTo, continueTo);
    var bodyEnd := pc + |vs.bytes| + 4 + |drop| + |b.syms|;
    if done < MAX_PATCHES {
      RunJump(m, Run(bodyEnd, stack, g, w), |rest.syms|);
    }
  }

  // An input: 256 cases that do not match, one that does, and a default.

  function LateSwitch(): (s: Stmt)
    ensures s.Switch? && |s.cases| == 258
  {
    Switch(None, seq(256, _ => Case([NilLit], [])) + [Case([BoolLit(true)], []), Case([], [Return(Some(BoolLit(true)))])])
  }

  lemma LateCases(i: nat)
    requires i < 258
    ensures var s := LateSwitch();
      && s.subject == None
      && (i < 256 ==> s.cases[i] == Case([NilLit], []))
      && (i == 256 ==> s.cases[i] == Case([BoolLit(true)], []))
      && (i == 257 ==> s.cases[i] == Case([], [Return(Some(BoolLit(true)))])) && DefaultCase(s.cases) == 257
  {
  }

  const LATE := Context(false, [], 1, NoLoop)

  /** The code of the cases from the i-th on. */
  function LateCode(i: nat): StmtCode
    requires i <= 257
  {
    CompCases(LateSwitch(), i, i, LATE, [])
  }

  lemma OneTest(e: Expr)
    requires e == NilLit || e == BoolLit(true)
    ensures CompValues([e], 0, false, [], [])
      == ExprCode((if e == NilLit then [OP_CONST_NIL] else [OP_CONST_TRUE]) + Jump(OP_JUMP_IF_TRUE, 4), [], true, true)
  {
    hide Jump;
    assert CompValues([], 1, false, [], []) == ExprCode([], [], true, true);
    assert [e][1..] == [];
    var v := CompExpr(e, [], []).bytes;
    assert v + Jump(OP_JUMP_IF_TRUE, 4) + [] == v + Jump(OP_JUMP_IF_TRUE, 4);
  }

  lemma EmptyBody()
    ensures CompBlock([], LATE, []) == StmtCode([], [], [], true, true)
  {
    assert Lift(Pops(0)) == [];
  }

  lemma LateDefault()
    ensures var b := CompBlock([Return(Some(BoolLit(true)))], LATE, []);
      && b.ok && b.pool == [] && b.syms == Lift([OP_CONST_TRUE, OP_RETURN])
      && LateCode(257).syms == b.syms && LateCode(257).ok && LateCode(257).pool == []
  {
    LateCases(257);
    var cx := LATE.(depth := 2);
    var ret := Return(Some(BoolLit(true)));
    assert CompStmt(ret, cx, []).syms == Lift([OP_CONST_TRUE] + [OP_RETURN]);
    assert [ret][1..] == [];
    assert CompSeq([], cx, []) == StmtCode([], [], [], true, true);
    var b := CompBlock([ret], LATE, []);
    assert Lift(Pops(0)) == [];
    assert b.syms == Lift([OP_CONST_TRUE, OP_RETURN]);
    assert CompCases(LateSwitch(), 258, 257, LATE, []).syms == Lift([]) + b.syms;
  }

  lemma {:induction false} LateAccepted(i: nat)
    requires i <= 257
    ensures LateCode(i).ok && LateCode(i).pool == [] && |LateCode(i).syms| <= 20 * (258 - i)
    decreases 257 - i
  {
    hide CompCases, CompBlock, CompValues, Jump;
    if i == 257 {
      LateDefault();
    } else {
      LateCases(i);
      CaseShape(LateSwitch(), i, i, LATE, []);
      OneTest(LateSwitch().cases[i].values[0]);
      assert LateSwitch().cases[i].values == [LateSwitch().cases[i].values[0]];
      EmptyBody();
      LateAccepted(i + 1);
    }
  }

  /** One case, from its test to the next case or to the end of its body. */
  lemma LateCaseRuns(i: nat, m: Image, pc: nat, g: Globals, w: World) returns (n: nat)
    requires i <= 256 && Loadable(m) && Fits(m.code, pc, LateCode(i).syms, 0, 0)
    requires m.slots.truthy(Bool(true), w) && !m.slots.truthy(Nil, w)
    ensures var next := if i < 256 then pc + 13 else pc + 9;
      RunN(m, n, Run(pc, [], g, w)) == Run(next, [], g, w) && Fits(m.code, next, LateCode(i + 1).syms, 0, 0)
  {
    hide RunN, CodeAt, CompCases, CompBlock, CompValues, Fits, CaseCode, Jump;
    var e := if i < 256 then NilLit else BoolLit(true);
    var v := if i < 256 then Nil else Bool(true);
    var op := if i < 256 then OP_CONST_NIL else OP_CONST_TRUE;
    LateCases(i);
    CaseShape(LateSwitch(), i, i, LATE, []);
    OneTest(e);
    EmptyBody();
    var vs := CompValues([e], 0, false, [], []);
    var b := CompBlock([], LATE, []);
    var rest := LateCode(i + 1);
    CaseSplit([], vs, b, rest, i < 256, [], m.code, pc, 0, 0);
    var over := if i < 256 then 4 else 0;
    HoldsBoth(m, pc, vs.bytes, Jump(OP_JUMP, over));
    HoldsBoth(m, pc, [op], Jump(OP_JUMP_IF_TRUE, 4));
    var c := Run(pc, [], g, w);
    RunConstOp(m, c, op, v);
    assert [] + [v] == [v];
    RunPopJump(m, pc + 1, OP_JUMP_IF_TRUE, 4, [], v, g, w);
    Then(m, 1, 1, c, Run(pc + 1, [v], g, w));
    n := 2;
    if i < 256 {
      var d := Run(pc + 5, [], g, w);
      RunJump(m, d, 4);
      Then(m, 2, 1, c, d);
      n := 3;
    }
  }

  lemma LateDefaultRuns(m: Image, pc: nat, g: Globals, w: World) returns (n: nat)
    requires Fits(m.code, pc, LateCode(257).syms, 0, 0)
    ensures RunN(m, n, Run(pc, [], g, w)) == Done(Bool(true), g, w)
  {
    hide RunN, CodeAt, LateCode, Fits;
    var c := Run(pc, [], g, w);
    LateDefault();
    assert [OP_CONST_TRUE] + [OP_RETURN] == [OP_CONST_TRUE, OP_RETURN];
    FitsLift(m.code, pc, [OP_CONST_TRUE] + [OP_RETURN], 0, 0);
    HoldsBoth(m, pc, [OP_CONST_TRUE], [OP_RETURN]);
    RunConstOp(m, c, OP_CONST_TRUE, Bool(true));
    assert [] + [Bool(true)] == [Bool(true)];
    RunReturn(m, pc + 1, [], Bool(true), g, w);
    Then(m, 1, 1, c, Run(pc + 1, [Bool(true)], g, w));
    n := 2;
  }

  lemma {:induction false} LateCasesRun(i: nat, m: Image, pc: nat, g: Globals, w: World) returns (n: nat)
    requires i <= 257 && Loadable(m) && Fits(m.code, pc, LateCode(i).syms, 0, 0)
    requires m.slots.truthy(Bool(true), w) && !m.slots.truthy(Nil, w)
    ensures RunN(m, n, Run(pc, [], g, w)) == Done(Bool(true), g, w)
    decreases 257 - i
  {
    hide RunN, CodeAt, LateCode, Fits;
    if i == 257 {
      n := LateDefaultRuns(m, pc, g, w);
    } else {
      n := LateCaseRuns(i, m, pc, g, w);
      var next := if i < 256 then pc + 13 else pc + 9;
      var k := LateCasesRun(i + 1, m, next, g, w);
      Then(m, n, k, Run(pc, [], g, w), Run(next, [], g, w));
      n := n + k;
    }
  }

  lemma {:induction false} LateMeaning(i: nat, fuel: nat, S: Slots, g: Globals, w: World)
    requires i <= 256 && S.truthy(Bool(true), w) && !S.truthy(Nil, w)
    ensures ExecCases(LateSwitch(), i, Nil, fuel, false, S, State([], g, w)) == Normal(State([], g, w))
    decreases 256 - i
  {
    hide LateSwitch;
    LateCases(i);
    var st := State([], g, w);
    assert st.(w := w) == st;
    if i < 256 {
      var rest := [NilLit][1..];
      assert rest == [] && Matches(rest, false, Nil, S, st) == Miss(w);
      assert Matches([NilLit], false, Nil, S, st) == Miss(w);
      LateMeaning(i + 1, fuel, S, g, w);
    } else {
      assert Matches([BoolLit(true)], false, Nil, S, st) == Hit(w);
      assert Cut(st, 0) == st;
      assert ExecSeq([], fuel, false, S, st) == Normal(st);
      assert ExecBlock([], fuel, false, S, st) == Normal(st);
    }
  }

  /**
    The body of the 257th case is followed by no jump: a function made of this switch means to go on
    behind it, and so to return nil, but its code runs the default as well and returns true.
  */
  lemma LateCaseFallsOn(fuel: nat, S: Slots, g: Globals, w: World) returns (n: nat)
    requires S.truthy(Bool(true), w) && !S.truthy(Nil, w)
    ensures ExecBlock([LateSwitch()], fuel, false, S, State([], g, w)) == Normal(State([], g, w))
    ensures CompFunction([], [LateSwitch()]).ok
    ensures RunN(Link(CompFunction([], [LateSwitch()]), S), n, Run(0, [], g, w)) == Done(Bool(true), g, w)
  {
    hide RunN, CodeAt, LateSwitch, Fits, CompCases, ExecCases;
    var s := LateSwitch();
    LateCases(0);
    LateMeaning(0, fuel, S, g, w);
    var st := State([], g, w);
    assert st.(w := w) == st && st.env[..0] == st.env;
    assert Exec(s, fuel, false, S, st) == Normal(st);
    assert [s][1..] == [] && ExecSeq([], fuel, false, S, st) == Normal(st);
    LateAccepted(0);
    var cx := Context(false, ParamNames([]), 0, NoLoop);
    assert ParamNames([]) == [];
    assert Lift([]) + LateCode(0).syms == LateCode(0).syms;
    var one := CompStmt(s, LATE, []);
    assert one.syms == LateCode(0).syms && one.ok && one.names == [] && one.pool == [];
    var seq1 := CompSeq([s], LATE, []);
    assert CompSeq([], LATE, []) == StmtCode([], [], [], true, true);
    assert seq1.syms == LateCode(0).syms && seq1.ok && seq1.names == [];
    assert cx.(depth := 1) == LATE;
    var block := CompBlock([s], cx, []);
    assert Lift(Pops(0)) == [];
    assert block.syms == LateCode(0).syms && block.ok;
    BlockClosed([s], cx, []);
    var whole := CompFunction([], [s]);
    var m := Link(whole, S);
    ClosedFits(whole.syms, 0, 0);
    FitsSplit(m.code, 0, block.syms, Lift([OP_RETURN_NIL]), 0, 0);
    n := LateCasesRun(0, m, 0, g, w);
  }
}
