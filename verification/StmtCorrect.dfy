/** Running the code emitted for a statement has the effect the source semantics gives it. */
module StmtCorrect {
  import opened Values
  import opened Bytecode
  import opened Machine
  import opened Source
  import opened CodeGen
  import opened Stepping
  import opened ExprCorrect
  import opened Placement
  import opened SimpleStmts

  // ---------------------------------------------------------------------
  // Putting runs together
  // ---------------------------------------------------------------------

  /** b continues a: the same chunk and targets, reached after k rounds, with a frame that agrees so far. */
  ghost predicate Follows(a: At, k: nat, b: At, names: seq<Local>)
  {
    a.m == b.m && a.breakTo == b.breakTo && a.continueTo == b.continueTo
    && RunN(a.m, k, Start(a)) == Start(b)
    && |names| == |a.stack| && |names| <= |b.stack| && Kept(names, a.stack, b.stack)
  }

  lemma KeptTrans(names: seq<Local>, more: seq<Local>, a: seq<Value>, b: seq<Value>, c: seq<Value>)
    requires names <= more && |names| <= |a| && |more| <= |b| && |more| <= |c|
    requires Kept(names, a, b) && Kept(more, b, c)
    ensures Kept(names, a, c)
  {
    forall i | 0 <= i < |names| && names[i].name == Hidden
      ensures c[i] == a[i]
    {
      assert names[i] == more[i];
    }
  }

  lemma UnwoundTrans(c: Config, names: seq<Local>, more: seq<Local>, k: nat, st: State, a: seq<Value>, b: seq<Value>)
    requires names <= more && |names| == |a| && |more| == |b| && k <= |names|
    requires Kept(names, a, b) && Unwound(c, more, k, st, b)
    ensures Unwound(c, names, k, st, a)
  {
    hide Visible;
    assert names[..k] == more[..k];
    forall i | 0 <= i < k && names[..k][i].name == Hidden
      ensures c.stack[i] == a[i]
    {
      assert more[..k][i] == names[i] == more[i];
    }
  }

  /**
    A run of r1 from b, reached from a in k rounds, is a run of r from a, when r1 ends where r ends
    or does not end normally.
  */
  lemma Embed(o: Outcome, r1: StmtCode, fuel1: nat, cx1: Context, b: At, n: nat, r: StmtCode, fuel: nat,
              cx: Context, a: At, k: nat)
    requires Framed(cx, a.stack) && cx.names <= cx1.names && cx1.loop == cx.loop
    requires cx1.names <= r1.names && |b.stack| == |cx1.names| && cx.names <= r.names
    requires Follows(a, k, b, cx.names)
    requires Simulates(o, r1, fuel1, cx1, b, n) && k + fuel1 >= fuel
    requires o.Normal? ==> r1.names == r.names && b.pc + |r1.syms| == a.pc + |r.syms|
    ensures Simulates(o, r, fuel, cx, a, k + n)
  {
    hide RunN, Visible;
    Then(a.m, k, n, Start(a), Start(b));
    var c := RunN(a.m, k + n, Start(a));
    match o {
      case Normal(st) => KeptTrans(cx.names, cx1.names, a.stack, b.stack, c.stack);
      case Broke(st) => UnwoundTrans(c, cx.names, cx1.names, cx.loop.base, st, a.stack, b.stack);
      case Continued(st) => UnwoundTrans(c, cx.names, cx1.names, ContinueBase(cx.loop), st, a.stack, b.stack);
      case _ =>
    }
  }

  /** The same when a normal end is followed by a jump of the given distance. */
  lemma EmbedJump(o: Outcome, r1: StmtCode, fuel: nat, b: At, n: nat, r: StmtCode, cx: Context, a: At, k: nat,
                  distance: nat) returns (j: nat)
    requires Framed(cx, a.stack) && cx.names == r1.names == r.names && |b.stack| == |cx.names|
    requires Follows(a, k, b, cx.names)
    requires Simulates(o, r1, fuel, cx, b, n)
    requires Loadable(a.m) && a.pc + |r.syms| <= |a.m.code| && b.pc + |r1.syms| + 4 + distance == a.pc + |r.syms|
    requires CodeAt(a.m.code, b.pc + |r1.syms|, Jump(OP_JUMP, distance))
    ensures Simulates(o, r, fuel, cx, a, j)
  {
    hide RunN, Visible, CodeAt;
    if o.Normal? {
      var c := RunN(b.m, n, Start(b));
      RunJump(a.m, c, distance);
      Then(b.m, n, 1, Start(b), c);
      var r2 := r1.(syms := r1.syms + Lift(Jump(OP_JUMP, distance)));
      var far := r2.(syms := r2.syms + seq(distance, _ => B(OP_POP)));
      assert Simulates(o, far, fuel, cx, b, n + 1);
      Embed(o, far, fuel, cx, b, n + 1, r, fuel, cx, a, k);
      j := k + (n + 1);
    } else {
      Embed(o, r1, fuel, cx, b, n, r, fuel, cx, a, k);
      j := k + n;
    }
  }

  lemma SelfKept(names: seq<Local>, stack: seq<Value>)
    requires |names| <= |stack|
    ensures Kept(names, stack, stack)
  {
  }

  /** Code in two parts. */
  lemma Split2(m: Image, pc: nat, x: seq<Sym>, y: seq<Sym>, code: StmtCode, breakTo: int, continueTo: int)
    requires Loaded(m, pc, code, breakTo, continueTo) && code.syms == x + y
    ensures Fits(m.code, pc, x, breakTo, continueTo) && Fits(m.code, pc + |x|, y, breakTo, continueTo)
  {
    hide Fits;
    FitsSplit(m.code, pc, x, y, breakTo, continueTo);
  }

  /** An expression followed by four bytes of jump, as conditions and tests are laid out. */
  lemma CondPieces(r: ExprCode, jump: seq<byte>, m: Image, pc: nat, pool: seq<Value>, breakTo: int, continueTo: int)
    requires Loadable(m) && Fits(m.code, pc, Lift(r.bytes + jump), breakTo, continueTo)
    requires r.ok && r.exact && r.pool <= pool <= m.pool
    ensures Holds(m, pc, r) && CodeAt(m.code, pc + |r.bytes|, jump)
  {
    hide Fits, CodeAt;
    FitsLift(m.code, pc, r.bytes + jump, breakTo, continueTo);
    HoldsBoth(m, pc, r.bytes, jump);
  }

  // ---------------------------------------------------------------------
  // If
  // ---------------------------------------------------------------------

  /** The condition and its jump: falls into the then block when true, else lands `skip` bytes further. */
  lemma CondRuns(cond: Expr, cx: Context, pool: seq<Value>, a: At, skip: nat) returns (n: nat)
    requires Framed(cx, a.stack) && Holds(a.m, a.pc, CompExpr(cond, cx.names, pool))
    requires var at := a.pc + |CompExpr(cond, cx.names, pool).bytes|;
             CodeAt(a.m.code, at, Jump(OP_JUMP_IF_FALSE, skip)) && at + 4 + skip <= |a.m.code|
    ensures var v := ValueOf(cond, cx, a);
            var at := a.pc + |CompExpr(cond, cx.names, pool).bytes| + 4;
            v.Val? ==> n > 0 && Follows(a, n, a.(pc := if a.m.slots.truthy(v.v, v.w) then at else at + skip, w := v.w), cx.names)
    ensures ValueOf(cond, cx, a).Fail? ==> RunN(a.m, n, Start(a)) == Failed(a.g, ValueOf(cond, cx, a).w)
  {
    hide RunN, CodeAt, Visible, ValueIn, CompExpr;
    var r, v := CompExpr(cond, cx.names, pool), ValueOf(cond, cx, a);
    n := OperandRuns(cond, cx, pool, a);
    if v.Val? {
      var at := a.pc + |r.bytes|;
      Then(a.m, n, 1, Start(a), Run(at, a.stack + [v.v], a.g, v.w));
      RunPopJump(a.m, at, OP_JUMP_IF_FALSE, skip, a.stack, v.v, a.g, v.w);
      n := n + 1;
      SelfKept(cx.names, a.stack);
    }
  }

  lemma {:induction false} IfElseRuns(s: Stmt, fuel: nat, cx: Context, pool: seq<Value>, a: At) returns (n: nat)
    requires s.If? && s.hasElse && Ready(CompStmt(s, cx, pool), cx, a)
    ensures Simulates(Exec(s, fuel, cx.top, a.m.slots, StateAt(cx, a)), CompStmt(s, cx, pool), fuel, cx, a, n)
    decreases fuel, s, 1
  {
    hide RunN, CodeAt, Visible, ValueIn, CompExpr, Fits, CompBlock, ExecBlock;
    var c := CompExpr(s.cond, cx.names, pool);
    var t := CompBlock(s.thn, cx, c.pool);
    var f := CompBlock(s.els, cx, t.pool);
    var code := CompStmt(s, cx, pool);
    var skip := |t.syms| + 4;
    var head, over := Lift(c.bytes + Jump(OP_JUMP_IF_FALSE, skip)), Lift(Jump(OP_JUMP, |f.syms|));
    assert code == IfCode(c, t, true, f, cx.names);
    Split2(a.m, a.pc, head, t.syms + (over + f.syms), code, a.breakTo, a.continueTo);
    var thenAt := a.pc + |c.bytes| + 4;
    FitsSplit(a.m.code, thenAt, t.syms, over + f.syms, a.breakTo, a.continueTo);
    FitsSplit(a.m.code, thenAt + |t.syms|, over, f.syms, a.breakTo, a.continueTo);
    FitsLift(a.m.code, thenAt + |t.syms|, Jump(OP_JUMP, |f.syms|), a.breakTo, a.continueTo);
    FitsBound(a.m.code, a.pc, code.syms, a.breakTo, a.continueTo);
    CondPieces(c, Jump(OP_JUMP_IF_FALSE, skip), a.m, a.pc, code.pool, a.breakTo, a.continueTo);
    n := CondRuns(s.cond, cx, pool, a, skip);
    var v := ValueOf(s.cond, cx, a);
    if v.Val? {
      var st := StateAt(cx, a.(w := v.w));
      if a.m.slots.truthy(v.v, v.w) {
        var b := a.(pc := thenAt, w := v.w);
        var n1 := BlockRuns(s.thn, fuel, cx, c.pool, b);
        n := EmbedJump(ExecBlock(s.thn, fuel, cx.top, a.m.slots, st), t, fuel, b, n1, code, cx, a, n, |f.syms|);
      } else {
        var b := a.(pc := thenAt + skip, w := v.w);
        var n1 := BlockRuns(s.els, fuel, cx, t.pool, b);
        Embed(ExecBlock(s.els, fuel, cx.top, a.m.slots, st), f, fuel, cx, b, n1, code, fuel, cx, a, n);
        n := n + n1;
      }
    }
  }

  lemma {:induction false} IfRuns(s: Stmt, fuel: nat, cx: Context, pool: seq<Value>, a: At) returns (n: nat)
    requires s.If? && !s.hasElse && Ready(CompStmt(s, cx, pool), cx, a)
    ensures Simulates(Exec(s, fuel, cx.top, a.m.slots, StateAt(cx, a)), CompStmt(s, cx, pool), fuel, cx, a, n)
    decreases fuel, s, 1
  {
    hide RunN, CodeAt, Visible, ValueIn, CompExpr, Fits, CompBlock, ExecBlock;
    var c := CompExpr(s.cond, cx.names, pool);
    var t := CompBlock(s.thn, cx, c.pool);
    var code := CompStmt(s, cx, pool);
    var skip := |t.syms|;
    var head := Lift(c.bytes + Jump(OP_JUMP_IF_FALSE, skip));
    assert code == IfCode(c, t, false, CompBlock(s.els, cx, t.pool), cx.names);
    Split2(a.m, a.pc, head, t.syms, code, a.breakTo, a.continueTo);
    FitsBound(a.m.code, a.pc, code.syms, a.breakTo, a.continueTo);
    CondPieces(c, Jump(OP_JUMP_IF_FALSE, skip), a.m, a.pc, code.pool, a.breakTo, a.continueTo);
    n := CondRuns(s.cond, cx, pool, a, skip);
    var v := ValueOf(s.cond, cx, a);
    if v.Val? {
      if a.m.slots.truthy(v.v, v.w) {
        var b := a.(pc := a.pc + |c.bytes| + 4, w := v.w);
        var n1 := BlockRuns(s.thn, fuel, cx, c.pool, b);
        Embed(ExecBlock(s.thn, fuel, cx.top, a.m.slots, StateAt(cx, b)), t, fuel, cx, b, n1, code, fuel, cx, a, n);
        n := n + n1;
      } else {
        EndsNormal(code, fuel, cx, a, n, a.g, v.w);
      }
    }
  }

  // ---------------------------------------------------------------------
  // Sequences and blocks
  // ---------------------------------------------------------------------

  /** The compiler never lets more than 256 locals be live. */
  lemma {:induction false} NamesBounded(s: Stmt, cx: Context, pool: seq<Value>)
    requires CompStmt(s, cx, pool).ok && |cx.names| <= MAX_LOCALS
    ensures |CompStmt(s, cx, pool).names| <= MAX_LOCALS
  {
    hide CompExpr, CompBlock, CompCases, OptExpr, Fill;
  }

  lemma {:induction false} SeqRuns(ss: seq<Stmt>, fuel: nat, cx: Context, pool: seq<Value>, a: At) returns (n: nat)
    requires Ready(CompSeq(ss, cx, pool), cx, a)
    ensures Simulates(ExecSeq(ss, fuel, cx.top, a.m.slots, StateAt(cx, a)), CompSeq(ss, cx, pool), fuel, cx, a, n)
    decreases fuel, ss, 0
  {
    hide RunN, Visible, Fits, CompStmt, Exec;
    var code := CompSeq(ss, cx, pool);
    if ss == [] {
      n := 0;
      RunNothing(a.m, Start(a));
      SelfKept(cx.names, a.stack);
    } else {
      var r0 := CompStmt(ss[0], cx, pool);
      var cx1 := cx.(names := r0.names);
      var r1 := CompSeq(ss[1..], cx1, r0.pool);
      Split2(a.m, a.pc, r0.syms, r1.syms, code, a.breakTo, a.continueTo);
      n := StmtRuns(ss[0], fuel, cx, pool, a);
      var o := Exec(ss[0], fuel, cx.top, a.m.slots, StateAt(cx, a));
      if o.Normal? {
        var c := RunN(a.m, n, Start(a));
        var b := At(a.m, c.pc, c.stack, c.g, c.w, a.breakTo, a.continueTo);
        NamesBounded(ss[0], cx, pool);
        var n1 := SeqRuns(ss[1..], fuel, cx1, r0.pool, b);
        Embed(ExecSeq(ss[1..], fuel, cx.top, a.m.slots, o.st), r1, fuel, cx1, b, n1, code, fuel, cx, a, n);
        n := n + n1;
      } else {
        AbruptIsWhole(o, r0, code, fuel, cx, a, n);
      }
    }
  }

  /** An abrupt end of the first part is the end of the whole. */
  lemma AbruptIsWhole(o: Outcome, r0: StmtCode, code: StmtCode, fuel: nat, cx: Context, a: At, n: nat)
    requires cx.names <= r0.names && cx.names <= code.names && |a.stack| == |cx.names|
    requires !o.Normal? && Simulates(o, r0, fuel, cx, a, n)
    ensures Simulates(o, code, fuel, cx, a, n)
  {
    hide RunN, Visible;
  }

  lemma {:induction false} BlockRuns(ss: seq<Stmt>, fuel: nat, cx: Context, pool: seq<Value>, a: At) returns (n: nat)
    requires Ready(CompBlock(ss, cx, pool), cx, a)
    ensures Simulates(ExecBlock(ss, fuel, cx.top, a.m.slots, StateAt(cx, a)), CompBlock(ss, cx, pool), fuel, cx, a, n)
    decreases fuel, ss, 1
  {
    hide RunN, Visible, Fits, CodeAt, CompSeq, ExecSeq;
    var inner := cx.(depth := cx.depth + 1);
    var b := CompSeq(ss, inner, pool);
    var code := CompBlock(ss, cx, pool);
    var dead := |b.names| - |cx.names|;
    Split2(a.m, a.pc, b.syms, Lift(Pops(dead)), code, a.breakTo, a.continueTo);
    n := SeqRuns(ss, fuel, inner, pool, a);
    var o := ExecSeq(ss, fuel, cx.top, a.m.slots, StateAt(cx, a));
    FitsLift(a.m.code, a.pc + |b.syms|, Pops(dead), a.breakTo, a.continueTo);
    n := LeaveRuns(o, b, code, fuel, inner, cx, a, n);
  }

  /** Leaving a block pops the locals declared in it; after a jump out they are already gone. */
  lemma LeaveRuns(o: Outcome, b: StmtCode, code: StmtCode, fuel: nat, inner: Context, cx: Context, a: At,
                  n0: nat) returns (n: nat)
    requires Framed(cx, a.stack) && inner.names == cx.names && inner.loop == cx.loop
    requires cx.names <= b.names && code.names == cx.names && |code.syms| == |b.syms| + (|b.names| - |cx.names|)
    requires CodeAt(a.m.code, a.pc + |b.syms|, Pops(|b.names| - |cx.names|))
    requires Simulates(o, b, fuel, inner, a, n0)
    ensures Simulates(Leave(o, |Visible(cx.names, a.stack)|), code, fuel, cx, a, n)
  {
    hide RunN, Visible, CodeAt;
    n := n0;
    var bound := |Visible(cx.names, a.stack)|;
    match o {
      case Normal(st) =>
        var c := RunN(a.m, n0, Start(a));
        var k, dead := |cx.names|, |b.names| - |cx.names|;
        RunPops(a.m, c.pc, dead, c.stack, c.g, c.w);
        Then(a.m, n0, dead, Start(a), c);
        n := n0 + dead;
        assert b.names[..k] == cx.names;
        CutVisible(b.names, c.stack, k, a.stack);
        KeptCut(cx.names, a.stack, c.stack);
      case Broke(st) => CutUnwound(RunN(a.m, n0, Start(a)), cx.names, cx.loop.base, st, a.stack);
      case Continued(st) => CutUnwound(RunN(a.m, n0, Start(a)), cx.names, ContinueBase(cx.loop), st, a.stack);
      case _ =>
    }
  }

  lemma KeptCut(names: seq<Local>, before: seq<Value>, after: seq<Value>)
    requires |names| == |before| <= |after| && Kept(names, before, after)
    ensures Kept(names, before, after[..|names|])
  {
  }

  lemma CutUnwound(c: Config, names: seq<Local>, k: nat, st: State, before: seq<Value>)
    requires |names| == |before| && Unwound(c, names, k, st, before)
    ensures Unwound(c, names, k, Cut(st, |Visible(names, before)|), before)
  {
    hide Visible;
    VisiblePrefix(names, before, k);
    VisibleLength(names[..k], c.stack, before[..k]);
  }

  // ---------------------------------------------------------------------
  // Loops
  // ---------------------------------------------------------------------

  /** A loop's own jumps come back with exactly the bindings the loop started with. */
  lemma UnwoundWhole(c: Config, names: seq<Local>, k: nat, st: State, before: seq<Value>)
    requires k <= |names| && |before| == |names| && Unwound(c, names, k, st, before)
    requires |st.env| <= |Visible(names[..k], before[..k])|
    ensures Agrees(c, names[..k], st)
  {
    hide Visible;
    VisibleLength(names[..k], c.stack, before[..k]);
  }

  lemma ExecBlockBound(ss: seq<Stmt>, fuel: nat, top: bool, S: Slots, st: State)
    ensures var o := ExecBlock(ss, fuel, top, S, st);
            (o.Normal? || o.Broke? || o.Continued?) ==> |o.st.env| <= |st.env|
  {
    hide ExecSeq;
  }

  /** The next round starts at the loop's first byte with the frame as the body left it. */
  lemma {:induction false} NextRound(s: Stmt, fuel: nat, cx: Context, pool: seq<Value>, a: At, k: nat,
                              st: State) returns (n: nat)
    requires (s.While? || s.Forever?) && fuel > 0 && Ready(CompStmt(s, cx, pool), cx, a)
    requires var c := RunN(a.m, k, Start(a));
             k > 0 && c.Run? && c.pc == a.pc && Agrees(c, cx.names, st) && Kept(cx.names, a.stack, c.stack)
    ensures Simulates(Exec(s, fuel - 1, cx.top, a.m.slots, st), CompStmt(s, cx, pool), fuel, cx, a, n)
    decreases fuel, s, 0
  {
    hide RunN, Visible, Fits, CompStmt, Exec;
    var c := RunN(a.m, k, Start(a));
    var b := a.(stack := c.stack, g := c.g, w := c.w);
    var code := CompStmt(s, cx, pool);
    LoopNames(s, cx, pool);
    var n1 := StmtRuns(s, fuel - 1, cx, pool, b);
    Embed(Exec(s, fuel - 1, cx.top, a.m.slots, st), code, fuel - 1, cx, b, n1, code, fuel, cx, a, k);
    n := k + n1;
  }

  lemma LoopNames(s: Stmt, cx: Context, pool: seq<Value>)
    requires s.While? || s.Forever?
    ensures CompStmt(s, cx, pool).names == cx.names
  {
    hide CompExpr, CompBlock, Fill;
  }

  /** After one run of the body: round again, or leave the loop. */
  lemma {:induction false} BodyDone(s: Stmt, o: Outcome, fuel: nat, cx: Context, pool: seq<Value>, a: At,
                                    body: StmtCode, b: At, k: nat, n1: nat) returns (n: nat)
    requires (s.While? || s.Forever?) && fuel > 0 && Ready(CompStmt(s, cx, pool), cx, a)
    requires body.names == cx.names && b.breakTo == a.pc + |CompStmt(s, cx, pool).syms| && b.continueTo == a.pc
    requires b.m == a.m && b.stack == a.stack && RunN(a.m, k, Start(a)) == Start(b)
    requires var back := a.pc - (b.pc + |body.syms| + 4);
             CodeAt(a.m.code, b.pc + |body.syms|, Jump(OP_JUMP, back)) && Reachable(b.pc + |body.syms|, back)
    requires Simulates(o, body, fuel, cx.(loop := InLoop(|cx.names|, false)), b, n1)
    requires (o.Normal? || o.Broke? || o.Continued?) ==> |o.st.env| <= |Visible(cx.names, a.stack)|
    ensures Simulates(match o
                      case Normal(st1) => Exec(s, fuel - 1, cx.top, a.m.slots, st1)
                      case Continued(st1) => Exec(s, fuel - 1, cx.top, a.m.slots, st1)
                      case Broke(st1) => Normal(st1)
                      case other => other, CompStmt(s, cx, pool), fuel, cx, a, n)
    decreases fuel, s, 1
  {
    hide RunN, Visible, Fits, CodeAt, CompStmt, Exec;
    LoopNames(s, cx, pool);
    var c := RunN(b.m, n1, Start(b));
    Then(a.m, k, n1, Start(a), Start(b));
    assert cx.names[..|cx.names|] == cx.names && a.stack[..|cx.names|] == a.stack;
    match o {
      case Normal(st1) =>
        var back := a.pc - (b.pc + |body.syms| + 4);
        RunJump(a.m, c, back);
        Then(a.m, k + n1, 1, Start(a), c);
        n := NextRound(s, fuel, cx, pool, a, k + n1 + 1, st1);
      case Continued(st1) =>
        UnwoundWhole(c, cx.names, |cx.names|, st1, a.stack);
        n := NextRound(s, fuel, cx, pool, a, k + n1, st1);
      case Broke(st1) =>
        UnwoundWhole(c, cx.names, |cx.names|, st1, a.stack);
        n := k + n1;
      case _ =>
        n := k + n1;
    }
  }

  lemma {:induction false} WhileRuns(s: Stmt, fuel: nat, cx: Context, pool: seq<Value>, a: At) returns (n: nat)
    requires s.While? && fuel > 0 && Ready(CompStmt(s, cx, pool), cx, a)
    ensures Simulates(Round(s, fuel, cx.top, a.m.slots, StateAt(cx, a)), CompStmt(s, cx, pool), fuel, cx, a, n)
    decreases fuel, s, 2, 0
  {
    hide RunN, CodeAt, Visible, ValueIn, CompExpr, Fits, CompBlock, ExecBlock, Fill, Exec;
    var c := CompExpr(s.cond, cx.names, pool);
    var loop := cx.(loop := InLoop(|cx.names|, false));
    var body := CompBlock(s.body, loop, c.pool);
    var code := CompStmt(s, cx, pool);
    assert code == WhileCode(c, body, cx.names);
    var raw := WhileSyms(c.bytes, body.syms);
    var end, skip := a.pc + |raw|, |body.syms| + 4;
    FitsFill(a.m.code, a.pc, raw, |raw|, 0, a.breakTo, a.continueTo);
    var back := -(|c.bytes| + 8 + |body.syms|);
    LoopPieces(a.m, a.pc, c.bytes + Jump(OP_JUMP_IF_FALSE, skip), body.syms, Jump(OP_JUMP, back), end, a.pc);
    CondPieces(c, Jump(OP_JUMP_IF_FALSE, skip), a.m, a.pc, code.pool, end, a.pc);
    n := CondRuns(s.cond, cx, pool, a, skip);
    var v := ValueOf(s.cond, cx, a);
    if v.Val? {
      if a.m.slots.truthy(v.v, v.w) {
        var b := At(a.m, a.pc + |c.bytes| + 4, a.stack, a.g, v.w, end, a.pc);
        var n1 := BlockRuns(s.body, fuel, loop, c.pool, b);
        ExecBlockBound(s.body, fuel, cx.top, a.m.slots, StateAt(cx, b));
        var o := ExecBlock(s.body, fuel, cx.top, a.m.slots, StateAt(cx, b));
        n := BodyDone(s, o, fuel, cx, pool, a, body, b, n, n1);
      } else {
        EndsNormal(code, fuel, cx, a, n, a.g, v.w);
      }
    }
  }

  lemma LoopPieces(m: Image, pc: nat, head: seq<byte>, body: seq<Sym>, tail: seq<byte>, breakTo: int, continueTo: int)
    requires Fits(m.code, pc, Lift(head) + (body + Lift(tail)), breakTo, continueTo)
    ensures Fits(m.code, pc, Lift(head), breakTo, continueTo)
    ensures Fits(m.code, pc + |head|, body, breakTo, continueTo)
    ensures CodeAt(m.code, pc + |head| + |body|, tail)
    ensures pc + |head| + |body| + |tail| <= |m.code|
  {
    FitsBound(m.code, pc, Lift(head) + (body + Lift(tail)), breakTo, continueTo);
    hide Fits, CodeAt;
    FitsSplit(m.code, pc, Lift(head), body + Lift(tail), breakTo, continueTo);
    FitsSplit(m.code, pc + |head|, body, Lift(tail), breakTo, continueTo);
    FitsLift(m.code, pc + |head| + |body|, tail, breakTo, continueTo);
  }

  lemma {:induction false} ForeverRuns(s: Stmt, fuel: nat, cx: Context, pool: seq<Value>, a: At) returns (n: nat)
    requires s.Forever? && fuel > 0 && Ready(CompStmt(s, cx, pool), cx, a)
    ensures Simulates(Round(s, fuel, cx.top, a.m.slots, StateAt(cx, a)), CompStmt(s, cx, pool), fuel, cx, a, n)
    decreases fuel, s, 2, 0
  {
    hide RunN, CodeAt, Visible, Fits, CompBlock, ExecBlock, Fill, Exec;
    var loop := cx.(loop := InLoop(|cx.names|, false));
    var body := CompBlock(s.body, loop, pool);
    var code := CompStmt(s, cx, pool);
    assert code == ForeverCode(body, cx.names);
    var raw := ForeverSyms(body.syms);
    var end := a.pc + |raw|;
    FitsFill(a.m.code, a.pc, raw, |raw|, 0, a.breakTo, a.continueTo);
    var tail := Jump(OP_JUMP, -(|body.syms| + 4));
    assert raw == Lift([]) + (body.syms + Lift(tail));
    LoopPieces(a.m, a.pc, [], body.syms, tail, end, a.pc);
    var b := a.(breakTo := end, continueTo := a.pc);
    var n1 := BlockRuns(s.body, fuel, loop, pool, b);
    ExecBlockBound(s.body, fuel, cx.top, a.m.slots, StateAt(cx, a));
    RunNothing(a.m, Start(a));
    n := BodyDone(s, ExecBlock(s.body, fuel, cx.top, a.m.slots, StateAt(cx, a)), fuel, cx, pool, a, body, b, 0, n1);
  }

  lemma TimeoutNow(r: StmtCode, cx: Context, a: At)
    requires cx.names <= r.names && |a.stack| == |cx.names|
    ensures Simulates(Timeout, r, 0, cx, a, 0)
  {
    RunNothing(a.m, Start(a));
  }

  // ---------------------------------------------------------------------
  // For-in
  // ---------------------------------------------------------------------

  /** Where outcome o leaves a machine started in c, for code that ends at `end` and leaves the locals as they were. */
  ghost predicate Reaches(o: Outcome, c: Config, end: nat, fuel: nat, cx: Context, a: At, n: nat)
    requires |a.stack| == |cx.names|
  {
    After(o, RunN(a.m, n, c), cx, cx.names, a.stack, end, a.breakTo, a.continueTo, n, fuel)
  }

  /** k rounds from c lead to where b starts. */
  lemma EmbedFrom(o: Outcome, r1: StmtCode, fuel1: nat, b: At, n: nat, c: Config, end: nat, fuel: nat, cx: Context,
                  a: At, k: nat)
    requires Framed(cx, a.stack) && cx.names == r1.names && |b.stack| == |cx.names|
    requires a.m == b.m && a.breakTo == b.breakTo && a.continueTo == b.continueTo && Kept(cx.names, a.stack, b.stack)
    requires RunN(a.m, k, c) == Start(b)
    requires Simulates(o, r1, fuel1, cx, b, n) && k + fuel1 >= fuel
    requires o.Normal? ==> b.pc + |r1.syms| == end
    ensures Reaches(o, c, end, fuel, cx, a, k + n)
  {
    hide RunN, Visible;
    Then(a.m, k, n, c, Start(b));
    var d := RunN(a.m, k + n, c);
    match o {
      case Normal(st) => KeptTrans(cx.names, cx.names, a.stack, b.stack, d.stack);
      case Broke(st) => UnwoundTrans(d, cx.names, cx.names, cx.loop.base, st, a.stack, b.stack);
      case Continued(st) => UnwoundTrans(d, cx.names, cx.names, ContinueBase(cx.loop), st, a.stack, b.stack);
      case _ =>
    }
  }

  /** Rounds later on. */
  lemma ReachesLater(o: Outcome, c: Config, d: Config, end: nat, fuel1: nat, fuel: nat, cx: Context, a: At, b: At,
                     k: nat, n: nat)
    requires Framed(cx, a.stack) && |b.stack| == |a.stack| && Kept(cx.names, a.stack, b.stack)
    requires a.m == b.m && a.breakTo == b.breakTo && a.continueTo == b.continueTo
    requires RunN(a.m, k, c) == d && Reaches(o, d, end, fuel1, cx, b, n) && k + fuel1 >= fuel
    ensures Reaches(o, c, end, fuel, cx, a, k + n)
  {
    hide RunN, Visible;
    Then(a.m, k, n, c, d);
    var e := RunN(a.m, k + n, c);
    match o {
      case Normal(st) => KeptTrans(cx.names, cx.names, a.stack, b.stack, e.stack);
      case Broke(st) => UnwoundTrans(e, cx.names, cx.names, cx.loop.base, st, a.stack, b.stack);
      case Continued(st) => UnwoundTrans(e, cx.names, cx.names, ContinueBase(cx.loop), st, a.stack, b.stack);
      case _ =>
    }
  }

  lemma VisiblePush(names: seq<Local>, stack: seq<Value>, l: Local, v: Value)
    requires |stack| == |names|
    ensures Visible(names + [l], stack + [v]) == Visible(names, stack) + (if l.name == Hidden then [] else [Binding(l.name.x, v)])
  {
    hide Visible;
    VisibleSplit(names + [l], stack + [v]);
    assert (names + [l])[..|names|] == names && (stack + [v])[..|names|] == stack;
  }

  /** Inside a for-in body: the iterator's slot is no binding, the loop variable's is. */
  lemma VisibleInside(x: Ident, cx: Context, stack: seq<Value>, it: Value, v: Value)
    requires |stack| == |cx.names|
    ensures Visible(InsideForIn(x, cx).names, stack + [it] + [v]) == Visible(cx.names, stack) + [Binding(x, v)]
  {
    hide Visible;
    var hidden, named := Local(Hidden, cx.depth + 1), Local(Named(x), cx.depth + 1);
    assert InsideForIn(x, cx).names == cx.names + [hidden] + [named];
    VisiblePush(cx.names, stack, hidden, it);
    VisiblePush(cx.names + [hidden], stack + [it], named, v);
  }

  /** The loop code around a body at a.pc + 4. */
  predicate IterCode(body: StmtCode, a: At, end: nat)
  {
    var step := a.pc + 4 + |body.syms|;
    end == step + 5 && end <= |a.m.code|
    && CodeAt(a.m.code, a.pc, Jump(OP_FOR_ITER, |body.syms| + 5))
    && CodeAt(a.m.code, step, [OP_POP]) && CodeAt(a.m.code, step + 1, Jump(OP_JUMP, -(|body.syms| + 9)))
    && Loaded(a.m, a.pc + 4, body, end, step)
  }

  /** From the end of the body (or a `continue`) back to the loop's head, with the iterator on top again. */
  lemma StepBack(c: Config, k: nat, c0: Config, x: Ident, it: Value, v: Value, st1: State, body: StmtCode,
                 cx: Context, a: At, end: nat)
    returns (s1: seq<Value>)
    requires Framed(cx, a.stack) && IterCode(body, a, end) && RunN(a.m, k, c0) == c
    requires c.Run? && c.pc == a.pc + 4 + |body.syms| && Agrees(c, InsideForIn(x, cx).names, st1)
    requires Kept(InsideForIn(x, cx).names, a.stack + [it] + [v], c.stack)
    ensures RunN(a.m, k + 2, c0) == Run(a.pc, s1 + [it], st1.g, st1.w)
    ensures |s1| == |cx.names| && Visible(cx.names, s1) == Cut(st1, |Visible(cx.names, a.stack)|).env && Kept(cx.names, a.stack, s1)
  {
    hide RunN, CodeAt, Visible, Fits;
    var names := InsideForIn(x, cx).names;
    var n := |cx.names|;
    s1 := c.stack[..n];
    assert c.stack[n] == it by {
      assert names[n].name == Hidden && (a.stack + [it] + [v])[n] == it;
    }
    var top := c.stack[n + 1];
    assert c.stack == s1 + [it] + [top];
    var step := c.pc;
    RunPop(a.m, step, s1 + [it], top, c.g, c.w);
    var d := Run(step + 1, s1 + [it], c.g, c.w);
    RunJump(a.m, d, -(|body.syms| + 9));
    Then(a.m, k, 1, c0, c);
    Then(a.m, k + 1, 1, c0, d);
    assert names[..n] == cx.names;
    CutVisible(names, c.stack, n, a.stack);
    forall i | 0 <= i < n && cx.names[i].name == Hidden
      ensures s1[i] == a.stack[i]
    {
      assert names[i] == cx.names[i] && (a.stack + [it] + [v])[i] == a.stack[i];
    }
  }

  lemma {:induction false} IterateRuns(s: Stmt, it: Value, fuel: nat, cx: Context, pool: seq<Value>, body: StmtCode,
                              a: At, end: nat)
    returns (n: nat)
    requires s.ForIn? && Framed(cx, a.stack) && |cx.names| + 2 <= MAX_LOCALS
    requires body == CompBlock(s.body, InsideForIn(s.x, cx), pool) && IterCode(body, a, end)
    ensures Reaches(Iterate(s, it, fuel, cx.top, a.m.slots, StateAt(cx, a)), Run(a.pc, a.stack + [it], a.g, a.w), end, fuel, cx, a, n)
    decreases fuel, s, 1
  {
    hide RunN, CodeAt, Visible, Fits, CompBlock, ExecBlock;
    var c0 := Run(a.pc, a.stack + [it], a.g, a.w);
    if fuel == 0 {
      n := 0;
      RunNothing(a.m, c0);
    } else {
      RunForIter(a.m, a.pc, |body.syms| + 5, a.stack, it, a.g, a.w);
      n := 1;
      SelfKept(cx.names, a.stack);
      match a.m.slots.native(OP_FOR_ITER, NoName, [it], a.w) {
        case Throw(_) =>
        case Ok(v, w1) =>
          if v != Nil {
            n := RoundRuns(s, it, v, fuel, cx, pool, body, a, end, w1);
          }
      }
    }
  }

  /** One run of the body with the loop variable bound, and what follows it. */
  lemma {:induction false} RoundRuns(s: Stmt, it: Value, v: Value, fuel: nat, cx: Context, pool: seq<Value>,
                              body: StmtCode, a: At, end: nat, w1: World)
    returns (n: nat)
    requires s.ForIn? && fuel > 0 && Framed(cx, a.stack) && |cx.names| + 2 <= MAX_LOCALS
    requires body == CompBlock(s.body, InsideForIn(s.x, cx), pool) && IterCode(body, a, end)
    requires a.m.slots.native(OP_FOR_ITER, NoName, [it], a.w) == Ok(v, w1) && v != Nil
    requires RunN(a.m, 1, Run(a.pc, a.stack + [it], a.g, a.w)) == Run(a.pc + 4, a.stack + [it] + [v], a.g, w1)
    ensures Reaches(Iterate(s, it, fuel, cx.top, a.m.slots, StateAt(cx, a)), Run(a.pc, a.stack + [it], a.g, a.w), end, fuel, cx, a, n)
    decreases fuel, s, 0
  {
    hide RunN, CodeAt, Visible, Fits, CompBlock, ExecBlock;
    var c0 := Run(a.pc, a.stack + [it], a.g, a.w);
    var inner := InsideForIn(s.x, cx);
    var b := At(a.m, a.pc + 4, a.stack + [it] + [v], a.g, w1, end, a.pc + 4 + |body.syms|);
    var st := StateAt(cx, a);
    VisibleInside(s.x, cx, a.stack, it, v);
    var n1 := BlockRuns(s.body, fuel, inner, pool, b);
    var o := ExecBlock(s.body, fuel, cx.top, a.m.slots, StateAt(inner, b));
    ExecBlockBound(s.body, fuel, cx.top, a.m.slots, StateAt(inner, b));
    var c := RunN(a.m, n1, Start(b));
    Then(a.m, 1, n1, c0, Start(b));
    n := 1 + n1;
    match o {
      case Normal(st1) =>
        n := AfterBody(s, it, v, c, n, st1, fuel, cx, pool, body, a, end);
      case Continued(st1) =>
        assert inner.names[..|inner.names|] == inner.names && b.stack[..|inner.names|] == b.stack;
        UnwoundWhole(c, inner.names, |inner.names|, st1, b.stack);
        n := AfterBody(s, it, v, c, n, st1, fuel, cx, pool, body, a, end);
      case Broke(st1) =>
        BrokeOut(c, s.x, it, v, st1, cx, a);
      case _ =>
    }
  }

  lemma {:induction false} AfterBody(s: Stmt, it: Value, v: Value, c: Config, k: nat, st1: State, fuel: nat,
                              cx: Context, pool: seq<Value>,
                                     body: StmtCode, a: At, end: nat) returns (n: nat)
    requires s.ForIn? && fuel > 0 && Framed(cx, a.stack) && |cx.names| + 2 <= MAX_LOCALS
    requires body == CompBlock(s.body, InsideForIn(s.x, cx), pool) && IterCode(body, a, end)
    requires RunN(a.m, k, Run(a.pc, a.stack + [it], a.g, a.w)) == c
    requires c.Run? && c.pc == a.pc + 4 + |body.syms| && Agrees(c, InsideForIn(s.x, cx).names, st1)
    requires Kept(InsideForIn(s.x, cx).names, a.stack + [it] + [v], c.stack)
    ensures Reaches(Iterate(s, it, fuel - 1, cx.top, a.m.slots, Cut(st1, |Visible(cx.names, a.stack)|)),
                    Run(a.pc, a.stack + [it], a.g, a.w), end, fuel, cx, a, n)
    decreases fuel, s, 0, 0
  {
    hide RunN, CodeAt, Visible, Fits, CompBlock, Iterate;
    var c0 := Run(a.pc, a.stack + [it], a.g, a.w);
    var s1 := StepBack(c, k, c0, s.x, it, v, st1, body, cx, a, end);
    var b := a.(stack := s1, g := st1.g, w := st1.w);
    var n1 := IterateRuns(s, it, fuel - 1, cx, pool, body, b, end);
    ReachesLater(Iterate(s, it, fuel - 1, cx.top, a.m.slots, StateAt(cx, b)), c0, Run(a.pc, s1 + [it], b.g, b.w), end,
                 fuel - 1, fuel, cx, a, b, k + 2, n1);
    n := k + 2 + n1;
  }

  /** `break` has popped the loop variable and the iterator, and lands where the exhausted iterator leads. */
  lemma BrokeOut(c: Config, x: Ident, it: Value, v: Value, st1: State, cx: Context, a: At)
    requires Framed(cx, a.stack)
    requires Unwound(c, InsideForIn(x, cx).names, |cx.names|, st1, a.stack + [it] + [v])
    ensures Agrees(c, cx.names, Cut(st1, |Visible(cx.names, a.stack)|)) && Kept(cx.names, a.stack, c.stack)
  {
    hide Visible;
    var names := InsideForIn(x, cx).names;
    assert names[..|cx.names|] == cx.names;
    VisibleLength(cx.names, c.stack, a.stack);
    forall i | 0 <= i < |cx.names| && cx.names[i].name == Hidden
      ensures c.stack[i] == a.stack[i]
    {
      assert (a.stack + [it] + [v])[i] == a.stack[i];
    }
  }

  lemma {:induction false} ForInRuns(s: Stmt, fuel: nat, cx: Context, pool: seq<Value>, a: At) returns (n: nat)
    requires s.ForIn? && Ready(CompStmt(s, cx, pool), cx, a)
    ensures Simulates(Exec(s, fuel, cx.top, a.m.slots, StateAt(cx, a)), CompStmt(s, cx, pool), fuel, cx, a, n)
    decreases fuel, s, 2, 0
  {
    hide RunN, CodeAt, Visible, ValueIn, CompExpr, Fits, CompBlock, Fill, Iterate, CanDeclare, Execute;
    var r := CompExpr(s.iter, cx.names, pool);
    var body := CompBlock(s.body, InsideForIn(s.x, cx), r.pool);
    var code := CompStmt(s, cx, pool);
    assert code == ForInCode(s.x, r, body, cx);
    assert |cx.names| + 2 <= MAX_LOCALS by {
      DeclareRoom(cx.names + [Local(Hidden, cx.depth + 1)], cx.depth + 1, s.x);
    }
    var head := a.pc + |r.bytes| + 1;
    var end := head + 4 + |body.syms| + 5;
    var b := a.(pc := head);
    ForInPieces(s.x, r, body, cx, code, a);
    n := OperandRuns(s.iter, cx, pool, a);
    var v := ValueOf(s.iter, cx, a);
    if v.Val? {
      Then(a.m, n, 1, Start(a), Run(head - 1, a.stack + [v.v], a.g, v.w));
      RunOperator(a.m, head - 1, OP_GET_ITER, a.stack, [v.v], a.g, v.w);
      n := n + 1;
      match a.m.slots.native(OP_GET_ITER, NoName, [v.v], v.w) {
        case Throw(_) =>
        case Ok(it, w2) =>
          var b2 := b.(w := w2);
          var n1 := IterateRuns(s, it, fuel, cx, r.pool, body, b2, end);
          SelfKept(cx.names, a.stack);
          ReachesLater(Iterate(s, it, fuel, cx.top, a.m.slots, StateAt(cx, b2)), Start(a), Run(head, a.stack + [it], a.g, w2), end,
                       fuel, fuel, cx, a, b2, n, n1);
          n := n + n1;
      }
    }
  }

  lemma DeclareRoom(names: seq<Local>, depth: nat, x: Ident)
    requires CanDeclare(names, depth, x)
    ensures |names| < MAX_LOCALS
  {
  }

  lemma ForInPieces(x: Ident, r: ExprCode, body: StmtCode, cx: Context, code: StmtCode, a: At)
    requires code == ForInCode(x, r, body, cx) && Loaded(a.m, a.pc, code, a.breakTo, a.continueTo)
    requires r.pool <= body.pool
    ensures Holds(a.m, a.pc, r) && CodeAt(a.m.code, a.pc + |r.bytes|, [OP_GET_ITER])
    ensures IterCode(body, a.(pc := a.pc + |r.bytes| + 1), a.pc + |code.syms|)
    ensures |code.syms| == |r.bytes| + |body.syms| + 10
  {
    hide Fits, CodeAt, Fill, CanDeclare;
    var raw := ForInSyms(r.bytes, body.syms);
    var end, step := a.pc + |raw|, a.pc + (|r.bytes| + 5 + |body.syms|);
    FitsFill(a.m.code, a.pc, raw, |raw|, |r.bytes| + 5 + |body.syms|, a.breakTo, a.continueTo);
    var enter, leave := Jump(OP_FOR_ITER, |body.syms| + 5), Jump(OP_JUMP, -(|body.syms| + 9));
    LoopPieces(a.m, a.pc, r.bytes + [OP_GET_ITER] + enter, body.syms, [OP_POP] + leave, end, step);
    FitsLift(a.m.code, a.pc, r.bytes + [OP_GET_ITER] + enter, end, step);
    HoldsBoth(a.m, a.pc, r.bytes + [OP_GET_ITER], enter);
    HoldsBoth(a.m, a.pc, r.bytes, [OP_GET_ITER]);
    HoldsBoth(a.m, step, [OP_POP], leave);
  }

  // ---------------------------------------------------------------------
  // Switch
  // ---------------------------------------------------------------------

  /** The value switched on stays below the tests; without a subject there is none. */
  function Below(hasSubject: bool, v: Value): seq<Value>
  {
    if hasSubject then [v] else []
  }

  function Matched(r: Match, hit: nat, miss: nat, stack: seq<Value>, g: Globals): Config
    requires r != Lost
  {
    match r
    case Hit(w) => Run(hit, stack, g, w)
    case Miss(w) => Run(miss, stack, g, w)
    case Failing(w) => Failed(g, w)
  }

  /** One test: the value to compare (or the condition itself) ends on top of the stack as `hit`. */
  lemma TestRuns(e: Expr, hasSubject: bool, v: Value, names: seq<Local>, pool: seq<Value>, m: Image, pc: nat,
                 locals: seq<Value>, g: Globals, w: World)
    returns (n: nat)
    requires |locals| == |names| <= MAX_LOCALS && Loadable(m)
    requires var r := CompExpr(e, names, pool);
             r.ok && r.exact && r.pool <= m.pool
             && CodeAt(m.code, pc, if hasSubject then [OP_DUP] + r.bytes + [OP_EQ] else r.bytes)
    ensures var st := State(Visible(names, locals), g, w);
            var stack := locals + Below(hasSubject, v);
            var next := pc + |CompExpr(e, names, pool).bytes| + if hasSubject then 2 else 0;
            var t := Test(e, hasSubject, v, m.slots, st);
            t != Stray ==> RunN(m, n, Run(pc, stack, g, w)) == Pushed(t, next, stack, g)
  {
    hide RunN, CodeAt, Visible, EvalExpr, CompExpr, FallsThrough, Execute;
    var env := Visible(names, locals);
    n := 0;
    if FallsThrough(e, m.slots, env, g, w) {
    } else if hasSubject {
      n := EqualRuns(e, v, names, pool, m, pc, locals, g, w);
    } else {
      assert locals + [] == locals && locals[..|names|] == locals;
      n := ExprRuns(e, names, pool, m, pc, locals, g, w);
    }
  }

  lemma EqualRuns(e: Expr, v: Value, names: seq<Local>, pool: seq<Value>, m: Image, pc: nat, locals: seq<Value>,
                  g: Globals, w: World)
    returns (n: nat)
    requires |locals| == |names| <= MAX_LOCALS && Loadable(m) && !FallsThrough(e, m.slots, Visible(names, locals), g, w)
    requires var r := CompExpr(e, names, pool);
             r.ok && r.exact && r.pool <= m.pool && CodeAt(m.code, pc, [OP_DUP] + r.bytes + [OP_EQ])
    ensures var t := Test(e, true, v, m.slots, State(Visible(names, locals), g, w));
            t != Stray && RunN(m, n, Run(pc, locals + [v], g, w)) == Pushed(t, pc + |CompExpr(e, names, pool).bytes| + 2, locals + [v], g)
  {
    hide RunN, CodeAt, Visible, EvalExpr, CompExpr, FallsThrough, Execute;
    var r := CompExpr(e, names, pool);
    var env := Visible(names, locals);
    var stack := locals + [v];
    HoldsBoth(m, pc, [OP_DUP] + r.bytes, [OP_EQ]);
    HoldsBoth(m, pc, [OP_DUP], r.bytes);
    RunDup(m, pc, locals, v, g, w);
    var c := Run(pc, stack, g, w);
    var d := Run(pc + 1, stack + [v], g, w);
    assert (stack + [v])[..|names|] == locals;
    n := ExprRuns(e, names, pool, m, pc + 1, stack + [v], g, w);
    Then(m, 1, n, c, d);
    n := 1 + n;
    match EvalExpr(e, m.slots, env, g, w) {
      case Fail(_) =>
      case Val(u, w1) =>
        assert stack + [v] + [u] == stack + [v, u];
        Then(m, n, 1, c, Run(pc + 1 + |r.bytes|, stack + [v, u], g, w1));
        RunOperator(m, pc + 1 + |r.bytes|, OP_EQ, stack, [v, u], g, w1);
        n := n + 1;
    }
  }

  /** The layout of a case's first test. */
  lemma TestPieces(values: seq<Expr>, j: nat, hasSubject: bool, names: seq<Local>, pool: seq<Value>, m: Image, pc: nat)
    requires values != [] && Holds(m, pc, CompValues(values, j, hasSubject, names, pool))
    ensures var r := CompExpr(values[0], names, pool);
            var rest := CompValues(values[1..], j + 1, hasSubject, names, r.pool);
            var at := pc + |r.bytes| + if hasSubject then 2 else 0;
            r.ok && r.exact && r.pool <= m.pool
            && CodeAt(m.code, pc, if hasSubject then [OP_DUP] + r.bytes + [OP_EQ] else r.bytes)
            && CodeAt(m.code, at, Jump(OP_JUMP_IF_TRUE, |rest.bytes| + 4))
            && Holds(m, at + 4, rest) && at + 4 + |rest.bytes| == pc + |CompValues(values, j, hasSubject, names, pool).bytes|
  {
    hide CodeAt, CompExpr;
    var r := CompExpr(values[0], names, pool);
    var rest := CompValues(values[1..], j + 1, hasSubject, names, r.pool);
    var test := if hasSubject then [OP_DUP] + r.bytes + [OP_EQ] else r.bytes;
    var jump := Jump(OP_JUMP_IF_TRUE, |rest.bytes| + 4);
    HoldsBoth(m, pc, test + jump, rest.bytes);
    HoldsBoth(m, pc, test, jump);
  }

  lemma MatchesFirst(values: seq<Expr>, hasSubject: bool, v: Value, S: Slots, st: State)
    requires values != []
    ensures var t := Test(values[0], hasSubject, v, S, st);
            Matches(values, hasSubject, v, S, st)
            == if t.Stray? then Lost else if t.Fail? then Failing(t.w) else if S.truthy(t.v, t.w) then Hit(t.w)
               else Matches(values[1..], hasSubject, v, S, State(st.env, st.g, t.w))
  {
    hide Test;
  }

  /** The tests of a case: a match leaves them behind the jump that follows them, otherwise they run out in front of it. */
  lemma {:induction false} MatchesRun(values: seq<Expr>, j: nat, hasSubject: bool, v: Value, names: seq<Local>,
                              pool: seq<Value>,
                                      m: Image, pc: nat, locals: seq<Value>, g: Globals, w: World) returns (n: nat)
    requires |locals| == |names| <= MAX_LOCALS && Holds(m, pc, CompValues(values, j, hasSubject, names, pool))
    requires pc + |CompValues(values, j, hasSubject, names, pool).bytes| + 4 <= |m.code|
    ensures var at := pc + |CompValues(values, j, hasSubject, names, pool).bytes|;
            var stack := locals + Below(hasSubject, v);
            var r := Matches(values, hasSubject, v, m.slots, State(Visible(names, locals), g, w));
            r != Lost ==> RunN(m, n, Run(pc, stack, g, w)) == Matched(r, at + 4, at, stack, g)
  {
    hide RunN, CodeAt, Visible, Test, CompExpr, CompValues, Matches, Below;
    var st := State(Visible(names, locals), g, w);
    var stack := locals + Below(hasSubject, v);
    var c := Run(pc, stack, g, w);
    if values == [] {
      n := NoTests(j, hasSubject, v, names, pool, m.slots, st, m, c);
    } else {
      var r := CompExpr(values[0], names, pool);
      var rest := CompValues(values[1..], j + 1, hasSubject, names, r.pool);
      TestPieces(values, j, hasSubject, names, pool, m, pc);
      MatchesFirst(values, hasSubject, v, m.slots, st);
      n := TestRuns(values[0], hasSubject, v, names, pool, m, pc, locals, g, w);
      var t := Test(values[0], hasSubject, v, m.slots, st);
      if t.Val? {
        var at := pc + |r.bytes| + if hasSubject then 2 else 0;
        Then(m, n, 1, c, Run(at, stack + [t.v], g, t.w));
        RunPopJump(m, at, OP_JUMP_IF_TRUE, |rest.bytes| + 4, stack, t.v, g, t.w);
        n := n + 1;
        if !m.slots.truthy(t.v, t.w) {
          var n1 := MatchesRun(values[1..], j + 1, hasSubject, v, names, r.pool, m, at + 4, locals, g, t.w);
          Then(m, n, n1, c, Run(at + 4, stack, g, t.w));
          n := n + n1;
        }
      }
    }
  }

  lemma NoTests(j: nat, hasSubject: bool, v: Value, names: seq<Local>, pool: seq<Value>, S: Slots, st: State,
                m: Image, c: Config) returns (n: nat)
    requires c.Run?
    ensures CompValues([], j, hasSubject, names, pool).bytes == [] && Matches([], hasSubject, v, S, st) == Miss(st.w)
    ensures RunN(m, n, c) == c
  {
    n := 0;
  }

  /** Dropping the value switched on, in front of a body. */
  lemma DropRuns(hasSubject: bool, v: Value, m: Image, pc: nat, locals: seq<Value>, g: Globals,
                 w: World) returns (n: nat)
    requires CodeAt(m.code, pc, if hasSubject then [OP_POP] else [])
    ensures RunN(m, n, Run(pc, locals + Below(hasSubject, v), g, w)) == Run(if hasSubject then pc + 1 else pc, locals, g, w)
  {
    hide RunN, CodeAt;
    if hasSubject {
      RunPop(m, pc, locals, v, g, w);
      n := 1;
    } else {
      assert locals + [] == locals;
      RunNothing(m, Run(pc, locals, g, w));
      n := 0;
    }
  }

  lemma NoValuesNoMatch(s: Stmt, i: nat, v: Value, fuel: nat, cx: Context, a: At)
    requires s.Switch? && i < |s.cases| && s.cases[i].values == [] && |cx.names| == |a.stack|
    ensures ExecCases(s, i, v, fuel, cx.top, a.m.slots, StateAt(cx, a)) == ExecCases(s, i + 1, v, fuel, cx.top, a.m.slots, StateAt(cx, a))
  {
    hide Visible, ExecBlock;
    var st := StateAt(cx, a);
    assert st.(w := st.w) == st;
  }

  lemma {:induction false} CasesRun(s: Stmt, i: nat, done: nat, v: Value, fuel: nat, cx: Context, pool: seq<Value>,
                              a: At) returns (n: nat)
    requires s.Switch? && i <= |s.cases| && Ready(CompCases(s, i, done, cx, pool), cx, a)
    ensures Reaches(ExecCases(s, i, v, fuel, cx.top, a.m.slots, StateAt(cx, a)), Run(a.pc, a.stack + Below(s.subject.Some?, v), a.g, a.w),
                    a.pc + |CompCases(s, i, done, cx, pool).syms|, fuel, cx, a, n)
    decreases fuel, s, 1, |s.cases| - i, 1
  {
    hide RunN, CodeAt, Visible, Fits, CompBlock, ExecBlock, CompValues, Matches;
    if i == |s.cases| {
      n := DefaultRuns(s, done, v, fuel, cx, pool, a);
    } else if s.cases[i].values == [] {
      NoValuesNoMatch(s, i, v, fuel, cx, a);
      n := CasesRun(s, i + 1, done, v, fuel, cx, pool, a);
    } else {
      n := CaseRuns(s, i, done, v, fuel, cx, pool, a);
    }
  }

  lemma {:induction false} DefaultRuns(s: Stmt, done: nat, v: Value, fuel: nat, cx: Context, pool: seq<Value>,
                              a: At) returns (n: nat)
    requires s.Switch? && Ready(CompCases(s, |s.cases|, done, cx, pool), cx, a)
    ensures Reaches(ExecCases(s, |s.cases|, v, fuel, cx.top, a.m.slots, StateAt(cx, a)), Run(a.pc, a.stack + Below(s.subject.Some?, v), a.g, a.w),
                    a.pc + |CompCases(s, |s.cases|, done, cx, pool).syms|, fuel, cx, a, n)
    decreases fuel, s, 0
  {
    hide RunN, CodeAt, Visible, Fits, CompBlock, ExecBlock;
    var has := s.subject.Some?;
    var drop := if has then [OP_POP] else [];
    var code := CompCases(s, |s.cases|, done, cx, pool);
    var d := DefaultCase(s.cases);
    SelfKept(cx.names, a.stack);
    if d >= 0 {
      var b := CompBlock(s.cases[d].body, cx, pool);
      Split2(a.m, a.pc, Lift(drop), b.syms, code, a.breakTo, a.continueTo);
      FitsLift(a.m.code, a.pc, drop, a.breakTo, a.continueTo);
      n := DropRuns(has, v, a.m, a.pc, a.stack, a.g, a.w);
      var at := a.(pc := a.pc + |drop|);
      var n1 := BlockRuns(s.cases[d].body, fuel, cx, pool, at);
      EmbedFrom(ExecBlock(s.cases[d].body, fuel, cx.top, a.m.slots, StateAt(cx, a)), b, fuel, at, n1,
                Run(a.pc, a.stack + Below(has, v), a.g, a.w), a.pc + |code.syms|, fuel, cx, a, n);
      n := n + n1;
    } else {
      FitsLift(a.m.code, a.pc, drop, a.breakTo, a.continueTo);
      n := DropRuns(has, v, a.m, a.pc, a.stack, a.g, a.w);
    }
  }

  /** The layout of one case with tests. */
  lemma CasePieces(drop: seq<byte>, vs: ExprCode, b: StmtCode, rest: StmtCode, code: StmtCode, names: seq<Local>, a: At)
    requires code == CaseCode(drop, vs, b, rest, true, names) && Loaded(a.m, a.pc, code, a.breakTo, a.continueTo)
    requires vs.pool <= b.pool <= rest.pool
    ensures var skip := a.pc + |vs.bytes|;
            var body := skip + 4 + |drop|;
            var toEnd := body + |b.syms|;
            Holds(a.m, a.pc, vs)
            && CodeAt(a.m.code, skip, Jump(OP_JUMP, |drop| + |b.syms| + 4))
            && CodeAt(a.m.code, skip + 4, drop)
            && Loaded(a.m, body, b, a.breakTo, a.continueTo)
            && CodeAt(a.m.code, toEnd, Jump(OP_JUMP, |rest.syms|))
            && Loaded(a.m, toEnd + 4, rest, a.breakTo, a.continueTo)
            && toEnd + 4 + |rest.syms| == a.pc + |code.syms| <= |a.m.code|
  {
    hide Fits, CodeAt;
    var jump, over := Jump(OP_JUMP, |drop| + |b.syms| + 4), Jump(OP_JUMP, |rest.syms|);
    var tail3 := Lift(over) + rest.syms;
    var tail2 := b.syms + tail3;
    var tail1 := Lift(drop) + tail2;
    FitsBound(a.m.code, a.pc, code.syms, a.breakTo, a.continueTo);
    Split2(a.m, a.pc, Lift(vs.bytes + jump), tail1, code, a.breakTo, a.continueTo);
    CondPieces(vs, jump, a.m, a.pc, code.pool, a.breakTo, a.continueTo);
    var at := a.pc + |vs.bytes| + 4;
    FitsSplit(a.m.code, at, Lift(drop), tail2, a.breakTo, a.continueTo);
    FitsLift(a.m.code, at, drop, a.breakTo, a.continueTo);
    FitsSplit(a.m.code, at + |drop|, b.syms, tail3, a.breakTo, a.continueTo);
    FitsSplit(a.m.code, at + |drop| + |b.syms|, Lift(over), rest.syms, a.breakTo, a.continueTo);
    FitsLift(a.m.code, at + |drop| + |b.syms|, over, a.breakTo, a.continueTo);
  }

  /** What trying the i-th case means, with the outcome of its tests singled out. */
  lemma CaseMeaning(s: Stmt, i: nat, v: Value, fuel: nat, cx: Context, a: At)
    requires s.Switch? && i < |s.cases| && |cx.names| == |a.stack|
    ensures var r := Matches(s.cases[i].values, s.subject.Some?, v, a.m.slots, StateAt(cx, a));
            var o := ExecCases(s, i, v, fuel, cx.top, a.m.slots, StateAt(cx, a));
            (r.Lost? ==> o == Astray)
            && (r.Failing? ==> o == Raised(a.g, r.w))
            && (r.Hit? ==> o == ExecBlock(s.cases[i].body, fuel, cx.top, a.m.slots, StateAt(cx, a.(w := r.w))))
            && (r.Miss? ==> o == ExecCases(s, i + 1, v, fuel, cx.top, a.m.slots, StateAt(cx, a.(w := r.w))))
  {
    hide Visible, ExecBlock, Matches;
  }

  lemma CaseLayout(s: Stmt, i: nat, done: nat, cx: Context, pool: seq<Value>)
    requires s.Switch? && i < |s.cases| && s.cases[i].values != [] && done < MAX_PATCHES
    ensures var has := s.subject.Some?;
            var vs := CompValues(s.cases[i].values, 0, has, cx.names, pool);
            var b := CompBlock(s.cases[i].body, cx, vs.pool);
            CompCases(s, i, done, cx, pool)
            == CaseCode(if has then [OP_POP] else [], vs, b, CompCases(s, i + 1, done + 1, cx, b.pool), true, cx.names)
  {
    hide CompBlock, CompValues, CaseCode;
  }

  lemma CaseJumps(s: Stmt, i: nat, done: nat, cx: Context, pool: seq<Value>)
    requires s.Switch? && i < |s.cases| && s.cases[i].values != [] && CompCases(s, i, done, cx, pool).exact
    ensures done < MAX_PATCHES
  {
    hide CompBlock, CompValues;
  }

  lemma {:induction false} CaseRuns(s: Stmt, i: nat, done: nat, v: Value, fuel: nat, cx: Context, pool: seq<Value>,
                              a: At) returns (n: nat)
    requires s.Switch? && i < |s.cases| && s.cases[i].values != [] && Ready(CompCases(s, i, done, cx, pool), cx, a)
    ensures Reaches(ExecCases(s, i, v, fuel, cx.top, a.m.slots, StateAt(cx, a)), Run(a.pc, a.stack + Below(s.subject.Some?, v), a.g, a.w),
                    a.pc + |CompCases(s, i, done, cx, pool).syms|, fuel, cx, a, n)
    decreases fuel, s, 1, |s.cases| - i, 0
  {
    hide RunN, CodeAt, Visible, Fits, CompBlock, ExecBlock, CompValues, Matches, CompCases, ExecCases, CaseCode;
    var has := s.subject.Some?;
    var drop := if has then [OP_POP] else [];
    var vs := CompValues(s.cases[i].values, 0, has, cx.names, pool);
    var b := CompBlock(s.cases[i].body, cx, vs.pool);
    var rest := CompCases(s, i + 1, done + 1, cx, b.pool);
    var code := CompCases(s, i, done, cx, pool);
    CaseJumps(s, i, done, cx, pool);
    CaseLayout(s, i, done, cx, pool);
    CasePieces(drop, vs, b, rest, code, cx.names, a);
    CaseMeaning(s, i, v, fuel, cx, a);
    var c := Run(a.pc, a.stack + Below(has, v), a.g, a.w);
    n := MatchesRun(s.cases[i].values, 0, has, v, cx.names, pool, a.m, a.pc, a.stack, a.g, a.w);
    SelfKept(cx.names, a.stack);
    var skip := a.pc + |vs.bytes|;
    match Matches(s.cases[i].values, has, v, a.m.slots, StateAt(cx, a)) {
      case Lost =>
      case Failing(_) =>
      case Hit(w1) =>
        var n1 := HitRuns(s.cases[i].body, has, v, fuel, cx, vs.pool, b, a.(pc := skip + 4, w := w1), |rest.syms|);
        ReachesLater(ExecBlock(s.cases[i].body, fuel, cx.top, a.m.slots, StateAt(cx, a.(w := w1))), c,
                     Run(skip + 4, a.stack + Below(has, v), a.g, w1), a.pc + |code.syms|, fuel, fuel, cx, a,
                     a.(pc := skip + 4, w := w1), n, n1);
        n := n + n1;
      case Miss(w1) =>
        n := MissRuns(s, i, done, v, fuel, cx, b.pool, a, w1, skip, |drop| + |b.syms| + 4, c, n);
    }
  }

  /** No value of the case matched: jump to the next case. */
  lemma {:induction false} MissRuns(s: Stmt, i: nat, done: nat, v: Value, fuel: nat, cx: Context, pool: seq<Value>,
                              a: At,
                                    w1: World, skip: nat, over: nat, c: Config, k: nat) returns (n: nat)
    requires s.Switch? && i < |s.cases| && Framed(cx, a.stack)
    requires Loaded(a.m, skip + 4 + over, CompCases(s, i + 1, done + 1, cx, pool), a.breakTo, a.continueTo)
    requires CodeAt(a.m.code, skip, Jump(OP_JUMP, over)) && skip + 4 + over <= |a.m.code|
    requires RunN(a.m, k, c) == Run(skip, a.stack + Below(s.subject.Some?, v), a.g, w1)
    ensures Reaches(ExecCases(s, i + 1, v, fuel, cx.top, a.m.slots, StateAt(cx, a.(w := w1))), c,
                    skip + 4 + over + |CompCases(s, i + 1, done + 1, cx, pool).syms|, fuel, cx, a, n)
    decreases fuel, s, 1, |s.cases| - i - 1, 2
  {
    hide RunN, CodeAt, Visible, Fits, CompCases, ExecCases;
    var has := s.subject.Some?;
    var d := Run(skip, a.stack + Below(has, v), a.g, w1);
    RunJump(a.m, d, over);
    Then(a.m, k, 1, c, d);
    var at := a.(pc := skip + 4 + over, w := w1);
    var n1 := CasesRun(s, i + 1, done + 1, v, fuel, cx, pool, at);
    SelfKept(cx.names, a.stack);
    ReachesLater(ExecCases(s, i + 1, v, fuel, cx.top, a.m.slots, StateAt(cx, at)), c, Run(at.pc, a.stack + Below(has, v), a.g, w1),
                 at.pc + |CompCases(s, i + 1, done + 1, cx, pool).syms|, fuel, fuel, cx, a, at, k + 1, n1);
    n := k + 1 + n1;
  }

  /** The body of the matching case, then the jump over the remaining cases. */
  lemma {:induction false} HitRuns(ss: seq<Stmt>, has: bool, v: Value, fuel: nat, cx: Context, pool: seq<Value>,
                              b: StmtCode, a: At, over: nat)
    returns (n: nat)
    requires b == CompBlock(ss, cx, pool) && Framed(cx, a.stack)
    requires var drop := if has then [OP_POP] else [];
             var body := a.pc + |drop|;
             CodeAt(a.m.code, a.pc, drop) && Loaded(a.m, body, b, a.breakTo, a.continueTo)
             && CodeAt(a.m.code, body + |b.syms|, Jump(OP_JUMP, over)) && body + |b.syms| + 4 + over <= |a.m.code|
    ensures Reaches(ExecBlock(ss, fuel, cx.top, a.m.slots, StateAt(cx, a)), Run(a.pc, a.stack + Below(has, v), a.g, a.w),
                    a.pc + (if has then 1 else 0) + |b.syms| + 4 + over, fuel, cx, a, n)
    decreases fuel, ss, 2
  {
    hide RunN, CodeAt, Visible, Fits, CompBlock, ExecBlock;
    var d := if has then 1 else 0;
    var at := a.(pc := a.pc + d);
    var c := Run(a.pc, a.stack + Below(has, v), a.g, a.w);
    var o := ExecBlock(ss, fuel, cx.top, a.m.slots, StateAt(cx, a));
    var k := DropRuns(has, v, a.m, a.pc, a.stack, a.g, a.w);
    var n1 := BlockRuns(ss, fuel, cx, pool, at);
    SelfKept(cx.names, a.stack);
    EmbedFrom(o, b, fuel, at, n1, c, at.pc + |b.syms|, fuel, cx, a, k);
    n := k + n1;
    if o.Normal? {
      var e := RunN(a.m, n, c);
      RunJump(a.m, e, over);
      Then(a.m, n, 1, c, e);
      n := n + 1;
    }
  }

  lemma {:induction false} SwitchRuns(s: Stmt, fuel: nat, cx: Context, pool: seq<Value>, a: At) returns (n: nat)
    requires s.Switch? && Ready(CompStmt(s, cx, pool), cx, a)
    ensures Simulates(Exec(s, fuel, cx.top, a.m.slots, StateAt(cx, a)), CompStmt(s, cx, pool), fuel, cx, a, n)
    decreases fuel, s, 2, 0
  {
    hide RunN, CodeAt, Visible, ValueIn, CompExpr, Fits, CompCases, ExecCases;
    var sub := Subject(s.subject, cx.names, pool);
    var cs := CompCases(s, 0, 0, cx, sub.pool);
    var code := CompStmt(s, cx, pool);
    assert code == SwitchCode(sub, cs, cx.names);
    Split2(a.m, a.pc, Lift(sub.bytes), cs.syms, code, a.breakTo, a.continueTo);
    FitsLift(a.m.code, a.pc, sub.bytes, a.breakTo, a.continueTo);
    var v := EvalOpt(s.subject, a.m.slots, StateAt(cx, a));
    if s.subject.Some? {
      n := OperandRuns(s.subject.value, cx, pool, a);
    } else {
      assert a.stack + [] == a.stack;
      RunNothing(a.m, Start(a));
      n := 0;
    }
    if v.Val? {
      var b := a.(pc := a.pc + |sub.bytes|, w := v.w);
      var n1 := CasesRun(s, 0, 0, v.v, fuel, cx, sub.pool, b);
      SelfKept(cx.names, a.stack);
      ReachesLater(ExecCases(s, 0, v.v, fuel, cx.top, a.m.slots, StateAt(cx, b)), Start(a),
                   Run(b.pc, a.stack + Below(s.subject.Some?, v.v), a.g, v.w), a.pc + |code.syms|, fuel, fuel, cx, a, b, n, n1);
      n := n + n1;
    }
  }

  // ---------------------------------------------------------------------
  // All statements
  // ---------------------------------------------------------------------

  /**
    The main simulation: from any frame that holds the live locals, running a statement's code ends
    where the source semantics says, with the same bindings, globals and world. A loop whose fuel
    runs out corresponds to a machine that is still running after at least that many rounds.
  */
  lemma {:induction false} StmtRuns(s: Stmt, fuel: nat, cx: Context, pool: seq<Value>, a: At) returns (n: nat)
    requires Ready(CompStmt(s, cx, pool), cx, a)
    ensures Simulates(Exec(s, fuel, cx.top, a.m.slots, StateAt(cx, a)), CompStmt(s, cx, pool), fuel, cx, a, n)
    decreases fuel, s, 3
  {
    hide Simulates, Ready, CompStmt, Exec, Visible, RunN;
    n := 0;
    match s {
      case If(_, _, hasElse, _) =>
        if hasElse { n := IfElseRuns(s, fuel, cx, pool, a); } else { n := IfRuns(s, fuel, cx, pool, a); }
      case While(_, _) => n := LoopRuns(s, fuel, cx, pool, a);
      case Forever(_) => n := LoopRuns(s, fuel, cx, pool, a);
      case ForIn(_, _, _) => n := ForInRuns(s, fuel, cx, pool, a);
      case Switch(_, _) => n := SwitchRuns(s, fuel, cx, pool, a);
      case Block(ss) => n := BlockStmtRuns(s, fuel, cx, pool, a);
      case FuncDecl(_, _) => DeclIsNotReady(s, cx, pool, a);
      case ClassDecl(_, _, _) => DeclIsNotReady(s, cx, pool, a);
      case _ => n := StraightRuns(s, fuel, cx, pool, a);
    }
  }

  /** Making functions and classes is not exact. */
  lemma DeclIsNotReady(s: Stmt, cx: Context, pool: seq<Value>, a: At)
    requires s.FuncDecl? || s.ClassDecl?
    ensures !Ready(CompStmt(s, cx, pool), cx, a)
  {
    hide CompExpr, ClassCode, DeclTail, CanDeclare, Fits;
  }

  lemma {:induction false} BlockStmtRuns(s: Stmt, fuel: nat, cx: Context, pool: seq<Value>, a: At) returns (n: nat)
    requires s.Block? && Ready(CompStmt(s, cx, pool), cx, a)
    ensures Simulates(Exec(s, fuel, cx.top, a.m.slots, StateAt(cx, a)), CompStmt(s, cx, pool), fuel, cx, a, n)
    decreases fuel, s, 2, 0
  {
    hide RunN, Visible, Fits, CompBlock, ExecBlock;
    n := BlockRuns(s.ss, fuel, cx, pool, a);
  }

  lemma {:induction false} LoopRuns(s: Stmt, fuel: nat, cx: Context, pool: seq<Value>, a: At) returns (n: nat)
    requires (s.While? || s.Forever?) && Ready(CompStmt(s, cx, pool), cx, a)
    ensures Simulates(Exec(s, fuel, cx.top, a.m.slots, StateAt(cx, a)), CompStmt(s, cx, pool), fuel, cx, a, n)
    decreases fuel, s, 2, 1
  {
    hide RunN, Visible, Fits, CompStmt, Round;
    if fuel == 0 {
      TimeoutNow(CompStmt(s, cx, pool), cx, a);
      n := 0;
    } else if s.While? {
      n := WhileRuns(s, fuel, cx, pool, a);
    } else {
      n := ForeverRuns(s, fuel, cx, pool, a);
    }
  }

  lemma StraightRuns(s: Stmt, fuel: nat, cx: Context, pool: seq<Value>, a: At) returns (n: nat)
    requires !s.If? && !s.While? && !s.Forever? && !s.ForIn? && !s.Switch? && !s.Block? && !s.FuncDecl? && !s.ClassDecl?
    requires Ready(CompStmt(s, cx, pool), cx, a)
    ensures Simulates(Exec(s, fuel, cx.top, a.m.slots, StateAt(cx, a)), CompStmt(s, cx, pool), fuel, cx, a, n)
  {
    hide ExprStmtCode, VarDeclCode, AssignCode, CompoundCode, SetItemCode, SetAttrCode, DelItemCode, ReturnCode,
         BreakCode, ContinueCode, ExecExprStmt, ExecVarDecl, ExecAssign, ExecStore, ExecReturn, Visible, RunN,
         Simulates, Ready;
    match s {
      case ExprStmt(e) => n := ExprStmtRuns(e, fuel, cx, pool, a);
      case VarDecl(x, init) => n := VarDeclRuns(x, init, fuel, cx, pool, a);
      case Assign(x, e) => n := AssignRuns(x, e, fuel, cx, pool, a);
      case SetItem(obj, key, e) => n := SetItemRuns([e, obj, key], fuel, cx, pool, a);
      case SetAttr(obj, name, e) => n := SetAttrRuns([e, obj], name, fuel, cx, pool, a);
      case DelItem(obj, key) => n := DelItemRuns([obj, key], fuel, cx, pool, a);
      case Compound(op, x, e) => n := CompoundRuns(op, x, e, fuel, cx, pool, a);
      case Break => n := BreakRuns(fuel, cx, pool, a);
      case Continue => n := ContinueRuns(fuel, cx, pool, a);
      case Pass => n := PassRuns(fuel, cx, pool, a);
      case Return(e) => n := ReturnRuns(e, fuel, cx, pool, a);
      case _ => assert false;
    }
  }

  lemma PassRuns(fuel: nat, cx: Context, pool: seq<Value>, a: At) returns (n: nat)
    requires Ready(Straight([], pool, cx.names, true, true), cx, a)
    ensures Simulates(Normal(StateAt(cx, a)), Straight([], pool, cx.names, true, true), fuel, cx, a, n)
  {
    hide Visible;
    RunNothing(a.m, Start(a));
    n := 0;
  }
}
