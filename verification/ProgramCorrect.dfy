/** Whole chunks: what the compiler emits for a program or a function body behaves as the source does. */
module ProgramCorrect {
  import opened Values
  import opened Bytecode
  import opened Machine
  import opened Source
  import opened CodeGen
  import opened Stepping
  import opened ExprCorrect
  import opened Placement
  import opened SimpleStmts
  import opened StmtCorrect
  import opened Patching

  // ---------------------------------------------------------------------
  // Finished code has no holes
  // ---------------------------------------------------------------------

  /** No jump is left to be filled in. */
  predicate Closed(syms: seq<Sym>)
  {
    forall i :: 0 <= i < |syms| ==> syms[i].B?
  }

  lemma ClosedFits(syms: seq<Sym>, breakTo: int, continueTo: int)
    requires Closed(syms)
    ensures Fits(BytesOf(syms), 0, syms, breakTo, continueTo)
  {
  }

  /** Loops fill every hole of their bodies, and outside loops `break` and `continue` are rejected. */
  lemma {:induction false} StmtClosed(s: Stmt, cx: Context, pool: seq<Value>)
    requires cx.loop == NoLoop && CompStmt(s, cx, pool).ok
    ensures Closed(CompStmt(s, cx, pool).syms)
    decreases s, 1
  {
    hide CompExpr, CompExprs, Plain, AllPlain, CompBlock, CompCases, OptExpr, SetVar, GetVar;
    match s {
      case If(cond, thn, hasElse, els) =>
        var c := CompExpr(cond, cx.names, pool);
        BlockClosed(thn, cx, c.pool);
        if hasElse {
          BlockClosed(els, cx, CompBlock(thn, cx, c.pool).pool);
        }
      case Block(ss) => BlockClosed(ss, cx, pool);
      case Switch(subject, cases) => CasesClosed(s, 0, 0, cx, Subject(subject, cx.names, pool).pool);
      case _ =>
    }
  }

  lemma {:induction false} BlockClosed(ss: seq<Stmt>, cx: Context, pool: seq<Value>)
    requires cx.loop == NoLoop && CompBlock(ss, cx, pool).ok
    ensures Closed(CompBlock(ss, cx, pool).syms)
    decreases ss, 1
  {
    hide CompSeq;
    SeqClosed(ss, cx.(depth := cx.depth + 1), pool);
  }

  lemma {:induction false} SeqClosed(ss: seq<Stmt>, cx: Context, pool: seq<Value>)
    requires cx.loop == NoLoop && CompSeq(ss, cx, pool).ok
    ensures Closed(CompSeq(ss, cx, pool).syms)
    decreases ss, 0
  {
    hide CompStmt;
    if ss != [] {
      var r0 := CompStmt(ss[0], cx, pool);
      StmtClosed(ss[0], cx, pool);
      SeqClosed(ss[1..], cx.(names := r0.names), r0.pool);
    }
  }

  lemma {:induction false} CasesClosed(s: Stmt, i: nat, done: nat, cx: Context, pool: seq<Value>)
    requires s.Switch? && i <= |s.cases| && cx.loop == NoLoop && CompCases(s, i, done, cx, pool).ok
    ensures Closed(CompCases(s, i, done, cx, pool).syms)
    decreases s, 0, |s.cases| - i
  {
    hide CompBlock, CompValues;
    if i == |s.cases| {
      var d := DefaultCase(s.cases);
      if d >= 0 {
        BlockClosed(s.cases[d].body, cx, pool);
      }
    } else if s.cases[i].values == [] {
      CasesClosed(s, i + 1, done, cx, pool);
    } else {
      var vs := CompValues(s.cases[i].values, 0, s.subject.Some?, cx.names, pool);
      var b := CompBlock(s.cases[i].body, cx, vs.pool);
      BlockClosed(s.cases[i].body, cx, vs.pool);
      CasesClosed(s, i + 1, done + 1, cx, b.pool);
    }
  }

  // ---------------------------------------------------------------------
  // Running a chunk
  // ---------------------------------------------------------------------

  /** The compiler's output as the VM gets it. */
  function Link(r: StmtCode, S: Slots): Image
  {
    Image(BytesOf(r.syms), r.pool, S)
  }

  /** The compiler accepts, drops nothing silently, and offsets and constants fit their operands. */
  predicate Compiles(r: StmtCode)
  {
    r.ok && r.exact && |r.syms| < TWO_23 && |r.pool| <= TWO_24
  }

  /** How a whole body that ended this way looks from outside; a body that falls off its end returns nil. */
  function Final(o: Outcome): Option<Config>
  {
    match o
    case Normal(st) => Some(Done(Nil, st.g, st.w))
    case Returned(v, g, w) => Some(Done(v, g, w))
    case Raised(g, w) => Some(Failed(g, w))
    case Broke(_) => None
    case Continued(_) => None
    case Timeout => None
    case Astray => None
  }

  /** The code of a body, then RETURN_NIL. */
  lemma BodyRuns(o: Outcome, r: StmtCode, fuel: nat, cx: Context, a: At, n0: nat) returns (n: nat)
    requires cx.loop == NoLoop && Framed(cx, a.stack) && cx.names <= r.names && Simulates(o, r, fuel, cx, a, n0)
    requires CodeAt(a.m.code, a.pc + |r.syms|, [OP_RETURN_NIL])
    ensures o.Timeout? || o.Astray? || Final(o) == Some(RunN(a.m, n, Start(a)))
    ensures o.Timeout? ==> RunN(a.m, n, Start(a)).Run? && n >= fuel
  {
    hide RunN, CodeAt, Visible;
    n := n0;
    if o.Normal? {
      var c := RunN(a.m, n0, Start(a));
      RunReturnNil(a.m, c);
      Then(a.m, n0, 1, Start(a), c);
      n := n0 + 1;
    }
  }

  /**
    A program's chunk, run from its first byte on an empty stack, does what the program means: it
    halts with nil and the program's final globals and world, or fails exactly as the program does;
    while the program loops, so does the machine.
  */
  lemma ProgramRuns(ss: seq<Stmt>, fuel: nat, S: Slots, g: Globals, w: World) returns (n: nat)
    requires Compiles(CompProgram(ss))
    ensures var o := ExecSeq(ss, fuel, true, S, State([], g, w));
            var c := RunN(Link(CompProgram(ss), S), n, Run(0, [], g, w));
            !o.Astray? ==> if o.Timeout? then c.Run? && n >= fuel else Final(o) == Some(c)
  {
    hide RunN, ExecSeq, CompSeq, CodeAt;
    var cx := Context(true, [], 0, NoLoop);
    var r := CompSeq(ss, cx, []);
    var m := Link(CompProgram(ss), S);
    SeqClosed(ss, cx, []);
    assert Visible([], []) == [];
    var a := EntryPoint(r, CompProgram(ss), S, [], g, w);
    var n0 := SeqRuns(ss, fuel, cx, [], a);
    n := BodyRuns(ExecSeq(ss, fuel, true, S, State([], g, w)), r, fuel, cx, a, n0);
  }

  /** A chunk made of a closed body and RETURN_NIL, loaded and about to start. */
  lemma EntryPoint(r: StmtCode, whole: StmtCode, S: Slots, stack: seq<Value>, g: Globals, w: World) returns (a: At)
    requires Closed(r.syms) && whole == r.(syms := r.syms + Lift([OP_RETURN_NIL])) && Compiles(whole)
    ensures a == At(Link(whole, S), 0, stack, g, w, 0, 0)
    ensures Loaded(a.m, 0, r, 0, 0) && CodeAt(a.m.code, |r.syms|, [OP_RETURN_NIL])
  {
    a := At(Link(whole, S), 0, stack, g, w, 0, 0);
    ClosedFits(whole.syms, 0, 0);
    FitsSplit(a.m.code, 0, r.syms, Lift([OP_RETURN_NIL]), 0, 0);
    FitsLift(a.m.code, |r.syms|, [OP_RETURN_NIL], 0, 0);
  }

  /** The bindings a function starts with: its parameters, in order. */
  function Params(params: seq<Ident>, args: seq<Value>): (env: Env)
    requires |params| == |args|
    ensures |env| == |params|
  {
    seq(|params|, i requires 0 <= i < |params| => Binding(params[i], args[i]))
  }

  lemma {:induction false} ParamsVisible(params: seq<Ident>, args: seq<Value>)
    requires |params| == |args|
    ensures Visible(ParamNames(params), args) == Params(params, args)
  {
    if params != [] {
      var k := |params| - 1;
      ParamsVisible(params[..k], args[..k]);
      assert ParamNames(params)[..k] == ParamNames(params[..k]);
      assert Params(params, args) == Params(params[..k], args[..k]) + [Binding(params[k], args[k])];
    }
  }

  /** A function's chunk, entered with its arguments in the first slots, returns what its body returns. */
  lemma FunctionRuns(params: seq<Ident>, body: seq<Stmt>, args: seq<Value>, fuel: nat, S: Slots, g: Globals,
                     w: World) returns (n: nat)
    requires |args| == |params| <= MAX_LOCALS && Compiles(CompFunction(params, body))
    ensures var o := ExecBlock(body, fuel, false, S, State(Params(params, args), g, w));
            var c := RunN(Link(CompFunction(params, body), S), n, Run(0, args, g, w));
            !o.Astray? ==> if o.Timeout? then c.Run? && n >= fuel else Final(o) == Some(c)
  {
    hide RunN, ExecBlock, CompBlock, CodeAt, Visible;
    var cx := Context(false, ParamNames(params), 0, NoLoop);
    var r := CompBlock(body, cx, []);
    BlockClosed(body, cx, []);
    ParamsVisible(params, args);
    var a := EntryPoint(r, CompFunction(params, body), S, args, g, w);
    var n0 := BlockRuns(body, fuel, cx, [], a);
    n := BodyRuns(ExecBlock(body, fuel, false, S, State(Params(params, args), g, w)), r, fuel, cx, a, n0);
  }

  // ---------------------------------------------------------------------
  // Both directions
  // ---------------------------------------------------------------------

  lemma StillRunning(m: Image, k: nat, n: nat, c: Config)
    requires RunN(m, n, c).Run? && k <= n
    ensures RunN(m, k, c).Run?
  {
    RunNAdd(m, k, n - k, c);
  }

  /** No expression that the program evaluates makes it go astray. */
  ghost predicate StaysOn(ss: seq<Stmt>, S: Slots, g: Globals, w: World)
  {
    forall fuel: nat :: ExecSeq(ss, fuel, true, S, State([], g, w)) != Astray
  }

  ghost predicate BodyStaysOn(body: seq<Stmt>, S: Slots, st: State)
  {
    forall fuel: nat :: ExecBlock(body, fuel, false, S, st) != Astray
  }

  /**
    The machine halts in configuration d if and only if, with enough fuel, the program means d.
    So the chunk loops forever exactly when the program does.
  */
  lemma ProgramHaltsExactly(ss: seq<Stmt>, S: Slots, g: Globals, w: World, d: Config)
    requires Compiles(CompProgram(ss)) && StaysOn(ss, S, g, w) && !d.Run?
    ensures (exists n: nat :: RunN(Link(CompProgram(ss), S), n, Run(0, [], g, w)) == d)
       <==> (exists fuel: nat :: Final(ExecSeq(ss, fuel, true, S, State([], g, w))) == Some(d))
  {
    hide RunN, ExecSeq, CompSeq;
    var m, c := Link(CompProgram(ss), S), Run(0, [], g, w);
    if n: nat :| RunN(m, n, c) == d {
      var k := ProgramRuns(ss, n + 1, S, g, w);
      if ExecSeq(ss, n + 1, true, S, State([], g, w)).Timeout? {
        StillRunning(m, n, k, c);
      } else {
        FinalHalts(ExecSeq(ss, n + 1, true, S, State([], g, w)));
        HaltsOnce(m, n, k, c);
      }
    }
    if fuel: nat :| Final(ExecSeq(ss, fuel, true, S, State([], g, w))) == Some(d) {
      var k := ProgramRuns(ss, fuel, S, g, w);
    }
  }

  lemma FinalHalts(o: Outcome)
    requires Final(o).Some?
    ensures !Final(o).value.Run?
  {
  }

  /** The same for a function body and its result. */
  lemma FunctionReturnsExactly(params: seq<Ident>, body: seq<Stmt>, args: seq<Value>, S: Slots, g: Globals,
                              w: World, d: Config)
    requires |args| == |params| <= MAX_LOCALS && Compiles(CompFunction(params, body)) && !d.Run?
    requires BodyStaysOn(body, S, State(Params(params, args), g, w))
    ensures (exists n: nat :: RunN(Link(CompFunction(params, body), S), n, Run(0, args, g, w)) == d)
       <==> (exists fuel: nat :: Final(ExecBlock(body, fuel, false, S, State(Params(params, args), g, w))) == Some(d))
  {
    hide RunN, ExecBlock, CompBlock;
    var m, c, st := Link(CompFunction(params, body), S), Run(0, args, g, w), State(Params(params, args), g, w);
    if n: nat :| RunN(m, n, c) == d {
      var k := FunctionRuns(params, body, args, n + 1, S, g, w);
      if ExecBlock(body, n + 1, false, S, st).Timeout? {
        StillRunning(m, n, k, c);
      } else {
        FinalHalts(ExecBlock(body, n + 1, false, S, st));
        HaltsOnce(m, n, k, c);
      }
    }
    if fuel: nat :| Final(ExecBlock(body, fuel, false, S, st)) == Some(d) {
      var k := FunctionRuns(params, body, args, fuel, S, g, w);
    }
  }
}
