/** Statement code with its holes filled, and the correspondence between machine states and source states. */
module Placement {
  import opened Values
  import opened Bytecode
  import opened Machine
  import opened Source
  import opened CodeGen
  import opened Stepping
  import opened ExprCorrect

  // ---------------------------------------------------------------------
  // Code with holes at an offset
  // ---------------------------------------------------------------------

  predicate FitsSym(b: byte, sym: Sym, pos: int, breakTo: int, continueTo: int)
  {
    match sym
    case B(x) => b == x
    case BreakHole(k) => b == OperandByte(breakTo - (pos - k + 3), k)
    case ContinueHole(k) => b == OperandByte(continueTo - (pos - k + 3), k)
  }

  /** The chunk holds this code at `at`, with the holes leading to the given offsets. */
  predicate Fits(code: seq<byte>, at: nat, syms: seq<Sym>, breakTo: int, continueTo: int)
  {
    at + |syms| <= |code|
    && forall i :: 0 <= i < |syms| ==> FitsSym(code[at + i], syms[i], at + i, breakTo, continueTo)
  }

  lemma FitsSplit(code: seq<byte>, at: nat, a: seq<Sym>, b: seq<Sym>, breakTo: int, continueTo: int)
    requires Fits(code, at, a + b, breakTo, continueTo)
    ensures Fits(code, at, a, breakTo, continueTo)
    ensures Fits(code, at + |a|, b, breakTo, continueTo)
  {
    var ab := a + b;
    forall i | 0 <= i < |a|
      ensures FitsSym(code[at + i], a[i], at + i, breakTo, continueTo)
    {
      assert ab[i] == a[i];
    }
    forall i | 0 <= i < |b|
      ensures FitsSym(code[at + |a| + i], b[i], at + |a| + i, breakTo, continueTo)
    {
      assert ab[|a| + i] == b[i];
      assert FitsSym(code[at + (|a| + i)], ab[|a| + i], at + (|a| + i), breakTo, continueTo);
    }
  }

  lemma FitsLift(code: seq<byte>, at: nat, bytes: seq<byte>, breakTo: int, continueTo: int)
    requires Fits(code, at, Lift(bytes), breakTo, continueTo)
    ensures CodeAt(code, at, bytes)
  {
    forall i | 0 <= i < |bytes|
      ensures code[at + i] == bytes[i]
    {
      assert FitsSym(code[at + i], Lift(bytes)[i], at + i, breakTo, continueTo);
    }
  }

  /** A filled loop body is the raw one with its holes leading to the loop's own targets. */
  lemma FitsFill(code: seq<byte>, at: nat, raw: seq<Sym>, b: int, c: int, breakTo: int, continueTo: int)
    requires Fits(code, at, Fill(raw, b, c), breakTo, continueTo)
    ensures Fits(code, at, raw, at + b, at + c)
  {
    var filled := Fill(raw, b, c);
    forall i | 0 <= i < |raw|
      ensures FitsSym(code[at + i], raw[i], at + i, at + b, at + c)
    {
      assert FitsSym(code[at + i], filled[i], at + i, breakTo, continueTo);
      match raw[i] {
        case B(_) =>
        case BreakHole(k) => assert b - (i - k + 3) == at + b - (at + i - k + 3);
        case ContinueHole(k) => assert c - (i - k + 3) == at + c - (at + i - k + 3);
      }
    }
  }

  lemma FitsBreak(code: seq<byte>, at: nat, breakTo: int, continueTo: int)
    requires Fits(code, at, Lift([OP_JUMP]) + [BreakHole(0), BreakHole(1), BreakHole(2)], breakTo, continueTo)
    ensures CodeAt(code, at, Jump(OP_JUMP, breakTo - (at + 4)))
  {
    var syms := Lift([OP_JUMP]) + [BreakHole(0), BreakHole(1), BreakHole(2)];
    assert forall i :: 0 <= i < 4 ==> FitsSym(code[at + i], syms[i], at + i, breakTo, continueTo);
    assert syms[0] == B(OP_JUMP) && syms[1] == BreakHole(0) && syms[2] == BreakHole(1) && syms[3] == BreakHole(2);
    var jump := Jump(OP_JUMP, breakTo - (at + 4));
    assert code[at + 0] == jump[0] && code[at + 1] == jump[1] && code[at + 2] == jump[2] && code[at + 3] == jump[3];
  }

  lemma FitsContinue(code: seq<byte>, at: nat, breakTo: int, continueTo: int)
    requires Fits(code, at, [B(OP_JUMP), ContinueHole(0), ContinueHole(1), ContinueHole(2)], breakTo, continueTo)
    ensures CodeAt(code, at, Jump(OP_JUMP, continueTo - (at + 4)))
  {
    var syms := [B(OP_JUMP), ContinueHole(0), ContinueHole(1), ContinueHole(2)];
    assert syms[0] == B(OP_JUMP) && syms[1] == ContinueHole(0) && syms[2] == ContinueHole(1) && syms[3] == ContinueHole(2);
    assert forall i :: 0 <= i < 4 ==> FitsSym(code[at + i], syms[i], at + i, breakTo, continueTo);
    var jump := Jump(OP_JUMP, continueTo - (at + 4));
    assert code[at + 0] == jump[0] && code[at + 1] == jump[1] && code[at + 2] == jump[2] && code[at + 3] == jump[3];
  }

  // ---------------------------------------------------------------------
  // Machine states against source states
  // ---------------------------------------------------------------------

  predicate Loaded(m: Image, pc: nat, r: StmtCode, breakTo: int, continueTo: int)
  {
    Loadable(m) && r.ok && r.exact && r.pool <= m.pool
    && Fits(m.code, pc, r.syms, breakTo, continueTo)
    && 0 <= breakTo <= |m.code| && 0 <= continueTo <= |m.code|
  }

  /** Between statements the frame holds exactly the live locals. */
  predicate Framed(cx: Context, stack: seq<Value>)
  {
    |stack| == |cx.names| <= MAX_LOCALS
    && (cx.loop.InLoop? ==> ContinueBase(cx.loop) <= |cx.names|)
  }

  /** Hidden slots (iterators of enclosing loops) are left alone. */
  predicate Kept(names: seq<Local>, before: seq<Value>, after: seq<Value>)
    requires |names| <= |before| && |names| <= |after|
  {
    forall i :: 0 <= i < |names| && names[i].name == Hidden ==> after[i] == before[i]
  }

  predicate Agrees(c: Config, names: seq<Local>, st: State)
  {
    c.Run? && |c.stack| == |names| && Visible(names, c.stack) == st.env && c.g == st.g && c.w == st.w
  }

  /** A jump out of the statement has cut the frame back to the first k locals. */
  predicate Unwound(c: Config, names: seq<Local>, k: nat, st: State, before: seq<Value>)
  {
    c.Run? && k <= |names| && k == |c.stack| && k <= |before|
    && Visible(names[..k], c.stack) <= st.env && c.g == st.g && c.w == st.w
    && Kept(names[..k], before, c.stack)
  }

  /** Where the machine must be after n rounds, for each way a statement can end. */
  predicate After(o: Outcome, c: Config, cx: Context, names: seq<Local>, before: seq<Value>, end: nat,
                  breakTo: int, continueTo: int, n: nat, fuel: nat)
    requires cx.names <= names && |cx.names| == |before|
  {
    match o
    case Normal(st) => c.Run? && c.pc == end && Agrees(c, names, st) && Kept(cx.names, before, c.stack)
    case Broke(st) => cx.loop.InLoop? && c.Run? && c.pc == breakTo && Unwound(c, cx.names, cx.loop.base, st, before)
    case Continued(st) => n > 0 && cx.loop.InLoop? && c.Run? && c.pc == continueTo && Unwound(c, cx.names, ContinueBase(cx.loop), st, before)
    case Returned(v, g, w) => c == Done(v, g, w)
    case Raised(g, w) => c == Failed(g, w)
    case Timeout => c.Run? && n >= fuel
    case Astray => true
  }

  function StateOf(names: seq<Local>, c: Config): State
    requires c.Run? && |names| == |c.stack|
  {
    State(Visible(names, c.stack), c.g, c.w)
  }

  /** The number of bindings depends on the names alone. */
  lemma {:induction false} VisibleLength(names: seq<Local>, a: seq<Value>, b: seq<Value>)
    requires |names| == |a| == |b|
    ensures |Visible(names, a)| == |Visible(names, b)|
  {
    if names != [] {
      var k := |names| - 1;
      VisibleLength(names[..k], a[..k], b[..k]);
    }
  }

  /** Popping the locals beyond the first k leaves the first bindings. */
  lemma CutVisible(names: seq<Local>, stack: seq<Value>, k: nat, before: seq<Value>)
    requires |names| == |stack| && k <= |names| && k == |before|
    ensures |Visible(names[..k], before)| <= |Visible(names, stack)|
    ensures Visible(names[..k], stack[..k]) == Visible(names, stack)[..|Visible(names[..k], before)|]
  {
    VisibleLength(names[..k], before, stack[..k]);
    VisiblePrefix(names, stack, k);
  }

  /** Running n `OP_POP`s. */
  lemma {:induction false} RunPops(m: Image, pc: nat, n: nat, stack: seq<Value>, g: Globals, w: World)
    requires CodeAt(m.code, pc, Pops(n)) && n <= |stack|
    ensures RunN(m, n, Run(pc, stack, g, w)) == Run(pc + n, stack[..|stack| - n], g, w)
    decreases n
  {
    hide CodeAt, Execute;
    if n == 0 {
      assert stack[..|stack|] == stack;
    } else {
      assert Pops(n) == [OP_POP] + Pops(n - 1);
      HoldsBoth(m, pc, [OP_POP], Pops(n - 1));
      var rest, top := stack[..|stack| - 1], stack[|stack| - 1];
      assert stack == rest + [top];
      RunPop(m, pc, rest, top, g, w);
      RunNAdd(m, 1, n - 1, Run(pc, stack, g, w));
      RunPops(m, pc + 1, n - 1, rest, g, w);
      assert rest[..|stack| - n] == stack[..|stack| - n];
    }
  }
}
