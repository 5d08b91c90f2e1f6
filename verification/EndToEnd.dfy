/** From a syntax tree through the compiler object to the machine. */
module EndToEnd {
  import opened Values
  import opened Bytecode
  import opened Machine
  import opened Source
  import opened CodeGen
  import opened Patching
  import opened Assembly
  import opened ProgramCorrect
  import opened Accept
  import C = Compiler

  /** Code without holes leaves no room for rejection by a loop that is not there. */
  lemma {:induction false} ClosedCounts(syms: seq<Sym>)
    requires Closed(syms)
    ensures CountBreaks(syms) == 0 && CountContinues(syms) == 0
  {
    if syms != [] {
      ClosedCounts(syms[..|syms| - 1]);
    }
  }

  lemma AcceptedOutside(r: StmtCode)
    requires r.ok ==> Closed(r.syms)
    ensures Accepted(r, 0, 0) <==> r.ok
  {
    if r.ok {
      ClosedCounts(r.syms);
    }
  }

  lemma {:induction false} ParamsTaken(params: seq<Ident>, x: Ident)
    ensures Duplicate(ParamNames(params), 0, x) <==> x in params
  {
    if params != [] {
      var n := |params| - 1;
      assert ParamNames(params)[..n] == ParamNames(params[..n]) && ParamNames(params)[n].name == Named(params[n]);
      ParamsTaken(params[..n], x);
      assert params == params[..n] + [params[n]];
    }
  }

  lemma DeclarableExactly(params: seq<Ident>)
    ensures C.Declarable(params) <==> |params| <= 256 && forall i, j :: 0 <= i < j < |params| ==> params[i] != params[j]
  {
    hide Duplicate;
    forall j | 0 <= j < |params|
      ensures CanDeclare(ParamNames(params[..j]), 0, params[j]) <==> j < 256 && params[j] !in params[..j]
    {
      ParamsTaken(params[..j], params[j]);
    }
    assert |params| > 256 ==> !CanDeclare(ParamNames(params[..256]), 0, params[256]);
  }

  /** The chunk of a program is the linked image, whatever the native slots. */
  ghost predicate IsImage(r: StmtCode, code: seq<byte>, pool: seq<Value>)
  {
    code == BytesOf(r.syms) && pool == r.pool
  }

  method CompileSource(ss: seq<Stmt>) returns (c: C.Compiler)
    ensures c.hadError <==> !CompProgram(ss).ok
    ensures c.hadError <==> !SeqAccepted(ss, AtTop)
    ensures !c.hadError ==> IsImage(CompProgram(ss), c.code, c.pool)
  {
    hide CompSeq, BytesOf, SeqAccepted;
    c := new C.Compiler(true, []);
    c.CompileProgram(ss);
    var r := CompSeq(ss, Context(true, [], 0, NoLoop), []);
    if r.ok {
      SeqClosed(ss, Context(true, [], 0, NoLoop), []);
    }
    AcceptedOutside(r);
    ProgramAcceptedExactly(ss);
  }

  method CompileFunctionSource(params: seq<Ident>, body: seq<Stmt>) returns (c: C.Compiler)
    ensures c.hadError <==> !(C.Declarable(params) && CompFunction(params, body).ok)
    ensures var distinct := forall i, j :: 0 <= i < j < |params| ==> params[i] != params[j];
      c.hadError <==> !(distinct && |params| <= 256 && SeqAccepted(body, Where(false, |params|, {}, false)))
    ensures !c.hadError ==> IsImage(CompFunction(params, body), c.code, c.pool)
  {
    hide CompBlock, BytesOf, C.Declarable, SeqAccepted;
    c := new C.Compiler(false, []);
    c.CompileFunction(params, body);
    var cx := Context(false, ParamNames(params), 0, NoLoop);
    if CompBlock(body, cx, []).ok {
      BlockClosed(body, cx, []);
    }
    AcceptedOutside(CompBlock(body, cx, []));
    FunctionAcceptedExactly(params, body);
    DeclarableExactly(params);
  }

  /**
    The bytes and constants the compiler leaves behind, run from the first byte on an empty stack,
    halt in a configuration exactly when the program means it.
  */
  lemma ChunkHaltsExactly(ss: seq<Stmt>, code: seq<byte>, pool: seq<Value>, S: Slots, g: Globals, w: World, d: Config)
    requires IsImage(CompProgram(ss), code, pool) && CompProgram(ss).ok && CompProgram(ss).exact
    requires |code| < TWO_23 && |pool| <= TWO_24 && StaysOn(ss, S, g, w) && !d.Run?
    ensures (exists n: nat :: RunN(Image(code, pool, S), n, Run(0, [], g, w)) == d)
       <==> (exists fuel: nat :: Final(ExecSeq(ss, fuel, true, S, State([], g, w))) == Some(d))
  {
    hide RunN, ExecSeq, CompSeq, StaysOn;
    ProgramHaltsExactly(ss, S, g, w, d);
    assert Link(CompProgram(ss), S) == Image(code, pool, S);
  }
}
