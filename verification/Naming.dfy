/**
  Which constants the instructions that make functions and classes, and the ones that store their names,
  refer to: read from the emitted bytes, as the machine reads them, and looked up in the resulting pool.
*/
module Naming {
  import opened Values
  import opened Bytecode
  import opened Making
  import opened Source
  import opened CodeGen
  import opened Patching

  // ---------------------------------------------------------------------
  // Operands
  // ---------------------------------------------------------------------

  /** An operand holds a constant's number if and only if the number is below 2^24. */
  lemma OperandExactly(code: seq<byte>, p: nat, k: nat)
    requires p + 3 <= |code| && code[p..p + 3] == EncodeAX(k)
    ensures ReadAX(code, p) < TWO_24 && (ReadAX(code, p) == k <==> k < TWO_24)
  {
    hide EncodeAX, ReadAX;
    if k < TWO_24 {
      EncodeReadAX(k, code, p);
    }
    ReadBelow(code, p);
  }

  lemma ReadBelow(code: seq<byte>, p: nat)
    requires p + 3 <= |code|
    ensures ReadAX(code, p) < TWO_24
  {
  }

  lemma PlacedSlice(code: seq<byte>, at: nat, bytes: seq<byte>, i: nat, j: nat)
    requires CodeAt(code, at, bytes) && i <= j <= |bytes|
    ensures at + j <= |code| && code[at + i..at + j] == bytes[i..j]
  {
    forall k | 0 <= k < j - i
      ensures code[at + i..at + j][k] == bytes[i..j][k]
    {
      assert code[at + (i + k)] == bytes[i + k];
    }
  }

  // ---------------------------------------------------------------------
  // Functions
  // ---------------------------------------------------------------------

  /**
    Behind the code of the defaults the machine finds OP_MAKE_FUNC. Its function's prototype is the last
    constant, and that is the one it names if and only if there are at most 2^24 constants; it takes the
    captures if and only if there are at most 255.
  */
  lemma FuncNamesItsPrototype(e: Expr, names: seq<Local>, pool: seq<Value>, code: seq<byte>, at: nat)
    requires e.Func? && Small(e.captures) && CodeAt(code, at, CompExpr(e, names, pool).bytes)
    ensures var r := CompExpr(e, names, pool);
      var pc := at + |CompExprs(e.defaults, names, pool).bytes|;
      && |r.pool| > 0 && r.pool[|r.pool| - 1] == e.proto
      && Fetch(code, pc).Fetched? && Fetch(code, pc).instr.op == OP_MAKE_FUNC
      && (Fetch(code, pc).instr.arg == |r.pool| - 1 <==> |r.pool| <= TWO_24)
      && pc + 5 <= |code| && pc + 5 + 2 * (code[pc + 4] as int) <= |code|
      && (Taken(code, pc) == e.captures <==> |e.captures| <= MAX_COUNT)
  {
    hide MakeFunc, Taken, Fetch, CodeAt, EncodeAX, ReadAX;
    var rs := CompExprs(e.defaults, names, pool);
    var make := MakeFunc(|rs.pool|, e.captures);
    CodeAtSplit(code, at, rs.bytes, make);
    var pc := at + |rs.bytes|;
    TakesAllExactly(code, pc, |rs.pool|, e.captures);
    FuncOperand(code, pc, |rs.pool|, e.captures);
  }

  lemma FuncOperand(code: seq<byte>, pc: nat, k: nat, ds: seq<Desc>)
    requires CodeAt(code, pc, MakeFunc(k, ds))
    ensures Fetch(code, pc).Fetched? && Fetch(code, pc).instr.op == OP_MAKE_FUNC
    ensures Fetch(code, pc).instr.arg == k <==> k < TWO_24
    ensures 0 <= Fetch(code, pc).instr.arg < TWO_24
    ensures pc + 5 <= |code| && code[pc] == OP_MAKE_FUNC && (ReadAX(code, pc + 1) == k <==> k < TWO_24)
  {
    hide MakeFunc, Pairs, EncodeAX, ReadAX;
    HeadBytes(code, pc, k, ds);
    OpcodeFormat();
    FuncPieces(k, ds);
    PlacedSlice(code, pc, MakeFunc(k, ds), 1, 4);
    assert MakeFunc(k, ds)[1..4] == EncodeAX(k);
    OperandExactly(code, pc + 1, k);
  }

  lemma OpcodeFormat()
    ensures FormatOf(OP_MAKE_FUNC) == FmtMakeFunc && FormatOf(OP_MAKE_CLASS) == FmtMakeClass && FormatOf(OP_SET_GLOBAL) == FmtAX
  {
  }

  // ---------------------------------------------------------------------
  // Classes
  // ---------------------------------------------------------------------

  lemma ClassName(code: seq<byte>, pc: nat, nameIdx: nat, bases: nat, ms: seq<Member>)
    requires CodeAt(code, pc, MakeClass(nameIdx, bases, ms))
    ensures pc + 5 <= |code| && code[pc] == OP_MAKE_CLASS && code[pc + 4] as int == bases % 0x100
    ensures ReadU16(code, pc + 1) < 0x1_0000 && (ReadU16(code, pc + 1) == nameIdx <==> nameIdx < 0x1_0000)
  {
    hide Members, U16;
    ClassPieces(nameIdx, bases, ms);
    PlacedSlice(code, pc, MakeClass(nameIdx, bases, ms), 0, 5);
    var head := ClassStart(nameIdx, bases, |ms|);
    assert MakeClass(nameIdx, bases, ms)[0..5] == head;
    assert code[pc..pc + 5] == head;
    assert code[pc] == head[0] && code[pc + 1] == head[1] == U16(nameIdx)[0] && code[pc + 2] == head[2] == U16(nameIdx)[1]
      && code[pc + 4] == head[4];
    ReadsBack(nameIdx);
  }

  lemma {:induction false} MethodConstants(ms: seq<Method>, n: nat, pool: seq<Value>, k: nat)
    requires k < n <= |ms|
    ensures var p := MethodPool(ms, n, pool);
      p[|pool| + 2 * k] == ms[k].proto && p[|pool| + 2 * k + 1] == Str(ms[k].name)
  {
    if k < n - 1 {
      MethodConstants(ms, n - 1, pool, k);
    }
  }

  /** The entry numbers the constants of its method. */
  predicate NamesOne(e: Member, pool: seq<Value>, m: Method)
  {
    e.func < |pool| && pool[e.func] == m.proto && e.name < |pool| && pool[e.name] == Str(m.name)
  }

  predicate Names(entries: seq<Member>, pool: seq<Value>, ms: seq<Method>)
  {
    |entries| == |ms| && forall k :: 0 <= k < |ms| ==> NamesOne(entries[k], pool, ms[k])
  }

  lemma NumberAt(n: nat, first: nat, k: nat)
    requires k < n
    ensures Numbered(n, first)[k] == Member(first + 2 * k + 1, first + 2 * k)
  {
  }

  lemma {:induction false} NumberedNames(ms: seq<Method>, before: seq<Value>, last: Value)
    ensures Names(Numbered(|ms|, |before|), MethodPool(ms, |ms|, before) + [last], ms)
  {
    hide Numbered, MethodPool, NamesOne;
    forall k | 0 <= k < |ms|
      ensures NamesOne(Numbered(|ms|, |before|)[k], MethodPool(ms, |ms|, before) + [last], ms[k])
    {
      NumberedNamesOne(ms, before, last, k);
    }
  }

  lemma NumberedNamesOne(ms: seq<Method>, before: seq<Value>, last: Value, k: nat)
    requires k < |ms|
    ensures NamesOne(Numbered(|ms|, |before|)[k], MethodPool(ms, |ms|, before) + [last], ms[k])
  {
    hide Numbered, MethodPool;
    MethodConstants(ms, |ms|, before, k);
    NumberAt(|ms|, |before|, k);
  }

  /**
    Behind the code of the base the machine finds OP_MAKE_CLASS with as many entries as there are methods.
    The class's name is the last constant and is the one named if and only if there are at most 2^16; each
    entry names its method's function and its method's name, if their numbers are below that.
  */
  lemma ClassNamesItsMethods(x: Ident, base: Option<Expr>, ms: seq<Method>, names: seq<Local>, pool: seq<Value>,
                             code: seq<byte>, at: nat)
    requires var r := ClassCode(x, base, ms, names, pool); r.ok && CodeAt(code, at, r.bytes)
    ensures var r := ClassCode(x, base, ms, names, pool);
      var pc := at + |Subject(base, names, pool).bytes|;
      && |r.pool| > 0 && r.pool[|r.pool| - 1] == Str(x)
      && pc + 5 <= |code| && code[pc] == OP_MAKE_CLASS && code[pc + 4] == (if base.Some? then 1 else 0)
      && (ReadU16(code, pc + 1) == |r.pool| - 1 <==> |r.pool| <= 0x1_0000)
      && pc + 5 + 4 * (code[pc + 3] as int) <= |code| && |TakenMembers(code, pc)| == |ms|
      && (|r.pool| <= 0x1_0000 ==> Names(TakenMembers(code, pc), r.pool, ms))
  {
    hide MakeClass, TakenMembers, Fetch, CodeAt, Subject, Numbered;
    var b := Subject(base, names, pool);
    var p := MethodPool(ms, |ms|, b.pool);
    var bases := if base.Some? then 1 else 0;
    var entries := Numbered(|ms|, |b.pool|);
    CodeAtSplit(code, at, b.bytes, MakeClass(|p|, bases, entries));
    var pc := at + |b.bytes|;
    MembersReadBack(code, pc, |p|, bases, entries);
    ClassName(code, pc, |p|, bases, entries);
    NumberedNames(ms, b.pool, Str(x));
  }

  // ---------------------------------------------------------------------
  // At the end of a chunk
  // ---------------------------------------------------------------------

  lemma TailPlaced(front: seq<Sym>, bytes: seq<byte>)
    ensures CodeAt(BytesOf(front + Lift(bytes)), |front|, bytes)
  {
  }

  /** The chunk ends with an OP_MAKE_FUNC at pc, for the prototype that is the last constant. */
  ghost predicate EndsMakingFunc(code: seq<byte>, pc: int, pool: seq<Value>, proto: Value, captures: seq<Desc>)
  {
    && 0 <= pc && pc + 5 + 2 * |captures| == |code| && code[pc] == OP_MAKE_FUNC
    && |pool| > 0 && pool[|pool| - 1] == proto && (ReadAX(code, pc + 1) == |pool| - 1 <==> |pool| <= TWO_24)
    && pc + 5 + 2 * (code[pc + 4] as int) <= |code| && (Small(captures) ==> (Taken(code, pc) == captures <==> |captures| <= MAX_COUNT))
  }

  lemma FuncAtEnd(front: seq<Sym>, k: nat, pool: seq<Value>, proto: Value, captures: seq<Desc>)
    requires k == |pool| - 1 && pool[k] == proto
    ensures EndsMakingFunc(BytesOf(front + Lift(MakeFunc(k, captures))), |front|, pool, proto, captures)
  {
    hide MakeFunc, Taken, Fetch, CodeAt, EncodeAX, ReadAX;
    var code := BytesOf(front + Lift(MakeFunc(k, captures)));
    TailPlaced(front, MakeFunc(k, captures));
    TakesFirst(code, |front|, k, captures);
    FuncOperand(code, |front|, k, captures);
    if Small(captures) {
      TakesAllExactly(code, |front|, k, captures);
    }
  }

  /** The chunk ends with an OP_MAKE_CLASS at pc, for the name that is the last constant and for these methods. */
  ghost predicate EndsMakingClass(code: seq<byte>, pc: int, pool: seq<Value>, x: Ident, bases: nat, ms: seq<Method>)
  {
    && 0 <= pc && pc + 5 + 4 * |ms| == |code| && code[pc] == OP_MAKE_CLASS && code[pc + 4] as int == bases
    && |pool| > 0 && pool[|pool| - 1] == Str(x) && (ReadU16(code, pc + 1) == |pool| - 1 <==> |pool| <= 0x1_0000)
    && pc + 5 + 4 * (code[pc + 3] as int) <= |code| && |TakenMembers(code, pc)| == |ms|
    && (|pool| <= 0x1_0000 ==> Names(TakenMembers(code, pc), pool, ms))
  }

  lemma ClassAtEnd(front: seq<Sym>, pool: seq<Value>, x: Ident, bases: nat, ms: seq<Method>, entries: seq<Member>)
    requires |pool| > 0 && pool[|pool| - 1] == Str(x) && Names(entries, pool, ms) && |ms| <= MAX_COUNT && bases < 0x100
    ensures EndsMakingClass(BytesOf(front + Lift(MakeClass(|pool| - 1, bases, entries))), |front|, pool, x, bases, ms)
  {
    hide MakeClass, TakenMembers, Fetch, CodeAt, BytesOf;
    var code := BytesOf(front + Lift(MakeClass(|pool| - 1, bases, entries)));
    TailPlaced(front, MakeClass(|pool| - 1, bases, entries));
    MembersReadBack(code, |front|, |pool| - 1, bases, entries);
    ClassName(code, |front|, |pool| - 1, bases, entries);
  }

  /** The chunk ends with OP_SET_GLOBAL, for the name that is the last constant, and OP_POP. */
  ghost predicate EndsStoring(code: seq<byte>, pool: seq<Value>, x: Ident)
  {
    && |code| >= 5 && code[|code| - 5] == OP_SET_GLOBAL && code[|code| - 1] == OP_POP
    && |pool| > 0 && pool[|pool| - 1] == Str(x) && (ReadAX(code, |code| - 4) == |pool| - 1 <==> |pool| <= TWO_24)
  }

  lemma StoreAtEnd(front: seq<Sym>, pool: seq<Value>, x: Ident)
    requires |pool| > 0 && pool[|pool| - 1] == Str(x)
    ensures EndsStoring(BytesOf(front + Lift(OpAX(OP_SET_GLOBAL, |pool| - 1) + [OP_POP])), pool, x)
  {
    hide EncodeAX, ReadAX, CodeAt;
    var tail := OpAX(OP_SET_GLOBAL, |pool| - 1) + [OP_POP];
    var code := BytesOf(front + Lift(tail));
    TailPlaced(front, tail);
    var pc := |front|;
    PlacedSlice(code, pc, tail, 0, 1);
    PlacedSlice(code, pc, tail, 1, 4);
    PlacedSlice(code, pc, tail, 4, 5);
    assert code[pc] == code[pc..pc + 1][0] == tail[0..1][0] && code[pc + 4] == code[pc + 4..pc + 5][0] == tail[4..5][0];
    assert tail[1..4] == EncodeAX(|pool| - 1);
    OperandExactly(code, pc + 1, |pool| - 1);
  }

  // ---------------------------------------------------------------------
  // The name of a declaration
  // ---------------------------------------------------------------------

  /**
    At top level a declaration ends with OP_SET_GLOBAL and OP_POP. The declared name is the last constant,
    and it is the one named if and only if there are at most 2^24.
  */
  lemma DeclNamesItsVariable(r: ExprCode, x: Ident, cx: Context, code: seq<byte>, at: nat)
    requires cx.top && CodeAt(code, at, BytesOf(DeclCode(r, x, cx).syms))
    ensures var d := DeclCode(r, x, cx);
      var pc := at + |r.bytes|;
      && |d.syms| == |r.bytes| + 5 && |d.pool| > 0 && d.pool[|d.pool| - 1] == Str(x)
      && Fetch(code, pc).Fetched? && Fetch(code, pc).instr.op == OP_SET_GLOBAL && Fetch(code, pc).instr.len == 4
      && (Fetch(code, pc).instr.arg == |d.pool| - 1 <==> |d.pool| <= TWO_24)
      && pc + 5 <= |code| && code[pc + 4] == OP_POP
  {
    hide EncodeAX, ReadAX, CodeAt;
    var tail := OpAX(OP_SET_GLOBAL, |r.pool|) + [OP_POP];
    assert BytesOf(Lift(r.bytes + tail)) == r.bytes + tail;
    CodeAtSplit(code, at, r.bytes, tail);
    var pc := at + |r.bytes|;
    OpcodeFormat();
    PlacedSlice(code, pc, tail, 0, 1);
    PlacedSlice(code, pc, tail, 1, 4);
    PlacedSlice(code, pc, tail, 4, 5);
    assert code[pc] == code[pc..pc + 1][0] == tail[0..1][0] && code[pc + 4] == code[pc + 4..pc + 5][0] == tail[4..5][0];
    assert tail[1..4] == EncodeAX(|r.pool|);
    OperandExactly(code, pc + 1, |r.pool|);
  }

  /** Inside a function a declaration ends with OP_SET_LOCAL, for the slot its name now has, and OP_POP. */
  lemma DeclSetsItsLocal(r: ExprCode, x: Ident, cx: Context)
    requires !cx.top && DeclCode(r, x, cx).ok
    ensures var d := DeclCode(r, x, cx);
      var b := BytesOf(d.syms);
      && |d.names| == |cx.names| + 1 <= 256 && d.names[|cx.names|].name == Named(x)
      && |b| == |r.bytes| + 3 && b[|r.bytes|] == OP_SET_LOCAL && b[|r.bytes| + 1] as int == |cx.names|
      && b[|r.bytes| + 2] == OP_POP
  {
    var tail := OpA(OP_SET_LOCAL, |cx.names|) + [OP_POP];
    assert BytesOf(Lift(r.bytes + tail)) == r.bytes + tail;
  }
}
