/** Single machine rounds on emitted code: what each instruction does when it sits at pc. */
module Stepping {
  import opened Values
  import opened Bytecode
  import opened Machine
  import opened CodeGen

  // ---------------------------------------------------------------------
  // Fetching
  // ---------------------------------------------------------------------

  lemma FetchPlain(code: seq<byte>, pc: nat, op: byte)
    requires CodeAt(code, pc, [op]) && FormatOf(op) == FmtNone
    ensures Fetch(code, pc) == Fetched(Instr(op, 0, 1))
  {
    assert code[pc + 0] == [op][0];
  }

  lemma FetchA(code: seq<byte>, pc: nat, op: byte, a: int)
    requires CodeAt(code, pc, OpA(op, a)) && FormatOf(op) == FmtA
    requires 0 <= a < 0x100
    ensures Fetch(code, pc) == Fetched(Instr(op, a, 2))
  {
    assert code[pc + 0] == OpA(op, a)[0] && code[pc + 1] == OpA(op, a)[1];
  }

  /** The operand bytes read back as the number they encode. */
  lemma OperandAt(code: seq<byte>, pc: nat, op: byte, ax: nat)
    requires CodeAt(code, pc, OpAX(op, ax)) && ax < TWO_24
    ensures code[pc] == op && ReadAX(code, pc + 1) == ax
  {
    var bytes := OpAX(op, ax);
    assert code[pc + 0] == bytes[0];
    assert code[pc + 1] == bytes[1] && code[pc + 2] == bytes[2] && code[pc + 3] == bytes[3];
    assert code[pc + 1..pc + 4] == EncodeAX(ax);
    EncodeReadAX(ax, code, pc + 1);
  }

  lemma FetchAX(code: seq<byte>, pc: nat, op: byte, ax: nat)
    requires CodeAt(code, pc, OpAX(op, ax)) && FormatOf(op) == FmtAX
    requires ax < TWO_24
    ensures Fetch(code, pc) == Fetched(Instr(op, ax, 4))
  {
    OperandAt(code, pc, op, ax);
  }

  lemma FetchJump(code: seq<byte>, pc: nat, op: byte, distance: int)
    requires CodeAt(code, pc, Jump(op, distance)) && FormatOf(op) == FmtJump
    requires -TWO_23 <= distance < TWO_23
    ensures Fetch(code, pc) == Fetched(Instr(op, distance, 4))
  {
    hide SignExtendVM;
    OperandAt(code, pc, op, distance % TWO_24);
    WrapUnwrap(distance);
  }

  // ---------------------------------------------------------------------
  // One round
  // ---------------------------------------------------------------------

  lemma OneRound(m: Image, c: Config, op: byte, arg: int, len: nat)
    requires c.Run? && Fetch(m.code, c.pc) == Fetched(Instr(op, arg, len))
    ensures RunN(m, 1, c) == Execute(m, op, arg, c.pc + len, c)
  {
    hide Execute;
    assert RunN(m, 1, c) == RunN(m, 0, Step(m, c));
  }

  lemma RunConstOp(m: Image, c: Config, op: byte, v: Value)
    requires c.Run? && CodeAt(m.code, c.pc, [op])
    requires (op == OP_CONST_NIL && v == Nil) || (op == OP_CONST_TRUE && v == Bool(true)) || (op == OP_CONST_FALSE && v == Bool(false))
    ensures RunN(m, 1, c) == Run(c.pc + 1, c.stack + [v], c.g, c.w)
  {
    FetchPlain(m.code, c.pc, op);
    OneRound(m, c, op, 0, 1);
  }

  lemma {:induction false} RunConst(m: Image, c: Config, k: nat)
    requires c.Run? && k < |m.pool| <= TWO_24 && CodeAt(m.code, c.pc, OpAX(OP_CONST, k))
    ensures RunN(m, 1, c) == Run(c.pc + 4, c.stack + [m.pool[k]], c.g, c.w)
  {
    FetchAX(m.code, c.pc, OP_CONST, k);
    OneRound(m, c, OP_CONST, k, 4);
  }

  lemma {:induction false} RunGetLocal(m: Image, c: Config, i: nat)
    requires c.Run? && i < |c.stack| && i < MAX_LOCALS && CodeAt(m.code, c.pc, OpA(OP_GET_LOCAL, i))
    ensures RunN(m, 1, c) == Run(c.pc + 2, c.stack + [c.stack[i]], c.g, c.w)
  {
    FetchA(m.code, c.pc, OP_GET_LOCAL, i);
    OneRound(m, c, OP_GET_LOCAL, i, 2);
  }

  lemma RunSetLocal(m: Image, pc: nat, i: nat, rest: seq<Value>, v: Value, g: Globals, w: World)
    requires i < |rest| && i < MAX_LOCALS && CodeAt(m.code, pc, OpA(OP_SET_LOCAL, i))
    ensures RunN(m, 1, Run(pc, rest + [v], g, w)) == Run(pc + 2, rest[i := v] + [v], g, w)
  {
    FetchA(m.code, pc, OP_SET_LOCAL, i);
    OneRound(m, Run(pc, rest + [v], g, w), OP_SET_LOCAL, i, 2);
    assert (rest + [v])[i := v] == rest[i := v] + [v];
  }

  lemma RunGetGlobal(m: Image, c: Config, k: nat, x: Text)
    requires c.Run? && k < |m.pool| <= TWO_24 && m.pool[k] == Str(x) && CodeAt(m.code, c.pc, OpAX(OP_GET_GLOBAL, k))
    ensures RunN(m, 1, c) == if x in c.g then Run(c.pc + 4, c.stack + [c.g[x]], c.g, c.w) else Failed(c.g, c.w)
  {
    FetchAX(m.code, c.pc, OP_GET_GLOBAL, k);
    OneRound(m, c, OP_GET_GLOBAL, k, 4);
  }

  lemma RunSetGlobal(m: Image, pc: nat, k: nat, x: Text, rest: seq<Value>, v: Value, g: Globals, w: World)
    requires k < |m.pool| <= TWO_24 && m.pool[k] == Str(x) && CodeAt(m.code, pc, OpAX(OP_SET_GLOBAL, k))
    ensures RunN(m, 1, Run(pc, rest + [v], g, w)) == Run(pc + 4, rest + [v], g[x := v], w)
  {
    FetchAX(m.code, pc, OP_SET_GLOBAL, k);
    OneRound(m, Run(pc, rest + [v], g, w), OP_SET_GLOBAL, k, 4);
  }

  lemma RunPop(m: Image, pc: nat, rest: seq<Value>, v: Value, g: Globals, w: World)
    requires CodeAt(m.code, pc, [OP_POP])
    ensures RunN(m, 1, Run(pc, rest + [v], g, w)) == Run(pc + 1, rest, g, w)
  {
    FetchPlain(m.code, pc, OP_POP);
    OneRound(m, Run(pc, rest + [v], g, w), OP_POP, 0, 1);
    assert (rest + [v])[..|rest|] == rest;
  }

  lemma RunDup(m: Image, pc: nat, rest: seq<Value>, v: Value, g: Globals, w: World)
    requires CodeAt(m.code, pc, [OP_DUP])
    ensures RunN(m, 1, Run(pc, rest + [v], g, w)) == Run(pc + 1, rest + [v] + [v], g, w)
  {
    FetchPlain(m.code, pc, OP_DUP);
    OneRound(m, Run(pc, rest + [v], g, w), OP_DUP, 0, 1);
  }

  lemma RunNot(m: Image, pc: nat, rest: seq<Value>, v: Value, g: Globals, w: World)
    requires CodeAt(m.code, pc, [OP_NOT])
    ensures RunN(m, 1, Run(pc, rest + [v], g, w)) == Run(pc + 1, rest + [Bool(!m.slots.truthy(v, w))], g, w)
  {
    FetchPlain(m.code, pc, OP_NOT);
    OneRound(m, Run(pc, rest + [v], g, w), OP_NOT, 0, 1);
    assert (rest + [v])[..|rest|] == rest;
  }

  /** What an operator over the top values `args` leaves behind. */
  function Applied(m: Image, op: byte, name: Text, rest: seq<Value>, args: seq<Value>, next: nat, g: Globals,
                   w: World): Config
  {
    match m.slots.native(op, name, args, w)
    case Throw(w1) => Failed(g, w1)
    case Ok(v, w1) => Run(next, rest + [v], g, w1)
  }

  lemma RunOperator(m: Image, pc: nat, op: byte, rest: seq<Value>, args: seq<Value>, g: Globals, w: World)
    requires CodeAt(m.code, pc, [op]) && |args| == Arity(op) > 0
    ensures RunN(m, 1, Run(pc, rest + args, g, w)) == Applied(m, op, NoName, rest, args, pc + 1, g, w)
  {
    FetchPlain(m.code, pc, op);
    OneRound(m, Run(pc, rest + args, g, w), op, 0, 1);
    assert (rest + args)[|rest|..] == args && (rest + args)[..|rest|] == rest;
  }

  lemma RunBuild(m: Image, pc: nat, op: byte, rest: seq<Value>, args: seq<Value>, g: Globals, w: World)
    requires BuildOp(op) && |args| <= 255 && CodeAt(m.code, pc, OpA(op, |args|))
    ensures RunN(m, 1, Run(pc, rest + args, g, w)) == Applied(m, op, NoName, rest, args, pc + 2, g, w)
  {
    FetchA(m.code, pc, op, |args|);
    OneRound(m, Run(pc, rest + args, g, w), op, |args|, 2);
    assert (rest + args)[|rest|..] == args && (rest + args)[..|rest|] == rest;
  }

  lemma RunCall(m: Image, pc: nat, argc: nat, rest: seq<Value>, args: seq<Value>, g: Globals, w: World)
    requires argc <= 255 && |args| == argc + 1 && CodeAt(m.code, pc, OpA(OP_CALL, argc))
    ensures RunN(m, 1, Run(pc, rest + args, g, w)) == Applied(m, OP_CALL, NoName, rest, args, pc + 2, g, w)
  {
    FetchA(m.code, pc, OP_CALL, argc);
    OneRound(m, Run(pc, rest + args, g, w), OP_CALL, argc, 2);
    assert (rest + args)[|rest|..] == args && (rest + args)[..|rest|] == rest;
  }

  lemma RunAttr(m: Image, pc: nat, op: byte, k: nat, name: Text, rest: seq<Value>, args: seq<Value>, g: Globals,
                w: World)
    requires (op == OP_GET_ATTR && |args| == 1) || (op == OP_SET_ATTR && |args| == 2)
    requires k < |m.pool| <= TWO_24 && m.pool[k] == Str(name) && CodeAt(m.code, pc, OpAX(op, k))
    ensures RunN(m, 1, Run(pc, rest + args, g, w)) == Applied(m, op, name, rest, args, pc + 4, g, w)
  {
    FetchAX(m.code, pc, op, k);
    OneRound(m, Run(pc, rest + args, g, w), op, k, 4);
    assert (rest + args)[|rest|..] == args && (rest + args)[..|rest|] == rest;
  }

  lemma RunDelItem(m: Image, pc: nat, rest: seq<Value>, args: seq<Value>, g: Globals, w: World)
    requires |args| == 2 && CodeAt(m.code, pc, [OP_DEL_ITEM])
    ensures RunN(m, 1, Run(pc, rest + args, g, w))
         == match m.slots.native(OP_DEL_ITEM, NoName, args, w)
            case Throw(w1) => Failed(g, w1)
            case Ok(_, w1) => Run(pc + 1, rest, g, w1)
  {
    FetchPlain(m.code, pc, OP_DEL_ITEM);
    OneRound(m, Run(pc, rest + args, g, w), OP_DEL_ITEM, 0, 1);
    assert (rest + args)[|rest|..] == args && (rest + args)[..|rest|] == rest;
  }

  lemma RunReturn(m: Image, pc: nat, rest: seq<Value>, v: Value, g: Globals, w: World)
    requires CodeAt(m.code, pc, [OP_RETURN])
    ensures RunN(m, 1, Run(pc, rest + [v], g, w)) == Done(v, g, w)
  {
    FetchPlain(m.code, pc, OP_RETURN);
    OneRound(m, Run(pc, rest + [v], g, w), OP_RETURN, 0, 1);
  }

  lemma {:induction false} RunReturnNil(m: Image, c: Config)
    requires c.Run? && CodeAt(m.code, c.pc, [OP_RETURN_NIL])
    ensures RunN(m, 1, c) == Done(Nil, c.g, c.w)
  {
    FetchPlain(m.code, c.pc, OP_RETURN_NIL);
    OneRound(m, c, OP_RETURN_NIL, 0, 1);
  }

  // ---------------------------------------------------------------------
  // Jumps
  // ---------------------------------------------------------------------

  /** The jump's target is inside the address range and its distance fits the operand. */
  predicate Reachable(pc: nat, distance: int)
  {
    -TWO_23 <= distance < TWO_23 && pc + 4 + distance >= 0
  }

  lemma RunJump(m: Image, c: Config, distance: int)
    requires c.Run? && Reachable(c.pc, distance) && CodeAt(m.code, c.pc, Jump(OP_JUMP, distance))
    ensures RunN(m, 1, c) == Run(c.pc + 4 + distance, c.stack, c.g, c.w)
  {
    FetchJump(m.code, c.pc, OP_JUMP, distance);
    OneRound(m, c, OP_JUMP, distance, 4);
  }

  /** JUMP_IF_FALSE and JUMP_IF_TRUE pop the tested value on both paths. */
  lemma RunPopJump(m: Image, pc: nat, op: byte, distance: int, rest: seq<Value>, v: Value, g: Globals, w: World)
    requires op == OP_JUMP_IF_FALSE || op == OP_JUMP_IF_TRUE
    requires Reachable(pc, distance) && CodeAt(m.code, pc, Jump(op, distance))
    ensures RunN(m, 1, Run(pc, rest + [v], g, w))
         == Run(if m.slots.truthy(v, w) == (op == OP_JUMP_IF_TRUE) then pc + 4 + distance else pc + 4, rest, g, w)
  {
    FetchJump(m.code, pc, op, distance);
    OneRound(m, Run(pc, rest + [v], g, w), op, distance, 4);
    assert (rest + [v])[..|rest|] == rest;
  }

  /** AND_JMP and OR_JMP pop on neither path. */
  lemma RunPeekJump(m: Image, pc: nat, op: byte, distance: int, rest: seq<Value>, v: Value, g: Globals, w: World)
    requires op == OP_AND_JMP || op == OP_OR_JMP
    requires Reachable(pc, distance) && CodeAt(m.code, pc, Jump(op, distance))
    ensures RunN(m, 1, Run(pc, rest + [v], g, w))
         == Run(if m.slots.truthy(v, w) == (op == OP_OR_JMP) then pc + 4 + distance else pc + 4, rest + [v], g, w)
  {
    FetchJump(m.code, pc, op, distance);
    OneRound(m, Run(pc, rest + [v], g, w), op, distance, 4);
  }

  /** FOR_ITER pops the iterator itself, and only when it is exhausted. */
  lemma RunForIter(m: Image, pc: nat, distance: int, rest: seq<Value>, it: Value, g: Globals, w: World)
    requires Reachable(pc, distance) && CodeAt(m.code, pc, Jump(OP_FOR_ITER, distance))
    ensures RunN(m, 1, Run(pc, rest + [it], g, w))
         == match m.slots.native(OP_FOR_ITER, NoName, [it], w)
            case Throw(w1) => Failed(g, w1)
            case Ok(v, w1) => if v == Nil then Run(pc + 4 + distance, rest, g, w1) else Run(pc + 4, rest + [it] + [v], g, w1)
  {
    FetchJump(m.code, pc, OP_FOR_ITER, distance);
    OneRound(m, Run(pc, rest + [it], g, w), OP_FOR_ITER, distance, 4);
    assert (rest + [it])[..|rest|] == rest;
  }
}
