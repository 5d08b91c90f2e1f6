/**
  The operands as the eval loop reads them, one macro at a time, against the table the disassembler
  decodes with: for every opcode the loop implements, both take the same bytes for the same operand.
*/
module Operands {
  import opened Bytecode
  import opened Making

  // Which macros the loop's cases use. The opcodes in none of these lists are not implemented.

  predicate TakesByte(op: byte)
  {
    op == OP_GET_LOCAL || op == OP_SET_LOCAL || op == OP_GET_UPVALUE || op == OP_SET_UPVALUE
    || op == OP_BUILD_LIST || op == OP_BUILD_MAP || op == OP_BUILD_TUPLE || op == OP_BUILD_SET || op == OP_BUILD_SLICE
    || op == OP_CALL || op == OP_CALL_KW
  }

  predicate TakesAX(op: byte)
  {
    op == OP_CONST || op == OP_GET_GLOBAL || op == OP_SET_GLOBAL || op == OP_GET_ATTR || op == OP_SET_ATTR || op == OP_DEL_ATTR
  }

  predicate TakesOffset(op: byte)
  {
    op == OP_JUMP_IF_FALSE || op == OP_JUMP_IF_TRUE || op == OP_AND_JMP || op == OP_OR_JMP || op == OP_JUMP || op == OP_FOR_ITER
  }

  predicate TakesNothing(op: byte)
  {
    op == OP_CONST_NIL || op == OP_CONST_TRUE || op == OP_CONST_FALSE || op == OP_POP || op == OP_DUP || op == OP_ROT2
    || op == OP_LOAD_SUPER || op == OP_CLOSE_UPVALUE || (OP_ADD <= op <= OP_IS_NOT) || op == OP_NOT_IN
    || op == OP_GET_ITEM || op == OP_SET_ITEM || op == OP_DEL_ITEM || op == OP_GET_ITER
    || op == OP_RETURN || op == OP_RETURN_NIL || op == OP_CALL_EX
  }

  predicate Implemented(op: byte)
  {
    TakesByte(op) || TakesAX(op) || TakesOffset(op) || TakesNothing(op) || op == OP_MAKE_FUNC || op == OP_MAKE_CLASS
  }

  lemma Formats(op: byte)
    ensures TakesByte(op) ==> FormatOf(op) == FmtA
    ensures TakesAX(op) ==> FormatOf(op) == FmtAX
    ensures TakesOffset(op) ==> FormatOf(op) == FmtJump
    ensures TakesNothing(op) ==> FormatOf(op) == FmtNone
    ensures op == OP_MAKE_FUNC ==> FormatOf(op) == FmtMakeFunc
    ensures op == OP_MAKE_CLASS ==> FormatOf(op) == FmtMakeClass
  {
  }

  /** The instruction pointer of a frame. */
  class Frame {
    const code: seq<byte>
    var ip: nat

    constructor (code: seq<byte>, ip: nat)
      ensures this.code == code && this.ip == ip
    {
      this.code, this.ip := code, ip;
    }

    method ReadByte() returns (b: byte)
      requires ip + 1 <= |code|
      modifies this`ip
      ensures ip == old(ip) + 1 && b == code[old(ip)]
    {
      ip := ip + 1;
      b := code[ip - 1];
    }

    /** Three bytes, the highest first. */
    method ReadAX3() returns (ax: nat)
      requires ip + 3 <= |code|
      modifies this`ip
      ensures ip == old(ip) + 3 && ax == ReadAX(code, old(ip)) < TWO_24
    {
      ip := ip + 3;
      ax := (code[ip - 3] as int) * 0x1_0000 + (code[ip - 2] as int) * 0x100 + code[ip - 1] as int;
    }

    method ReadU16() returns (u: nat)
      requires ip + 2 <= |code|
      modifies this`ip
      ensures ip == old(ip) + 2 && u == Making.ReadU16(code, old(ip))
    {
      ip := ip + 2;
      u := (code[ip - 2] as int) * 0x100 + code[ip - 1] as int;
    }

    /** The operand is moved to the top of a 32-bit word and back, as a signed number. */
    method ReadJumpOffset() returns (offset: int)
      requires ip + 3 <= |code|
      modifies this`ip
      ensures ip == old(ip) + 3 && offset == SignExtendVM(ReadAX(code, old(ip)))
    {
      var u := ReadAX3();
      offset := SignExtendVM(u);
    }

    /** Behind the opcode: a function's index, the number of captures, and two bytes for each capture. */
    method ReadMakeFunc() returns (funcIdx: nat, captures: seq<Desc>)
      requires 0 < ip && ip + 4 <= |code| && ip + 4 + 2 * (code[ip + 3] as int) <= |code|
      modifies this`ip
      ensures ip == old(ip) + 4 + 2 * (code[old(ip) + 3] as int) && funcIdx == ReadAX(code, old(ip))
      ensures captures == Taken(code, old(ip) - 1)
    {
      ghost var start := ip;
      funcIdx := ReadAX3();
      var upvalCount := ReadByte();
      captures := [];
      while |captures| < upvalCount
        invariant |captures| <= upvalCount && ip == start + 4 + 2 * |captures|
        invariant captures == Taken(code, start - 1)[..|captures|]
      {
        var isLocal := ReadByte();
        var idx := ReadByte();
        captures := captures + [Desc(isLocal != 0, idx)];
      }
    }

    /** Behind the opcode: a name, the numbers of methods and bases, and a name and a function for each method. */
    method ReadMakeClass() returns (nameIdx: nat, baseCount: nat, members: seq<Member>)
      requires 0 < ip && ip + 4 <= |code| && ip + 4 + 4 * (code[ip + 2] as int) <= |code|
      modifies this`ip
      ensures ip == old(ip) + 4 + 4 * (code[old(ip) + 2] as int)
      ensures nameIdx == Making.ReadU16(code, old(ip)) && baseCount == code[old(ip) + 3] as int
      ensures members == TakenMembers(code, old(ip) - 1)
    {
      ghost var start := ip;
      nameIdx := ReadU16();
      var methodCount := ReadByte();
      baseCount := ReadByte();
      members := [];
      while |members| < methodCount
        invariant |members| <= methodCount && ip == start + 4 + 4 * |members|
        invariant members == TakenMembers(code, start - 1)[..|members|]
      {
        var name := ReadU16();
        var func := ReadU16();
        members := members + [Member(name, func)];
      }
    }

    /**
      One instruction as the loop reads it. It is the one the disassembler's table decodes at this
      offset, and the pointer has moved by exactly its length.
    */
    method ReadInstr() returns (op: byte, arg: int)
      requires ip < |code| && Implemented(code[ip])
      requires Fetch(code, ip).Fetched? && ip + Fetch(code, ip).instr.len <= |code|
      modifies this`ip
      ensures ip > old(ip) && Fetch(code, old(ip)) == Fetched(Instr(op, arg, ip - old(ip)))
    {
      hide TakesByte, TakesAX, TakesOffset, TakesNothing, FormatOf, SignExtendVM, ReadAX;
      op := ReadByte();
      Formats(op);
      arg := 0;
      if TakesByte(op) {
        arg := ReadByte();
      } else if TakesAX(op) {
        arg := ReadAX3();
      } else if TakesOffset(op) {
        arg := ReadJumpOffset();
      } else if op == OP_MAKE_FUNC {
        var captures;
        arg, captures := ReadMakeFunc();
      } else if op == OP_MAKE_CLASS {
        var name, bases, members := ReadMakeClass();
        arg := |members|;
      }
    }
  }
}
