/**
  The bytecode format: opcode numbers, operand formats, and the three-byte operands.

  An instruction is one opcode byte followed by an operand whose width depends on the opcode.
  Jump operands are signed 24-bit distances, counted from the end of the instruction.
*/
module Bytecode {
  type byte = x: int | 0 <= x < 256

  const OP_POP: byte := 0
  const OP_DUP: byte := 1
  const OP_ROT2: byte := 2
  const OP_CONST: byte := 3
  const OP_CONST_INT: byte := 4
  const OP_CONST_TRUE: byte := 5
  const OP_CONST_FALSE: byte := 6
  const OP_CONST_NIL: byte := 7
  const OP_GET_LOCAL: byte := 8
  const OP_SET_LOCAL: byte := 9
  const OP_GET_GLOBAL: byte := 10
  const OP_SET_GLOBAL: byte := 11
  const OP_DEL_GLOBAL: byte := 12
  const OP_GET_UPVALUE: byte := 13
  const OP_SET_UPVALUE: byte := 14
  const OP_CLOSE_UPVALUE: byte := 15
  const OP_ADD: byte := 16
  const OP_SUB: byte := 17
  const OP_MUL: byte := 18
  const OP_DIV: byte := 19
  const OP_MOD: byte := 20
  const OP_POW: byte := 21
  const OP_NEG: byte := 22
  const OP_BAND: byte := 23
  const OP_BOR: byte := 24
  const OP_BXOR: byte := 25
  const OP_SHL: byte := 26
  const OP_SHR: byte := 27
  const OP_BNOT: byte := 28
  const OP_EQ: byte := 29
  const OP_NE: byte := 30
  const OP_LT: byte := 31
  const OP_LE: byte := 32
  const OP_GT: byte := 33
  const OP_GE: byte := 34
  const OP_IN: byte := 35
  const OP_IS: byte := 36
  const OP_NOT: byte := 37
  const OP_IS_NOT: byte := 38
  const OP_NOT_IN: byte := 39
  const OP_ISINSTANCE: byte := 40
  const OP_AND_JMP: byte := 41
  const OP_OR_JMP: byte := 42
  const OP_JUMP: byte := 43
  const OP_JUMP_IF_FALSE: byte := 44
  const OP_JUMP_IF_TRUE: byte := 45
  const OP_JUMP_IF_FALSE_PEEK: byte := 46
  const OP_CALL: byte := 47
  const OP_CALL_ASYNC: byte := 48
  const OP_CALL_EX: byte := 49
  const OP_CALL_KW: byte := 50
  const OP_RETURN: byte := 51
  const OP_RETURN_NIL: byte := 52
  const OP_GET_ATTR: byte := 53
  const OP_SET_ATTR: byte := 54
  const OP_DEL_ATTR: byte := 55
  const OP_GET_ITEM: byte := 56
  const OP_SET_ITEM: byte := 57
  const OP_DEL_ITEM: byte := 58
  const OP_BUILD_LIST: byte := 59
  const OP_BUILD_MAP: byte := 60
  const OP_BUILD_TUPLE: byte := 61
  const OP_BUILD_SET: byte := 62
  const OP_BUILD_SLICE: byte := 63
  const OP_BUILD_STR: byte := 64
  const OP_MAKE_FUNC: byte := 65
  const OP_MAKE_CLASS: byte := 66
  const OP_LOAD_SUPER: byte := 67
  const OP_GET_ITER: byte := 68
  const OP_FOR_ITER: byte := 69
  const OP_PUSH_EXCEPT: byte := 70
  const OP_POP_EXCEPT: byte := 71
  const OP_RAISE: byte := 72
  const OP_RAISE_ASSERT: byte := 73
  const OP_RERAISE: byte := 74
  const OP_LOAD_EXCEPTION: byte := 75
  const OP_CLEAR_EXCEPTION: byte := 76
  const OP_WITH_ENTER: byte := 77
  const OP_WITH_EXIT: byte := 78
  const OP_GO: byte := 79
  const OP_MAKE_CHAN: byte := 80
  const OP_CHAN_SEND: byte := 81
  const OP_CHAN_RECV: byte := 82
  const OP_CHAN_CLOSE: byte := 83
  const OP_AWAIT: byte := 84
  const OP_SELECT_BEGIN: byte := 85
  const OP_SELECT_CASE_SEND: byte := 86
  const OP_SELECT_CASE_RECV: byte := 87
  const OP_SELECT_END: byte := 88
  const OP_IMPORT: byte := 89
  const OP_IMPORT_FROM: byte := 90
  const OP_TO_STR: byte := 91
  const OP_COUNT: byte := 92

  /** Operand formats of the disassembler's table. */
  datatype Format = FmtNone | FmtA | FmtAX | FmtJump | FmtMakeFunc | FmtMakeClass

  function FormatOf(op: byte): Format
  {
    if op == OP_GET_LOCAL || op == OP_SET_LOCAL || op == OP_GET_UPVALUE || op == OP_SET_UPVALUE
       || op == OP_CALL || op == OP_CALL_ASYNC || op == OP_CALL_KW
       || op == OP_BUILD_LIST || op == OP_BUILD_MAP || op == OP_BUILD_TUPLE || op == OP_BUILD_SET
       || op == OP_BUILD_SLICE || op == OP_BUILD_STR || op == OP_RAISE || op == OP_RAISE_ASSERT
       || op == OP_WITH_EXIT || op == OP_GO || op == OP_MAKE_CHAN then FmtA
    else if op == OP_CONST || op == OP_CONST_INT || op == OP_GET_GLOBAL || op == OP_SET_GLOBAL || op == OP_DEL_GLOBAL
            || op == OP_GET_ATTR || op == OP_SET_ATTR || op == OP_DEL_ATTR || op == OP_SELECT_BEGIN
            || op == OP_IMPORT || op == OP_IMPORT_FROM then FmtAX
    else if op == OP_AND_JMP || op == OP_OR_JMP || op == OP_JUMP || op == OP_JUMP_IF_FALSE || op == OP_JUMP_IF_TRUE
            || op == OP_JUMP_IF_FALSE_PEEK || op == OP_FOR_ITER || op == OP_PUSH_EXCEPT then FmtJump
    else if op == OP_MAKE_FUNC then FmtMakeFunc
    else if op == OP_MAKE_CLASS then FmtMakeClass
    else FmtNone
  }

  // ---------------------------------------------------------------------
  // Three-byte operands
  // ---------------------------------------------------------------------

  const TWO_23 := 0x80_0000
  const TWO_24 := 0x100_0000

  /** The three big-endian bytes written for an operand; higher bits are dropped. */
  function EncodeAX(ax: int): (bytes: seq<byte>)
    ensures |bytes| == 3
  {
    [(ax / 0x1_0000) % 0x100, (ax / 0x100) % 0x100, ax % 0x100]
  }

  function ReadAX(code: seq<byte>, p: nat): nat
    requires p + 3 <= |code|
  {
    (code[p] as int) * 0x1_0000 + (code[p + 1] as int) * 0x100 + code[p + 2] as int
  }

  /** How the disassembler widens a 24-bit operand: copy bit 23 into the upper byte. */
  function SignExtendDisasm(u: nat): int
    requires u < TWO_24
  {
    if u >= TWO_23 then u + 0xFF00_0000 - 0x1_0000_0000 else u
  }

  /** How the VM widens it: shift left by eight as unsigned, reinterpret as signed, shift back. */
  function SignExtendVM(u: nat): int
    requires u < TWO_24
  {
    var shifted := (u * 0x100) % 0x1_0000_0000;
    var signed := if shifted >= 0x8000_0000 then shifted - 0x1_0000_0000 else shifted;
    signed / 0x100
  }

  /** The operand written by the patching code for a jump whose operand starts at patchOffset. */
  function JumpOperand(patchOffset: nat, target: int): (bytes: seq<byte>)
    ensures |bytes| == 3
  {
    EncodeAX((target - (patchOffset + 3)) % TWO_24)
  }

  /** A number below 2^24 is the sum of its three base-256 digits. */
  lemma ThreeDigits(ax: nat)
    requires ax < TWO_24
    ensures (ax / 0x1_0000) % 0x100 * 0x1_0000 + (ax / 0x100) % 0x100 * 0x100 + ax % 0x100 == ax
  {
    var q := ax / 0x100;
    var r := q / 0x100;
    assert ax == q * 0x100 + ax % 0x100 && q == r * 0x100 + q % 0x100;
    assert ax / 0x1_0000 == r && r < 0x100;
  }

  lemma EncodeReadAX(ax: nat, code: seq<byte>, p: nat)
    requires ax < TWO_24 && p + 3 <= |code| && code[p..p + 3] == EncodeAX(ax)
    ensures ReadAX(code, p) == ax
  {
    var bytes := code[p..p + 3];
    assert code[p] == bytes[0] && code[p + 1] == bytes[1] && code[p + 2] == bytes[2];
    ThreeDigits(ax);
  }

  lemma SignExtensionsAgree(u: nat)
    requires u < TWO_24
    ensures SignExtendVM(u) == SignExtendDisasm(u)
    ensures SignExtendVM(u) % TWO_24 == u
    ensures -TWO_23 <= SignExtendVM(u) < TWO_23
  {
  }

  /** A jump's operand byte by byte, highest first: far forward, nowhere, and back to the instruction itself. */
  lemma JumpBytes(p: nat)
    ensures JumpOperand(p, p + 3 + 0x01_0203) == [1, 2, 3]
    ensures JumpOperand(p, p + 3) == [0, 0, 0] && JumpOperand(p, p - 1) == [0xff, 0xff, 0xfc]
  {
  }

  /** A distance that fits survives the cut to 24 bits and the sign extension. */
  lemma WrapUnwrap(distance: int)
    requires -TWO_23 <= distance < TWO_23
    ensures SignExtendVM(distance % TWO_24) == distance
  {
    hide SignExtendVM;
    var u := distance % TWO_24;
    assert u == if distance >= 0 then distance else distance + TWO_24;
    SignExtensionsAgree(u);
  }

  /** A patched jump operand reads back, in the VM and in the disassembler, as the distance to its target. */
  lemma JumpOperandReadsBack(code: seq<byte>, p: nat, target: nat)
    requires p + 3 <= |code| && code[p..p + 3] == JumpOperand(p, target)
    requires p + 3 <= TWO_23 && target <= TWO_23 - 1
    ensures p + 3 + SignExtendVM(ReadAX(code, p)) == target
    ensures p + 3 + SignExtendDisasm(ReadAX(code, p)) == target
  {
    var rel := target - (p + 3);
    EncodeReadAX(rel % TWO_24, code, p);
    SignExtensionsAgree(rel % TWO_24);
    assert -TWO_23 <= rel < TWO_23;
  }

  // ---------------------------------------------------------------------
  // Placed bytes
  // ---------------------------------------------------------------------

  /** The bytes sit in the chunk at this offset. */
  predicate CodeAt(code: seq<byte>, at: nat, bytes: seq<byte>)
  {
    at + |bytes| <= |code| && forall i :: 0 <= i < |bytes| ==> code[at + i] == bytes[i]
  }

  lemma CodeAtSplit(code: seq<byte>, at: nat, a: seq<byte>, b: seq<byte>)
    requires CodeAt(code, at, a + b)
    ensures CodeAt(code, at, a) && CodeAt(code, at + |a|, b)
  {
    var ab := a + b;
    forall i | 0 <= i < |a|
      ensures code[at + i] == a[i]
    {
      assert ab[i] == a[i];
    }
    forall i | 0 <= i < |b|
      ensures code[at + |a| + i] == b[i]
    {
      assert ab[|a| + i] == b[i];
    }
  }

  // ---------------------------------------------------------------------
  // Decoding
  // ---------------------------------------------------------------------

  /** One decoded instruction and its length in bytes. */
  datatype Instr = Instr(op: byte, arg: int, len: nat)

  datatype Fetched = Fetched(instr: Instr) | BadFetch

  function Fetch(code: seq<byte>, pc: nat): Fetched
  {
    if pc >= |code| then BadFetch else
    var op := code[pc];
    match FormatOf(op)
    case FmtNone => Fetched(Instr(op, 0, 1))
    case FmtA => if pc + 2 <= |code| then Fetched(Instr(op, code[pc + 1], 2)) else BadFetch
    case FmtAX => if pc + 4 <= |code| then Fetched(Instr(op, ReadAX(code, pc + 1), 4)) else BadFetch
    case FmtJump => if pc + 4 <= |code| then Fetched(Instr(op, SignExtendVM(ReadAXBelow(code, pc + 1)), 4)) else BadFetch
    case FmtMakeFunc =>
      if pc + 5 <= |code| then Fetched(Instr(op, ReadAX(code, pc + 1), 5 + 2 * (code[pc + 4] as int))) else BadFetch
    case FmtMakeClass =>
      if pc + 5 <= |code| then Fetched(Instr(op, code[pc + 3], 5 + 4 * (code[pc + 3] as int))) else BadFetch
  }

  function ReadAXBelow(code: seq<byte>, p: nat): (u: nat)
    requires p + 3 <= |code|
    ensures u == ReadAX(code, p) < TWO_24
  {
    ReadAX(code, p)
  }
}
