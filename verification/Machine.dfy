/**
  Run-time values, the behaviour of native type slots, and the stack machine of the eval loop.

  The machine is modelled for one frame: `stack` is the part of the value stack at and above
  `frame->slots`, so local slot i is `stack[i]`. What a native slot function or a native (C) function
  does is a parameter (`Slots`); it may read and change the world of heap objects in any way.
*/
module Machine {
  import opened Values
  import opened Bytecode

  /** Everything a native function can see or change besides its arguments: the object heap and the output. */
  datatype World = World(heap: map<nat, seq<Value>>, output: seq<Text>)

  datatype Native = Ok(v: Value, w: World) | Throw(w: World)

  /** The native behaviours the machine relies on, as the type descriptors' function pointers provide them. */
  datatype Slots = Slots(
    truthy: (Value, World) -> bool,
    native: (byte, Text, seq<Value>, World) -> Native)

  /** A loaded chunk together with the native behaviours it runs against. */
  datatype Image = Image(code: seq<byte>, pool: seq<Value>, slots: Slots)

  type Globals = map<Text, Value>

  datatype Config =
    | Run(pc: nat, stack: seq<Value>, g: Globals, w: World)
    | Done(result: Value, g: Globals, w: World)
    | Failed(g: Globals, w: World)

  /** How many stack values an operator without operand bytes consumes; it pushes one result. */
  function Arity(op: byte): nat
  {
    if op == OP_NEG || op == OP_BNOT || op == OP_GET_ITER then 1
    else if op == OP_NOT then 0
    else if (OP_ADD <= op && op <= OP_IS_NOT) || op == OP_NOT_IN || op == OP_GET_ITEM then 2
    else if op == OP_SET_ITEM then 3
    else 0
  }

  /** Replaces the top n values by the result of a native behaviour. */
  function ApplyNative(m: Image, op: byte, name: Text, n: nat, next: nat, c: Config): Config
    requires c.Run? && n <= |c.stack|
  {
    var base := |c.stack| - n;
    match m.slots.native(op, name, c.stack[base..], c.w)
    case Throw(w) => Failed(c.g, w)
    case Ok(v, w) => Run(next, c.stack[..base] + [v], c.g, w)
  }

  function Jumped(next: nat, offset: int, c: Config): Config
    requires c.Run?
  {
    if next + offset >= 0 then c.(pc := next + offset) else Failed(c.g, c.w)
  }

  /** One round of the eval loop. Stack underflow and malformed bytecode end in Failed. */
  function Step(m: Image, c: Config): Config
    requires c.Run?
  {
    match Fetch(m.code, c.pc)
    case BadFetch => Failed(c.g, c.w)
    case Fetched(Instr(op, arg, len)) => Execute(m, op, arg, c.pc + len, c)
  }

  function Execute(m: Image, op: byte, arg: int, next: nat, c: Config): Config
    requires c.Run?
  {
    var n := |c.stack|;
    if op == OP_CONST then
      if 0 <= arg < |m.pool| then c.(pc := next, stack := c.stack + [m.pool[arg]]) else Failed(c.g, c.w)
    else if op == OP_CONST_NIL then c.(pc := next, stack := c.stack + [Nil])
    else if op == OP_CONST_TRUE then c.(pc := next, stack := c.stack + [Bool(true)])
    else if op == OP_CONST_FALSE then c.(pc := next, stack := c.stack + [Bool(false)])
    else if op == OP_GET_LOCAL then
      if 0 <= arg < n then c.(pc := next, stack := c.stack + [c.stack[arg]]) else Failed(c.g, c.w)
    else if op == OP_GET_GLOBAL then
      if 0 <= arg < |m.pool| && m.pool[arg].Str? && m.pool[arg].s in c.g
      then c.(pc := next, stack := c.stack + [c.g[m.pool[arg].s]])
      else Failed(c.g, c.w)
    else if op == OP_JUMP then Jumped(next, arg, c)
    else if op == OP_RETURN_NIL then Done(Nil, c.g, c.w)
    else if op == OP_BUILD_LIST || op == OP_BUILD_TUPLE || op == OP_BUILD_SET then
      if 0 <= arg <= n then ApplyNative(m, op, NoName, arg, next, c) else Failed(c.g, c.w)
    else if n == 0 then Failed(c.g, c.w)
    else ExecuteOnTop(m, op, arg, next, c)
  }

  /** The instructions that look at the top of a non-empty stack. */
  function ExecuteOnTop(m: Image, op: byte, arg: int, next: nat, c: Config): Config
    requires c.Run? && |c.stack| > 0
  {
    var n := |c.stack|;
    var top := c.stack[n - 1];
    var popped := c.(pc := next, stack := c.stack[..n - 1]);
    if op == OP_POP then popped
    else if op == OP_DUP then c.(pc := next, stack := c.stack + [top])
    else if op == OP_NOT then popped.(stack := popped.stack + [Bool(!m.slots.truthy(top, c.w))])
    else if op == OP_SET_LOCAL then
      if 0 <= arg < n then c.(pc := next, stack := c.stack[arg := top]) else Failed(c.g, c.w)
    else if op == OP_SET_GLOBAL then
      if 0 <= arg < |m.pool| && m.pool[arg].Str?
      then c.(pc := next, g := c.g[m.pool[arg].s := top])
      else Failed(c.g, c.w)
    else if op == OP_JUMP_IF_FALSE then
      if m.slots.truthy(top, c.w) then popped else Jumped(next, arg, popped)
    else if op == OP_JUMP_IF_TRUE then
      if m.slots.truthy(top, c.w) then Jumped(next, arg, popped) else popped
    else if op == OP_AND_JMP then
      if m.slots.truthy(top, c.w) then c.(pc := next) else Jumped(next, arg, c)
    else if op == OP_OR_JMP then
      if m.slots.truthy(top, c.w) then Jumped(next, arg, c) else c.(pc := next)
    else if op == OP_RETURN then Done(top, c.g, c.w)
    else if op == OP_CALL then
      if 0 <= arg && arg + 1 <= n then ApplyNative(m, op, NoName, arg + 1, next, c) else Failed(c.g, c.w)
    else if op == OP_GET_ATTR || op == OP_SET_ATTR then
      var k := if op == OP_GET_ATTR then 1 else 2;
      if 0 <= arg < |m.pool| && m.pool[arg].Str? && k <= n
      then ApplyNative(m, op, m.pool[arg].s, k, next, c)
      else Failed(c.g, c.w)
    else if op == OP_FOR_ITER then
      // the iterator stays on the stack; nil from it means it is exhausted
      match m.slots.native(op, NoName, [top], c.w) {
        case Throw(w) => Failed(c.g, w)
        case Ok(v, w) =>
          if v == Nil then Jumped(next, arg, Run(next, c.stack[..n - 1], c.g, w))
          else Run(next, c.stack + [v], c.g, w)
      }
    else if op == OP_DEL_ITEM then
      if n < 2 then Failed(c.g, c.w) else
      match m.slots.native(op, NoName, c.stack[n - 2..], c.w) {
        case Throw(w) => Failed(c.g, w)
        case Ok(_, w) => Run(next, c.stack[..n - 2], c.g, w)
      }
    else if 0 < Arity(op) <= n then ApplyNative(m, op, NoName, Arity(op), next, c)
    else Failed(c.g, c.w)
  }

  /** The configuration after n rounds; a finished configuration stays as it is. */
  function RunN(m: Image, n: nat, c: Config): Config
  {
    if n == 0 || !c.Run? then c else RunN(m, n - 1, Step(m, c))
  }

  lemma {:induction false} RunNAdd(m: Image, a: nat, b: nat, c: Config)
    ensures RunN(m, a + b, c) == RunN(m, b, RunN(m, a, c))
  {
    hide Step;
    if a > 0 && c.Run? {
      RunNAdd(m, a - 1, b, Step(m, c));
    }
  }

  /** Execution is deterministic: two halting runs from one configuration end alike. */
  lemma HaltsOnce(m: Image, a: nat, b: nat, c: Config)
    requires !RunN(m, a, c).Run? && !RunN(m, b, c).Run?
    ensures RunN(m, a, c) == RunN(m, b, c)
  {
    if a <= b {
      RunNAdd(m, a, b - a, c);
    } else {
      RunNAdd(m, b, a - b, c);
    }
  }
}
