/**
  The stack map: every instruction of an exact chunk has one stack depth, whichever way it is reached.
  The map is found from the source, fragment by fragment, and a chunk that has one keeps to it in every run.
*/
module StackMap {
  import opened Values
  import opened Bytecode
  import opened Machine
  import opened Source
  import opened CodeGen
  import opened Patching
  import opened Stepping
  import opened ExprCorrect
  import opened Placement
  import opened SimpleStmts
  import opened StmtCorrect
  import opened ProgramCorrect

  // ---------------------------------------------------------------------
  // The check
  // ---------------------------------------------------------------------

  /** May the next instruction be the one behind this? */
  predicate Falls(op: byte)
  {
    op != OP_JUMP && op != OP_RETURN && op != OP_RETURN_NIL
  }

  predicate MayJump(op: byte)
  {
    op == OP_JUMP || op == OP_JUMP_IF_FALSE || op == OP_JUMP_IF_TRUE || op == OP_AND_JMP || op == OP_OR_JMP || op == OP_FOR_ITER
  }

  /** How the depth changes when control goes on behind the instruction. */
  function Delta(op: byte, arg: int): int
  {
    if op == OP_CONST || op == OP_CONST_NIL || op == OP_CONST_TRUE || op == OP_CONST_FALSE || op == OP_GET_LOCAL
       || op == OP_GET_GLOBAL || op == OP_DUP || op == OP_FOR_ITER then 1
    else if op == OP_POP || op == OP_JUMP_IF_FALSE || op == OP_JUMP_IF_TRUE || op == OP_SET_ATTR then -1
    else if op == OP_NOT || op == OP_SET_LOCAL || op == OP_SET_GLOBAL || op == OP_AND_JMP || op == OP_OR_JMP || op == OP_GET_ATTR then 0
    else if op == OP_BUILD_LIST || op == OP_BUILD_TUPLE || op == OP_BUILD_SET then 1 - arg
    else if op == OP_CALL then -arg
    else if op == OP_DEL_ITEM then -2
    else 1 - Arity(op)
  }

  /** How it changes along the jump; an exhausted iterator is popped. */
  function JumpDelta(op: byte): int
  {
    if op == OP_JUMP_IF_FALSE || op == OP_JUMP_IF_TRUE || op == OP_FOR_ITER then -1 else 0
  }

  type Depths = map<int, int>

  /** E knows all that D knows. */
  predicate Within(D: Depths, E: Depths)
  {
    forall k :: k in D ==> k in E && E[k] == D[k]
  }

  /** At t the depth is v, inside the fragment or, at one of its exits, outside. */
  predicate Leads(D: Depths, X: Depths, t: int, v: int)
  {
    (t in D && D[t] == v) || (t in X && X[t] == v)
  }

  /** The instruction at `pc` leads to offsets with the right depth, and locals are below the operands. */
  predicate Good(code: seq<byte>, D: Depths, X: Depths, pc: int)
    requires pc in D
  {
    0 <= pc
    && match Fetch(code, pc)
       case BadFetch => false
       case Fetched(Instr(op, arg, len)) =>
         && (Falls(op) ==> Leads(D, X, pc + len, D[pc] + Delta(op, arg)))
         && (MayJump(op) ==> Leads(D, X, pc + len + arg, D[pc] + JumpDelta(op)))
         && (op == OP_GET_LOCAL ==> arg < D[pc]) && (op == OP_SET_LOCAL ==> arg < D[pc] - 1)
  }

  /** What a round does to the depth: on to the next instruction, or along the jump. */
  ghost predicate Moves(op: byte, arg: int, next: int, c: Config, d: Config)
    requires c.Run?
  {
    d.Run? ==>
      (Falls(op) && d.pc == next && |d.stack| == |c.stack| + Delta(op, arg))
      || (MayJump(op) && d.pc == next + arg && |d.stack| == |c.stack| + JumpDelta(op))
  }

  /** The instructions that do not look at the top of the stack first. */
  predicate Early(op: byte)
  {
    op == OP_CONST || op == OP_CONST_NIL || op == OP_CONST_TRUE || op == OP_CONST_FALSE || op == OP_GET_LOCAL
    || op == OP_GET_GLOBAL || op == OP_JUMP || op == OP_RETURN_NIL || Builds(op)
  }

  predicate Builds(op: byte)
  {
    op == OP_BUILD_LIST || op == OP_BUILD_TUPLE || op == OP_BUILD_SET
  }

  lemma EarlyMoves(m: Image, op: byte, arg: int, next: nat, c: Config)
    requires c.Run? && Early(op)
    ensures Moves(op, arg, next, c, Execute(m, op, arg, next, c))
  {
    hide Arity, ExecuteOnTop, Early, Builds;
    if Builds(op) {
      BuildMoves(m, op, arg, next, c);
    } else if op == OP_CONST {
    } else if op == OP_CONST_NIL {
    } else if op == OP_CONST_TRUE {
    } else if op == OP_CONST_FALSE {
    } else if op == OP_GET_LOCAL {
    } else if op == OP_GET_GLOBAL {
    } else if op == OP_JUMP {
    } else {
      EarlyRest(op);
    }
  }

  lemma EarlyRest(op: byte)
    requires Early(op) && !Builds(op) && op != OP_CONST && op != OP_CONST_NIL && op != OP_CONST_TRUE && op != OP_CONST_FALSE
    requires op != OP_GET_LOCAL && op != OP_GET_GLOBAL && op != OP_JUMP
    ensures op == OP_RETURN_NIL
  {
  }

  lemma BuildMoves(m: Image, op: byte, arg: int, next: nat, c: Config)
    requires c.Run? && Builds(op)
    ensures Moves(op, arg, next, c, Execute(m, op, arg, next, c))
  {
    hide Arity, ExecuteOnTop;
    if op == OP_BUILD_LIST {
    } else if op == OP_BUILD_TUPLE {
    } else {
    }
  }

  lemma LateMoves(m: Image, op: byte, arg: int, next: nat, c: Config)
    requires c.Run? && !Early(op)
    ensures Moves(op, arg, next, c, Execute(m, op, arg, next, c))
  {
    hide Arity, ExecuteOnTop, Moves;
    if c.stack == [] {
      assert !Execute(m, op, arg, next, c).Run?;
      NoMove(op, arg, next, c, Execute(m, op, arg, next, c));
    } else {
      assert Execute(m, op, arg, next, c) == ExecuteOnTop(m, op, arg, next, c);
      TopMoves(m, op, arg, next, c);
    }
  }

  lemma NoMove(op: byte, arg: int, next: int, c: Config, d: Config)
    requires c.Run? && !d.Run?
    ensures Moves(op, arg, next, c, d)
  {
  }

  lemma TopMoves(m: Image, op: byte, arg: int, next: nat, c: Config)
    requires c.Run? && |c.stack| > 0 && !Early(op)
    ensures Moves(op, arg, next, c, ExecuteOnTop(m, op, arg, next, c))
  {
    hide Arity, Early, Moves, ExecuteOnTop;
    if op == OP_POP || op == OP_DUP || op == OP_NOT || op == OP_SET_LOCAL || op == OP_SET_GLOBAL {
      StackMoves(m, op, arg, next, c);
    } else if op == OP_JUMP_IF_FALSE || op == OP_JUMP_IF_TRUE || op == OP_AND_JMP || op == OP_OR_JMP || op == OP_FOR_ITER {
      BranchMoves(m, op, arg, next, c);
    } else if op == OP_RETURN || op == OP_CALL || op == OP_GET_ATTR || op == OP_SET_ATTR || op == OP_DEL_ITEM {
      CallMoves(m, op, arg, next, c);
    } else {
      OperatorMoves(m, op, arg, next, c);
    }
  }

  lemma StackMoves(m: Image, op: byte, arg: int, next: nat, c: Config)
    requires c.Run? && |c.stack| > 0
    requires op == OP_POP || op == OP_DUP || op == OP_NOT || op == OP_SET_LOCAL || op == OP_SET_GLOBAL
    ensures Moves(op, arg, next, c, ExecuteOnTop(m, op, arg, next, c))
  {
    hide Arity;
    if op == OP_POP {
    } else if op == OP_DUP {
    } else if op == OP_NOT {
    } else if op == OP_SET_LOCAL {
    } else {
    }
  }

  lemma BranchMoves(m: Image, op: byte, arg: int, next: nat, c: Config)
    requires c.Run? && |c.stack| > 0
    requires op == OP_JUMP_IF_FALSE || op == OP_JUMP_IF_TRUE || op == OP_AND_JMP || op == OP_OR_JMP || op == OP_FOR_ITER
    ensures Moves(op, arg, next, c, ExecuteOnTop(m, op, arg, next, c))
  {
    hide Arity;
    if op == OP_JUMP_IF_FALSE {
    } else if op == OP_JUMP_IF_TRUE {
    } else if op == OP_AND_JMP {
    } else if op == OP_OR_JMP {
    } else {
    }
  }

  lemma CallMoves(m: Image, op: byte, arg: int, next: nat, c: Config)
    requires c.Run? && |c.stack| > 0
    requires op == OP_RETURN || op == OP_CALL || op == OP_GET_ATTR || op == OP_SET_ATTR || op == OP_DEL_ITEM
    ensures Moves(op, arg, next, c, ExecuteOnTop(m, op, arg, next, c))
  {
    hide Arity, ApplyNative, ExecuteOnTop, Moves;
    if op == OP_RETURN {
      ReturnMoves(m, arg, next, c);
    } else if op == OP_CALL {
      CalleeMoves(m, arg, next, c);
    } else if op == OP_DEL_ITEM {
      DeleteMoves(m, arg, next, c);
    } else {
      AttrMoves(m, op, arg, next, c);
    }
  }

  lemma ReturnMoves(m: Image, arg: int, next: nat, c: Config)
    requires c.Run? && |c.stack| > 0
    ensures Moves(OP_RETURN, arg, next, c, ExecuteOnTop(m, OP_RETURN, arg, next, c))
  {
    hide Arity, ApplyNative;
  }

  lemma NativeMoves(m: Image, op: byte, name: Text, n: nat, next: nat, c: Config)
    requires c.Run? && n <= |c.stack|
    ensures var d := ApplyNative(m, op, name, n, next, c);
      d.Run? ==> d.pc == next && |d.stack| == |c.stack| + 1 - n
  {
  }

  lemma CalleeMoves(m: Image, arg: int, next: nat, c: Config)
    requires c.Run? && |c.stack| > 0
    ensures Moves(OP_CALL, arg, next, c, ExecuteOnTop(m, OP_CALL, arg, next, c))
  {
    hide Arity, ApplyNative;
    if 0 <= arg && arg + 1 <= |c.stack| {
      NativeMoves(m, OP_CALL, NoName, arg + 1, next, c);
    }
  }

  lemma AttrMoves(m: Image, op: byte, arg: int, next: nat, c: Config)
    requires c.Run? && |c.stack| > 0 && (op == OP_GET_ATTR || op == OP_SET_ATTR)
    ensures Moves(op, arg, next, c, ExecuteOnTop(m, op, arg, next, c))
  {
    hide Arity, ApplyNative;
    var k := if op == OP_GET_ATTR then 1 else 2;
    if 0 <= arg < |m.pool| && m.pool[arg].Str? && k <= |c.stack| {
      NativeMoves(m, op, m.pool[arg].s, k, next, c);
    }
  }

  lemma DeleteMoves(m: Image, arg: int, next: nat, c: Config)
    requires c.Run? && |c.stack| > 0
    ensures Moves(OP_DEL_ITEM, arg, next, c, ExecuteOnTop(m, OP_DEL_ITEM, arg, next, c))
  {
    hide Arity, ApplyNative;
  }

  lemma OperatorMoves(m: Image, op: byte, arg: int, next: nat, c: Config)
    requires c.Run? && |c.stack| > 0 && !Early(op)
    requires op != OP_POP && op != OP_DUP && op != OP_NOT && op != OP_SET_LOCAL && op != OP_SET_GLOBAL
    requires op != OP_JUMP_IF_FALSE && op != OP_JUMP_IF_TRUE && op != OP_AND_JMP && op != OP_OR_JMP && op != OP_FOR_ITER
    requires op != OP_RETURN && op != OP_CALL && op != OP_GET_ATTR && op != OP_SET_ATTR && op != OP_DEL_ITEM
    ensures Moves(op, arg, next, c, ExecuteOnTop(m, op, arg, next, c))
  {
    hide Arity, ApplyNative;
    if 0 < Arity(op) <= |c.stack| {
      NativeMoves(m, op, NoName, Arity(op), next, c);
    }
    var d := ExecuteOnTop(m, op, arg, next, c);
    assert d == if 0 < Arity(op) <= |c.stack| then ApplyNative(m, op, NoName, Arity(op), next, c) else Failed(c.g, c.w);
  }

  /** One round from an instruction with the right depth comes to another one. */
  lemma StepKeeps(m: Image, c: Config, D: Depths)
    requires c.Run? && c.pc in D && Good(m.code, D, map[], c.pc) && |c.stack| == D[c.pc]
    ensures var d := Step(m, c); d.Run? ==> d.pc in D && |d.stack| == D[d.pc]
  {
    hide Execute, Delta, JumpDelta, Falls, MayJump, Early, Fetch;
    var i := Fetch(m.code, c.pc).instr;
    if Early(i.op) {
      EarlyMoves(m, i.op, i.arg, c.pc + i.len, c);
    } else {
      LateMoves(m, i.op, i.arg, c.pc + i.len, c);
    }
  }

  /** Every instruction the map knows is good. */
  ghost predicate Checked(code: seq<byte>, D: Depths)
  {
    forall pc :: pc in D ==> Good(code, D, map[], pc)
  }

  lemma {:induction false} RunKeeps(m: Image, n: nat, c: Config, D: Depths)
    requires Checked(m.code, D) && c.Run? && c.pc in D && |c.stack| == D[c.pc]
    ensures var d := RunN(m, n, c); d.Run? ==> d.pc in D && |d.stack| == D[d.pc]
    decreases n
  {
    hide Step, Good;
    if n > 0 {
      StepKeeps(m, c, D);
      if Step(m, c).Run? {
        RunKeeps(m, n - 1, Step(m, c), D);
      }
    }
  }

  // ---------------------------------------------------------------------
  // Fragments
  // ---------------------------------------------------------------------

  /** Between a and b, where depths are da and db, all is well; jumps may leave to the exits X. */
  ghost predicate Mapped(code: seq<byte>, D: Depths, X: Depths, a: nat, b: nat, da: int, db: int)
  {
    && a in D && D[a] == da && b in D && D[b] == db
    && (forall k :: k in D ==> a <= k <= b)
    && (forall k :: k in D && k < b ==> Good(code, D, X, k))
  }

  lemma GoodGrows(code: seq<byte>, D: Depths, E: Depths, X: Depths, pc: int)
    requires pc in D && Good(code, D, X, pc) && Within(D, E)
    ensures pc in E && Good(code, E, X, pc)
  {
    hide Delta, JumpDelta, Falls, MayJump, Fetch;
  }

  lemma Join(code: seq<byte>, D: Depths, E: Depths, X: Depths, a: nat, b: nat, c: nat, da: int, db: int, dc: int)
    requires Mapped(code, D, X, a, b, da, db) && Mapped(code, E, X, b, c, db, dc)
    ensures Mapped(code, D + E, X, a, c, da, dc)
    ensures Within(D, D + E) && Within(E, D + E)
  {
    hide Good;
    var F := D + E;
    forall k | k in F && k < c
      ensures Good(code, F, X, k)
    {
      if k in D && k < b {
        GoodGrows(code, D, F, X, k);
      } else {
        GoodGrows(code, E, F, X, k);
      }
    }
  }

  lemma Nothing(code: seq<byte>, X: Depths, a: nat, d: int) returns (D: Depths)
    ensures Mapped(code, D, X, a, a, d, d)
  {
    D := map[a as int := d];
  }

  /** An instruction in front of a fragment. */
  lemma Prepend(code: seq<byte>, D: Depths, X: Depths, p: nat, n: nat, b: nat, dp: int, dn: int,
                db: int) returns (E: Depths)
    requires Mapped(code, D, X, n, b, dn, db) && p < n
    requires Good(code, D[p as int := dp], X, p)
    ensures Mapped(code, E, X, p, b, dp, db) && Within(D, E)
  {
    hide Good;
    E := D[p as int := dp];
    forall k | k in E && k < b
      ensures Good(code, E, X, k)
    {
      if k != p {
        GoodGrows(code, D, E, X, k);
      }
    }
  }

  // ---------------------------------------------------------------------
  // Single instructions
  // ---------------------------------------------------------------------

  /** An instruction that is no jump and goes on. */
  lemma One(code: seq<byte>, X: Depths, p: nat, op: byte, arg: int, len: nat, dp: int) returns (D: Depths)
    requires Fetch(code, p) == Fetched(Instr(op, arg, len)) && len > 0 && Falls(op) && !MayJump(op)
    requires (op == OP_GET_LOCAL ==> arg < dp) && (op == OP_SET_LOCAL ==> arg < dp - 1)
    ensures Mapped(code, D, X, p, p + len, dp, dp + Delta(op, arg))
  {
    hide Delta, Falls, MayJump, Fetch;
    D := map[p as int := dp, (p + len) as int := dp + Delta(op, arg)];
  }

  lemma OnePlain(code: seq<byte>, X: Depths, p: nat, op: byte, dp: int) returns (D: Depths)
    requires CodeAt(code, p, [op]) && FormatOf(op) == FmtNone && Falls(op) && !MayJump(op)
    ensures Mapped(code, D, X, p, p + 1, dp, dp + Delta(op, 0))
  {
    hide Delta, Mapped, FormatOf, CodeAt;
    FetchPlain(code, p, op);
    PlainIsNoLocal(op);
    D := One(code, X, p, op, 0, 1, dp);
  }

  lemma PlainIsNoLocal(op: byte)
    requires FormatOf(op) == FmtNone
    ensures op != OP_GET_LOCAL && op != OP_SET_LOCAL
  {
  }

  lemma OneA(code: seq<byte>, X: Depths, p: nat, op: byte, a: nat, dp: int) returns (D: Depths)
    requires CodeAt(code, p, OpA(op, a)) && FormatOf(op) == FmtA && a < 0x100 && Falls(op) && !MayJump(op)
    requires (op == OP_GET_LOCAL ==> a < dp) && (op == OP_SET_LOCAL ==> a < dp - 1)
    ensures Mapped(code, D, X, p, p + 2, dp, dp + Delta(op, a))
  {
    hide Delta, Mapped, FormatOf, CodeAt;
    FetchA(code, p, op, a);
    D := One(code, X, p, op, a, 2, dp);
  }

  lemma OneAX(code: seq<byte>, X: Depths, p: nat, op: byte, ax: nat, dp: int) returns (D: Depths)
    requires CodeAt(code, p, OpAX(op, ax)) && FormatOf(op) == FmtAX && ax < TWO_24 && Falls(op) && !MayJump(op)
    requires op != OP_GET_LOCAL && op != OP_SET_LOCAL
    ensures Mapped(code, D, X, p, p + 4, dp, dp + Delta(op, ax))
  {
    hide Delta, Mapped, FormatOf, CodeAt;
    FetchAX(code, p, op, ax);
    D := One(code, X, p, op, ax, 4, dp);
  }

  /** A jump in front of the fragment that holds its target. */
  lemma JumpInto(code: seq<byte>, D: Depths, X: Depths, p: nat, op: byte, t: nat, b: nat, dp: int, dn: int,
                 db: int) returns (E: Depths)
    requires Mapped(code, D, X, p + 4, b, dn, db) && CodeAt(code, p, Jump(op, t - (p + 4)))
    requires FormatOf(op) == FmtJump && MayJump(op) && |code| < TWO_23 && t <= |code|
    requires (Falls(op) ==> dn == dp + Delta(op, t - (p + 4))) && t in D && D[t] == dp + JumpDelta(op)
    ensures Mapped(code, E, X, p, b, dp, db) && Within(D, E)
  {
    hide Delta, JumpDelta, Mapped, FormatOf;
    JumpFetched(code, p, op, t);
    JumpIsNoLocal(op);
    MappedEnds(code, D, X, p + 4, b, dn, db);
    E := Prepend(code, D, X, p, p + 4, b, dp, dn, db);
  }

  lemma JumpFetched(code: seq<byte>, p: nat, op: byte, t: nat)
    requires CodeAt(code, p, Jump(op, t - (p + 4))) && FormatOf(op) == FmtJump && |code| < TWO_23 && t <= |code|
    ensures Fetch(code, p) == Fetched(Instr(op, t - (p + 4), 4))
  {
    hide FormatOf;
    FetchJump(code, p, op, t - (p + 4));
  }

  lemma JumpIsNoLocal(op: byte)
    requires MayJump(op)
    ensures op != OP_GET_LOCAL && op != OP_SET_LOCAL
  {
  }

  lemma MappedEnds(code: seq<byte>, D: Depths, X: Depths, a: nat, b: nat, da: int, db: int)
    requires Mapped(code, D, X, a, b, da, db)
    ensures a in D && D[a] == da && b in D && D[b] == db && forall k :: k in D ==> a <= k <= b
  {
    hide Good;
  }

  /** An unconditional jump behind the fragment that holds its target, or to an exit; what follows may have any depth. */
  lemma JumpBehind(code: seq<byte>, D: Depths, X: Depths, a: nat, q: nat, t: nat, da: int, dq: int,
                   dn: int) returns (E: Depths)
    requires Mapped(code, D, X, a, q, da, dq) && CodeAt(code, q, Jump(OP_JUMP, t - (q + 4))) && |code| < TWO_23 && t <= |code|
    requires Leads(D, X, t, dq)
    ensures Mapped(code, E, X, a, q + 4, da, dn) && Within(D, E)
  {
    hide Delta, Mapped, Good;
    JumpFetched(code, q, OP_JUMP, t);
    MappedEnds(code, D, X, a, q, da, dq);
    E := D[(q + 4) as int := dn];
    assert Good(code, E, X, q) by { JumpGood(code, E, X, q, t, dq); }
    MappedMore(code, D, E, X, a, q, da, dq, dn);
  }

  lemma JumpGood(code: seq<byte>, D: Depths, X: Depths, q: nat, t: nat, dq: int)
    requires Fetch(code, q) == Fetched(Instr(OP_JUMP, t - (q + 4), 4)) && q in D && D[q] == dq && Leads(D, X, t, dq)
    ensures Good(code, D, X, q)
  {
    hide Fetch;
  }

  lemma MappedMore(code: seq<byte>, D: Depths, E: Depths, X: Depths, a: nat, q: nat, da: int, dq: int, dn: int)
    requires Mapped(code, D, X, a, q, da, dq) && E == D[(q + 4) as int := dn] && q in E && Good(code, E, X, q)
    ensures Mapped(code, E, X, a, q + 4, da, dn)
  {
    hide Good;
    forall k | k in E && k < q + 4
      ensures Good(code, E, X, k)
    {
      if k != q {
        GoodGrows(code, D, E, X, k);
      }
    }
  }

  // ---------------------------------------------------------------------
  // Expressions
  // ---------------------------------------------------------------------

  /** Code that drops nothing, short enough for its operands. */
  ghost predicate Tight(code: seq<byte>, at: nat, r: ExprCode)
  {
    r.ok && r.exact && |r.pool| <= TWO_24 && CodeAt(code, at, r.bytes) && |code| < TWO_23
  }

  /** The locals are below: nothing an expression reads lies above its own depth. */
  predicate Above(names: seq<Local>, d: int)
  {
    |names| <= MAX_LOCALS && |names| <= d
  }

  lemma {:induction false} ExprMapped(e: Expr, names: seq<Local>, pool: seq<Value>, code: seq<byte>, X: Depths,
                              at: nat, d: int)
    returns (D: Depths)
    requires Tight(code, at, CompExpr(e, names, pool)) && Plain(e) && Above(names, d)
    ensures Mapped(code, D, X, at, at + |CompExpr(e, names, pool).bytes|, d, d + 1)
    decreases e, 1
  {
    hide Mapped, CodeAt, OpA, OpAX;
    D := map[];
    match e {
      case Lit(v) => D := OneAX(code, X, at, OP_CONST, |pool|, d);
      case BoolLit(b) => D := OnePlain(code, X, at, if b then OP_CONST_TRUE else OP_CONST_FALSE, d);
      case NilLit => D := OnePlain(code, X, at, OP_CONST_NIL, d);
      case Var(x) => D := GetterMapped(x, names, pool, code, X, at, d);
      case Unary(_, _) => D := UnaryMapped(e, names, pool, code, X, at, d);
      case Plus(a) => D := ExprMapped(a, names, pool, code, X, at, d);
      case Binary(_, _, _) => D := BinaryMapped(e, names, pool, code, X, at, d);
      case Attr(_, _) => D := AttrMapped(e, names, pool, code, X, at, d);
      case Elems(_, _) => D := ElemsMapped(e, names, pool, code, X, at, d);
      case Call(_, _) => D := CallMapped(e, names, pool, code, X, at, d);
      case Func(_, _, _) =>
    }
  }

  lemma GetterMapped(x: Ident, names: seq<Local>, pool: seq<Value>, code: seq<byte>, X: Depths, at: nat, d: int)
    returns (D: Depths)
    requires Tight(code, at, GetVar(names, pool, x)) && Above(names, d)
    ensures Mapped(code, D, X, at, at + |GetVar(names, pool, x).bytes|, d, d + 1)
  {
    hide Mapped, CodeAt, OpA, OpAX;
    var i := Resolve(names, x);
    if i >= 0 {
      D := OneA(code, X, at, OP_GET_LOCAL, i, d);
    } else {
      D := OneAX(code, X, at, OP_GET_GLOBAL, |pool|, d);
    }
  }

  /** The value to be stored is on top. */
  lemma SetterMapped(x: Ident, names: seq<Local>, pool: seq<Value>, code: seq<byte>, X: Depths, at: nat, d: int)
    returns (D: Depths)
    requires CodeAt(code, at, SetVar(names, pool, x).bytes) && |SetVar(names, pool, x).pool| <= TWO_24 && Above(names, d - 1)
    ensures Mapped(code, D, X, at, at + |SetVar(names, pool, x).bytes|, d, d)
  {
    hide Mapped, CodeAt, OpA, OpAX;
    var i := Resolve(names, x);
    if i >= 0 {
      D := OneA(code, X, at, OP_SET_LOCAL, i, d);
    } else {
      D := OneAX(code, X, at, OP_SET_GLOBAL, |pool|, d);
    }
  }

  lemma UnaryMapped(e: Expr, names: seq<Local>, pool: seq<Value>, code: seq<byte>, X: Depths, at: nat, d: int)
    returns (D: Depths)
    requires e.Unary? && Tight(code, at, CompExpr(e, names, pool)) && Plain(e) && Above(names, d)
    ensures Mapped(code, D, X, at, at + |CompExpr(e, names, pool).bytes|, d, d + 1)
    decreases e, 0
  {
    hide Mapped, CodeAt;
    var a := CompExpr(e.operand, names, pool);
    CodeAtSplit(code, at, a.bytes, [e.uop]);
    var p := at + |a.bytes|;
    var A := ExprMapped(e.operand, names, pool, code, X, at, d);
    var B := OnePlain(code, X, p, e.uop, d + 1);
    Join(code, A, B, X, at, p, p + 1, d, d + 1, d + 1);
    D := A + B;
  }

  lemma BinaryIs(op: byte)
    requires Arity(op) == 2
    ensures FormatOf(op) == FmtNone && Falls(op) && !MayJump(op) && Delta(op, 0) == -1
  {
  }

  lemma BinaryMapped(e: Expr, names: seq<Local>, pool: seq<Value>, code: seq<byte>, X: Depths, at: nat, d: int)
    returns (D: Depths)
    requires e.Binary? && Tight(code, at, CompExpr(e, names, pool)) && Plain(e) && Above(names, d)
    ensures Mapped(code, D, X, at, at + |CompExpr(e, names, pool).bytes|, d, d + 1)
    decreases e, 0
  {
    hide Mapped, CodeAt, Delta, Falls, MayJump, FormatOf, Arity;
    var l := CompExpr(e.left, names, pool);
    var r := CompExpr(e.right, names, l.pool);
    CodeAtSplit(code, at, l.bytes + r.bytes, [e.bop]);
    CodeAtSplit(code, at, l.bytes, r.bytes);
    BinaryIs(e.bop);
    var p, q := at + |l.bytes|, at + |l.bytes| + |r.bytes|;
    var A := ExprMapped(e.left, names, pool, code, X, at, d);
    var B := ExprMapped(e.right, names, l.pool, code, X, p, d + 1);
    var C := OnePlain(code, X, q, e.bop, d + 2);
    Join(code, B, C, X, p, q, q + 1, d + 1, d + 2, d + 1);
    Join(code, A, B + C, X, at, p, q + 1, d, d + 1, d + 1);
    D := A + (B + C);
  }

  lemma AttrMapped(e: Expr, names: seq<Local>, pool: seq<Value>, code: seq<byte>, X: Depths, at: nat, d: int)
    returns (D: Depths)
    requires e.Attr? && Tight(code, at, CompExpr(e, names, pool)) && Plain(e) && Above(names, d)
    ensures Mapped(code, D, X, at, at + |CompExpr(e, names, pool).bytes|, d, d + 1)
    decreases e, 0
  {
    hide Mapped, CodeAt, OpAX;
    var o := CompExpr(e.obj, names, pool);
    CodeAtSplit(code, at, o.bytes, OpAX(OP_GET_ATTR, |o.pool|));
    var p := at + |o.bytes|;
    var A := ExprMapped(e.obj, names, pool, code, X, at, d);
    var B := OneAX(code, X, p, OP_GET_ATTR, |o.pool|, d + 1);
    Join(code, A, B, X, at, p, p + 4, d, d + 1, d + 1);
    D := A + B;
  }

  lemma ElemsMapped(e: Expr, names: seq<Local>, pool: seq<Value>, code: seq<byte>, X: Depths, at: nat, d: int)
    returns (D: Depths)
    requires e.Elems? && Tight(code, at, CompExpr(e, names, pool)) && Plain(e) && Above(names, d)
    ensures Mapped(code, D, X, at, at + |CompExpr(e, names, pool).bytes|, d, d + 1)
    decreases e, 0
  {
    hide Mapped, CodeAt, OpA;
    var a := CompExprs(e.elems, names, pool);
    var k := |e.elems|;
    CodeAtSplit(code, at, a.bytes, OpA(e.build, k));
    var p := at + |a.bytes|;
    var A := ExprsMapped(e.elems, names, pool, code, X, at, d);
    var B := OneA(code, X, p, e.build, k, d + k);
    Join(code, A, B, X, at, p, p + 2, d, d + k, d + 1);
    D := A + B;
  }

  lemma CallMapped(e: Expr, names: seq<Local>, pool: seq<Value>, code: seq<byte>, X: Depths, at: nat, d: int)
    returns (D: Depths)
    requires e.Call? && Tight(code, at, CompExpr(e, names, pool)) && Plain(e) && Above(names, d)
    ensures Mapped(code, D, X, at, at + |CompExpr(e, names, pool).bytes|, d, d + 1)
    decreases e, 0
  {
    hide Mapped, CodeAt, OpA;
    var f := CompExpr(e.callee, names, pool);
    var a := CompExprs(e.args, names, f.pool);
    var k := |e.args|;
    CodeAtSplit(code, at, f.bytes + a.bytes, OpA(OP_CALL, k));
    CodeAtSplit(code, at, f.bytes, a.bytes);
    var p, q := at + |f.bytes|, at + |f.bytes| + |a.bytes|;
    var A := ExprMapped(e.callee, names, pool, code, X, at, d);
    var B := ExprsMapped(e.args, names, f.pool, code, X, p, d + 1);
    var C := OneA(code, X, q, OP_CALL, k, d + 1 + k);
    Join(code, B, C, X, p, q, q + 2, d + 1, d + 1 + k, d + 1);
    Join(code, A, B + C, X, at, p, q + 2, d, d + 1, d + 1);
    D := A + (B + C);
  }

  lemma {:induction false} ExprsMapped(es: seq<Expr>, names: seq<Local>, pool: seq<Value>, code: seq<byte>,
                              X: Depths, at: nat, d: int)
    returns (D: Depths)
    requires Tight(code, at, CompExprs(es, names, pool)) && AllPlain(es) && Above(names, d)
    ensures Mapped(code, D, X, at, at + |CompExprs(es, names, pool).bytes|, d, d + |es|)
    decreases es, 0
  {
    hide Mapped, CodeAt;
    if es == [] {
      D := Nothing(code, X, at, d);
    } else {
      var r0 := CompExpr(es[0], names, pool);
      var r1 := CompExprs(es[1..], names, r0.pool);
      CodeAtSplit(code, at, r0.bytes, r1.bytes);
      var p := at + |r0.bytes|;
      var A := ExprMapped(es[0], names, pool, code, X, at, d);
      var B := ExprsMapped(es[1..], names, r0.pool, code, X, p, d + 1);
      Join(code, A, B, X, at, p, p + |r1.bytes|, d, d + 1, d + |es|);
      D := A + B;
    }
  }

  // ---------------------------------------------------------------------
  // Operands of statements
  // ---------------------------------------------------------------------

  lemma OperandMapped(e: Expr, names: seq<Local>, pool: seq<Value>, m: Image, X: Depths, at: nat,
                      d: int) returns (D: Depths)
    requires Holds(m, at, CompExpr(e, names, pool)) && Plain(e) && Above(names, d)
    ensures Mapped(m.code, D, X, at, at + |CompExpr(e, names, pool).bytes|, d, d + 1)
  {
    hide Mapped, CompExpr, CodeAt;
    D := ExprMapped(e, names, pool, m.code, X, at, d);
  }

  lemma OperandsMapped(es: seq<Expr>, names: seq<Local>, pool: seq<Value>, m: Image, X: Depths, at: nat,
                       d: int) returns (D: Depths)
    requires Holds(m, at, CompExprs(es, names, pool)) && AllPlain(es) && Above(names, d)
    ensures Mapped(m.code, D, X, at, at + |CompExprs(es, names, pool).bytes|, d, d + |es|)
  {
    hide Mapped, CompExprs, CodeAt;
    D := ExprsMapped(es, names, pool, m.code, X, at, d);
  }

  lemma OptMapped(e: Option<Expr>, names: seq<Local>, pool: seq<Value>, m: Image, X: Depths, at: nat,
                  d: int) returns (D: Depths)
    requires Holds(m, at, OptExpr(e, names, pool)) && PlainOpt(e) && Above(names, d)
    ensures Mapped(m.code, D, X, at, at + |OptExpr(e, names, pool).bytes|, d, d + 1)
  {
    hide Mapped, CompExpr, CodeAt;
    if e.Some? {
      D := OperandMapped(e.value, names, pool, m, X, at, d);
    } else {
      D := OnePlain(m.code, X, at, OP_CONST_NIL, d);
    }
  }

  /** The value on top is stored and dropped. */
  lemma StoreMapped(x: Ident, names: seq<Local>, pool: seq<Value>, m: Image, X: Depths, at: nat,
                    d: int) returns (D: Depths)
    requires CodeAt(m.code, at, SetVar(names, pool, x).bytes + [OP_POP]) && |SetVar(names, pool, x).pool| <= TWO_24 && Above(names, d)
    ensures Mapped(m.code, D, X, at, at + |SetVar(names, pool, x).bytes| + 1, d + 1, d)
  {
    hide Mapped, SetVar, CodeAt;
    var set1 := SetVar(names, pool, x).bytes;
    HoldsBoth(m, at, set1, [OP_POP]);
    var p := at + |set1|;
    var A := SetterMapped(x, names, pool, m.code, X, at, d + 1);
    var B := OnePlain(m.code, X, p, OP_POP, d + 1);
    Join(m.code, A, B, X, at, p, p + 1, d + 1, d + 1, d);
    D := A + B;
  }

  /** What a switch keeps on the locals while it tries its cases. */
  function Held(hasSubject: bool): nat
  {
    if hasSubject then 1 else 0
  }

  // ---------------------------------------------------------------------
  // Where statements begin
  // ---------------------------------------------------------------------

  /**
    For every statement inside s, and for s itself, the offset where its code begins and the number of
    names alive there; a for-in loop's iterator counts as a name.
  */
  function Alive(s: Stmt, cx: Context, pool: seq<Value>, at: int): Depths
    decreases s, 1
  {
    map[at := |cx.names| as int] + AliveBelow(s, cx, pool, at)
  }

  function AliveBelow(s: Stmt, cx: Context, pool: seq<Value>, at: int): Depths
    decreases s, 0
  {
    match s
    case If(cond, thn, hasElse, els) =>
      var c := CompExpr(cond, cx.names, pool);
      var t := CompBlock(thn, cx, c.pool);
      var p := at + |c.bytes| + 4;
      AliveBlock(thn, cx, c.pool, p) + if hasElse then AliveBlock(els, cx, t.pool, p + |t.syms| + 4) else map[]
    case While(cond, body) =>
      var c := CompExpr(cond, cx.names, pool);
      AliveBlock(body, cx.(loop := InLoop(|cx.names|, false)), c.pool, at + |c.bytes| + 4)
    case Forever(body) => AliveBlock(body, cx.(loop := InLoop(|cx.names|, false)), pool, at)
    case ForIn(x, iter, body) =>
      var it := CompExpr(iter, cx.names, pool);
      AliveBlock(body, InsideForIn(x, cx), it.pool, at + |it.bytes| + 5)
    case Switch(subject, _) =>
      var sub := Subject(subject, cx.names, pool);
      AliveCases(s, 0, 0, cx, sub.pool, at + |sub.bytes|)
    case Block(ss) => AliveBlock(ss, cx, pool, at)
    case _ => map[]
  }

  function AliveBlock(ss: seq<Stmt>, cx: Context, pool: seq<Value>, at: int): Depths
    decreases ss, 1
  {
    AliveSeq(ss, cx.(depth := cx.depth + 1), pool, at)
  }

  /** The end of a sequence counts too. */
  function AliveSeq(ss: seq<Stmt>, cx: Context, pool: seq<Value>, at: int): Depths
    decreases ss, 0
  {
    if ss == [] then map[at := |cx.names| as int] else
    var r := CompStmt(ss[0], cx, pool);
    Alive(ss[0], cx, pool, at) + AliveSeq(ss[1..], cx.(names := r.names), r.pool, at + |r.syms|)
  }

  function AliveCases(s: Stmt, i: nat, done: nat, cx: Context, pool: seq<Value>, at: int): Depths
    requires s.Switch? && i <= |s.cases|
    decreases s, 0, |s.cases| - i
  {
    var h := Held(s.subject.Some?);
    if i == |s.cases| then
      var d := DefaultCase(s.cases);
      if d >= 0 then AliveBlock(s.cases[d].body, cx, pool, at + h) else map[]
    else if s.cases[i].values == [] then AliveCases(s, i + 1, done, cx, pool, at)
    else
      var vs := CompValues(s.cases[i].values, 0, s.subject.Some?, cx.names, pool);
      var b := CompBlock(s.cases[i].body, cx, vs.pool);
      var p := at + |vs.bytes| + 4 + h;
      AliveBlock(s.cases[i].body, cx, vs.pool, p) + AliveCases(s, i + 1, done + 1, cx, b.pool, p + |b.syms| + 4)
  }

  lemma Through(A: Depths, D: Depths, E: Depths)
    requires Within(A, D) && Within(D, E)
    ensures Within(A, E)
  {
  }

  lemma Both(A: Depths, B: Depths, D: Depths)
    requires Within(A, D) && Within(B, D)
    ensures Within(A + B, D)
  {
  }

  /** A statement without others inside begins where its map does. */
  lemma AliveHere(s: Stmt, D: Depths, r: StmtCode, cx: Context, pool: seq<Value>, a: At)
    requires StmtMap(D, r, cx, a) && Within(AliveBelow(s, cx, pool, a.pc), D)
    ensures Within(Alive(s, cx, pool, a.pc), D)
  {
    hide AliveBelow, Good;
    Both(map[a.pc as int := |cx.names| as int], AliveBelow(s, cx, pool, a.pc), D);
  }

  // ---------------------------------------------------------------------
  // Straight-line statements
  // ---------------------------------------------------------------------

  /** Where a `break` or a `continue` leaves to, and what depth is right there. */
  function Exits(cx: Context, a: At): Depths
  {
    if cx.loop.InLoop? then map[a.breakTo := cx.loop.base as int, a.continueTo := ContinueBase(cx.loop) as int] else map[]
  }

  predicate Room(cx: Context)
  {
    |cx.names| <= MAX_LOCALS && (cx.loop.InLoop? ==> cx.loop.base <= |cx.names| && ContinueBase(cx.loop) <= |cx.names|)
  }

  ghost predicate Placed(r: StmtCode, cx: Context, a: At)
  {
    Loaded(a.m, a.pc, r, a.breakTo, a.continueTo) && Room(cx) && (cx.loop.InLoop? ==> a.breakTo != a.continueTo)
  }

  /** A statement's code takes the depth from the locals before to the locals after it. */
  ghost predicate StmtMap(D: Depths, r: StmtCode, cx: Context, a: At)
  {
    Mapped(a.m.code, D, Exits(cx, a), a.pc, a.pc + |r.syms|, |cx.names|, |r.names|)
  }

  lemma ExprStmtMapped(e: Expr, cx: Context, pool: seq<Value>, a: At) returns (D: Depths)
    requires Placed(ExprStmtCode(e, cx.names, pool), cx, a) && Plain(e)
    ensures StmtMap(D, ExprStmtCode(e, cx.names, pool), cx, a)
  {
    hide Mapped, CompExpr, Fits, CodeAt;
    var r, code := CompExpr(e, cx.names, pool), ExprStmtCode(e, cx.names, pool);
    var d, X, p := |cx.names|, Exits(cx, a), a.pc + |r.bytes|;
    Pieces(r, [OP_POP], code, a);
    var A := OperandMapped(e, cx.names, pool, a.m, X, a.pc, d);
    var B := OnePlain(a.m.code, X, p, OP_POP, d + 1);
    Join(a.m.code, A, B, X, a.pc, p, p + 1, d, d + 1, d);
    D := A + B;
  }

  lemma VarDeclMapped(x: Ident, init: Option<Expr>, cx: Context, pool: seq<Value>, a: At) returns (D: Depths)
    requires Placed(VarDeclCode(x, init, cx, pool), cx, a) && PlainOpt(init)
    ensures StmtMap(D, VarDeclCode(x, init, cx, pool), cx, a)
  {
    hide Mapped, OptExpr, Fits, CodeAt, OpAX;
    var r, code := OptExpr(init, cx.names, pool), VarDeclCode(x, init, cx, pool);
    var d, X, p := |cx.names|, Exits(cx, a), a.pc + |r.bytes|;
    if cx.top {
      var setter := OpAX(OP_SET_GLOBAL, |r.pool|);
      assert r.bytes + setter + [OP_POP] == r.bytes + (setter + [OP_POP]);
      Pieces(r, setter + [OP_POP], code, a);
      HoldsBoth(a.m, p, setter, [OP_POP]);
      assert |code.pool| <= |a.m.pool| <= TWO_24;
      var A := OptMapped(init, cx.names, pool, a.m, X, a.pc, d);
      var B := OneAX(a.m.code, X, p, OP_SET_GLOBAL, |r.pool|, d + 1);
      var C := OnePlain(a.m.code, X, p + 4, OP_POP, d + 1);
      Join(a.m.code, B, C, X, p, p + 4, p + 5, d + 1, d + 1, d);
      Join(a.m.code, A, B + C, X, a.pc, p, p + 5, d, d + 1, d);
      D := A + (B + C);
    } else {
      assert r.bytes + [] == r.bytes;
      Pieces(r, [], code, a);
      D := OptMapped(init, cx.names, pool, a.m, X, a.pc, d);
    }
  }

  lemma AssignMapped(x: Ident, e: Expr, cx: Context, pool: seq<Value>, a: At) returns (D: Depths)
    requires Placed(AssignCode(x, e, cx.names, pool), cx, a) && Plain(e)
    ensures StmtMap(D, AssignCode(x, e, cx.names, pool), cx, a)
  {
    hide Mapped, CompExpr, Fits, CodeAt, SetVar;
    var r, code := CompExpr(e, cx.names, pool), AssignCode(x, e, cx.names, pool);
    var d, X, p := |cx.names|, Exits(cx, a), a.pc + |r.bytes|;
    var setter := SetVar(cx.names, r.pool, x);
    assert r.bytes + setter.bytes + [OP_POP] == r.bytes + (setter.bytes + [OP_POP]);
    SetterPool(cx.names, r.pool, x);
    Pieces(r, setter.bytes + [OP_POP], code, a);
    var A := OperandMapped(e, cx.names, pool, a.m, X, a.pc, d);
    var B := StoreMapped(x, cx.names, r.pool, a.m, X, p, d);
    Join(a.m.code, A, B, X, a.pc, p, p + |setter.bytes| + 1, d, d + 1, d);
    D := A + B;
  }

  lemma SetterPool(names: seq<Local>, pool: seq<Value>, x: Ident)
    ensures pool <= SetVar(names, pool, x).pool && SetVar(names, pool, x).pool == GetVar(names, pool, x).pool
    ensures SetVar(names, pool, x).ok && GetVar(names, pool, x).ok && GetVar(names, pool, x).exact
  {
    hide Resolve;
  }

  lemma CompoundIs(op: byte)
    requires CompoundOp(op)
    ensures FormatOf(op) == FmtNone && Falls(op) && !MayJump(op) && Delta(op, 0) == -1
  {
  }

  lemma CompoundMapped(op: byte, x: Ident, e: Expr, cx: Context, pool: seq<Value>, a: At) returns (D: Depths)
    requires Placed(CompoundCode(op, x, e, cx.names, pool), cx, a) && Plain(e)
    ensures StmtMap(D, CompoundCode(op, x, e, cx.names, pool), cx, a)
  {
    hide Mapped, CompExpr, Fits, CodeAt, SetVar, GetVar, Delta, Falls, MayJump, FormatOf, CompoundOp;
    var get, set1 := GetVar(cx.names, pool, x), SetVar(cx.names, pool, x);
    var r, code := CompExpr(e, cx.names, get.pool), CompoundCode(op, x, e, cx.names, pool);
    var d, X := |cx.names|, Exits(cx, a);
    var tail := [op] + (set1.bytes + [OP_POP]);
    assert get.bytes + r.bytes + [op] + set1.bytes + [OP_POP] == get.bytes + (r.bytes + tail);
    SetterPool(cx.names, pool, x);
    Pieces(get, r.bytes + tail, code, a);
    var p, q := a.pc + |get.bytes|, a.pc + |get.bytes| + |r.bytes|;
    HoldsBoth(a.m, p, r.bytes, tail);
    HoldsBoth(a.m, q, [op], set1.bytes + [OP_POP]);
    CompoundIs(op);
    var A := GetterMapped(x, cx.names, pool, a.m.code, X, a.pc, d);
    var B := OperandMapped(e, cx.names, get.pool, a.m, X, p, d + 1);
    var C := OnePlain(a.m.code, X, q, op, d + 2);
    var end := q + 1 + |set1.bytes| + 1;
    var E := StoreMapped(x, cx.names, pool, a.m, X, q + 1, d);
    Join(a.m.code, C, E, X, q, q + 1, end, d + 2, d + 1, d);
    Join(a.m.code, B, C + E, X, p, q, end, d + 1, d + 2, d);
    Join(a.m.code, A, B + (C + E), X, a.pc, p, end, d, d + 1, d);
    D := A + (B + (C + E));
  }

  lemma DelItemMapped(s: Stmt, es: seq<Expr>, cx: Context, pool: seq<Value>, a: At) returns (D: Depths)
    requires s.DelItem? && es == [s.obj, s.key] && Placed(CompStmt(s, cx, pool), cx, a) && AllPlain(es)
    ensures StmtMap(D, CompStmt(s, cx, pool), cx, a)
  {
    hide Mapped, CompExprs, Fits, CodeAt, AllPlain;
    var d, X := |cx.names|, Exits(cx, a);
    var r := CompExprs(es, cx.names, pool);
    var p := a.pc + |r.bytes|;
    Pieces(r, [OP_DEL_ITEM], CompStmt(s, cx, pool), a);
    var A := OperandsMapped(es, cx.names, pool, a.m, X, a.pc, d);
    var B := OnePlain(a.m.code, X, p, OP_DEL_ITEM, d + 2);
    Join(a.m.code, A, B, X, a.pc, p, p + 1, d, d + 2, d);
    D := A + B;
  }

  lemma ItemStoreMapped(s: Stmt, es: seq<Expr>, cx: Context, pool: seq<Value>, a: At) returns (D: Depths)
    requires s.SetItem? && es == [s.e, s.obj, s.key] && Placed(CompStmt(s, cx, pool), cx, a) && AllPlain(es)
    ensures StmtMap(D, CompStmt(s, cx, pool), cx, a)
  {
    hide Mapped, CompExprs, Fits, CodeAt, AllPlain;
    var d, X := |cx.names|, Exits(cx, a);
    var r := CompExprs(es, cx.names, pool);
    var p := a.pc + |r.bytes|;
    assert r.bytes + [OP_SET_ITEM] + [OP_POP] == r.bytes + ([OP_SET_ITEM] + [OP_POP]);
    Pieces(r, [OP_SET_ITEM] + [OP_POP], CompStmt(s, cx, pool), a);
    HoldsBoth(a.m, p, [OP_SET_ITEM], [OP_POP]);
    var A := OperandsMapped(es, cx.names, pool, a.m, X, a.pc, d);
    var B := OnePlain(a.m.code, X, p, OP_SET_ITEM, d + 3);
    var C := OnePlain(a.m.code, X, p + 1, OP_POP, d + 1);
    Join(a.m.code, B, C, X, p, p + 1, p + 2, d + 3, d + 1, d);
    Join(a.m.code, A, B + C, X, a.pc, p, p + 2, d, d + 3, d);
    D := A + (B + C);
  }

  lemma AttrStoreMapped(s: Stmt, es: seq<Expr>, cx: Context, pool: seq<Value>, a: At) returns (D: Depths)
    requires s.SetAttr? && es == [s.e, s.obj] && Placed(CompStmt(s, cx, pool), cx, a) && AllPlain(es)
    ensures StmtMap(D, CompStmt(s, cx, pool), cx, a)
  {
    hide Mapped, CompExprs, Fits, CodeAt, OpAX, AllPlain;
    var d, X := |cx.names|, Exits(cx, a);
    var r := CompExprs(es, cx.names, pool);
    var p, setter := a.pc + |r.bytes|, OpAX(OP_SET_ATTR, |r.pool|);
    var code := CompStmt(s, cx, pool);
    assert r.bytes + setter + [OP_POP] == r.bytes + (setter + [OP_POP]);
    Pieces(r, setter + [OP_POP], code, a);
    HoldsBoth(a.m, p, setter, [OP_POP]);
    assert |code.pool| <= |a.m.pool| <= TWO_24;
    var A := OperandsMapped(es, cx.names, pool, a.m, X, a.pc, d);
    var B := OneAX(a.m.code, X, p, OP_SET_ATTR, |r.pool|, d + 2);
    var C := OnePlain(a.m.code, X, p + 4, OP_POP, d + 1);
    Join(a.m.code, B, C, X, p, p + 4, p + 5, d + 2, d + 1, d);
    Join(a.m.code, A, B + C, X, a.pc, p, p + 5, d, d + 2, d);
    D := A + (B + C);
  }

  /** Nothing follows a return directly, so any depth may be claimed behind it. */
  lemma OneReturn(code: seq<byte>, X: Depths, p: nat, op: byte, dp: int, dn: int) returns (D: Depths)
    requires CodeAt(code, p, [op]) && (op == OP_RETURN || op == OP_RETURN_NIL)
    ensures Mapped(code, D, X, p, p + 1, dp, dn)
  {
    hide CodeAt;
    FetchPlain(code, p, op);
    D := map[p as int := dp, (p + 1) as int := dn];
  }

  lemma ReturnMapped(e: Option<Expr>, cx: Context, pool: seq<Value>, a: At) returns (D: Depths)
    requires Placed(ReturnCode(e, cx, pool), cx, a) && PlainOpt(e)
    ensures StmtMap(D, ReturnCode(e, cx, pool), cx, a)
  {
    hide Mapped, OptExpr, Fits, CodeAt;
    var r, code := OptExpr(e, cx.names, pool), ReturnCode(e, cx, pool);
    var d, X, p := |cx.names|, Exits(cx, a), a.pc + |r.bytes|;
    Pieces(r, [OP_RETURN], code, a);
    var A := OptMapped(e, cx.names, pool, a.m, X, a.pc, d);
    var B := OneReturn(a.m.code, X, p, OP_RETURN, d + 1, d);
    Join(a.m.code, A, B, X, a.pc, p, p + 1, d, d + 1, d);
    D := A + B;
  }

  lemma {:induction false} PopsMapped(n: nat, code: seq<byte>, X: Depths, at: nat, d: int) returns (D: Depths)
    requires CodeAt(code, at, Pops(n))
    ensures Mapped(code, D, X, at, at + n, d, d - n)
    decreases n
  {
    hide Mapped;
    if n == 0 {
      D := Nothing(code, X, at, d);
    } else {
      assert Pops(n) == [OP_POP] + Pops(n - 1);
      CodeAtSplit(code, at, [OP_POP], Pops(n - 1));
      var A := OnePlain(code, X, at, OP_POP, d);
      var B := PopsMapped(n - 1, code, X, at + 1, d - 1);
      Join(code, A, B, X, at, at + 1, at + n, d, d - 1, d - n);
      D := A + B;
    }
  }

  /** `break` pops down to the depth at which its loop began. */
  lemma BreakMapped(cx: Context, pool: seq<Value>, a: At) returns (D: Depths)
    requires cx.loop.InLoop? && Placed(BreakCode(cx, pool), cx, a)
    ensures StmtMap(D, BreakCode(cx, pool), cx, a)
  {
    hide Mapped, Fits, CodeAt, Pops, Jump;
    var X, d, base := Exits(cx, a), |cx.names|, cx.loop.base;
    var live := d - base;
    var hole := Lift([OP_JUMP]) + [BreakHole(0), BreakHole(1), BreakHole(2)];
    Split2(a.m, a.pc, Lift(Pops(live)), hole, BreakCode(cx, pool), a.breakTo, a.continueTo);
    FitsLift(a.m.code, a.pc, Pops(live), a.breakTo, a.continueTo);
    FitsBreak(a.m.code, a.pc + live, a.breakTo, a.continueTo);
    var A := PopsMapped(live, a.m.code, X, a.pc, d);
    assert Leads(A, X, a.breakTo, base);
    D := JumpBehind(a.m.code, A, X, a.pc, a.pc + live, a.breakTo, d, base, d);
  }

  /** An exact `continue` has nothing to pop. */
  lemma ContinueMapped(cx: Context, pool: seq<Value>, a: At) returns (D: Depths)
    requires cx.loop.InLoop? && Placed(ContinueCode(cx, pool), cx, a)
    ensures StmtMap(D, ContinueCode(cx, pool), cx, a)
  {
    hide Mapped, Fits, CodeAt, Jump;
    var X, d := Exits(cx, a), |cx.names|;
    FitsContinue(a.m.code, a.pc, a.breakTo, a.continueTo);
    var A := Nothing(a.m.code, X, a.pc, d);
    assert Leads(A, X, a.continueTo, d);
    D := JumpBehind(a.m.code, A, X, a.pc, a.pc, a.continueTo, d, d, d);
  }

  // ---------------------------------------------------------------------
  // Control flow
  // ---------------------------------------------------------------------

  lemma {:induction false} StmtMapped(s: Stmt, cx: Context, pool: seq<Value>, a: At) returns (D: Depths)
    requires Placed(CompStmt(s, cx, pool), cx, a) && PlainStmt(s)
    ensures StmtMap(D, CompStmt(s, cx, pool), cx, a)
    ensures Within(Alive(s, cx, pool, a.pc), D)
    decreases s, 2
  {
    hide AliveBlock, AliveCases, Alive, Mapped, Loaded, CompBlock, CompCases, CompExpr, CompExprs, OptExpr,
         SetVar, GetVar, Fill, StmtMap, Lift;
    D := map[];
    match s {
      case ExprStmt(e) => D := ExprStmtMapped(e, cx, pool, a);
      case VarDecl(x, init) => D := VarDeclMapped(x, init, cx, pool, a);
      case Assign(x, e) => D := AssignMapped(x, e, cx, pool, a);
      case SetItem(obj, key, e) => D := ItemStoreMapped(s, [e, obj, key], cx, pool, a);
      case SetAttr(obj, _, e) => D := AttrStoreMapped(s, [e, obj], cx, pool, a);
      case DelItem(obj, key) => D := DelItemMapped(s, [obj, key], cx, pool, a);
      case Compound(op, x, e) => D := CompoundMapped(op, x, e, cx, pool, a);
      case If(_, _, hasElse, _) =>
        if hasElse {
          D := IfElseMapped(s, cx, pool, a);
        } else {
          D := IfMapped(s, cx, pool, a);
        }
      case While(_, _) => D := WhileMapped(s, cx, pool, a);
      case Forever(_) => D := ForeverMapped(s, cx, pool, a);
      case ForIn(_, _, _) => D := ForInMapped(s, cx, pool, a);
      case Switch(_, _) => D := SwitchMapped(s, cx, pool, a);
      case Block(ss) => D := BlockMapped(ss, cx, pool, a);
      case Break =>
        LoadedOk(a.m, a.pc, CompStmt(s, cx, pool), a.breakTo, a.continueTo);
        D := BreakMapped(cx, pool, a);
      case Continue =>
        LoadedOk(a.m, a.pc, CompStmt(s, cx, pool), a.breakTo, a.continueTo);
        D := ContinueMapped(cx, pool, a);
      case Pass => D := PassMapped(cx, pool, a);
      case Return(e) => D := ReturnMapped(e, cx, pool, a);
      case FuncDecl(_, _) => DeclIsNotPlaced(s, cx, pool, a);
      case ClassDecl(_, _, _) => DeclIsNotPlaced(s, cx, pool, a);
    }
    AliveHere(s, D, CompStmt(s, cx, pool), cx, pool, a);
  }

  /** Making functions and classes is not exact. */
  lemma DeclIsNotPlaced(s: Stmt, cx: Context, pool: seq<Value>, a: At)
    requires s.FuncDecl? || s.ClassDecl?
    ensures !Placed(CompStmt(s, cx, pool), cx, a)
  {
    hide CompExpr, ClassCode, DeclTail, CanDeclare, Fits;
  }

  lemma LoadedOk(m: Image, at: nat, r: StmtCode, brk: int, cont: int)
    requires Loaded(m, at, r, brk, cont)
    ensures r.ok && r.exact && at + |r.syms| <= |m.code| < TWO_23
  {
  }

  lemma PassMapped(cx: Context, pool: seq<Value>, a: At) returns (D: Depths)
    ensures StmtMap(D, Straight([], pool, cx.names, true, true), cx, a)
  {
    hide Mapped;
    D := Nothing(a.m.code, Exits(cx, a), a.pc, |cx.names|);
  }

  /** Above statements the frame is exactly the locals. */
  lemma RoomAbove(cx: Context)
    requires Room(cx)
    ensures Above(cx.names, |cx.names|)
  {
  }

  lemma IfElseMapped(s: Stmt, cx: Context, pool: seq<Value>, a: At) returns (D: Depths)
    requires s.If? && s.hasElse && Placed(CompStmt(s, cx, pool), cx, a) && PlainStmt(s)
    ensures StmtMap(D, CompStmt(s, cx, pool), cx, a)
    ensures Within(AliveBelow(s, cx, pool, a.pc), D)
    decreases s, 1
  {
    hide AliveBlock, Mapped, CompExpr, CompBlock, Fits, CodeAt, Jump;
    var c := CompExpr(s.cond, cx.names, pool);
    var t := CompBlock(s.thn, cx, c.pool);
    var f := CompBlock(s.els, cx, t.pool);
    var code := CompStmt(s, cx, pool);
    assert code == IfCode(c, t, true, f, cx.names);
    var m, brk, cont, X, d := a.m, a.breakTo, a.continueTo, Exits(cx, a), |cx.names|;
    var head, over := Lift(c.bytes + Jump(OP_JUMP_IF_FALSE, |t.syms| + 4)), Lift(Jump(OP_JUMP, |f.syms|));
    LoadedOk(m, a.pc, code, brk, cont);
    Split2(m, a.pc, head, t.syms + (over + f.syms), code, brk, cont);
    var p := a.pc + |c.bytes|;
    var q := p + 4 + |t.syms|;
    var end := q + 4 + |f.syms|;
    FitsSplit(m.code, p + 4, t.syms, over + f.syms, brk, cont);
    FitsSplit(m.code, q, over, f.syms, brk, cont);
    FitsLift(m.code, q, Jump(OP_JUMP, |f.syms|), brk, cont);
    CondPieces(c, Jump(OP_JUMP_IF_FALSE, |t.syms| + 4), m, a.pc, code.pool, brk, cont);
    var C := OperandMapped(s.cond, cx.names, pool, m, X, a.pc, d);
    var T := BlockMapped(s.thn, cx, c.pool, a.(pc := p + 4));
    var F := BlockMapped(s.els, cx, t.pool, a.(pc := q + 4));
    MappedEnds(m.code, F, X, q + 4, end, d, d);
    var J := JumpInto(m.code, F, X, q, OP_JUMP, end, end, d, d, d);
    Join(m.code, T, J, X, p + 4, q, end, d, d, d);
    var K := JumpInto(m.code, T + J, X, p, OP_JUMP_IF_FALSE, q + 4, end, d + 1, d, d);
    Join(m.code, C, K, X, a.pc, p, end, d, d + 1, d);
    D := C + K;
  }

  lemma IfMapped(s: Stmt, cx: Context, pool: seq<Value>, a: At) returns (D: Depths)
    requires s.If? && !s.hasElse && Placed(CompStmt(s, cx, pool), cx, a) && PlainStmt(s)
    ensures StmtMap(D, CompStmt(s, cx, pool), cx, a)
    ensures Within(AliveBelow(s, cx, pool, a.pc), D)
    decreases s, 1
  {
    hide AliveBlock, Mapped, CompExpr, CompBlock, Fits, CodeAt, Jump;
    var c := CompExpr(s.cond, cx.names, pool);
    var t := CompBlock(s.thn, cx, c.pool);
    var code := CompStmt(s, cx, pool);
    assert code == IfCode(c, t, false, CompBlock(s.els, cx, t.pool), cx.names);
    var m, brk, cont, X, d := a.m, a.breakTo, a.continueTo, Exits(cx, a), |cx.names|;
    var head := Lift(c.bytes + Jump(OP_JUMP_IF_FALSE, |t.syms|));
    LoadedOk(m, a.pc, code, brk, cont);
    Split2(m, a.pc, head, t.syms, code, brk, cont);
    var p := a.pc + |c.bytes|;
    var end := p + 4 + |t.syms|;
    CondPieces(c, Jump(OP_JUMP_IF_FALSE, |t.syms|), m, a.pc, code.pool, brk, cont);
    var C := OperandMapped(s.cond, cx.names, pool, m, X, a.pc, d);
    var T := BlockMapped(s.thn, cx, c.pool, a.(pc := p + 4));
    MappedEnds(m.code, T, X, p + 4, end, d, d);
    var K := JumpInto(m.code, T, X, p, OP_JUMP_IF_FALSE, end, end, d + 1, d, d);
    Join(m.code, C, K, X, a.pc, p, end, d, d + 1, d);
    D := C + K;
  }

  lemma {:induction false} BlockMapped(ss: seq<Stmt>, cx: Context, pool: seq<Value>, a: At) returns (D: Depths)
    requires Placed(CompBlock(ss, cx, pool), cx, a) && PlainSeq(ss)
    ensures StmtMap(D, CompBlock(ss, cx, pool), cx, a)
    ensures Within(AliveBlock(ss, cx, pool, a.pc), D)
    decreases ss, 1
  {
    hide AliveSeq, Mapped, CompSeq, Fits, CodeAt, Pops;
    var inner := cx.(depth := cx.depth + 1);
    var b := CompSeq(ss, inner, pool);
    var n := |b.names| - |cx.names|;
    var q := a.pc + |b.syms|;
    Split2(a.m, a.pc, b.syms, Lift(Pops(n)), CompBlock(ss, cx, pool), a.breakTo, a.continueTo);
    FitsLift(a.m.code, q, Pops(n), a.breakTo, a.continueTo);
    var A := SeqMapped(ss, inner, pool, a);
    var B := PopsMapped(n, a.m.code, Exits(cx, a), q, |b.names|);
    Join(a.m.code, A, B, Exits(cx, a), a.pc, q, q + n, |cx.names|, |b.names|, |cx.names|);
    D := A + B;
  }

  lemma {:induction false} SeqMapped(ss: seq<Stmt>, cx: Context, pool: seq<Value>, a: At) returns (D: Depths)
    requires Placed(CompSeq(ss, cx, pool), cx, a) && PlainSeq(ss)
    ensures StmtMap(D, CompSeq(ss, cx, pool), cx, a)
    ensures Within(AliveSeq(ss, cx, pool, a.pc), D)
    decreases ss, 0
  {
    hide Alive, Mapped, CompStmt, Fits;
    var X := Exits(cx, a);
    if ss == [] {
      D := Nothing(a.m.code, X, a.pc, |cx.names|);
    } else {
      var r0 := CompStmt(ss[0], cx, pool);
      var cx1 := cx.(names := r0.names);
      var r1 := CompSeq(ss[1..], cx1, r0.pool);
      Split2(a.m, a.pc, r0.syms, r1.syms, CompSeq(ss, cx, pool), a.breakTo, a.continueTo);
      NamesBounded(ss[0], cx, pool);
      var q := a.pc + |r0.syms|;
      var A := StmtMapped(ss[0], cx, pool, a);
      var B := SeqMapped(ss[1..], cx1, r0.pool, a.(pc := q));
      Join(a.m.code, A, B, X, a.pc, q, q + |r1.syms|, |cx.names|, |r0.names|, |r1.names|);
      D := A + B;
    }
  }

  // ---------------------------------------------------------------------
  // Loops
  // ---------------------------------------------------------------------

  /** When all exits of a fragment are inside it, it has none. */
  lemma Close(code: seq<byte>, D: Depths, X: Depths, Y: Depths, a: nat, b: nat, da: int, db: int)
    requires Mapped(code, D, X, a, b, da, db) && Within(X, D)
    ensures Mapped(code, D, Y, a, b, da, db)
  {
    hide Good;
    forall k | k in D && k < b
      ensures Good(code, D, Y, k)
    {
      GoodCloses(code, D, X, Y, k);
    }
  }

  lemma GoodCloses(code: seq<byte>, D: Depths, X: Depths, Y: Depths, pc: int)
    requires pc in D && Good(code, D, X, pc) && Within(X, D)
    ensures Good(code, D, Y, pc)
  {
    hide Delta, JumpDelta, Falls, MayJump, Fetch;
  }

  lemma MoreExits(code: seq<byte>, D: Depths, X: Depths, Y: Depths, a: nat, b: nat, da: int, db: int)
    requires Mapped(code, D, X, a, b, da, db) && Within(X, Y)
    ensures Mapped(code, D, Y, a, b, da, db)
  {
    hide Good;
    forall k | k in D && k < b
      ensures Good(code, D, Y, k)
    {
      GoodOpens(code, D, X, Y, k);
    }
  }

  lemma GoodOpens(code: seq<byte>, D: Depths, X: Depths, Y: Depths, pc: int)
    requires pc in D && Good(code, D, X, pc) && Within(X, Y)
    ensures Good(code, D, Y, pc)
  {
    hide Delta, JumpDelta, Falls, MayJump, Fetch;
  }

  lemma WhileMapped(s: Stmt, cx: Context, pool: seq<Value>, a: At) returns (D: Depths)
    requires s.While? && Placed(CompStmt(s, cx, pool), cx, a) && PlainStmt(s)
    ensures StmtMap(D, CompStmt(s, cx, pool), cx, a)
    ensures Within(AliveBelow(s, cx, pool, a.pc), D)
    decreases s, 1
  {
    hide AliveBlock, Mapped, CompExpr, CompBlock, Fits, CodeAt, Jump, Fill, FewJumps;
    var c := CompExpr(s.cond, cx.names, pool);
    var loop := cx.(loop := InLoop(|cx.names|, false));
    var b := CompBlock(s.body, loop, c.pool);
    var code := CompStmt(s, cx, pool);
    assert code == WhileCode(c, b, cx.names);
    var raw := WhileSyms(c.bytes, b.syms);
    var m, d := a.m, |cx.names|;
    var p, q, end := a.pc + |c.bytes|, a.pc + |c.bytes| + 4 + |b.syms|, a.pc + |raw|;
    LoadedOk(m, a.pc, code, a.breakTo, a.continueTo);
    FitsFill(m.code, a.pc, raw, |raw|, 0, a.breakTo, a.continueTo);
    var skip, back := Jump(OP_JUMP_IF_FALSE, |b.syms| + 4), Jump(OP_JUMP, -(|c.bytes| + 8 + |b.syms|));
    LoopPieces(m, a.pc, c.bytes + skip, b.syms, back, end, a.pc);
    CondPieces(c, skip, m, a.pc, code.pool, end, a.pc);
    var at := a.(pc := p + 4, breakTo := end, continueTo := a.pc);
    var X := Exits(loop, at);
    var C := OperandMapped(s.cond, cx.names, pool, m, X, a.pc, d);
    var B := BlockMapped(s.body, loop, c.pool, at);
    assert Leads(B, X, a.pc, d);
    var E := JumpBehind(m.code, B, X, p + 4, q, a.pc, d, d, d);
    MappedEnds(m.code, E, X, p + 4, end, d, d);
    var K := JumpInto(m.code, E, X, p, OP_JUMP_IF_FALSE, end, end, d + 1, d, d);
    Join(m.code, C, K, X, a.pc, p, end, d, d + 1, d);
    D := C + K;
    MappedEnds(m.code, D, X, a.pc, end, d, d);
    Close(m.code, D, X, Exits(cx, a), a.pc, end, d, d);
  }

  lemma ForeverMapped(s: Stmt, cx: Context, pool: seq<Value>, a: At) returns (D: Depths)
    requires s.Forever? && Placed(CompStmt(s, cx, pool), cx, a) && PlainStmt(s)
    ensures StmtMap(D, CompStmt(s, cx, pool), cx, a)
    ensures Within(AliveBelow(s, cx, pool, a.pc), D)
    decreases s, 1
  {
    hide AliveBlock, Mapped, CompBlock, Fits, CodeAt, Jump, Fill, FewJumps;
    var loop := cx.(loop := InLoop(|cx.names|, false));
    var b := CompBlock(s.body, loop, pool);
    var code := CompStmt(s, cx, pool);
    assert code == ForeverCode(b, cx.names);
    var raw := ForeverSyms(b.syms);
    var m, d, q, end := a.m, |cx.names|, a.pc + |b.syms|, a.pc + |raw|;
    LoadedOk(m, a.pc, code, a.breakTo, a.continueTo);
    FitsFill(m.code, a.pc, raw, |raw|, 0, a.breakTo, a.continueTo);
    var back := Jump(OP_JUMP, -(|b.syms| + 4));
    assert raw == Lift([]) + (b.syms + Lift(back));
    LoopPieces(m, a.pc, [], b.syms, back, end, a.pc);
    var at := a.(breakTo := end, continueTo := a.pc);
    var X := Exits(loop, at);
    var B := BlockMapped(s.body, loop, pool, at);
    assert Leads(B, X, a.pc, d);
    D := JumpBehind(m.code, B, X, a.pc, q, a.pc, d, d, d);
    MappedEnds(m.code, D, X, a.pc, end, d, d);
    Close(m.code, D, X, Exits(cx, a), a.pc, end, d, d);
  }

  /** The exhausted iterator has been popped where `break` arrives with both slots popped: at the same depth. */
  lemma ForInMapped(s: Stmt, cx: Context, pool: seq<Value>, a: At) returns (D: Depths)
    requires s.ForIn? && Placed(CompStmt(s, cx, pool), cx, a) && PlainStmt(s)
    ensures StmtMap(D, CompStmt(s, cx, pool), cx, a)
    ensures Within(AliveBelow(s, cx, pool, a.pc), D)
    decreases s, 1
  {
    hide AliveBlock, Mapped, CompExpr, CompBlock, Fits, CodeAt, Jump, Fill, FewJumps, CanDeclare;
    var it := CompExpr(s.iter, cx.names, pool);
    var inner := InsideForIn(s.x, cx);
    var b := CompBlock(s.body, inner, it.pool);
    var code := CompStmt(s, cx, pool);
    assert code == ForInCode(s.x, it, b, cx);
    DeclareRoom(cx.names + [Local(Hidden, cx.depth + 1)], cx.depth + 1, s.x);
    ForInPieces(s.x, it, b, cx, code, a);
    var m, d, p := a.m, |cx.names|, a.pc + |it.bytes|;
    var h := p + 1;
    var next, end := h + 4 + |b.syms|, h + 4 + |b.syms| + 5;
    LoadedOk(m, a.pc, code, a.breakTo, a.continueTo);
    var at := a.(pc := h + 4, breakTo := end, continueTo := next);
    var X := Exits(inner, at);
    var Y := X[h as int := d + 1];
    var I := OperandMapped(s.iter, cx.names, pool, m, Y, a.pc, d);
    var B := BlockMapped(s.body, inner, it.pool, at);
    D := ForInJoined(m.code, I, B, X, Y, Exits(cx, a), a.pc, p, |b.syms|, end, d);
  }

  /** The iterator's code, the loop's head, its body and the jump back, at whose exits nothing is left open. */
  lemma ForInJoined(code: seq<byte>, I: Depths, B: Depths, X: Depths, Y: Depths, Z: Depths, start: nat, p: nat,
                    len: nat, end: nat, d: int)
    returns (D: Depths)
    requires end == p + len + 10 <= |code| < TWO_23
    requires X == map[end as int := d, (p + len + 5) as int := d + 2] && Y == X[(p + 1) as int := d + 1]
    requires CodeAt(code, p, [OP_GET_ITER]) && CodeAt(code, p + 1, Jump(OP_FOR_ITER, len + 5))
    requires CodeAt(code, p + len + 5, [OP_POP]) && CodeAt(code, p + len + 6, Jump(OP_JUMP, -(len + 9)))
    requires Mapped(code, I, Y, start, p, d, d + 1) && Mapped(code, B, X, p + 5, p + len + 5, d + 2, d + 2)
    ensures Mapped(code, D, Z, start, end, d, d) && Within(B, D)
  {
    hide Mapped, CodeAt, Jump;
    var h, next := p + 1, p + len + 5;
    var G := OnePlain(code, Y, p, OP_GET_ITER, d + 1);
    Join(code, I, G, Y, start, p, h, d, d + 1, d + 1);
    MoreExits(code, B, X, Y, h + 4, next, d + 2, d + 2);
    var P := OnePlain(code, Y, next, OP_POP, d + 2);
    Join(code, B, P, Y, h + 4, next, next + 1, d + 2, d + 2, d + 1);
    MappedEnds(code, P, Y, next, next + 1, d + 2, d + 1);
    var E := JumpBehind(code, B + P, Y, h + 4, next + 1, h, d + 2, d + 1, d);
    MappedEnds(code, E, Y, h + 4, end, d + 2, d);
    var K := JumpInto(code, E, Y, h, OP_FOR_ITER, end, end, d + 1, d + 2, d);
    MappedEnds(code, K, Y, h, end, d + 1, d);
    Join(code, I + G, K, Y, start, h, end, d, d + 1, d);
    D := I + G + K;
    Close(code, D, Y, Z, start, end, d, d);
  }

  // ---------------------------------------------------------------------
  // Switch
  // ---------------------------------------------------------------------

  lemma SwitchMapped(s: Stmt, cx: Context, pool: seq<Value>, a: At) returns (D: Depths)
    requires s.Switch? && Placed(CompStmt(s, cx, pool), cx, a) && PlainStmt(s)
    ensures StmtMap(D, CompStmt(s, cx, pool), cx, a)
    ensures Within(AliveBelow(s, cx, pool, a.pc), D)
    decreases s, 1
  {
    hide AliveCases, Mapped, CompExpr, CompCases, Fits, CodeAt;
    var sub := Subject(s.subject, cx.names, pool);
    var cs := CompCases(s, 0, 0, cx, sub.pool);
    var code := CompStmt(s, cx, pool);
    var m, X, d, p, h := a.m, Exits(cx, a), |cx.names|, a.pc + |sub.bytes|, Held(s.subject.Some?);
    Split2(m, a.pc, Lift(sub.bytes), cs.syms, code, a.breakTo, a.continueTo);
    FitsLift(m.code, a.pc, sub.bytes, a.breakTo, a.continueTo);
    var S: Depths;
    if s.subject.Some? {
      S := OperandMapped(s.subject.value, cx.names, pool, m, X, a.pc, d);
    } else {
      S := Nothing(m.code, X, a.pc, d);
    }
    var C := CasesMapped(s, 0, 0, cx, sub.pool, a.(pc := p));
    Join(m.code, S, C, X, a.pc, p, p + |cs.syms|, d, d + h, d);
    D := S + C;
  }

  /** From the tests of a case, where a subject may lie on the locals, to the end of the switch, where it does not. */
  ghost predicate CasesMap(D: Depths, r: StmtCode, h: nat, cx: Context, a: At)
  {
    Mapped(a.m.code, D, Exits(cx, a), a.pc, a.pc + |r.syms|, |cx.names| + h, |cx.names|)
  }

  lemma DropMapped(hasSubject: bool, code: seq<byte>, X: Depths, at: nat, d: int) returns (D: Depths)
    requires CodeAt(code, at, if hasSubject then [OP_POP] else [])
    ensures Mapped(code, D, X, at, at + Held(hasSubject), d + Held(hasSubject), d)
  {
    hide Mapped, CodeAt;
    if hasSubject {
      D := OnePlain(code, X, at, OP_POP, d + 1);
    } else {
      D := Nothing(code, X, at, d);
    }
  }

  lemma {:induction false} CasesMapped(s: Stmt, i: nat, done: nat, cx: Context, pool: seq<Value>,
                              a: At) returns (D: Depths)
    requires s.Switch? && i <= |s.cases| && Placed(CompCases(s, i, done, cx, pool), cx, a) && PlainStmt(s)
    ensures CasesMap(D, CompCases(s, i, done, cx, pool), Held(s.subject.Some?), cx, a)
    ensures Within(AliveCases(s, i, done, cx, pool, a.pc), D)
    decreases s, 0, |s.cases| - i, 2
  {
    hide Mapped, CompBlock, CompValues, Fits, CodeAt;
    if i == |s.cases| {
      D := DefaultMapped(s, done, cx, pool, a);
    } else if s.cases[i].values == [] {
      D := CasesMapped(s, i + 1, done, cx, pool, a);
    } else {
      D := CaseMapped(s, i, done, cx, pool, a);
    }
  }

  lemma DefaultMapped(s: Stmt, done: nat, cx: Context, pool: seq<Value>, a: At) returns (D: Depths)
    requires s.Switch? && Placed(CompCases(s, |s.cases|, done, cx, pool), cx, a) && PlainStmt(s)
    ensures CasesMap(D, CompCases(s, |s.cases|, done, cx, pool), Held(s.subject.Some?), cx, a)
    ensures Within(AliveCases(s, |s.cases|, done, cx, pool, a.pc), D)
    decreases s, 0, 0, 0
  {
    hide AliveBlock, Mapped, CompBlock, Fits, CodeAt;
    var has, m, X, d := s.subject.Some?, a.m, Exits(cx, a), |cx.names|;
    var drop := if has then [OP_POP] else [];
    var i := DefaultCase(s.cases);
    var code := CompCases(s, |s.cases|, done, cx, pool);
    if i >= 0 {
      var b := CompBlock(s.cases[i].body, cx, pool);
      Split2(m, a.pc, Lift(drop), b.syms, code, a.breakTo, a.continueTo);
      FitsLift(m.code, a.pc, drop, a.breakTo, a.continueTo);
      var q := a.pc + |drop|;
      var A := DropMapped(has, m.code, X, a.pc, d);
      var B := BlockMapped(s.cases[i].body, cx, pool, a.(pc := q));
      Join(m.code, A, B, X, a.pc, q, q + |b.syms|, d + Held(has), d, d);
      D := A + B;
    } else {
      FitsLift(m.code, a.pc, drop, a.breakTo, a.continueTo);
      D := DropMapped(has, m.code, X, a.pc, d);
    }
  }

  lemma CaseMapped(s: Stmt, i: nat, done: nat, cx: Context, pool: seq<Value>, a: At) returns (D: Depths)
    requires s.Switch? && i < |s.cases| && s.cases[i].values != [] && Placed(CompCases(s, i, done, cx, pool), cx, a) && PlainStmt(s)
    ensures CasesMap(D, CompCases(s, i, done, cx, pool), Held(s.subject.Some?), cx, a)
    ensures Within(AliveCases(s, i, done, cx, pool, a.pc), D)
    decreases s, 0, |s.cases| - i, 1
  {
    hide AliveBlock, AliveCases, Mapped, CompBlock, CompValues, CompCases, CaseCode, Fits, CodeAt, Jump,
         AllPlain, PlainSeq, Within;
    var has := s.subject.Some?;
    var drop, h := if has then [OP_POP] else [], Held(has);
    var vs := CompValues(s.cases[i].values, 0, has, cx.names, pool);
    var b := CompBlock(s.cases[i].body, cx, vs.pool);
    var rest := CompCases(s, i + 1, done + 1, cx, b.pool);
    var code := CompCases(s, i, done, cx, pool);
    var m, X, d := a.m, Exits(cx, a), |cx.names|;
    LoadedOk(m, a.pc, code, a.breakTo, a.continueTo);
    CaseJumps(s, i, done, cx, pool);
    CaseLayout(s, i, done, cx, pool);
    CasePieces(drop, vs, b, rest, code, cx.names, a);
    var skip := a.pc + |vs.bytes|;
    var q := skip + 4 + h;
    var r, end := q + |b.syms| + 4, q + |b.syms| + 4 + |rest.syms|;
    var R := CasesMapped(s, i + 1, done + 1, cx, b.pool, a.(pc := r));
    var B := BlockMapped(s.cases[i].body, cx, vs.pool, a.(pc := q));
    var K := CaseJoined(m.code, drop, has, B, R, X, skip, |b.syms|, end, d);
    D := ValuesMapped(s.cases[i].values, 0, has, cx.names, pool, m, K, X, a.pc, skip, end, d, d);
    Through(AliveBlock(s.cases[i].body, cx, vs.pool, q), B, K);
    Through(AliveBlock(s.cases[i].body, cx, vs.pool, q), K, D);
    Through(AliveCases(s, i + 1, done + 1, cx, b.pool, r), R, K);
    Through(AliveCases(s, i + 1, done + 1, cx, b.pool, r), K, D);
    CaseAlive(s, i, done, cx, pool, a, D);
  }

  /** Behind the tests: the jump past the body, the body, the jump to the end, and the other cases. */
  lemma CaseJoined(code: seq<byte>, drop: seq<byte>, has: bool, B: Depths, R: Depths, X: Depths, skip: nat,
                   len: nat, end: nat, d: int)
    returns (K: Depths)
    requires var q := skip + 4 + Held(has); var r := q + len + 4;
      && end <= |code| < TWO_23 && r <= end && |drop| == Held(has) && (has ==> drop == [OP_POP])
      && CodeAt(code, skip, Jump(OP_JUMP, |drop| + len + 4)) && CodeAt(code, skip + 4, drop) && CodeAt(code, q + len, Jump(OP_JUMP, end - r))
      && Mapped(code, B, X, q, q + len, d, d) && Mapped(code, R, X, r, end, d + Held(has), d)
    ensures Mapped(code, K, X, skip, end, d + Held(has), d)
    ensures (skip + 4) as int in K && K[(skip + 4) as int] == d + Held(has)
    ensures Within(B, K) && Within(R, K)
  {
    hide Mapped, CodeAt, Jump;
    var h := Held(has);
    var p, q, e := skip + 4, skip + 4 + h, skip + 4 + h + len;
    var r := e + 4;
    MappedEnds(code, R, X, r, end, d + h, d);
    var E := JumpInto(code, R, X, e, OP_JUMP, end, end, d, d + h, d);
    Join(code, B, E, X, q, e, end, d, d, d);
    var P := DropMapped(has, code, X, p, d);
    Join(code, P, B + E, X, p, q, end, d + h, d, d);
    var F := P + (B + E);
    MappedEnds(code, F, X, p, end, d + h, d);
    K := JumpInto(code, F, X, skip, OP_JUMP, r, end, d + h, d + h, d);
  }

  lemma CaseAlive(s: Stmt, i: nat, done: nat, cx: Context, pool: seq<Value>, a: At, D: Depths)
    requires s.Switch? && i < |s.cases| && s.cases[i].values != []
    requires var vs := CompValues(s.cases[i].values, 0, s.subject.Some?, cx.names, pool);
      var b := CompBlock(s.cases[i].body, cx, vs.pool);
      var p := a.pc + |vs.bytes| + 4 + Held(s.subject.Some?);
      Within(AliveBlock(s.cases[i].body, cx, vs.pool, p), D) && Within(AliveCases(s, i + 1, done + 1, cx, b.pool, p + |b.syms| + 4), D)
    ensures Within(AliveCases(s, i, done, cx, pool, a.pc), D)
  {
    hide AliveBlock, CompBlock, CompValues, Within;
    var vs := CompValues(s.cases[i].values, 0, s.subject.Some?, cx.names, pool);
    var b := CompBlock(s.cases[i].body, cx, vs.pool);
    var p := a.pc + |vs.bytes| + 4 + Held(s.subject.Some?);
    Both(AliveBlock(s.cases[i].body, cx, vs.pool, p), AliveCases(s, i + 1, done + 1, cx, b.pool, p + |b.syms| + 4), D);
  }

  /** The tests of a case in front of the jump that skips its body; behind that jump is the body. */
  lemma {:induction false} ValuesMapped(values: seq<Expr>, j: nat, has: bool, names: seq<Local>, pool: seq<Value>,
                              m: Image,
                                        K: Depths, X: Depths, at: nat, skip: nat, end: nat, d: int, db: int) returns (D: Depths)
    requires Holds(m, at, CompValues(values, j, has, names, pool)) && AllPlain(values) && Above(names, d)
    requires skip == at + |CompValues(values, j, has, names, pool).bytes| && skip + 4 <= |m.code|
    requires Mapped(m.code, K, X, skip, end, d + Held(has), db)
    requires (skip + 4) as int in K && K[(skip + 4) as int] == d + Held(has)
    ensures Mapped(m.code, D, X, at, end, d + Held(has), db) && (skip + 4) as int in D && D[(skip + 4) as int] == d + Held(has)
    ensures Within(K, D)
    decreases values
  {
    hide Mapped, CompValues, CompExpr, CodeAt, Jump;
    var s := d + Held(has);
    if values == [] {
      NoTestBytes(j, has, names, pool);
      D := K;
    } else {
      var r := CompExpr(values[0], names, pool);
      var rest := CompValues(values[1..], j + 1, has, names, r.pool);
      TestPieces(values, j, has, names, pool, m, at);
      var p := at + |r.bytes| + if has then 2 else 0;
      var L := ValuesMapped(values[1..], j + 1, has, names, r.pool, m, K, X, p + 4, skip, end, d, db);
      var J := JumpInto(m.code, L, X, p, OP_JUMP_IF_TRUE, skip + 4, end, s + 1, s, db);
      var T := TestMapped(values[0], has, names, pool, m, X, at, d);
      Join(m.code, T, J, X, at, p, end, s, s + 1, db);
      D := T + J;
    }
  }

  lemma {:induction false} NoTestBytes(j: nat, has: bool, names: seq<Local>, pool: seq<Value>)
    ensures CompValues([], j, has, names, pool).bytes == []
  {
  }

  lemma TestMapped(e: Expr, has: bool, names: seq<Local>, pool: seq<Value>, m: Image, X: Depths, at: nat,
                   d: int) returns (D: Depths)
    requires var r := CompExpr(e, names, pool);
      && Loadable(m) && r.ok && r.exact && r.pool <= m.pool && Plain(e) && Above(names, d)
      && CodeAt(m.code, at, if has then [OP_DUP] + r.bytes + [OP_EQ] else r.bytes)
    ensures Mapped(m.code, D, X, at, at + |CompExpr(e, names, pool).bytes| + (if has then 2 else 0), d + Held(has), d + Held(has) + 1)
  {
    hide Mapped, CompExpr, CodeAt;
    var r := CompExpr(e, names, pool);
    if has {
      var p, q := at + 1, at + 1 + |r.bytes|;
      HoldsBoth(m, at, [OP_DUP] + r.bytes, [OP_EQ]);
      HoldsBoth(m, at, [OP_DUP], r.bytes);
      var A := OnePlain(m.code, X, at, OP_DUP, d + 1);
      var B := OperandMapped(e, names, pool, m, X, p, d + 2);
      var C := OnePlain(m.code, X, q, OP_EQ, d + 3);
      Join(m.code, B, C, X, p, q, q + 1, d + 2, d + 3, d + 2);
      Join(m.code, A, B + C, X, at, p, q + 1, d + 1, d + 2, d + 2);
      D := A + (B + C);
    } else {
      D := OperandMapped(e, names, pool, m, X, at, d);
    }
  }

  // ---------------------------------------------------------------------
  // Whole chunks
  // ---------------------------------------------------------------------

  /**
    In every run from offset 0 with `entry` values on the stack, the depth at each offset is the one
    the map gives for it, whichever way it was reached.
  */
  ghost predicate KeepsTo(m: Image, D: Depths, entry: nat)
  {
    Checked(m.code, D)
    && forall stack: seq<Value>, g, w, n: nat :: |stack| == entry ==>
         var c := RunN(m, n, Run(0, stack, g, w));
         c.Run? ==> c.pc in D && |c.stack| == D[c.pc]
  }

  lemma MapKeepsTo(m: Image, D: Depths, entry: nat)
    requires Checked(m.code, D) && 0 in D && D[0] == entry
    ensures KeepsTo(m, D, entry)
  {
    hide RunN, Checked;
    forall stack: seq<Value>, g, w, n: nat | |stack| == entry
      ensures var c := RunN(m, n, Run(0, stack, g, w)); c.Run? ==> c.pc in D && |c.stack| == D[c.pc]
    {
      RunKeeps(m, n, Run(0, stack, g, w), D);
    }
  }

  /** A body's map serves for the final return too. */
  lemma WholeMapped(r: StmtCode, cx: Context, a: At, D: Depths)
    requires cx.loop == NoLoop && a.pc == 0 && StmtMap(D, r, cx, a) && CodeAt(a.m.code, |r.syms|, [OP_RETURN_NIL])
    ensures Checked(a.m.code, D) && 0 in D && D[0] == |cx.names|
  {
    hide Good, CodeAt;
    ReturnGood(a.m.code, D, |r.syms|);
    assert forall k :: k in D ==> k < |r.syms| || k == |r.syms|;
  }

  lemma ReturnGood(code: seq<byte>, D: Depths, q: nat)
    requires CodeAt(code, q, [OP_RETURN_NIL]) && q in D
    ensures Good(code, D, map[], q)
  {
    hide CodeAt;
    FetchPlain(code, q, OP_RETURN_NIL);
  }

  /** Every exact program has a stack map, which begins with an empty stack. */
  lemma ProgramKeepsTo(ss: seq<Stmt>, S: Slots) returns (D: Depths)
    requires Compiles(CompProgram(ss)) && PlainSeq(ss)
    ensures KeepsTo(Link(CompProgram(ss), S), D, 0)
    ensures Within(AliveSeq(ss, Context(true, [], 0, NoLoop), [], 0), D)
  {
    hide CompSeq, CodeAt, KeepsTo, Checked, StmtMap;
    var cx := Context(true, [], 0, NoLoop);
    var r := CompSeq(ss, cx, []);
    SeqClosed(ss, cx, []);
    var a := EntryPoint(r, CompProgram(ss), S, [], map[], World(map[], []));
    D := SeqMapped(ss, cx, [], a);
    WholeMapped(r, cx, a, D);
    MapKeepsTo(a.m, D, 0);
  }

  /** So has every exact function; its arguments are on the stack when it begins. */
  lemma FunctionKeepsTo(params: seq<Ident>, body: seq<Stmt>, S: Slots) returns (D: Depths)
    requires |params| <= MAX_LOCALS && Compiles(CompFunction(params, body)) && PlainSeq(body)
    ensures KeepsTo(Link(CompFunction(params, body), S), D, |params|)
    ensures Within(AliveBlock(body, Context(false, ParamNames(params), 0, NoLoop), [], 0), D)
  {
    hide CompBlock, CodeAt, KeepsTo, Checked, StmtMap;
    var cx := Context(false, ParamNames(params), 0, NoLoop);
    var r := CompBlock(body, cx, []);
    BlockClosed(body, cx, []);
    var a := EntryPoint(r, CompFunction(params, body), S, [], map[], World(map[], []));
    D := BlockMapped(body, cx, [], a);
    WholeMapped(r, cx, a, D);
    MapKeepsTo(a.m, D, |params|);
  }
}
