/**
  The single-pass compiler as the imperative program it is: it appends bytes to a chunk, leaves
  zero operands behind and patches them, keeps the table of locals up to date, and records the
  jumps of `break` and `continue`. Each method is proved to leave what `CodeGen` says.
*/
module Compiler {
  import opened Values
  import opened Bytecode
  import opened Making
  import opened Naming
  import opened Machine
  import opened Source
  import opened CodeGen
  import opened Patching
  import opened Assembly
  import opened Branches

  datatype Place = LocalSlot(slot: nat) | GlobalName(k: nat)

  class Compiler {
    const top: bool
    var code: seq<byte>
    var pool: seq<Value>
    var names: seq<Local>
    var depth: nat
    var loop: Loop
    var breaks: seq<nat>
    var continues: seq<nat>
    var hadError: bool
    ghost var syms: seq<Sym>

    constructor (top: bool, params: seq<Local>)
      requires Tidy(params, 0)
      ensures Valid() && this.top == top && !hadError && loop == NoLoop
      ensures Now() == Snap([], [], params, 0, [], [])
    {
      this.top, code, pool, names, depth, loop := top, [], [], params, 0, NoLoop;
      breaks, continues, hadError, syms := [], [], false, [];
    }

    ghost predicate Valid()
      reads this
    {
      && code == BytesOf(syms) && Inside(breaks, |code|) && Inside(continues, |code|) && Room(Now())
      && (!hadError ==> Tidy(names, depth))
    }

    ghost function Now(): Snap
      reads this
    {
      Snap(syms, pool, names, depth, breaks, continues)
    }

    ghost function Here(): Context
      reads this
    {
      ContextOf(top, Now(), loop)
    }

    // ---------------------------------------------------------------------
    // The chunk
    // ---------------------------------------------------------------------

    method Error()
      requires Valid()
      modifies `hadError
      ensures Valid() && hadError
    {
      hadError := true;
    }

    method Emit(b: byte)
      requires Valid()
      modifies `code, `syms
      ensures Valid() && syms == old(syms) + Lift([b]) && code == old(code) + [b]
    {
      BytesOfAppend(syms, [b]);
      code := code + [b];
      syms := syms + Lift([b]);
    }

    method EmitOpA(op: byte, a: int)
      requires Valid()
      modifies `code, `syms
      ensures Valid() && syms == old(syms) + Lift(OpA(op, a))
    {
      Emit(op);
      Emit(a % 0x100);
      LiftAppend([op], [a % 0x100]);
      assert OpA(op, a) == [op] + [a % 0x100];
    }

    method EmitOpAX(op: byte, ax: nat)
      requires Valid()
      modifies `code, `syms
      ensures Valid() && syms == old(syms) + Lift(OpAX(op, ax))
    {
      var b2, b1, b0 := (ax / 0x1_0000) % 0x100, (ax / 0x100) % 0x100, ax % 0x100;
      Emit(op);
      Emit(b2);
      Emit(b1);
      Emit(b0);
      assert OpAX(op, ax) == [op] + [b2] + [b1] + [b0];
      LiftAppend([op] + [b2] + [b1], [b0]);
      LiftAppend([op] + [b2], [b1]);
      LiftAppend([op], [b2]);
    }

    method AddConst(v: Value) returns (k: nat)
      modifies `pool
      ensures k == |old(pool)| && pool == old(pool) + [v]
    {
      k := |pool|;
      pool := pool + [v];
    }

    /** A jump with an operand of zero; returns where the operand is. */
    method EmitJump(op: byte) returns (p: nat)
      requires Valid()
      modifies `code, `syms
      ensures Valid() && syms == old(syms) + Lift([op] + Unset) && p == |old(syms)| + 1
    {
      EmitOpAX(op, 0);
      assert OpAX(op, 0) == [op] + Unset;
      p := |code| - 3;
    }

    /** Overwrites the three bytes at p with the distance from their end to the target. */
    method PatchJumpTo(p: nat, target: nat)
      requires Valid() && p + 3 <= |code|
      modifies `code, `syms
      ensures Valid() && syms == PatchSyms(old(syms), p, target)
    {
      var u := (target - (p + 3)) % TWO_24;
      BytesOfPatch(syms, p, target);
      assert JumpOperand(p, target) == [(u / 0x1_0000) % 0x100, (u / 0x100) % 0x100, u % 0x100];
      code := code[p := (u / 0x1_0000) % 0x100][p + 1 := (u / 0x100) % 0x100][p + 2 := u % 0x100];
      syms := PatchSyms(syms, p, target);
    }

    method PatchJump(p: nat)
      requires Valid() && p + 3 <= |code|
      modifies `code, `syms
      ensures Valid() && syms == PatchSyms(old(syms), p, |old(syms)|)
    {
      PatchJumpTo(p, |code|);
    }

    method EmitBackJump(start: nat)
      requires Valid()
      modifies `code, `syms
      ensures Valid() && syms == old(syms) + Lift(Jump(OP_JUMP, start - (|old(syms)| + 4)))
    {
      var p := EmitJump(OP_JUMP);
      PatchJumpTo(p, start);
      PatchBack(old(syms), OP_JUMP, start);
    }

    /** Patches every recorded operand. */
    method PatchEach(ps: seq<nat>, target: nat)
      requires Valid() && Inside(ps, |code|)
      modifies `code, `syms
      ensures Valid() && syms == PatchAll(old(syms), ps, target)
    {
      var i := 0;
      assert ps[0..] == ps;
      while i < |ps|
        invariant 0 <= i <= |ps| && Valid() && |syms| == |old(syms)|
        invariant Inside(ps[i..], |syms|) && PatchAll(syms, ps[i..], target) == PatchAll(old(syms), ps, target)
      {
        assert ps[i..][0] == ps[i] && ps[i..][1..] == ps[i + 1..];
        PatchJumpTo(ps[i], target);
        i := i + 1;
      }
    }

    // ---------------------------------------------------------------------
    // Locals
    // ---------------------------------------------------------------------

    /** From the most recent local down. */
    method ResolveLocal(x: Ident) returns (slot: int)
      ensures slot == Resolve(names, x)
    {
      slot := |names| - 1;
      assert names[..|names|] == names;
      while slot >= 0
        invariant -1 <= slot < |names| && Resolve(names[..slot + 1], x) == Resolve(names, x)
      {
        if names[slot].name == Named(x) {
          assert names[..slot + 1][slot] == names[slot];
          return;
        }
        assert names[..slot + 1][..slot] == names[..slot];
        slot := slot - 1;
      }
    }

    /** Rejects a second declaration in the same scope and the 257th local; otherwise takes the next slot. */
    method DeclareLocal(x: Ident) returns (ok: bool)
      modifies `names
      ensures ok == CanDeclare(old(names), depth, x)
      ensures names == if ok then old(names) + [Local(Named(x), depth)] else old(names)
    {
      if |names| >= MAX_LOCALS {
        return false;
      }
      var i := |names| - 1;
      assert names[..|names|] == names;
      while i >= 0
        invariant -1 <= i < |names| && Duplicate(names, depth, x) == Duplicate(names[..i + 1], depth, x)
      {
        assert names[..i + 1][i] == names[i] && names[..i + 1][..i] == names[..i];
        if names[i].depth < depth {
          break;
        }
        if names[i].name == Named(x) {
          return false;
        }
        i := i - 1;
      }
      names := names + [Local(Named(x), depth)];
      return true;
    }

    /** The nameless local that holds an iterator; without room it is silently not declared. */
    method DeclareHidden()
      modifies `names
      ensures names == if |old(names)| < MAX_LOCALS then old(names) + [Local(Hidden, depth)] else old(names)
    {
      if |names| < MAX_LOCALS {
        names := names + [Local(Hidden, depth)];
      }
    }

    /** Takes a local off the table without emitting anything. */
    method DropLocal()
      modifies `names
      ensures names == if old(names) == [] then [] else old(names)[..|old(names)| - 1]
    {
      if names != [] {
        names := names[..|names| - 1];
      }
    }

    method ScopeBegin()
      modifies `depth
      ensures depth == old(depth) + 1
    {
      depth := depth + 1;
    }

    /** Pops the locals of the innermost scope. */
    method ScopeEnd()
      requires Valid() && depth > 0
      modifies `code, `syms, `names, `depth
      ensures Valid() && depth == old(depth) - 1
      ensures var n := Dying(old(names), old(depth));
        names == old(names)[..|old(names)| - n] && syms == old(syms) + Lift(Pops(n))
    {
      ghost var n := 0;
      assert names[..|names|] == names;
      while names != [] && names[|names| - 1].depth == depth
        invariant Valid() && depth == old(depth)
        invariant n <= |old(names)| && names == old(names)[..|old(names)| - n] && syms == old(syms) + Lift(Pops(n))
        invariant Dying(old(names), depth) == Dying(names, depth) + n
        decreases |names|
      {
        Emit(OP_POP);
        LiftAppend(Pops(n), [OP_POP]);
        assert Pops(n) + [OP_POP] == Pops(n + 1);
        names := names[..|names| - 1];
        n := n + 1;
      }
      depth := depth - 1;
    }

    // ---------------------------------------------------------------------
    // Expressions
    // ---------------------------------------------------------------------

    /** A global's name goes to the constant pool once, however often the place is used. */
    method ResolveVar(x: Ident) returns (at: Place)
      modifies `pool
      ensures at == PlaceOf(names, old(pool), x)
      ensures pool == PoolWith(names, old(pool), x)
    {
      var slot := ResolveLocal(x);
      if slot >= 0 {
        return LocalSlot(slot);
      }
      var k := AddConst(Str(x));
      return GlobalName(k);
    }

    method EmitGetVar(at: Place)
      requires Valid()
      modifies `code, `syms
      ensures Valid() && syms == old(syms) + Lift(GetBytes(at))
    {
      match at
      case LocalSlot(i) => EmitOpA(OP_GET_LOCAL, i);
      case GlobalName(k) => EmitOpAX(OP_GET_GLOBAL, k);
    }

    method EmitSetVar(at: Place)
      requires Valid()
      modifies `code, `syms
      ensures Valid() && syms == old(syms) + Lift(SetBytes(at))
    {
      match at
      case LocalSlot(i) => EmitOpA(OP_SET_LOCAL, i);
      case GlobalName(k) => EmitOpAX(OP_SET_GLOBAL, k);
    }

    method CompileExpr(e: Expr)
      requires Valid()
      modifies `code, `syms, `pool, `hadError
      ensures Valid() && |syms| >= |old(syms)| && (old(hadError) ==> hadError)
      ensures CompiledExpr(old(Now()), old(hadError), Now(), hadError, CompExpr(e, names, old(pool)))
      decreases e, 1
    {
      hide EndsStoring, EndsMakingFunc, EndsMakingClass, Resolve;
      match e
      case Lit(v) =>
        var k := AddConst(v);
        EmitOpAX(OP_CONST, k);
      case BoolLit(b) => Emit(if b then OP_CONST_TRUE else OP_CONST_FALSE);
      case NilLit => Emit(OP_CONST_NIL);
      case Var(x) =>
        PlacesAre(names, pool, x);
        var at := ResolveVar(x);
        EmitGetVar(at);
      case Unary(_, _) => CompileUnary(e);
      case Plus(a) => CompileExpr(a);
      case Binary(_, _, _) => CompileBinary(e);
      case And(l, r) => CompileShort(e, l, OP_AND_JMP, r);
      case Or(l, r) => CompileShort(e, l, OP_OR_JMP, r);
      case Attr(_, _) => CompileAttr(e);
      case Elems(_, _) => CompileElems(e);
      case Call(_, _) => CompileCall(e);
      case Func(_, _, _) => CompileFunc(e);
    }

    method CompileUnary(e: Expr)
      requires Valid() && e.Unary?
      modifies `code, `syms, `pool, `hadError
      ensures Valid() && |syms| >= |old(syms)| && (old(hadError) ==> hadError)
      ensures CompiledExpr(old(Now()), old(hadError), Now(), hadError, CompExpr(e, names, old(pool)))
      decreases e, 0
    {
      CompileExpr(e.operand);
      if UnaryOp(e.uop) {
        LiftAppend(CompExpr(e.operand, names, old(pool)).bytes, [e.uop]);
        Emit(e.uop);
      } else {
        Error();
      }
    }

    method CompileBinary(e: Expr)
      requires Valid() && e.Binary?
      modifies `code, `syms, `pool, `hadError
      ensures Valid() && |syms| >= |old(syms)| && (old(hadError) ==> hadError)
      ensures CompiledExpr(old(Now()), old(hadError), Now(), hadError, CompExpr(e, names, old(pool)))
      decreases e, 0
    {
      hide CompiledExpr;
      ghost var s0, e0 := Now(), hadError;
      CompileExpr(e.left);
      ghost var s1, e1 := Now(), hadError;
      CompileExpr(e.right);
      ghost var s2, e2 := Now(), hadError;
      if Arity(e.bop) == 2 {
        Emit(e.bop);
      } else {
        Error();
      }
      ghost var l := CompExpr(e.left, names, s0.pool);
      ExprEnd(s0, e0, s1, e1, l);
      ExprErr(s0, e0, s1, e1, l);
      ExprErr(s1, e1, s2, e2, CompExpr(e.right, names, s1.pool));
      ExprsThen(s0, e0, s1, e1, s2, e2, l, CompExpr(e.right, names, s1.pool), CompExpr(e.right, names, l.pool), [e.bop],
                Now(), hadError, CompExpr(e, names, s0.pool));
    }

    /** `and` and `or`: the operand of the jump is patched once the right operand is there. */
    method CompileShort(e: Expr, left: Expr, op: byte, right: Expr)
      requires Valid()
      requires IsShort(e, left, op, right)
      modifies `code, `syms, `pool, `hadError
      ensures Valid() && |syms| >= |old(syms)| && (old(hadError) ==> hadError)
      ensures CompiledExpr(old(Now()), old(hadError), Now(), hadError, CompExpr(e, names, old(pool)))
      decreases e, 0
    {
      hide CompExpr, PatchSyms, CompiledExpr;
      CompileExpr(left);
      ghost var afterLeft, err := Now(), hadError;
      var p := EmitJump(op);
      CompileExpr(right);
      ghost var afterRight := Now();
      PatchJump(p);
      ShortCompiled(e, left, op, right, old(Now()), old(hadError), afterLeft, err, afterRight, hadError);
    }

    method CompileAttr(e: Expr)
      requires Valid() && e.Attr?
      modifies `code, `syms, `pool, `hadError
      ensures Valid() && |syms| >= |old(syms)| && (old(hadError) ==> hadError)
      ensures CompiledExpr(old(Now()), old(hadError), Now(), hadError, CompExpr(e, names, old(pool)))
      decreases e, 0
    {
      ghost var o := CompExpr(e.obj, names, pool);
      CompileExpr(e.obj);
      LiftAppend(o.bytes, OpAX(OP_GET_ATTR, |o.pool|));
      var k := AddConst(Str(e.name));
      EmitOpAX(OP_GET_ATTR, k);
    }

    method CompileElems(e: Expr)
      requires Valid() && e.Elems?
      modifies `code, `syms, `pool, `hadError
      ensures Valid() && |syms| >= |old(syms)| && (old(hadError) ==> hadError)
      ensures CompiledExpr(old(Now()), old(hadError), Now(), hadError, CompExpr(e, names, old(pool)))
      decreases e, 0
    {
      CompileAll(e.elems);
      if |e.elems| > 255 || !BuildOp(e.build) {
        Error();
        return;
      }
      LiftAppend(CompExprs(e.elems, names, old(pool)).bytes, OpA(e.build, |e.elems|));
      EmitOpA(e.build, |e.elems|);
    }

    method CompileCall(e: Expr)
      requires Valid() && e.Call?
      modifies `code, `syms, `pool, `hadError
      ensures Valid() && |syms| >= |old(syms)| && (old(hadError) ==> hadError)
      ensures CompiledExpr(old(Now()), old(hadError), Now(), hadError, CompExpr(e, names, old(pool)))
      decreases e, 0
    {
      if e.callee.Var? && e.callee.x == Text("super") {
        Error();
        return;
      }
      hide CompiledExpr, CompExprs;
      ghost var s0, e0 := Now(), hadError;
      CompileExpr(e.callee);
      ghost var s1, e1 := Now(), hadError;
      CompileAll(e.args);
      ghost var s2 := Now();
      EmitOpA(OP_CALL, |e.args|);
      ghost var f := CompExpr(e.callee, names, s0.pool);
      ExprEnd(s0, e0, s1, e1, f);
      ExprErr(s0, e0, s1, e1, f);
      ExprErr(s1, e1, s2, hadError, CompExprs(e.args, names, s1.pool));
      ExprsThen(s0, e0, s1, e1, s2, hadError, f, CompExprs(e.args, names, s1.pool), CompExprs(e.args, names, f.pool),
                OpA(OP_CALL, |e.args|), Now(), hadError, CompExpr(e, names, s0.pool));
    }

    /** The defaults, then the instruction that makes the closure; the compiled body is a constant. */
    method CompileFunc(e: Expr)
      requires Valid() && e.Func?
      modifies `code, `syms, `pool, `hadError
      ensures Valid() && |syms| >= |old(syms)| && (old(hadError) ==> hadError)
      ensures CompiledExpr(old(Now()), old(hadError), Now(), hadError, CompExpr(e, names, old(pool)))
      ensures EndsMakingFunc(code, |code| - 5 - 2 * |e.captures|, pool, e.proto, e.captures)
      decreases e, 0
    {
      hide MakeFunc, EndsMakingFunc;
      ghost var rs := CompExprs(e.defaults, names, pool);
      CompileAll(e.defaults);
      var k := AddConst(e.proto);
      FuncAtEnd(syms, k, pool, e.proto, e.captures);
      EmitMakeFunc(k, e.captures);
      LiftAppend(rs.bytes, MakeFunc(|rs.pool|, e.captures));
    }

    method EmitMakeFunc(k: nat, captures: seq<Desc>)
      requires Valid()
      modifies `code, `syms
      ensures Valid() && syms == old(syms) + Lift(MakeFunc(k, captures))
    {
      hide Pairs;
      EmitOpAX(OP_MAKE_FUNC, k);
      Emit(|captures| % 0x100);
      EmitPairs(captures);
      assert FuncHead(k, |captures|) == OpAX(OP_MAKE_FUNC, k) + [|captures| % 0x100];
      LiftAppend(OpAX(OP_MAKE_FUNC, k), [|captures| % 0x100]);
      LiftAppend(FuncHead(k, |captures|), Pairs(captures));
    }

    method EmitPairs(ds: seq<Desc>)
      requires Valid()
      modifies `code, `syms
      ensures Valid() && syms == old(syms) + Lift(Pairs(ds))
    {
      var i := 0;
      while i < |ds|
        invariant 0 <= i <= |ds| && Valid() && syms == old(syms) + Lift(Pairs(ds[..i]))
      {
        Emit(if ds[i].isLocal then 1 else 0);
        Emit(ds[i].index % 0x100);
        assert ds[..i + 1][..i] == ds[..i];
        LiftAppend([if ds[i].isLocal then 1 else 0], [ds[i].index % 0x100]);
        LiftAppend(Pairs(ds[..i]), DescBytes(ds[i]));
        i := i + 1;
      }
      assert ds[..|ds|] == ds;
    }

    /** One after the other, left to right. */
    method CompileAll(es: seq<Expr>)
      requires Valid()
      modifies `code, `syms, `pool, `hadError
      ensures Valid() && |syms| >= |old(syms)| && (old(hadError) ==> hadError)
      ensures CompiledExpr(old(Now()), old(hadError), Now(), hadError, CompExprs(es, names, old(pool)))
      decreases es, 0
    {
      ghost var all := CompExprs(es, names, pool);
      var i := 0;
      assert es[0..] == es;
      while i < |es|
        invariant 0 <= i <= |es| && Valid() && |syms| >= |old(syms)|
        invariant hadError ==> old(hadError) || !all.ok
        invariant !hadError ==> !old(hadError) && Joins(old(syms), all, syms, CompExprs(es[i..], names, pool))
      {
        ghost var rest := CompExprs(es[i..], names, pool);
        ghost var v := CompExpr(es[i], names, pool);
        assert es[i..][0] == es[i] && es[i..][1..] == es[i + 1..];
        ghost var s := syms;
        CompileExpr(es[i]);
        if !hadError {
          JoinStep(old(syms), all, s, v, CompExprs(es[i + 1..], names, pool));
        }
        i := i + 1;
      }
    }

    // ---------------------------------------------------------------------
    // Statements
    // ---------------------------------------------------------------------

    method CompileStmt(s: Stmt)
      requires Valid()
      modifies this
      ensures Valid() && |syms| >= |old(syms)| && depth >= old(depth) && loop == old(loop) && (old(hadError) ==> hadError)
      ensures Compiled(old(Now()), old(hadError), Now(), hadError, CompStmt(s, old(Here()), old(pool)))
      decreases s, 2
    {
      hide EndsStoring, EndsMakingFunc, EndsMakingClass, Compiled, CompBlock, CompCases, CompExpr, CompExprs, BytesOf, Tidy,
           Inside, VarDeclCode, AssignCode, SetItemCode, SetAttrCode, DelItemCode, CompoundCode, DeclCode, ClassCode, BreakCode,
           ContinueCode, CanDeclare;
      match s
      case ExprStmt(e) => CompileExprStmt(e);
      case VarDecl(x, init) => CompileVarDecl(x, init);
      case Assign(x, e) => CompileAssign(x, e);
      case SetItem(obj, key, e) => CompileSetItem([e, obj, key]);
      case SetAttr(obj, name, e) => CompileSetAttr([e, obj], name);
      case DelItem(obj, key) => CompileDelItem([obj, key]);
      case Compound(op, x, e) => CompileCompound(op, x, e);
      case If(_, _, _, _) => CompileIf(s);
      case While(_, _) => CompileFor(s);
      case Forever(_) => CompileFor(s);
      case ForIn(_, _, _) => CompileFor(s);
      case Switch(_, _) => CompileSwitch(s);
      case Block(ss) => CompileBlock(ss);
      case Break => CompileBreak();
      case Continue => CompileContinue();
      case Pass => StraightCompiled(Now(), hadError, Now(), hadError, Straight([], pool, names, true, true), []);
      case Return(e) => CompileReturn(e);
      case FuncDecl(x, f) => CompileFuncDecl(x, f);
      case ClassDecl(x, base, ms) => CompileClassDecl(x, base, ms);
    }

    method CompileExprStmt(e: Expr)
      requires Valid()
      modifies `code, `syms, `pool, `hadError
      ensures Valid() && |syms| >= |old(syms)| && (old(hadError) ==> hadError)
      ensures Compiled(old(Now()), old(hadError), Now(), hadError, ExprStmtCode(e, names, old(pool)))
    {
      ghost var r := CompExpr(e, names, pool);
      CompileExpr(e);
      Emit(OP_POP);
      LiftAppend(r.bytes, [OP_POP]);
      StraightCompiled(old(Now()), old(hadError), Now(), hadError, ExprStmtCode(e, names, old(pool)), r.bytes + [OP_POP]);
    }

    method CompileOpt(e: Option<Expr>)
      requires Valid()
      modifies `code, `syms, `pool, `hadError
      ensures Valid() && |syms| >= |old(syms)| && (old(hadError) ==> hadError)
      ensures CompiledExpr(old(Now()), old(hadError), Now(), hadError, OptExpr(e, names, old(pool)))
    {
      if e.Some? {
        CompileExpr(e.value);
      } else {
        Emit(OP_CONST_NIL);
      }
    }

    /** Inside a function the value stays where it is and becomes the local; outside it becomes a global. */
    method CompileVarDecl(x: Ident, init: Option<Expr>)
      requires Valid()
      modifies `code, `syms, `pool, `hadError, `names
      ensures Valid() && |syms| >= |old(syms)| && (old(hadError) ==> hadError)
      ensures Compiled(old(Now()), old(hadError), Now(), hadError, VarDeclCode(x, init, old(Here()), old(pool)))
    {
      hide OptExpr, Compiled;
      ghost var r := OptExpr(init, names, pool);
      ghost var whole := VarDeclCode(x, init, Here(), pool);
      CompileOpt(init);
      if !top {
        var ok := DeclareLocal(x);
        if !ok {
          Error();
        }
        StraightCompiled(old(Now()), old(hadError), Now(), hadError, whole, r.bytes);
      } else {
        var k := AddConst(Str(x));
        EmitOpAX(OP_SET_GLOBAL, k);
        Emit(OP_POP);
        LiftAppend(r.bytes, OpAX(OP_SET_GLOBAL, |r.pool|));
        LiftAppend(r.bytes + OpAX(OP_SET_GLOBAL, |r.pool|), [OP_POP]);
        StraightCompiled(old(Now()), old(hadError), Now(), hadError, whole, r.bytes + OpAX(OP_SET_GLOBAL, |r.pool|) + [OP_POP]);
      }
    }

    method CompileAssign(x: Ident, e: Expr)
      requires Valid()
      modifies `code, `syms, `pool, `hadError
      ensures Valid() && |syms| >= |old(syms)| && (old(hadError) ==> hadError)
      ensures Compiled(old(Now()), old(hadError), Now(), hadError, AssignCode(x, e, names, old(pool)))
    {
      hide Compiled, CompiledExpr, CompExpr, GetVar, SetVar, GetBytes, SetBytes, PlaceOf, PoolWith;
      ghost var s0, e0 := Now(), hadError;
      CompileExpr(e);
      ghost var s1 := Now();
      var at := ResolveVar(x);
      EmitSetVar(at);
      Emit(OP_POP);
      AssignCompiled(x, e, s0, e0, s1, hadError, at, Now());
    }

    /** The place is resolved once, before the operand, and used for the read and for the write. */
    method CompileCompound(op: byte, x: Ident, e: Expr)
      requires Valid()
      modifies `code, `syms, `pool, `hadError
      ensures Valid() && |syms| >= |old(syms)| && (old(hadError) ==> hadError)
      ensures Compiled(old(Now()), old(hadError), Now(), hadError, CompoundCode(op, x, e, names, old(pool)))
    {
      hide Compiled, CompiledExpr, CompExpr, GetVar, SetVar, GetBytes, SetBytes, PlaceOf, PoolWith;
      ghost var s0, e0 := Now(), hadError;
      var at := ResolveVar(x);
      EmitGetVar(at);
      ghost var s1 := Now();
      CompileExpr(e);
      ghost var s2, e2 := Now(), hadError;
      if CompoundOp(op) {
        Emit(op);
      } else {
        Error();
      }
      EmitSetVar(at);
      Emit(OP_POP);
      CompoundCompiled(op, x, e, s0, e0, s1, s2, e2, at, Now(), hadError);
    }

    method CompileSetItem(es: seq<Expr>)
      requires Valid()
      modifies `code, `syms, `pool, `hadError
      ensures Valid() && |syms| >= |old(syms)| && (old(hadError) ==> hadError)
      ensures Compiled(old(Now()), old(hadError), Now(), hadError, SetItemCode(es, names, old(pool)))
    {
      hide Compiled;
      ghost var r := CompExprs(es, names, pool);
      CompileAll(es);
      Emit(OP_SET_ITEM);
      Emit(OP_POP);
      LiftAppend(r.bytes, [OP_SET_ITEM]);
      LiftAppend(r.bytes + [OP_SET_ITEM], [OP_POP]);
      StraightCompiled(old(Now()), old(hadError), Now(), hadError, SetItemCode(es, names, old(pool)), r.bytes + [OP_SET_ITEM] + [OP_POP]);
    }

    method CompileSetAttr(es: seq<Expr>, name: Text)
      requires Valid()
      modifies `code, `syms, `pool, `hadError
      ensures Valid() && |syms| >= |old(syms)| && (old(hadError) ==> hadError)
      ensures Compiled(old(Now()), old(hadError), Now(), hadError, SetAttrCode(es, name, names, old(pool)))
    {
      hide Compiled;
      ghost var r := CompExprs(es, names, pool);
      CompileAll(es);
      var k := AddConst(Str(name));
      EmitOpAX(OP_SET_ATTR, k);
      Emit(OP_POP);
      LiftAppend(r.bytes, OpAX(OP_SET_ATTR, |r.pool|));
      LiftAppend(r.bytes + OpAX(OP_SET_ATTR, |r.pool|), [OP_POP]);
      StraightCompiled(old(Now()), old(hadError), Now(), hadError, SetAttrCode(es, name, names, old(pool)),
                       r.bytes + OpAX(OP_SET_ATTR, |r.pool|) + [OP_POP]);
    }

    method CompileDelItem(es: seq<Expr>)
      requires Valid()
      modifies `code, `syms, `pool, `hadError
      ensures Valid() && |syms| >= |old(syms)| && (old(hadError) ==> hadError)
      ensures Compiled(old(Now()), old(hadError), Now(), hadError, DelItemCode(es, names, old(pool)))
    {
      hide Compiled;
      ghost var r := CompExprs(es, names, pool);
      CompileAll(es);
      Emit(OP_DEL_ITEM);
      LiftAppend(r.bytes, [OP_DEL_ITEM]);
      StraightCompiled(old(Now()), old(hadError), Now(), hadError, DelItemCode(es, names, old(pool)), r.bytes + [OP_DEL_ITEM]);
    }

    method CompileReturn(e: Option<Expr>)
      requires Valid()
      modifies `code, `syms, `pool, `hadError
      ensures Valid() && |syms| >= |old(syms)| && (old(hadError) ==> hadError)
      ensures Compiled(old(Now()), old(hadError), Now(), hadError, ReturnCode(e, old(Here()), old(pool)))
    {
      hide Compiled, OptExpr;
      ghost var r := OptExpr(e, names, pool);
      ghost var whole := ReturnCode(e, Here(), pool);
      if top {
        Error();
        RejectedCode(old(Now()), old(hadError), Now(), whole);
        return;
      }
      CompileOpt(e);
      Emit(OP_RETURN);
      LiftAppend(r.bytes, [OP_RETURN]);
      StraightCompiled(old(Now()), old(hadError), Now(), hadError, whole, r.bytes + [OP_RETURN]);
    }

    /** Stores a declaration's value in its variable and pops it. */
    method BindDeclName(x: Ident)
      requires Valid()
      modifies `code, `syms, `pool, `hadError, `names
      ensures Valid() && |syms| >= |old(syms)| && (old(hadError) ==> hadError)
      ensures top ==> hadError == old(hadError) && names == old(names) && pool == old(pool) + [Str(x)]
      ensures top ==> syms == old(syms) + Lift(OpAX(OP_SET_GLOBAL, |old(pool)|) + [OP_POP])
      ensures top ==> EndsStoring(code, pool, x)
      ensures !top ==> hadError == (old(hadError) || !CanDeclare(old(names), depth, x)) && pool == old(pool)
      ensures !top && CanDeclare(old(names), depth, x) ==> names == old(names) + [Local(Named(x), depth)]
      ensures !top && CanDeclare(old(names), depth, x) ==> syms == old(syms) + Lift(OpA(OP_SET_LOCAL, |old(names)|) + [OP_POP])
    {
      hide EndsStoring, CanDeclare, OpAX, OpA;
      if top {
        var k := AddConst(Str(x));
        StoreAtEnd(syms, pool, x);
        EmitOpAX(OP_SET_GLOBAL, k);
        LiftAppend(OpAX(OP_SET_GLOBAL, k), [OP_POP]);
      } else {
        var slot := |names|;
        var ok := DeclareLocal(x);
        if !ok {
          Error();
          return;
        }
        EmitOpA(OP_SET_LOCAL, slot);
        LiftAppend(OpA(OP_SET_LOCAL, slot), [OP_POP]);
      }
      Emit(OP_POP);
    }

    method CompileFuncDecl(x: Ident, f: Expr)
      requires Valid()
      modifies `code, `syms, `pool, `hadError, `names
      ensures Valid() && |syms| >= |old(syms)| && (old(hadError) ==> hadError)
      ensures Compiled(old(Now()), old(hadError), Now(), hadError, DeclCode(CompExpr(f, old(names), old(pool)), x, old(Here())))
      ensures top ==> EndsStoring(code, pool, x)
    {
      hide EndsStoring, EndsMakingFunc, EndsMakingClass, Compiled, CompExpr, CanDeclare;
      ghost var s0, e0, r, cx := Now(), hadError, CompExpr(f, names, pool), Here();
      CompileExpr(f);
      ghost var s1, e1 := Now(), hadError;
      ExprErr(s0, e0, s1, e1, r);
      ExprEnd(s0, e0, s1, e1, r);
      BindDeclName(x);
      ExprThen(s0, e0, s1, e1, r, DeclTail(r, cx), Now(), hadError, DeclCode(r, x, cx));
    }

    method CompileClassDecl(x: Ident, base: Option<Expr>, ms: seq<Method>)
      requires Valid()
      modifies `code, `syms, `pool, `hadError, `names
      ensures Valid() && |syms| >= |old(syms)| && (old(hadError) ==> hadError)
      ensures Compiled(old(Now()), old(hadError), Now(), hadError, DeclCode(ClassCode(x, base, ms, old(names), old(pool)), x, old(Here())))
      ensures top && !hadError ==> EndsStoring(code, pool, x)
    {
      hide EndsStoring, EndsMakingFunc, EndsMakingClass, Compiled, ClassCode, CanDeclare;
      ghost var s0, e0, r, cx := Now(), hadError, ClassCode(x, base, ms, names, pool), Here();
      CompileClass(x, base, ms);
      ghost var s1, e1 := Now(), hadError;
      ExprErr(s0, e0, s1, e1, r);
      ExprEnd(s0, e0, s1, e1, r);
      if !hadError {
        BindDeclName(x);
      }
      ExprThen(s0, e0, s1, e1, r, DeclTail(r, cx), Now(), hadError, DeclCode(r, x, cx));
    }

    /** The base, the methods' constants, the class's name, and the instruction; a 256th method is an error. */
    method CompileClass(x: Ident, base: Option<Expr>, ms: seq<Method>)
      requires Valid()
      modifies `code, `syms, `pool, `hadError
      ensures Valid() && |syms| >= |old(syms)| && (old(hadError) ==> hadError)
      ensures CompiledExpr(old(Now()), old(hadError), Now(), hadError, ClassCode(x, base, ms, names, old(pool)))
      ensures |ms| <= MAX_COUNT ==> EndsMakingClass(code, |code| - 5 - 4 * |ms|, pool, x, if base.Some? then 1 else 0, ms)
    {
      hide MakeClass, CompExpr, MethodPool, Numbered, EndsMakingClass, Names;
      ghost var b := Subject(base, names, pool);
      if base.Some? {
        CompileExpr(base.value);
      }
      ghost var before := pool;
      var ok, members := AddMethods(ms);
      if !ok {
        Error();
        return;
      }
      var k := AddConst(Str(x));
      NumberedNames(ms, before, Str(x));
      ClassAtEnd(syms, pool, x, if base.Some? then 1 else 0, ms, members);
      EmitMakeClass(k, if base.Some? then 1 else 0, members);
      LiftAppend(b.bytes, MakeClass(k, if base.Some? then 1 else 0, members));
    }

    /** Each method's function and name; the 256th method is one too many. */
    method AddMethods(ms: seq<Method>) returns (ok: bool, members: seq<Member>)
      modifies `pool
      ensures ok == (|ms| <= MAX_COUNT)
      ensures ok ==> pool == MethodPool(ms, |ms|, old(pool)) && members == Numbered(|ms|, |old(pool)|)
    {
      members := [];
      while |members| < |ms|
        invariant |members| <= |ms| && |members| <= MAX_COUNT
        invariant pool == MethodPool(ms, |members|, old(pool)) && members == Numbered(|members|, |old(pool)|)
      {
        if |members| >= MAX_COUNT {
          return false, members;
        }
        OneMoreNumber(|members|, |old(pool)|);
        var funcIdx := AddConst(ms[|members|].proto);
        var nameIdx := AddConst(Str(ms[|members|].name));
        members := members + [Member(nameIdx, funcIdx)];
      }
      return true, members;
    }

    method EmitU16(n: nat)
      requires Valid()
      modifies `code, `syms
      ensures Valid() && syms == old(syms) + Lift(U16(n))
    {
      Emit((n / 0x100) % 0x100);
      Emit(n % 0x100);
      LiftAppend([(n / 0x100) % 0x100], [n % 0x100]);
    }

    method EmitMakeClass(nameIdx: nat, bases: nat, ms: seq<Member>)
      requires Valid()
      modifies `code, `syms
      ensures Valid() && syms == old(syms) + Lift(MakeClass(nameIdx, bases, ms))
    {
      hide Members, U16;
      Emit(OP_MAKE_CLASS);
      EmitU16(nameIdx);
      Emit(|ms| % 0x100);
      Emit(bases % 0x100);
      LiftAppend([OP_MAKE_CLASS], U16(nameIdx));
      LiftAppend([|ms| % 0x100], [bases % 0x100]);
      LiftAppend([OP_MAKE_CLASS] + U16(nameIdx), [|ms| % 0x100, bases % 0x100]);
      EmitMembers(ms);
      LiftAppend(ClassStart(nameIdx, bases, |ms|), Members(ms));
    }

    method EmitMembers(ms: seq<Member>)
      requires Valid()
      modifies `code, `syms
      ensures Valid() && syms == old(syms) + Lift(Members(ms))
    {
      hide U16;
      var i := 0;
      while i < |ms|
        invariant 0 <= i <= |ms| && Valid() && syms == old(syms) + Lift(Members(ms[..i]))
      {
        EmitU16(ms[i].name);
        EmitU16(ms[i].func);
        assert ms[..i + 1][..i] == ms[..i];
        LiftAppend(U16(ms[i].name), U16(ms[i].func));
        LiftAppend(Members(ms[..i]), U16(ms[i].name) + U16(ms[i].func));
        i := i + 1;
      }
      assert ms[..|ms|] == ms;
    }

    /** The jump of a `break` or a `continue`: zeros for now. */
    method EmitHole(kind: Kind) returns (p: nat)
      requires Valid()
      modifies `code, `syms
      ensures Valid() && p == |old(syms)| + 1
      ensures syms == old(syms) + HoleSyms(kind)
    {
      p := EmitJump(OP_JUMP);
      syms := old(syms) + HoleSyms(kind);
      assert code == BytesOf(syms);
    }

    /** Pops everything the loop body has on the stack, then leaves. */
    method CompileBreak()
      requires Valid()
      modifies `code, `syms, `hadError, `breaks
      ensures Valid() && |syms| >= |old(syms)| && (old(hadError) ==> hadError)
      ensures Compiled(old(Now()), old(hadError), Now(), hadError, BreakCode(old(Here()), pool))
    {
      hide Compiled, BytesOf, Tidy, BreakCode, HoleSyms, Pops, Whole, Holes, CountBreaks, CountContinues;
      ghost var s0, e0, r := Now(), hadError, BreakCode(Here(), pool);
      if loop == NoLoop {
        NoLoopCode(Here(), pool);
        Error();
        RejectedCode(s0, e0, Now(), r);
        return;
      }
      BreakShape(Here(), pool, |syms|);
      if |breaks| >= MAX_PATCHES {
        Error();
        RejectedCode(s0, e0, Now(), r);
        return;
      }
      PopDownTo(loop.base);
      var p := EmitHole(ForBreak);
      breaks := breaks + [p];
      assert s0.syms + r.syms == syms;
      HoleEmitted(s0, e0, Now(), r);
    }

    method PopDownTo(base: nat)
      requires Valid()
      modifies `code, `syms
      ensures Valid() && syms == old(syms) + Lift(Pops(if |names| > base then |names| - base else 0))
    {
      var i := |names| - 1;
      while i >= base
        invariant base - 1 <= i || i == |names| - 1
        invariant i < |names| && Valid()
        invariant syms == old(syms) + Lift(Pops(|names| - 1 - i))
      {
        Emit(OP_POP);
        LiftAppend(Pops(|names| - 1 - i), [OP_POP]);
        assert Pops(|names| - 1 - i) + [OP_POP] == Pops(|names| - i);
        i := i - 1;
      }
    }

    method CompileContinue()
      requires Valid()
      modifies `code, `syms, `hadError, `continues
      ensures Valid() && |syms| >= |old(syms)| && (old(hadError) ==> hadError)
      ensures Compiled(old(Now()), old(hadError), Now(), hadError, ContinueCode(old(Here()), pool))
    {
      hide Compiled;
      ghost var s0, e0, r := Now(), hadError, ContinueCode(Here(), pool);
      if loop == NoLoop {
        Error();
        RejectedCode(s0, e0, Now(), r);
        return;
      }
      ContinueShape(Here(), pool, |syms|);
      if |continues| >= MAX_PATCHES {
        Error();
        RejectedCode(s0, e0, Now(), r);
        return;
      }
      var p := EmitHole(ForContinue);
      continues := continues + [p];
      HoleEmitted(s0, e0, Now(), r);
    }

    // ---------------------------------------------------------------------
    // Control flow
    // ---------------------------------------------------------------------

    method CompileIf(s: Stmt)
      requires Valid() && s.If?
      modifies this
      ensures Valid() && |syms| >= |old(syms)| && depth >= old(depth) && loop == old(loop) && (old(hadError) ==> hadError)
      ensures Compiled(old(Now()), old(hadError), Now(), hadError, CompStmt(s, old(Here()), old(pool)))
      decreases s, 1
    {
      hide Compiled, CompiledExpr, CompExpr, CompBlock, CompStmt, PatchSyms, BytesOf, Tidy, Inside;
      ghost var s0, e0, cx := Now(), hadError, Here();
      CompileExpr(s.cond);
      ghost var s1, e1 := Now(), hadError;
      ExprEnd(s0, e0, s1, e1, CompExpr(s.cond, s0.names, s0.pool));
      var jumpFalse := EmitJump(OP_JUMP_IF_FALSE);
      CompileBlock(s.thn);
      ghost var s2, e2 := Now(), hadError;
      JumpAndBody(s0, e0, s1, e1, s2, e2, CompExpr(s.cond, s0.names, s0.pool), OP_JUMP_IF_FALSE, s.thn, top, loop);
      if s.hasElse {
        ghost var s3, s4 := CompileElse(s.els, jumpFalse);
        IfElseCompiled(s, cx, s0, e0, s1, s2, e2, s3, s4, hadError, Now());
      } else {
        PatchJump(jumpFalse);
        IfCompiled(s, cx, s0, e0, s1, s2, e2, Now());
      }
    }

    /** The jump over the else block, the block, and the patches of both jumps. */
    method CompileElse(els: seq<Stmt>, jumpFalse: nat) returns (ghost s3: Snap, ghost s4: Snap)
      requires Valid() && jumpFalse + 3 <= |code|
      modifies this
      ensures Valid() && |syms| >= |old(syms)| && depth >= old(depth) && loop == old(loop) && (old(hadError) ==> hadError)
      ensures s3 == old(Now()).(syms := PatchSyms(old(syms) + Lift([OP_JUMP] + Unset), jumpFalse, |old(syms)| + 4))
      ensures Compiled(s3, old(hadError), s4, hadError, CompBlock(els, ContextOf(top, s3, loop), s3.pool))
      ensures |old(syms)| + 4 <= |s4.syms| && Now() == s4.(syms := PatchSyms(s4.syms, |old(syms)| + 1, |s4.syms|))
      decreases els, 2
    {
      hide Compiled, CompBlock, PatchSyms, BytesOf, Tidy, Inside;
      var jumpEnd := EmitJump(OP_JUMP);
      PatchJump(jumpFalse);
      s3 := Now();
      CompileBlock(els);
      s4 := Now();
      PatchJump(jumpEnd);
    }

    /** The locals of the block are popped at its end; after an error the rest of it is skipped. */
    method CompileBlock(ss: seq<Stmt>)
      requires Valid()
      modifies this
      ensures Valid() && |syms| >= |old(syms)| && depth >= old(depth) && loop == old(loop) && (old(hadError) ==> hadError)
      ensures Compiled(old(Now()), old(hadError), Now(), hadError, CompBlock(ss, old(Here()), old(pool)))
      decreases ss, 1
    {
      hide Compiled, CompStmt, CompSeq, BytesOf, Inside;
      ghost var s0, e0, cx := Now(), hadError, Here();
      ScopeBegin();
      ghost var begun, inner := Now(), Here();
      ghost var done := Bytes([], pool, names);
      NothingDone(ss, begun, inner);
      var i := 0;
      while i < |ss|
        invariant 0 <= i <= |ss| && Valid() && |syms| >= |old(syms)| && depth > old(depth) && loop == old(loop)
        invariant hadError == e0
        invariant !hadError ==> Progress(ss, i, begun, inner, done, Now())
      {
        ghost var at := Now();
        CompileStmt(ss[i]);
        if hadError {
          BlockRejected(ss, i, s0, e0, begun, cx, done, at, Now());
          return;
        }
        done := StepDone(ss, i, begun, inner, done, at, Now());
        i := i + 1;
      }
      ghost var end := Now();
      ScopeEnd();
      if !hadError {
        BlockCompiled(ss, s0, begun, cx, done, end, Now());
      } else {
        StillRejected(s0, Now(), CompBlock(ss, cx, s0.pool));
      }
    }

    /** A loop has its own lists of jumps; those of the enclosing loop come back afterwards. */
    method CompileFor(s: Stmt)
      requires Valid() && (s.While? || s.Forever? || s.ForIn?)
      modifies this
      ensures Valid() && |syms| >= |old(syms)| && depth >= old(depth) && loop == old(loop) && (old(hadError) ==> hadError)
      ensures Compiled(old(Now()), old(hadError), Now(), hadError, CompStmt(s, old(Here()), old(pool)))
      decreases s, 1
    {
      hide Compiled, CompiledLoop, CompStmt, LoopRaw, PatchAll, BytesOf, Tidy;
      ghost var outer, e0, cx := Now(), hadError, Here();
      var outerLoop, outerBreaks, outerContinues := loop, breaks, continues;
      loop, breaks, continues := InLoop(|names|, s.ForIn?), [], [];
      ghost var s0 := Now();
      if s.ForIn? {
        CompileForIn(s);
      } else if s.While? {
        CompileWhile(s);
      } else {
        CompileInfinite(s);
      }
      ghost var s1 := Now();
      PatchEach(breaks, |code|);
      loop, breaks, continues := outerLoop, outerBreaks, outerContinues;
      ForCompiled(s, cx, s0, e0, s1, hadError, outer, Now());
    }

    method CompileWhile(s: Stmt)
      requires Valid() && s.While? && breaks == [] && continues == [] && loop == InLoop(|names|, false)
      modifies this
      ensures Valid() && |syms| >= |old(syms)| && depth >= old(depth) && loop == old(loop) && (old(hadError) ==> hadError)
      ensures CompiledLoop(old(Now()), old(hadError), Now(), hadError, LoopRaw(s, old(Here()), old(pool)), LoopStart(s, old(Here()), old(pool)))
      decreases s, 0
    {
      hide Compiled, CompiledExpr, CompiledLoop, CompExpr, CompBlock, PatchAll, PatchSyms, LoopRaw, LoopStart,
           BytesOf, Tidy, Inside;
      ghost var s0, e0, cx := Now(), hadError, Here();
      var start := |code|;
      CompileExpr(s.cond);
      ghost var s1, e1 := Now(), hadError;
      ExprEnd(s0, e0, s1, e1, CompExpr(s.cond, s0.names, s0.pool));
      var exit := EmitJump(OP_JUMP_IF_FALSE);
      CompileBlock(s.body);
      ghost var s2 := Now();
      JumpAndBody(s0, e0, s1, e1, s2, hadError, CompExpr(s.cond, s0.names, s0.pool), OP_JUMP_IF_FALSE, s.body, top, loop);
      PatchEach(continues, start);
      EmitBackJump(start);
      PatchJump(exit);
      WhileCompiled(s, cx, s0, e0, s1, s2, hadError, Now());
    }

    method CompileInfinite(s: Stmt)
      requires Valid() && s.Forever? && breaks == [] && continues == [] && loop == InLoop(|names|, false)
      modifies this
      ensures Valid() && |syms| >= |old(syms)| && depth >= old(depth) && loop == old(loop) && (old(hadError) ==> hadError)
      ensures CompiledLoop(old(Now()), old(hadError), Now(), hadError, LoopRaw(s, old(Here()), old(pool)), LoopStart(s, old(Here()), old(pool)))
      decreases s, 0
    {
      hide Compiled, CompiledLoop, CompBlock, PatchAll, LoopRaw, LoopStart, BytesOf, Tidy, Inside;
      ghost var s0, e0, cx := Now(), hadError, Here();
      var start := |code|;
      CompileBlock(s.body);
      ghost var s2 := Now();
      PatchEach(continues, start);
      EmitBackJump(start);
      InfiniteCompiled(s, cx, s0, e0, s2, hadError, Now());
    }

    /** The iterator is a nameless local; FOR_ITER pops it, so it is dropped without code at the end. */
    method CompileForIn(s: Stmt)
      requires Valid() && s.ForIn? && breaks == [] && continues == [] && loop == InLoop(|names|, true)
      modifies this
      ensures Valid() && |syms| >= |old(syms)| && depth >= old(depth) && loop == old(loop) && (old(hadError) ==> hadError)
      ensures CompiledLoop(old(Now()), old(hadError), Now(), hadError, LoopRaw(s, old(Here()), old(pool)), LoopStart(s, old(Here()), old(pool)))
      decreases s, 0
    {
      hide Compiled, CompiledLoop, CompBlock, LoopRaw, LoopStart, Opened, Finished, BytesOf, Tidy, Inside;
      ghost var s0, e0, cx := Now(), hadError, Here();
      var start, exit := OpenForIn(s);
      ghost var s2, e2 := Now(), hadError;
      CompileBlock(s.body);
      ghost var s3 := Now();
      CloseForIn(start, exit, |s0.syms|);
      ForInCompiled(s, cx, s0, e0, start, s2, e2, s3, hadError, Now());
    }

    /** The iterator, its nameless local, the exit jump, and the loop variable. */
    method OpenForIn(s: Stmt) returns (start: nat, exit: nat)
      requires Valid() && s.ForIn? && breaks == [] && continues == []
      modifies this
      ensures Valid() && |syms| >= |old(syms)| && depth > old(depth) && loop == old(loop) && (old(hadError) ==> hadError)
      ensures |old(syms)| < start && exit == start + 1 && start + 4 <= |syms|
      ensures Opened(s, old(Here()), old(Now()), old(hadError), start, Now(), hadError)
    {
      hide CompiledExpr, CompExpr, Duplicate, BytesOf, Inside;
      ghost var s0, e0 := Now(), hadError;
      ScopeBegin();
      CompileExpr(s.iter);
      ghost var s1, e1 := Now(), hadError;
      ExprEnd(s0.(depth := depth), e0, s1, e1, CompExpr(s.iter, names, s0.pool));
      Emit(OP_GET_ITER);
      DeclareHidden();
      start := |code|;
      exit := EmitJump(OP_FOR_ITER);
      CompileBind(s.x);
      ForInOpened(s, Context(top, s0.names, s0.depth, loop), s0, e0, s1, e1, start, Now(), hadError);
    }

    /** The continue target pops the loop variable; the locals are dropped without more code. */
    method CloseForIn(start: nat, exit: nat, ghost at: nat)
      requires Valid() && at < start && exit == start + 1 && start + 4 <= |code| && depth > 0
      modifies this
      ensures Valid() && |syms| >= |old(syms)| && depth == old(depth) - 1 && loop == old(loop) && hadError == old(hadError)
      ensures Finished(old(Now()), at, start, Now())
    {
      hide PatchAll, PatchSyms, Pops, BytesOf, Inside, Dying, Jump;
      EndForIn(start, exit, at);
      DropLocal();
      assert names == if |old(names)| >= 2 then old(names)[..|old(names)| - 2] else [];
      ScopeEnd();
    }

    method EndForIn(start: nat, exit: nat, ghost at: nat)
      requires Valid() && at < start && exit == start + 1 && start + 4 <= |code|
      modifies `code, `syms, `names
      ensures Valid() && Inside(continues, |old(syms)|)
      ensures names == if old(names) == [] then [] else old(names)[..|old(names)| - 1]
      ensures syms == LoopPatched(old(syms) + Lift([OP_POP]), continues, at, start - at, start - at, |old(syms)| - at)
    {
      hide PatchAll, PatchSyms, BytesOf, Jump;
      var continueTarget := |code|;
      Emit(OP_POP);
      DropLocal();
      PatchEach(continues, continueTarget);
      EmitBackJump(start);
      PatchJump(exit);
    }

    method CompileBind(x: Ident)
      requires Valid()
      modifies `names, `hadError
      ensures Valid() && hadError == (old(hadError) || !CanDeclare(old(names), depth, x))
      ensures CanDeclare(old(names), depth, x) ==> names == old(names) + [Local(Named(x), depth)]
    {
      var ok := DeclareLocal(x);
      if !ok {
        Error();
      }
    }

    // ---------------------------------------------------------------------
    // Switch
    // ---------------------------------------------------------------------

    method CompileSwitch(s: Stmt)
      requires Valid() && s.Switch?
      modifies this
      ensures Valid() && |syms| >= |old(syms)| && depth >= old(depth) && loop == old(loop) && (old(hadError) ==> hadError)
      ensures Compiled(old(Now()), old(hadError), Now(), hadError, CompStmt(s, old(Here()), old(pool)))
      decreases s, 1
    {
      hide Compiled, CompiledExpr, CompStmt, CompCases, Subject, BytesOf, Tidy, Inside;
      ghost var s0, e0, cx := Now(), hadError, Here();
      if s.subject.Some? {
        CompileExpr(s.subject.value);
      }
      ghost var s1, e1 := Now(), hadError;
      SubjectCompiled(s, s0, e0, s1, e1);
      CompileCases(s);
      SwitchCompiled(s, cx, s0, e0, s1, e1, Now(), hadError);
    }

    /** The tests and bodies, then the default case; all the jumps to the end are patched last. */
    method CompileCases(s: Stmt)
      requires Valid() && s.Switch?
      modifies this
      ensures Valid() && |syms| >= |old(syms)| && depth >= old(depth) && loop == old(loop) && (old(hadError) ==> hadError)
      ensures Compiled(old(Now()), old(hadError), Now(), hadError, CompCases(s, 0, 0, old(Here()), old(pool)))
      decreases s, 0, |s.cases| + 1
    {
      hide Compiled, CompCases, CompBlock, Pending, PatchAll, DefaultCase, LastCode, CaseRaw, BytesOf, Tidy;
      ghost var s0, e0, cx := Now(), hadError, Here();
      ghost var all := CompCases(s, 0, 0, cx, pool);
      var endPatches: seq<nat> := [];
      var defaultCase := -1;
      ghost var done, good, n := Bytes([], pool, names), [], 0;
      NothingPending(s0, all, 0);
      NoCasesYet(s);
      var i := 0;
      while i < |s.cases|
        invariant 0 <= i <= |s.cases| && Valid() && |syms| >= |s0.syms| && depth >= s0.depth && loop == cx.loop
        invariant Inside(endPatches, |syms|) && |endPatches| == (if n < MAX_PATCHES then n else MAX_PATCHES)
        invariant -1 <= defaultCase < i && defaultCase == DefaultCase(s.cases[..i])
        invariant hadError ==> e0 || !Accepted(all, |s0.breaks|, |s0.continues|)
        invariant !hadError ==> !e0 && Compiled(s0, false, Now(), false, done) && done.names == s0.names
        invariant !hadError ==> Pending(s0, done, good, endPatches, CompCases(s, i, n, cx, done.pool), all, 0)
      {
        DefaultStep(s.cases, i);
        if s.cases[i].values == [] {
          defaultCase := i;
          SkipDefault(s, i, n, cx, done.pool);
        } else {
          ghost var at, err, ends := Now(), hadError, endPatches;
          endPatches := CompileCase(s, i, endPatches);
          SameCase(s, i, |ends|, n, ContextOf(top, at, loop), at.pool);
          if !hadError {
            done, good := CaseDone(s, i, n, cx, s0, done, good, ends, all, at, Now());
          } else if !err {
            CaseRejected(s, i, n, cx, s0, done, good, ends, all, at, Now());
          }
          n := n + 1;
        }
        i := i + 1;
      }
      ghost var at, err := Now(), hadError;
      assert s.cases[..|s.cases|] == s.cases;
      CompileLast(s, defaultCase);
      ghost var end := Now();
      PatchEach(endPatches, |code|);
      CasesCompiled(s, n, cx, s0, e0, done, good, endPatches, all, at, err, end, hadError, Now());
    }

    /** Without a match the subject is dropped and the default case, if any, runs. */
    method CompileLast(s: Stmt, defaultCase: int)
      requires Valid() && s.Switch? && defaultCase == DefaultCase(s.cases)
      modifies this
      ensures Valid() && |syms| >= |old(syms)| && depth >= old(depth) && loop == old(loop) && (old(hadError) ==> hadError)
      ensures Compiled(old(Now()), old(hadError), Now(), hadError, LastCode(s, old(Here()), old(pool)))
      decreases s, 0, 0
    {
      hide Compiled, CompBlock, DefaultCase, LastCode, BytesOf, Tidy, Inside;
      ghost var at, err, cx := Now(), hadError, Here();
      if s.subject.Some? {
        Emit(OP_POP);
      }
      ghost var popped := Now();
      if defaultCase >= 0 {
        CompileBlock(s.cases[defaultCase].body);
      }
      LastCompiled(s, cx, at, err, popped, Now(), hadError);
    }

    /** One case; returns the jumps to the end of the switch, of which there are at most 256. */
    method CompileCase(s: Stmt, i: nat, ends: seq<nat>) returns (endPatches: seq<nat>)
      requires Valid() && s.Switch? && i < |s.cases| && s.cases[i].values != []
      requires Inside(ends, |syms|)
      modifies this
      ensures Valid() && |syms| >= |old(syms)| && depth >= old(depth) && loop == old(loop) && (old(hadError) ==> hadError)
      ensures Compiled(old(Now()), old(hadError), Now(), hadError, CaseRaw(s, i, |ends|, old(Here()), old(pool)))
      ensures Inside(endPatches, |syms|)
      ensures |syms| >= |old(syms)| + 4
      ensures endPatches == if |ends| < MAX_PATCHES then ends + [|syms| - 3] else ends
      decreases s, 0, 0
    {
      hide Compiled, CompBlock, CompValues, PatchSyms, CaseRaw, BytesOf, Tidy;
      ghost var s0, e0, cx := Now(), hadError, Here();
      endPatches := ends;
      var skipBody := CompileTests(s.cases[i].values, s.subject.Some?);
      ghost var s1, e1 := Now(), hadError;
      if s.subject.Some? {
        Emit(OP_POP);
      }
      ghost var s2 := Now();
      CompileBlock(s.cases[i].body);
      ghost var s3 := Now();
      if |endPatches| < MAX_PATCHES {
        var p := EmitJump(OP_JUMP);
        endPatches := endPatches + [p];
      }
      ghost var s4 := Now();
      PatchJump(skipBody);
      CaseCompiled(s, i, |ends|, cx, s0, e0, s1, e1, s2, s3, hadError, s4, Now());
    }

    /** Without a subject the case value itself is the condition. */
    method CompileTest(e: Expr, hasSubject: bool)
      requires Valid()
      modifies `code, `syms, `pool, `hadError
      ensures Valid() && |syms| >= |old(syms)| && (old(hadError) ==> hadError)
      ensures Compiled(old(Now()), old(hadError), Now(), hadError, TestCode(e, hasSubject, names, old(pool)))
    {
      hide Compiled, CompiledExpr, CompExpr, TestCode;
      ghost var at, err := Now(), hadError;
      if hasSubject {
        Emit(OP_DUP);
        CompileExpr(e);
        ghost var mid := Now();
        Emit(OP_EQ);
        TestEmitted(e, hasSubject, at, err, mid, hadError, Now());
      } else {
        CompileExpr(e);
        TestEmitted(e, hasSubject, at, err, Now(), hadError, Now());
      }
    }

    /** The tests of a case and the jump over its body; a test that succeeds jumps behind that. */
    method CompileTests(values: seq<Expr>, hasSubject: bool) returns (skipBody: nat)
      requires Valid()
      modifies `code, `syms, `pool, `hadError
      ensures Valid() && |syms| >= |old(syms)| + 4 && skipBody == |syms| - 3 && (old(hadError) ==> hadError)
      ensures Compiled(old(Now()), old(hadError), Now(), hadError, TestsRaw(CompValues(values, 0, hasSubject, names, old(pool)), names))
    {
      hide Compiled, CompiledExpr, CompValues, Pending, PatchAll, TestsRaw, Tests, TestCode;
      ghost var s0, e0 := Now(), hadError;
      ghost var all := Tests(values, 0, hasSubject, names, pool);
      ghost var done, good := Bytes([], pool, names), [];
      var matchPatches: seq<nat> := [];
      NothingPending(s0, all, 4);
      assert values[0..] == values;
      var j := 0;
      while j < |values|
        invariant 0 <= j <= |values| && Valid() && |syms| >= |s0.syms| && Inside(matchPatches, |syms|)
        invariant |matchPatches| == (if j < MAX_PATCHES then j else MAX_PATCHES)
        invariant hadError ==> e0 || !all.ok
        invariant !hadError ==> !e0 && Compiled(s0, false, Now(), false, done)
        invariant !hadError ==> Pending(s0, done, good, matchPatches, Tests(values[j..], j, hasSubject, s0.names, done.pool), all, 4)
      {
        ghost var at, err, matches := Now(), hadError, matchPatches;
        CompileTest(values[j], hasSubject);
        ghost var tested := Now();
        if |matchPatches| < MAX_PATCHES {
          var p := EmitJump(OP_JUMP_IF_TRUE);
          matchPatches := matchPatches + [p];
        }
        if !hadError {
          done, good := TestDone(values, j, hasSubject, s0, done, good, matches, all, at, tested, Now());
        } else if !err {
          TestRejected(values, j, hasSubject, s0, done, good, matches, all, at, tested);
        }
        j := j + 1;
      }
      ghost var end := Now();
      skipBody := EmitJump(OP_JUMP);
      PatchEach(matchPatches, |code|);
      TestsCompiled(values, hasSubject, s0, e0, done, good, matchPatches, all, end, hadError, Now());
    }

    // ---------------------------------------------------------------------
    // Whole chunks
    // ---------------------------------------------------------------------

    /** A program: the first error ends the compilation. */
    method CompileProgram(ss: seq<Stmt>)
      requires Valid() && top && !hadError && loop == NoLoop && Now() == Snap([], [], [], 0, [], [])
      modifies this
      ensures Valid()
      ensures hadError == !Accepted(CompSeq(ss, Context(true, [], 0, NoLoop), []), 0, 0)
      ensures !hadError ==> syms == CompProgram(ss).syms && pool == CompProgram(ss).pool
    {
      hide CompStmt, CompSeq, Compiled, Progress, CountBreaks, CountContinues, BytesOf, Tidy, Inside;
      ghost var begun, cx := Now(), Here();
      ghost var done := Bytes([], pool, names);
      NothingDone(ss, begun, cx);
      var i := 0;
      while i < |ss|
        invariant 0 <= i <= |ss| && Valid() && !hadError && loop == NoLoop
        invariant Progress(ss, i, begun, cx, done, Now())
      {
        ghost var at := Now();
        CompileStmt(ss[i]);
        if hadError {
          SeqRejected(ss, i, begun, cx, done, at, Now());
          return;
        }
        done := StepDone(ss, i, begun, cx, done, at, Now());
        i := i + 1;
      }
      AllDone(ss, begun, cx, done, Now());
      WholeChunk(begun, Now(), CompSeq(ss, cx, []));
      Emit(OP_RETURN_NIL);
    }

    method DeclareParams(params: seq<Ident>) returns (ok: bool)
      requires Valid() && !hadError && names == [] && depth == 0
      modifies `names
      ensures Valid() && ok == Declarable(params) && (ok ==> names == ParamNames(params))
    {
      hide Duplicate, BytesOf;
      var i := 0;
      while i < |params|
        invariant 0 <= i <= |params| && Valid() && names == ParamNames(params[..i])
        invariant forall j :: 0 <= j < i ==> CanDeclare(ParamNames(params[..j]), 0, params[j])
      {
        ok := DeclareLocal(params[i]);
        if !ok {
          return;
        }
        assert ParamNames(params[..i]) + [Local(Named(params[i]), 0)] == ParamNames(params[..i + 1]);
        i := i + 1;
      }
      assert params[..|params|] == params;
      ok := true;
    }

    /** A function's own compiler: the parameters take the first slots. */
    method CompileFunction(params: seq<Ident>, body: seq<Stmt>)
      requires Valid() && !top && !hadError && loop == NoLoop && Now() == Snap([], [], [], 0, [], [])
      modifies this
      ensures Valid()
      ensures hadError == !(Declarable(params) && Accepted(CompBlock(body, Context(false, ParamNames(params), 0, NoLoop), []), 0, 0))
      ensures !hadError ==> syms == CompFunction(params, body).syms && pool == CompFunction(params, body).pool
    {
      hide CompBlock, Compiled, CountBreaks, CountContinues, Declarable, BytesOf;
      var ok := DeclareParams(params);
      if !ok {
        Error();
        return;
      }
      ghost var begun := Now();
      CompileBlock(body);
      if !hadError {
        WholeChunk(begun, Now(), CompBlock(body, Context(false, ParamNames(params), 0, NoLoop), []));
      } else {
        Unaccepted(begun, Now(), CompBlock(body, Context(false, ParamNames(params), 0, NoLoop), []));
      }
      Emit(OP_RETURN_NIL);
    }
  }

  /** At most 256 parameters, no two of the same name. */
  ghost predicate Declarable(params: seq<Ident>)
  {
    forall j :: 0 <= j < |params| ==> CanDeclare(ParamNames(params[..j]), 0, params[j])
  }

  /** From an empty chunk, what was appended is the chunk. */
  lemma WholeChunk(begun: Snap, end: Snap, r: StmtCode)
    requires begun.syms == [] && begun.breaks == [] && begun.continues == [] && Compiled(begun, false, end, false, r)
    ensures end.syms == r.syms && end.pool == r.pool && Accepted(r, 0, 0)
  {
  }

  lemma ExprErr(s0: Snap, e0: bool, s1: Snap, e1: bool, r: ExprCode)
    requires CompiledExpr(s0, e0, s1, e1, r)
    ensures e1 == (e0 || !r.ok)
  {
  }

  lemma AssignCompiled(x: Ident, e: Expr, s0: Snap, e0: bool, s1: Snap, e1: bool, at: Place, s2: Snap)
    requires Room(s0) && CompiledExpr(s0, e0, s1, e1, CompExpr(e, s0.names, s0.pool)) && s1.names == s0.names
    requires at == PlaceOf(s0.names, s1.pool, x)
    requires s2 == s1.(syms := s1.syms + Lift(SetBytes(at)) + Lift([OP_POP]), pool := PoolWith(s0.names, s1.pool, x))
    ensures Compiled(s0, e0, s2, e1, AssignCode(x, e, s0.names, s0.pool))
  {
    hide Compiled, CompExpr, GetVar, SetVar, GetBytes, SetBytes, PlaceOf, PoolWith;
    var r := CompExpr(e, s0.names, s0.pool);
    PlacesAre(s0.names, r.pool, x);
    var setter := SetBytes(PlaceOf(s0.names, r.pool, x));
    LiftAppend(setter, [OP_POP]);
    assert r.bytes + (setter + [OP_POP]) == r.bytes + setter + [OP_POP];
    if !e1 {
      ExprEnd(s0, e0, s1, e1, r);
      assert s1.syms + (Lift(setter) + Lift([OP_POP])) == s2.syms;
    }
    ExprThen(s0, e0, s1, e1, r, setter + [OP_POP], s2, e1, AssignCode(x, e, s0.names, s0.pool));
  }

  lemma CompoundCompiled(op: byte, x: Ident, e: Expr, s0: Snap, e0: bool, s1: Snap, s2: Snap, e2: bool, at: Place,
                         s3: Snap, e3: bool)
    requires Room(s0) && at == PlaceOf(s0.names, s0.pool, x)
    requires s1 == s0.(syms := s0.syms + Lift(GetBytes(at)), pool := PoolWith(s0.names, s0.pool, x))
    requires CompiledExpr(s1, e0, s2, e2, CompExpr(e, s1.names, s1.pool)) && e3 == (e2 || !CompoundOp(op))
    requires !e3 ==> s3 == s2.(syms := s2.syms + Lift([op]) + Lift(SetBytes(at)) + Lift([OP_POP]))
    ensures Compiled(s0, e0, s3, e3, CompoundCode(op, x, e, s0.names, s0.pool))
  {
    hide Compiled, CompExpr, GetVar, SetVar, GetBytes, SetBytes, PlaceOf, PoolWith;
    PlacesAre(s0.names, s0.pool, x);
    var get, setter := GetBytes(at), SetBytes(at);
    var r := CompExpr(e, s0.names, s1.pool);
    LiftAppend(get, r.bytes);
    LiftAppend(get + r.bytes, [op]);
    LiftAppend(get + r.bytes + [op], setter);
    LiftAppend(get + r.bytes + [op] + setter, [OP_POP]);
    if !e3 {
      assert s3.syms == s0.syms + (Lift(get) + Lift(r.bytes) + Lift([op]) + Lift(setter) + Lift([OP_POP]));
    }
    StraightCompiled(s0, e0, s3, e3, CompoundCode(op, x, e, s0.names, s0.pool), get + r.bytes + [op] + setter + [OP_POP]);
  }

  lemma ShortPatched(before: seq<Sym>, l: seq<byte>, op: byte, r: seq<byte>)
    ensures var s := before + Lift(l) + Lift([op] + Unset) + Lift(r);
      PatchSyms(s, |before| + |l| + 1, |s|) == before + Lift(l + Jump(op, |r|) + r)
  {
    hide PatchSyms, Jump;
    PatchForward(before + Lift(l), op, Lift(r));
    LiftAppend(l, Jump(op, |r|));
    LiftAppend(l + Jump(op, |r|), r);
  }

  /** From the snapshots before, after the left operand, and after the right one. */
  lemma ShortCompiled(e: Expr, left: Expr, op: byte, right: Expr, s0: Snap, err0: bool, s1: Snap, err1: bool,
                      s2: Snap, err2: bool)
    requires IsShort(e, left, op, right) && |s1.syms| + 4 <= |s2.syms|
    requires CompiledExpr(s0, err0, s1, err1, CompExpr(left, s0.names, s0.pool))
    requires CompiledExpr(s1.(syms := s1.syms + Lift([op] + Unset)), err1, s2, err2, CompExpr(right, s0.names, s1.pool))
    ensures CompiledExpr(s0, err0, s2.(syms := PatchSyms(s2.syms, |s1.syms| + 1, |s2.syms|)), err2, CompExpr(e, s0.names, s0.pool))
  {
    hide CompExpr, PatchSyms, Jump;
    ShortCode(e, left, op, right, s0.names, s0.pool);
    if !err2 {
      ShortPatched(s0.syms, CompExpr(left, s0.names, s0.pool).bytes, op, CompExpr(right, s0.names, s1.pool).bytes);
    }
  }

  lemma OneMoreNumber(n: nat, first: nat)
    ensures Numbered(n + 1, first) == Numbered(n, first) + [Member(first + 2 * n + 1, first + 2 * n)]
  {
  }

  function PlaceOf(names: seq<Local>, pool: seq<Value>, x: Ident): Place
  {
    var i := Resolve(names, x);
    if i >= 0 then LocalSlot(i) else GlobalName(|pool|)
  }

  function PoolWith(names: seq<Local>, pool: seq<Value>, x: Ident): seq<Value>
  {
    if Resolve(names, x) >= 0 then pool else pool + [Str(x)]
  }

  function GetBytes(at: Place): seq<byte>
  {
    match at
    case LocalSlot(i) => OpA(OP_GET_LOCAL, i)
    case GlobalName(k) => OpAX(OP_GET_GLOBAL, k)
  }

  function SetBytes(at: Place): seq<byte>
  {
    match at
    case LocalSlot(i) => OpA(OP_SET_LOCAL, i)
    case GlobalName(k) => OpAX(OP_SET_GLOBAL, k)
  }

  /** A variable is read and written where it was resolved. */
  lemma PlacesAre(names: seq<Local>, pool: seq<Value>, x: Ident)
    ensures GetVar(names, pool, x) == ExprCode(GetBytes(PlaceOf(names, pool, x)), PoolWith(names, pool, x), true, true)
    ensures SetVar(names, pool, x) == ExprCode(SetBytes(PlaceOf(names, pool, x)), PoolWith(names, pool, x), true, true)
  {
  }

  /** What has been emitted, with what is still to come, is the whole code. */
  ghost predicate Joins(before: seq<Sym>, all: ExprCode, syms: seq<Sym>, rest: ExprCode)
  {
    syms + Lift(rest.bytes) == before + Lift(all.bytes) && all.pool == rest.pool && all.ok == rest.ok
  }

  lemma JoinStep(before: seq<Sym>, all: ExprCode, syms: seq<Sym>, v: ExprCode, more: ExprCode)
    requires v.ok
    requires Joins(before, all, syms, ExprCode(v.bytes + more.bytes, more.pool, v.ok && more.ok, v.exact && more.exact))
    ensures Joins(before, all, syms + Lift(v.bytes), more)
  {
    LiftAppend(v.bytes, more.bytes);
  }

  function HoleSyms(kind: Kind): (syms: seq<Sym>)
    ensures |syms| == 4
  {
    [B(OP_JUMP), Hole(kind, 0), Hole(kind, 1), Hole(kind, 2)]
  }

  lemma NoLoopCode(cx: Context, pool: seq<Value>)
    requires cx.loop == NoLoop
    ensures !BreakCode(cx, pool).ok
  {
  }

  /** The code of a `break`: pops, then one operand to be filled. */
  lemma {:induction false} BreakShape(cx: Context, pool: seq<Value>, at: nat)
    requires cx.loop != NoLoop
    ensures var r := BreakCode(cx, pool);
      var live := if |cx.names| > cx.loop.base then |cx.names| - cx.loop.base else 0;
      && r.syms == Lift(Pops(live)) + HoleSyms(ForBreak) && r.ok && r.pool == pool && r.names == cx.names
      && CountBreaks(r.syms) == 1 && CountContinues(r.syms) == 0
      && Whole(r.syms) && Holes(r.syms, ForBreak, at) == [at + live + 1] && Holes(r.syms, ForContinue, at) == []
  {
    var live := if |cx.names| > cx.loop.base then |cx.names| - cx.loop.base else 0;
    assert Lift([OP_JUMP]) + [BreakHole(0), BreakHole(1), BreakHole(2)] == HoleSyms(ForBreak);
    HoleShape(ForBreak, at + live);
    BehindBytes(Pops(live), HoleSyms(ForBreak), at);
  }

  lemma {:induction false} ContinueShape(cx: Context, pool: seq<Value>, at: nat)
    requires cx.loop != NoLoop
    ensures var r := ContinueCode(cx, pool);
      && r.syms == HoleSyms(ForContinue) && r.ok && r.pool == pool && r.names == cx.names
      && CountBreaks(r.syms) == 0 && CountContinues(r.syms) == 1
      && Whole(r.syms) && Holes(r.syms, ForContinue, at) == [at + 1] && Holes(r.syms, ForBreak, at) == []
  {
    HoleShape(ForContinue, at);
  }

  lemma {:induction false} HoleShape(kind: Kind, at: nat)
    ensures var syms := HoleSyms(kind);
      && Whole(syms) && Holes(syms, kind, at) == [at + 1]
      && Holes(syms, if kind.ForBreak? then ForContinue else ForBreak, at) == []
      && CountBreaks(syms) == (if kind.ForBreak? then 1 else 0) && CountContinues(syms) == (if kind.ForBreak? then 0 else 1)
  {
    var syms := HoleSyms(kind);
    var tail := syms[1..];
    assert tail == [Hole(kind, 0), Hole(kind, 1), Hole(kind, 2)] && tail[3..] == [];
    assert KindOf(tail[0]) == kind && Whole(tail[3..]) && Starts(tail);
    assert Whole(tail) && Whole(syms);
    assert Holes(tail, kind, at + 1) == [at + 1] + Holes(tail[3..], kind, at + 4);
    var other := if kind.ForBreak? then ForContinue else ForBreak;
    assert Holes(tail, other, at + 1) == [] + Holes(tail[3..], other, at + 4);
    HolesCounted(syms, at);
  }

  lemma {:induction false} BehindBytes(bytes: seq<byte>, syms: seq<Sym>, at: nat)
    requires Whole(syms)
    ensures var all := Lift(bytes) + syms;
      && Whole(all) && CountBreaks(all) == CountBreaks(syms) && CountContinues(all) == CountContinues(syms)
      && Holes(all, ForBreak, at) == Holes(syms, ForBreak, at + |bytes|)
      && Holes(all, ForContinue, at) == Holes(syms, ForContinue, at + |bytes|)
  {
    hide Whole, Holes;
    AroundBody(bytes, syms, [], at, 0);
    AroundCounts(bytes, syms, []);
    assert syms + Lift([]) == syms;
  }

  /** A jump out of the body has been recorded. */
  lemma HoleEmitted(s0: Snap, e0: bool, s1: Snap, r: StmtCode)
    requires Whole(r.syms) && Accepted(r, |s0.breaks|, |s0.continues|) && r.pool == s0.pool && r.names == s0.names
    requires s1 == s0.(syms := s1.syms, breaks := s1.breaks, continues := s1.continues) && Emitted(s0.syms, s1.syms, r.syms)
    requires var b := Holes(r.syms, ForBreak, |s0.syms|); s1.breaks == if b == [] then s0.breaks else s0.breaks + b
    requires var c := Holes(r.syms, ForContinue, |s0.syms|); s1.continues == if c == [] then s0.continues else s0.continues + c
    ensures Compiled(s0, e0, s1, e0, r)
  {
    hide Whole, Holes;
    assert s0.breaks + [] == s0.breaks && s0.continues + [] == s0.continues;
  }

  ghost predicate Emitted(before: seq<Sym>, after: seq<Sym>, syms: seq<Sym>)
  {
    after == before + syms
  }
}
