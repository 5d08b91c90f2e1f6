/**
  The two instructions whose length depends on a count byte: making a closure and making a class. What
  the compiler emits for them, and what the machine takes from those bytes.
*/
module Making {
  import opened Bytecode

  const MAX_COUNT := 255

  /** Where a closure finds one of its variables: in a slot of the frame that makes it, or in that frame's own closure. */
  datatype Desc = Desc(isLocal: bool, index: nat)

  /** A method's name and function, by their constants. */
  datatype Member = Member(name: nat, func: nat)

  // ---------------------------------------------------------------------
  // Emission
  // ---------------------------------------------------------------------

  function DescBytes(d: Desc): (bytes: seq<byte>)
    ensures |bytes| == 2
  {
    [if d.isLocal then 1 else 0, d.index % 0x100]
  }

  function Pairs(ds: seq<Desc>): (bytes: seq<byte>)
    ensures |bytes| == 2 * |ds|
  {
    if ds == [] then [] else Pairs(ds[..|ds| - 1]) + DescBytes(ds[|ds| - 1])
  }

  /** The count of the descriptors is cut to a byte, the descriptors are not. */
  function MakeFunc(funcIdx: int, ds: seq<Desc>): (bytes: seq<byte>)
    ensures |bytes| == 5 + 2 * |ds|
  {
    FuncHead(funcIdx, |ds|) + Pairs(ds)
  }

  function FuncHead(funcIdx: int, count: nat): (bytes: seq<byte>)
    ensures |bytes| == 5
  {
    [OP_MAKE_FUNC] + EncodeAX(funcIdx) + [count % 0x100]
  }

  function U16(n: nat): (bytes: seq<byte>)
    ensures |bytes| == 2
  {
    [(n / 0x100) % 0x100, n % 0x100]
  }

  function Members(ms: seq<Member>): (bytes: seq<byte>)
    ensures |bytes| == 4 * |ms|
  {
    if ms == [] then [] else Members(ms[..|ms| - 1]) + (U16(ms[|ms| - 1].name) + U16(ms[|ms| - 1].func))
  }

  function MakeClass(nameIdx: nat, bases: nat, ms: seq<Member>): (bytes: seq<byte>)
    ensures |bytes| == 5 + 4 * |ms|
  {
    ClassStart(nameIdx, bases, |ms|) + Members(ms)
  }

  function ClassStart(nameIdx: nat, bases: nat, count: nat): (bytes: seq<byte>)
    ensures |bytes| == 5
  {
    [OP_MAKE_CLASS] + U16(nameIdx) + [count % 0x100, bases % 0x100]
  }

  /** The bytes of a closure instruction, one by one: numbers have their highest byte first. */
  lemma FuncBytes(funcIdx: nat, ds: seq<Desc>)
    ensures var b := MakeFunc(funcIdx, ds);
      && b[0] == OP_MAKE_FUNC && b[4] == |ds| % 0x100
      && (funcIdx < TWO_24 ==> (b[1] as int) * 0x1_0000 + (b[2] as int) * 0x100 + b[3] == funcIdx)
      && forall k :: 0 <= k < |ds| ==>
           b[5 + 2 * k] == (if ds[k].isLocal then 1 else 0) && b[6 + 2 * k] == ds[k].index % 0x100
  {
    hide Pairs;
    if funcIdx < TWO_24 {
      ThreeDigits(funcIdx);
    }
    forall k | 0 <= k < |ds|
      ensures Pairs(ds)[2 * k] == (if ds[k].isLocal then 1 else 0) && Pairs(ds)[2 * k + 1] == ds[k].index % 0x100
    {
      PairBytes(ds, k);
    }
  }

  lemma {:induction false} PairBytes(ds: seq<Desc>, k: nat)
    requires k < |ds|
    ensures Pairs(ds)[2 * k] == (if ds[k].isLocal then 1 else 0) && Pairs(ds)[2 * k + 1] == ds[k].index % 0x100
  {
    if k < |ds| - 1 {
      PairBytes(ds[..|ds| - 1], k);
    }
  }

  /** The bytes of a class instruction, each method with its name before its function. */
  lemma ClassBytes(nameIdx: nat, bases: nat, ms: seq<Member>)
    ensures var b := MakeClass(nameIdx, bases, ms);
      && b[0] == OP_MAKE_CLASS && b[3] == |ms| % 0x100 && b[4] == bases % 0x100
      && (nameIdx < 0x1_0000 ==> (b[1] as int) * 0x100 + b[2] == nameIdx)
      && forall k :: 0 <= k < |ms| ==>
           && (ms[k].name < 0x1_0000 ==> (b[5 + 4 * k] as int) * 0x100 + b[6 + 4 * k] == ms[k].name)
           && (ms[k].func < 0x1_0000 ==> (b[7 + 4 * k] as int) * 0x100 + b[8 + 4 * k] == ms[k].func)
  {
    hide Members;
    forall k | 0 <= k < |ms|
      ensures ms[k].name < 0x1_0000 ==> (Members(ms)[4 * k] as int) * 0x100 + Members(ms)[4 * k + 1] == ms[k].name
      ensures ms[k].func < 0x1_0000 ==> (Members(ms)[4 * k + 2] as int) * 0x100 + Members(ms)[4 * k + 3] == ms[k].func
    {
      MemberBytes(ms, k);
    }
  }

  lemma {:induction false} MemberBytes(ms: seq<Member>, k: nat)
    requires k < |ms|
    ensures ms[k].name < 0x1_0000 ==> (Members(ms)[4 * k] as int) * 0x100 + Members(ms)[4 * k + 1] == ms[k].name
    ensures ms[k].func < 0x1_0000 ==> (Members(ms)[4 * k + 2] as int) * 0x100 + Members(ms)[4 * k + 3] == ms[k].func
  {
    if k < |ms| - 1 {
      MemberBytes(ms[..|ms| - 1], k);
    }
  }

  // ---------------------------------------------------------------------
  // What the machine takes
  // ---------------------------------------------------------------------

  /** The descriptors of the instruction at pc: as many as the count byte says. */
  function Taken(code: seq<byte>, pc: nat): (ds: seq<Desc>)
    requires pc + 5 <= |code| && pc + 5 + 2 * (code[pc + 4] as int) <= |code|
    ensures |ds| == code[pc + 4] as int
  {
    seq(code[pc + 4] as int, k requires 0 <= k < code[pc + 4] as int => Desc(code[pc + 5 + 2 * k] != 0, code[pc + 6 + 2 * k] as int))
  }

  function TakenMembers(code: seq<byte>, pc: nat): (ms: seq<Member>)
    requires pc + 5 <= |code| && pc + 5 + 4 * (code[pc + 3] as int) <= |code|
    ensures |ms| == code[pc + 3] as int
  {
    seq(code[pc + 3] as int, k requires 0 <= k < code[pc + 3] as int =>
      Member(ReadU16(code, pc + 5 + 4 * k), ReadU16(code, pc + 7 + 4 * k)))
  }

  function ReadU16(code: seq<byte>, p: nat): nat
    requires p + 2 <= |code|
  {
    (code[p] as int) * 0x100 + code[p + 1] as int
  }

  /** Slots and descriptors are numbered below 256, because there are at most that many. */
  predicate Small(ds: seq<Desc>)
  {
    forall k :: 0 <= k < |ds| ==> ds[k].index < 0x100
  }

  lemma {:induction false} PairAt(ds: seq<Desc>, k: nat)
    requires k < |ds|
    ensures Pairs(ds)[2 * k..2 * k + 2] == DescBytes(ds[k])
  {
    var front := ds[..|ds| - 1];
    if k < |front| {
      PairAt(front, k);
      assert Pairs(ds)[2 * k..2 * k + 2] == Pairs(front)[2 * k..2 * k + 2];
    }
  }

  lemma {:induction false} MemberAt(ms: seq<Member>, k: nat)
    requires k < |ms|
    ensures Members(ms)[4 * k..4 * k + 4] == U16(ms[k].name) + U16(ms[k].func)
  {
    var front := ms[..|ms| - 1];
    if k < |front| {
      MemberAt(front, k);
      assert Members(ms)[4 * k..4 * k + 4] == Members(front)[4 * k..4 * k + 4];
    }
  }

  lemma {:induction false} FuncPieces(funcIdx: int, ds: seq<Desc>)
    ensures MakeFunc(funcIdx, ds) == FuncHead(funcIdx, |ds|) + Pairs(ds)
  {
    hide FuncHead, Pairs;
  }

  lemma HeadBytes(code: seq<byte>, pc: nat, funcIdx: int, ds: seq<Desc>)
    requires CodeAt(code, pc, MakeFunc(funcIdx, ds))
    ensures pc + 5 + 2 * |ds| <= |code|
    ensures code[pc] == OP_MAKE_FUNC && code[pc + 4] as int == |ds| % 0x100 && CodeAt(code, pc + 5, Pairs(ds))
  {
    hide *;
    FuncPieces(funcIdx, ds);
    CodeAtSplit(code, pc, FuncHead(funcIdx, |ds|), Pairs(ds));
    FuncStart(code, pc, funcIdx, |ds|);
  }

  lemma FuncStart(code: seq<byte>, pc: nat, funcIdx: int, count: nat)
    requires CodeAt(code, pc, FuncHead(funcIdx, count))
    ensures pc + 5 <= |code| && code[pc] == OP_MAKE_FUNC && code[pc + 4] as int == count % 0x100
  {
    var head := FuncHead(funcIdx, count);
    assert code[pc + 0] == head[0] && code[pc + 4] == head[4];
  }

  /** Whatever their number, the machine takes the first of them, as many as the lowest byte of the number says. */
  lemma TakesFirst(code: seq<byte>, pc: nat, funcIdx: int, ds: seq<Desc>)
    requires CodeAt(code, pc, MakeFunc(funcIdx, ds))
    ensures pc + 5 + 2 * (code[pc + 4] as int) <= |code| && |Taken(code, pc)| == |ds| % 0x100
    ensures Small(ds) ==> Taken(code, pc) == ds[..|ds| % 0x100]
    ensures Fetch(code, pc).Fetched? && Fetch(code, pc).instr.len == 5 + 2 * (|ds| % 0x100)
  {
    hide ReadAX;
    HeadBytes(code, pc, funcIdx, ds);
    assert FormatOf(OP_MAKE_FUNC) == FmtMakeFunc;
    forall k | 0 <= k < |ds| % 0x100 && Small(ds) ensures Taken(code, pc)[k] == ds[k] {
      PairAt(ds, k);
      var pair := Pairs(ds)[2 * k..2 * k + 2];
      assert code[(pc + 5) + 2 * k] == pair[0] && code[(pc + 5) + (2 * k + 1)] == pair[1];
    }
  }

  /**
    Every descriptor is taken, and reading goes on just behind the emitted bytes, if and only if there
    are at most 255 of them. The compiler allows 256.
  */
  lemma TakesAllExactly(code: seq<byte>, pc: nat, funcIdx: int, ds: seq<Desc>)
    requires CodeAt(code, pc, MakeFunc(funcIdx, ds)) && Small(ds)
    ensures pc + 5 + 2 * (code[pc + 4] as int) <= |code|
    ensures Taken(code, pc) == ds <==> |ds| <= MAX_COUNT
    ensures Fetch(code, pc).Fetched?
    ensures Fetch(code, pc).instr.len == |MakeFunc(funcIdx, ds)| <==> |ds| <= MAX_COUNT
  {
    hide Fetch, MakeFunc, Taken;
    TakesFirst(code, pc, funcIdx, ds);
    if |ds| <= MAX_COUNT {
      assert ds[..|ds| % 0x100] == ds;
    } else {
      assert |ds[..|ds| % 0x100]| < |ds|;
    }
  }

  /** What a closure gets of the descriptors its function was left with, by way of the emitted bytes. */
  function Captured(funcIdx: int, ds: seq<Desc>): (taken: seq<Desc>)
    ensures |taken| == |ds| % 0x100 && (Small(ds) ==> taken == ds[..|ds| % 0x100])
  {
    TakesFirst(MakeFunc(funcIdx, ds), 0, funcIdx, ds);
    Taken(MakeFunc(funcIdx, ds), 0)
  }

  /** The 256 locals of the enclosing function. */
  function AllSlots(n: nat): (ds: seq<Desc>)
    ensures |ds| == n && forall k :: 0 <= k < n ==> ds[k] == Desc(true, k)
  {
    seq(n, k requires 0 <= k < n => Desc(true, k))
  }

  /** A closure over 256 locals gets none of them, and its 512 descriptor bytes are executed: OP_DUP, OP_POP, ... */
  lemma AllLost(funcIdx: nat)
    ensures var code := MakeFunc(funcIdx, AllSlots(256));
      && Taken(code, 0) == [] && |code| == 517
      && Fetch(code, 0).Fetched? && Fetch(code, 0).instr.len == 5
      && Fetch(code, 5) == Fetched(Instr(OP_DUP, 0, 1)) && Fetch(code, 6) == Fetched(Instr(OP_POP, 0, 1))
  {
    hide MakeFunc, Taken, Pairs;
    var ds := AllSlots(256);
    var code := MakeFunc(funcIdx, ds);
    TakesFirst(code, 0, funcIdx, ds);
    HeadBytes(code, 0, funcIdx, ds);
    PairAt(ds, 0);
    var pair := Pairs(ds)[0..2];
    assert code[0 + 5 + 0] == Pairs(ds)[0] == pair[0] == OP_DUP && code[0 + 5 + 1] == Pairs(ds)[1] == pair[1] == OP_POP;
  }

  // ---------------------------------------------------------------------
  // Classes
  // ---------------------------------------------------------------------

  lemma {:induction false} ClassPieces(nameIdx: nat, bases: nat, ms: seq<Member>)
    ensures MakeClass(nameIdx, bases, ms) == ClassStart(nameIdx, bases, |ms|) + Members(ms)
  {
    hide ClassStart, Members;
  }

  lemma ClassHead(code: seq<byte>, pc: nat, nameIdx: nat, bases: nat, ms: seq<Member>)
    requires CodeAt(code, pc, MakeClass(nameIdx, bases, ms))
    ensures pc + 5 + 4 * |ms| <= |code|
    ensures code[pc] == OP_MAKE_CLASS && code[pc + 3] as int == |ms| % 0x100 && CodeAt(code, pc + 5, Members(ms))
  {
    hide *;
    ClassPieces(nameIdx, bases, ms);
    CodeAtSplit(code, pc, ClassStart(nameIdx, bases, |ms|), Members(ms));
    ClassCount(code, pc, nameIdx, bases, |ms|);
  }

  lemma ClassCount(code: seq<byte>, pc: nat, nameIdx: nat, bases: nat, count: nat)
    requires CodeAt(code, pc, ClassStart(nameIdx, bases, count))
    ensures pc + 5 <= |code| && code[pc] == OP_MAKE_CLASS && code[pc + 3] as int == count % 0x100
  {
    var head := ClassStart(nameIdx, bases, count);
    assert code[pc + 0] == head[0] && code[pc + 3] == head[3];
  }

  lemma ReadsBack(n: nat)
    ensures (U16(n)[0] as int) * 0x100 + (U16(n)[1] as int) == n <==> n < 0x1_0000
  {
    assert n == (n / 0x100) * 0x100 + n % 0x100;
  }

  /** The compiler rejects a 256th method, so the count always fits; a constant's number must fit two bytes. */
  lemma MembersReadBack(code: seq<byte>, pc: nat, nameIdx: nat, bases: nat, ms: seq<Member>)
    requires CodeAt(code, pc, MakeClass(nameIdx, bases, ms)) && |ms| <= MAX_COUNT
    ensures Fetch(code, pc).Fetched? && Fetch(code, pc).instr.len == |MakeClass(nameIdx, bases, ms)|
    ensures pc + 5 + 4 * (code[pc + 3] as int) <= |code| && |TakenMembers(code, pc)| == |ms|
    ensures forall k :: 0 <= k < |ms| ==>
      (TakenMembers(code, pc)[k] == ms[k] <==> ms[k].name < 0x1_0000 && ms[k].func < 0x1_0000)
  {
    ClassHead(code, pc, nameIdx, bases, ms);
    assert FormatOf(OP_MAKE_CLASS) == FmtMakeClass;
    forall k | 0 <= k < |ms|
      ensures TakenMembers(code, pc)[k] == ms[k] <==> ms[k].name < 0x1_0000 && ms[k].func < 0x1_0000
    {
      MemberAt(ms, k);
      var four := Members(ms)[4 * k..4 * k + 4];
      assert code[(pc + 5) + 4 * k] == four[0] && code[(pc + 5) + (4 * k + 1)] == four[1];
      assert code[(pc + 5) + (4 * k + 2)] == four[2] && code[(pc + 5) + (4 * k + 3)] == four[3];
      ReadsBack(ms[k].name);
      ReadsBack(ms[k].func);
    }
  }
}
