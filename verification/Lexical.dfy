/**
  Nested functions and the variables their upvalue descriptors lead to.

  A list of levels shows the functions being compiled, innermost first. A descriptor of a level is
  either a local of the next level or a descriptor of the next level, so following descriptors outward
  ends at a local of some enclosing function.
*/
module Lexical {
  import opened Values
  import opened Making

  const UNINITIALIZED := -1
  const MAX_LOCALS := 256
  const MAX_UPVALUES := 256

  datatype Local = Local(name: Text, depth: int, captured: bool)

  datatype Level = Level(locals: seq<Local>, upvalues: seq<Desc>)

  type Levels = seq<Level>

  /** A local of an enclosing function, counted from the innermost level. */
  datatype Place = Place(level: nat, slot: nat)

  // ---------------------------------------------------------------------
  // What names mean
  // ---------------------------------------------------------------------

  /** The most recent local of this name, or -1 if there is none. */
  function Latest(locals: seq<Local>, name: Text): (i: int)
    ensures -1 <= i < |locals|
    ensures i >= 0 ==> locals[i].name == name
    ensures forall j :: i < j < |locals| ==> locals[j].name != name
  {
    if locals == [] then -1
    else if locals[|locals| - 1].name == name then |locals| - 1
    else Latest(locals[..|locals| - 1], name)
  }

  /** Its slot; a local whose initializer is still being compiled does not count. */
  function SlotOf(locals: seq<Local>, name: Text): (i: int)
    ensures -1 <= i < |locals|
  {
    var i := Latest(locals, name);
    if i >= 0 && locals[i].depth != UNINITIALIZED then i else -1
  }

  function Outward(p: Option<Place>): Option<Place>
  {
    match p
    case None => None
    case Some(q) => Some(Place(q.level + 1, q.slot))
  }

  /** The variable a free name of the innermost function stands for: that of the nearest enclosing function that has one. */
  function HomeOf(ls: Levels, name: Text): (p: Option<Place>)
    ensures p.Some? ==> 1 <= p.value.level < |ls| && p.value.slot < |ls[p.value.level].locals|
    ensures p.Some? ==> SlotOf(ls[p.value.level].locals, name) == p.value.slot
    ensures forall l :: 1 <= l < (if p.Some? then p.value.level else |ls|) ==> SlotOf(ls[l].locals, name) < 0
  {
    if |ls| <= 1 then None else
    var i := SlotOf(ls[1].locals, name);
    if i >= 0 then Some(Place(1, i)) else
    var p := HomeOf(ls[1..], name);
    assert forall l :: 2 <= l < |ls| ==> ls[1..][l - 1] == ls[l];
    Outward(p)
  }

  // ---------------------------------------------------------------------
  // Descriptors
  // ---------------------------------------------------------------------

  ghost predicate GoodDesc(d: Desc, outer: Level)
  {
    d.index < if d.isLocal then |outer.locals| else |outer.upvalues|
  }

  ghost predicate GoodHead(ls: Levels)
    requires |ls| > 0
  {
    |ls[0].upvalues| <= MAX_UPVALUES && |ls[0].locals| <= MAX_LOCALS
    && (|ls| == 1 ==> |ls[0].upvalues| == 0)
    && (|ls| > 1 ==> forall k :: 0 <= k < |ls[0].upvalues| ==> GoodDesc(ls[0].upvalues[k], ls[1]))
    && (forall j, k :: 0 <= j < k < |ls[0].upvalues| ==> ls[0].upvalues[j] != ls[0].upvalues[k])
  }

  /** Every descriptor leads somewhere, and no level has one twice. */
  ghost predicate Good(ls: Levels)
  {
    |ls| > 0 ==> GoodHead(ls) && Good(ls[1..])
  }

  /** The variable the k-th descriptor of the innermost level leads to. */
  ghost function Leads(ls: Levels, k: nat): (p: Place)
    requires Good(ls) && |ls| > 0 && k < |ls[0].upvalues|
    ensures 1 <= p.level < |ls| && p.slot < |ls[p.level].locals|
  {
    var d := ls[0].upvalues[k];
    assert GoodDesc(d, ls[1]);
    if d.isLocal then Place(1, d.index) else
    var p := Leads(ls[1..], d.index);
    Place(p.level + 1, p.slot)
  }

  /** Different descriptors of a level never lead to the same variable. */
  lemma {:induction false} LeadsApart(ls: Levels, j: nat, k: nat)
    requires Good(ls) && |ls| > 0 && j < |ls[0].upvalues| && k < |ls[0].upvalues| && j != k
    ensures Leads(ls, j) != Leads(ls, k)
  {
    var a, b := ls[0].upvalues[j], ls[0].upvalues[k];
    assert a != b by {
      if j < k { assert ls[0].upvalues[j] != ls[0].upvalues[k]; } else { assert ls[0].upvalues[k] != ls[0].upvalues[j]; }
    }
    assert GoodDesc(a, ls[1]) && GoodDesc(b, ls[1]);
    if !a.isLocal && !b.isLocal {
      LeadsApart(ls[1..], a.index, b.index);
    }
  }

  // ---------------------------------------------------------------------
  // Growth
  // ---------------------------------------------------------------------

  ghost predicate LevelGrown(a: Level, b: Level)
  {
    a.upvalues <= b.upvalues && |a.locals| == |b.locals|
    && forall i :: 0 <= i < |a.locals| ==>
         b.locals[i].name == a.locals[i].name && b.locals[i].depth == a.locals[i].depth && (a.locals[i].captured ==> b.locals[i].captured)
  }

  /** Resolving names only adds descriptors and marks. */
  ghost predicate Grown(a: Levels, b: Levels)
  {
    |a| == |b| && forall l :: 0 <= l < |a| ==> LevelGrown(a[l], b[l])
  }

  lemma GrownTail(a: Levels, b: Levels)
    requires Grown(a, b) && |a| > 0
    ensures Grown(a[1..], b[1..])
  {
    forall l | 0 <= l < |a| - 1
      ensures LevelGrown(a[1..][l], b[1..][l])
    {
      assert LevelGrown(a[l + 1], b[l + 1]);
    }
  }

  /** Descriptors keep their meaning while others are added. */
  lemma {:induction false} LeadsKept(a: Levels, b: Levels, k: nat)
    requires Grown(a, b) && Good(a) && Good(b) && |a| > 0 && k < |a[0].upvalues|
    ensures k < |b[0].upvalues| && Leads(b, k) == Leads(a, k)
  {
    assert LevelGrown(a[0], b[0]);
    var d := a[0].upvalues[k];
    assert b[0].upvalues[k] == d;
    assert GoodDesc(d, a[1]);
    if !d.isLocal {
      GrownTail(a, b);
      LeadsKept(a[1..], b[1..], d.index);
    }
  }

  /** Some descriptor of the innermost level leads to p. */
  ghost predicate Reaches(ls: Levels, p: Place)
    requires Good(ls) && |ls| > 0
  {
    exists k :: 0 <= k < |ls[0].upvalues| && Leads(ls, k) == p
  }

  /** Every level below p's has a descriptor for it or space for one. */
  ghost predicate Room(ls: Levels, p: Place)
    requires Good(ls) && 1 <= p.level < |ls|
  {
    (Reaches(ls, p) || |ls[0].upvalues| < MAX_UPVALUES)
    && (p.level > 1 ==> Room(ls[1..], Place(p.level - 1, p.slot)))
  }

  /** Where a descriptor of a level around `os` would lead. */
  ghost function Target(os: Levels, d: Desc): Place
    requires Good(os) && |os| > 0 && GoodDesc(d, os[0])
  {
    if d.isLocal then Place(1, d.index) else
    var p := Leads(os, d.index);
    Place(p.level + 1, p.slot)
  }

  /** The levels after the innermost one got these descriptors and the outer ones became `os`. */
  function Inside(head: Level, ups: seq<Desc>, os: Levels): (ls: Levels)
    ensures |ls| == |os| + 1 && ls[1..] == os && ls[0] == Level(head.locals, ups)
  {
    [Level(head.locals, ups)] + os
  }

  lemma {:induction false} StillGood(ls: Levels, os: Levels)
    requires Good(ls) && |ls| > 1 && Good(os) && Grown(ls[1..], os)
    ensures Good(Inside(ls[0], ls[0].upvalues, os)) && Grown(ls, Inside(ls[0], ls[0].upvalues, os))
  {
    var n := Inside(ls[0], ls[0].upvalues, os);
    assert LevelGrown(ls[1..][0], os[0]);
    forall k | 0 <= k < |ls[0].upvalues|
      ensures GoodDesc(ls[0].upvalues[k], os[0])
    {
      assert GoodDesc(ls[0].upvalues[k], ls[1]);
    }
    GrownAround(ls, n);
  }

  lemma GrownAround(a: Levels, b: Levels)
    requires |a| > 0 && |b| > 0 && LevelGrown(a[0], b[0]) && Grown(a[1..], b[1..])
    ensures Grown(a, b)
  {
    forall l | 0 <= l < |a|
      ensures LevelGrown(a[l], b[l])
    {
      if l > 0 {
        assert LevelGrown(a[1..][l - 1], b[1..][l - 1]);
      }
    }
  }

  /** A descriptor found, or appended, leads to its target. */
  lemma Added(ls: Levels, os: Levels, d: Desc, ups: seq<Desc>, r: nat)
    requires Good(ls) && |ls| > 1 && Good(os) && Grown(ls[1..], os) && GoodDesc(d, os[0])
    requires (ups == ls[0].upvalues && r < |ups| && ups[r] == d)
             || (ups == ls[0].upvalues + [d] && d !in ls[0].upvalues && r == |ls[0].upvalues| < MAX_UPVALUES)
    ensures Good(Inside(ls[0], ups, os)) && Grown(ls, Inside(ls[0], ups, os))
    ensures r < |ups| && Leads(Inside(ls[0], ups, os), r) == Target(os, d)
  {
    var n := Inside(ls[0], ups, os);
    StillGood(ls, os);
    var m := Inside(ls[0], ls[0].upvalues, os);
    assert GoodHead(m);
    forall k | 0 <= k < |ups|
      ensures GoodDesc(ups[k], os[0])
    {
      if k < |ls[0].upvalues| {
        assert GoodDesc(m[0].upvalues[k], m[1]);
      }
    }
    assert GoodHead(n);
    GrownAround(ls, n);
  }

  /** The level has a descriptor for a variable exactly when it has the descriptor now being added. */
  lemma {:induction false} HasDesc(ls: Levels, os: Levels, d: Desc)
    requires Good(ls) && |ls| > 1 && Good(os) && Grown(ls[1..], os) && GoodDesc(d, os[0])
    ensures d in ls[0].upvalues <==> Reaches(ls, Target(os, d))
  {
    var n := Inside(ls[0], ls[0].upvalues, os);
    StillGood(ls, os);
    forall k | 0 <= k < |ls[0].upvalues|
      ensures Leads(ls, k) == Target(os, d) <==> ls[0].upvalues[k] == d
    {
      LeadsKept(ls, n, k);
      var e := n[0].upvalues[k];
      assert GoodDesc(e, os[0]);
      if !e.isLocal && !d.isLocal && e.index != d.index {
        LeadsApart(os, e.index, d.index);
      }
    }
  }

  /** Only the variable's own mark changed. */
  ghost predicate Marked(a: Levels, b: Levels, p: Place)
  {
    |a| == |b| && forall l :: 0 <= l < |a| ==> LocalsMarked(a[l].locals, b[l].locals, if l == p.level then p.slot else -1)
  }

  ghost predicate LocalsMarked(a: seq<Local>, b: seq<Local>, slot: int)
  {
    |a| == |b| && forall i :: 0 <= i < |a| ==> b[i] == if i == slot then Local(a[i].name, a[i].depth, true) else a[i]
  }

  lemma MarkedOutward(ls: Levels, os: Levels, ups: seq<Desc>, p: Place)
    requires |ls| > 0 && p.level > 0 && Marked(ls[1..], os, Place(p.level - 1, p.slot))
    ensures Marked(ls, Inside(ls[0], ups, os), p)
  {
    var n := Inside(ls[0], ups, os);
    forall l | 0 <= l < |ls|
      ensures LocalsMarked(ls[l].locals, n[l].locals, if l == p.level then p.slot else -1)
    {
      if l > 0 {
        assert LocalsMarked(ls[1..][l - 1].locals, os[l - 1].locals, if l - 1 == p.level - 1 then p.slot else -1);
      }
    }
  }

  /** The innermost level with one of its locals marked as captured. */
  function MarkHead(ls: Levels, slot: nat): (n: Levels)
    requires |ls| > 0 && slot < |ls[0].locals|
    ensures |n| == |ls| && n[1..] == ls[1..]
  {
    [Level(ls[0].locals[slot := Local(ls[0].locals[slot].name, ls[0].locals[slot].depth, true)], ls[0].upvalues)] + ls[1..]
  }

  /** Marking a local keeps all descriptors good. */
  lemma {:induction false} MarkKeeps(ls: Levels, slot: nat)
    requires Good(ls) && |ls| > 0 && slot < |ls[0].locals|
    ensures Good(MarkHead(ls, slot)) && Grown(ls, MarkHead(ls, slot)) && Marked(ls, MarkHead(ls, slot), Place(0, slot))
  {
    var n := MarkHead(ls, slot);
    assert GoodHead(ls);
    forall k | 0 <= k < |n[0].upvalues|
      ensures |n| > 1 && GoodDesc(n[0].upvalues[k], n[1])
    {
      assert GoodDesc(ls[0].upvalues[k], ls[1]);
    }
    assert GoodHead(n);
    assert LevelGrown(ls[0], n[0]);
    forall l | 0 <= l < |ls|
      ensures LevelGrown(ls[l], n[l]) && LocalsMarked(ls[l].locals, n[l].locals, if l == 0 then slot else -1)
    {
      if l > 0 {
        assert n[l] == ls[l];
      }
    }
  }

  // ---------------------------------------------------------------------
  // Resolution
  // ---------------------------------------------------------------------

  /** Adding a descriptor: an equal one is reused, and 256 is the limit. */
  ghost predicate AddedTo(before: seq<Desc>, d: Desc, after: seq<Desc>, r: int)
  {
    if d in before then after == before && 0 <= r < |after| && after[r] == d
    else if |before| >= MAX_UPVALUES then after == before && r == -1
    else after == before + [d] && r == |before|
  }

  /**
    What resolving a free name does to the levels, and what its result says. It succeeds exactly when
    some enclosing function has such a variable and every function in between has, or has room for, a
    descriptor of it. The descriptor returned leads to that variable, which is marked as captured.
  */
  ghost predicate Resolves(a: Levels, b: Levels, name: Text, r: int)
  {
    Good(a) && Good(b) && |a| > 0 && Grown(a, b) && r >= -1
    && (match HomeOf(a, name)
        case None => r == -1 && b == a
        case Some(p) => (r >= 0 <==> Room(a, p)) && (r >= 0 ==> r < |b[0].upvalues| && Leads(b, r) == p) && Marked(a, b, p))
  }

  /** The variable is marked as captured, and everything else about the locals stays. */
  lemma ResolvedMarks(a: Levels, b: Levels, name: Text, r: int)
    requires Resolves(a, b, name, r) && HomeOf(a, name).Some?
    ensures |a| == |b| && forall l :: 0 <= l < |a| ==> |a[l].locals| == |b[l].locals|
    ensures var p := HomeOf(a, name).value;
      b[p.level].locals[p.slot].captured
      && (forall i :: 0 <= i < |a[p.level].locals| && i != p.slot ==> b[p.level].locals[i] == a[p.level].locals[i])
      && (forall l :: 0 <= l < |a| && l != p.level ==> b[l].locals == a[l].locals)
  {
    hide Good, Grown, Room, Leads;
    var p := HomeOf(a, name).value;
    forall l | 0 <= l < |a|
      ensures LocalsMarked(a[l].locals, b[l].locals, if l == p.level then p.slot else -1)
    {
    }
    forall l | 0 <= l < |a| && l != p.level ensures b[l].locals == a[l].locals {
      assert LocalsMarked(a[l].locals, b[l].locals, -1);
    }
  }

  lemma {:induction false} HomeFacts(ls: Levels, name: Text)
    requires |ls| > 0
    ensures |ls| == 1 ==> HomeOf(ls, name) == None
    ensures |ls| > 1 ==>
              HomeOf(ls, name)
              == if SlotOf(ls[1].locals, name) >= 0 then Some(Place(1, SlotOf(ls[1].locals, name))) else Outward(HomeOf(ls[1..], name))
  {
  }

  lemma {:induction false} NothingAround(ls: Levels, name: Text)
    requires Good(ls) && |ls| == 1
    ensures Resolves(ls, ls, name, -1)
  {
  }

  lemma {:induction false} GoodTail(ls: Levels)
    requires Good(ls) && |ls| > 0
    ensures Good(ls[1..])
  {
  }

  /** The last step of a resolution that found its variable at p. */
  lemma ResolvedAs(ls: Levels, os: Levels, d: Desc, ups: seq<Desc>, r: int, p: Place)
    requires Good(ls) && |ls| > 1 && Good(os) && Grown(ls[1..], os) && GoodDesc(d, os[0])
    requires 1 <= p.level < |ls| && Target(os, d) == p && (p.level > 1 ==> Room(ls[1..], Place(p.level - 1, p.slot)))
    requires Marked(ls[1..], os, Place(p.level - 1, p.slot)) && AddedTo(ls[0].upvalues, d, ups, r)
    ensures Good(Inside(ls[0], ups, os)) && Grown(ls, Inside(ls[0], ups, os)) && Marked(ls, Inside(ls[0], ups, os), p)
    ensures r >= 0 <==> Room(ls, p)
    ensures r >= 0 ==> r < |ups| && Leads(Inside(ls[0], ups, os), r) == p
  {
    hide Good, Grown, Leads, Marked, Target, Reaches;
    HasDesc(ls, os, d);
    MarkedOutward(ls, os, ups, p);
    if r >= 0 {
      Added(ls, os, d, ups, r);
    } else {
      StillGood(ls, os);
    }
  }

  /** The variable is a local of the next level. */
  lemma LocalResolved(ls: Levels, name: Text, slot: nat, ups: seq<Desc>, r: int)
    requires Good(ls) && |ls| > 1 && slot == SlotOf(ls[1].locals, name) && AddedTo(ls[0].upvalues, Desc(true, slot), ups, r)
    ensures Resolves(ls, Inside(ls[0], ups, MarkHead(ls[1..], slot)), name, r)
  {
    hide Good, Grown, Leads, Marked, Reaches, HomeOf;
    var os := MarkHead(ls[1..], slot);
    GoodTail(ls);
    MarkKeeps(ls[1..], slot);
    HomeFacts(ls, name);
    ResolvedAs(ls, os, Desc(true, slot), ups, r, Place(1, slot));
  }

  /** The variable, if any, is further out. */
  lemma OuterResolved(ls: Levels, os: Levels, name: Text, uvIdx: int, ups: seq<Desc>, r: int)
    requires Good(ls) && |ls| > 1 && SlotOf(ls[1].locals, name) < 0 && Resolves(ls[1..], os, name, uvIdx)
    requires if uvIdx == -1 then ups == ls[0].upvalues && r == -1 else AddedTo(ls[0].upvalues, Desc(false, uvIdx), ups, r)
    ensures Resolves(ls, Inside(ls[0], ups, os), name, r)
  {
    hide Good, Grown, Leads, Marked, Reaches, HomeOf;
    HomeFacts(ls, name);
    var home := HomeOf(ls[1..], name);
    if uvIdx >= 0 {
      ResolvedAs(ls, os, Desc(false, uvIdx), ups, r, Outward(home).value);
    } else {
      StillGood(ls, os);
      if home.Some? {
        MarkedOutward(ls, os, ups, Outward(home).value);
      }
    }
  }

  // ---------------------------------------------------------------------
  // Run time
  // ---------------------------------------------------------------------

  /** The cells a new closure gets: captured from the creating frame's slots or passed on from its own closure. */
  function MakeClosure(descs: seq<Desc>, slots: seq<nat>, own: seq<nat>): (cells: seq<nat>)
    ensures |cells| == |descs|
  {
    seq(|descs|, k requires 0 <= k < |descs| =>
      var d := descs[k];
      if d.isLocal then (if d.index < |slots| then slots[d.index] else 0)
      else if d.index < |own| then own[d.index] else 0)
  }

  /**
    Each function's closure was made by a frame of the function around it, from the bytes emitted for
    its descriptors; `slots` are those frames' variables.
  */
  ghost predicate MadeInside(ls: Levels, slots: seq<seq<nat>>, held: seq<seq<nat>>)
  {
    |slots| == |ls| && |held| == |ls|
    && (forall l :: 0 <= l < |ls| ==> |slots[l]| >= |ls[l].locals|)
    && (forall l :: 0 <= l < |ls| - 1 ==> MadeBy(ls[l], slots[l + 1], held[l + 1], held[l]))
  }

  ghost predicate MadeBy(level: Level, slots: seq<nat>, own: seq<nat>, made: seq<nat>)
  {
    made == MakeClosure(Captured(0, level.upvalues), slots, own)
  }

  /** So many descriptors fit the count byte. */
  ghost predicate Countable(ls: Levels)
  {
    forall l :: 0 <= l < |ls| ==> |ls[l].upvalues| <= MAX_COUNT
  }

  lemma {:induction false} GoodIsSmall(ls: Levels)
    requires Good(ls) && |ls| > 0
    ensures Small(ls[0].upvalues)
  {
    forall k | 0 <= k < |ls[0].upvalues| ensures ls[0].upvalues[k].index < 0x100 {
      assert GoodDesc(ls[0].upvalues[k], ls[1]) && GoodHead(ls[1..]);
    }
  }

  lemma MadeOutside(ls: Levels, slots: seq<seq<nat>>, held: seq<seq<nat>>)
    requires MadeInside(ls, slots, held) && |ls| > 0
    ensures MadeInside(ls[1..], slots[1..], held[1..])
    ensures Countable(ls) ==> Countable(ls[1..])
  {
    hide MadeBy;
    forall l | 0 <= l < |ls[1..]|
      ensures |slots[1..][l]| >= |ls[1..][l].locals|
      ensures l < |ls[1..]| - 1 ==> MadeBy(ls[1..][l], slots[1..][l + 1], held[1..][l + 1], held[1..][l])
    {
      assert slots[1..][l] == slots[l + 1] && ls[1..][l] == ls[l + 1];
      if l < |ls[1..]| - 1 {
        assert MadeBy(ls[l + 1], slots[l + 2], held[l + 2], held[l + 1]);
      }
    }
  }

  /** A closure holds all the variables its function was compiled with if and only if there are at most 255 of them. */
  lemma {:induction false} HoldsAllExactly(ls: Levels, slots: seq<seq<nat>>, held: seq<seq<nat>>)
    requires Good(ls) && |ls| > 1 && MadeInside(ls, slots, held)
    ensures |held[0]| == |ls[0].upvalues| <==> |ls[0].upvalues| <= MAX_COUNT
    ensures |ls[0].upvalues| == MAX_UPVALUES ==> held[0] == []
  {
    assert MadeBy(ls[0], slots[1], held[1], held[0]);
  }

  /**
    At run time a resolved name reads the cell of the very variable it was resolved to, if no function
    on the way has 256 descriptors.
  */
  lemma {:induction false} ReadsItsVariable(ls: Levels, slots: seq<seq<nat>>, held: seq<seq<nat>>, k: nat)
    requires Good(ls) && |ls| > 0 && k < |ls[0].upvalues| && MadeInside(ls, slots, held) && Countable(ls)
    ensures |ls| > 1 && |held[0]| == |ls[0].upvalues|
    ensures var p := Leads(ls, k); p.slot < |slots[p.level]| && held[0][k] == slots[p.level][p.slot]
  {
    hide MadeInside, Captured, Small;
    var d := ls[0].upvalues[k];
    assert GoodDesc(d, ls[1]);
    MadeAll(ls, slots, held);
    if !d.isLocal {
      MadeOutside(ls, slots, held);
      ReadsItsVariable(ls[1..], slots[1..], held[1..], d.index);
    }
  }

  /** What a closure made from all its descriptors holds. */
  lemma {:induction false} MadeAll(ls: Levels, slots: seq<seq<nat>>, held: seq<seq<nat>>)
    requires Good(ls) && |ls| > 1 && MadeInside(ls, slots, held) && Countable(ls)
    ensures |slots| == |held| == |ls| && held[0] == MakeClosure(ls[0].upvalues, slots[1], held[1])
    ensures forall l :: 0 <= l < |ls| ==> |slots[l]| >= |ls[l].locals|
  {
    GoodIsSmall(ls);
    var ups := ls[0].upvalues;
    assert MadeBy(ls[0], slots[1], held[1], held[0]);
    assert ups[..|ups| % 0x100] == ups;
  }

  /** A function that uses all 256 locals of the one around it: both levels are as resolution leaves them. */
  function UsesAll(): Levels
  {
    [Level([], AllSlots(MAX_UPVALUES)), Level(seq(MAX_LOCALS, _ => Local(NoName, 0, true)), [])]
  }

  /** Its closure holds nothing, so no name in it can be read. */
  lemma UsesAllHoldsNothing(slots: seq<seq<nat>>, held: seq<seq<nat>>)
    requires MadeInside(UsesAll(), slots, held)
    ensures Good(UsesAll()) && |UsesAll()[0].upvalues| == MAX_UPVALUES && held[0] == []
  {
    var ls := UsesAll();
    assert ls[1..][1..] == [];
    assert Good(ls[1..]);
    assert Good(ls);
    HoldsAllExactly(ls, slots, held);
  }
}
