/**
  Call frames: four kinds of calls that all return through the same code, told apart by flags in the
  callee's and the caller's frame, with frames taken from a fixed pool first.
*/
module Calls {
  import opened Values
  import opened Binding

  const POOL_SIZE := 256

  /** What a call is for. The last three run a method on behalf of an operator, `del` or a for-in loop. */
  datatype Kind = Function | Constructor | Method | Operator | Deletion | Iteration(offset: int)

  /** A call that has not returned: where on the stack it began, and what it is for. */
  datatype Act = Act(base: nat, kind: Kind)

  /** The fields of a frame. */
  datatype View = View(slots: nat, slotCount: nat, ip: int, isCtor: bool, boundCall: bool, discardReturn: bool,
                       forIterPending: bool, forIterOffset: int)

  class Frame {
    const poolIndex: int
    var slots: nat
    var slotCount: nat
    var ip: int
    var caller: Frame?
    var isCtor: bool
    var boundCall: bool
    var discardReturn: bool
    var forIterPending: bool
    var forIterOffset: int

    constructor (poolIndex: int)
      ensures this.poolIndex == poolIndex && caller == null && Shown() == View(0, 0, 0, false, false, false, false, 0)
    {
      this.poolIndex := poolIndex;
      slots, slotCount, ip, caller := 0, 0, 0, null;
      isCtor, boundCall, discardReturn, forIterPending, forIterOffset := false, false, false, false, 0;
    }

    ghost function Shown(): View
      reads this
    {
      View(slots, slotCount, ip, isCtor, boundCall, discardReturn, forIterPending, forIterOffset)
    }
  }

  // ---------------------------------------------------------------------
  // The protocol
  // ---------------------------------------------------------------------

  /** How a pending call shows in its caller's and its own frame. */
  ghost predicate Activated(a: Act, caller: View, callee: View)
  {
    callee.isCtor == a.kind.Constructor?
    && callee.boundCall == (a.kind.Method? || a.kind.Operator? || a.kind.Deletion? || a.kind.Iteration?)
    && callee.slots == FirstSlot(a)
    && caller.discardReturn == a.kind.Deletion?
    && caller.forIterPending == a.kind.Iteration?
    && (a.kind.Iteration? ==> caller.forIterOffset == a.kind.offset && a.base > caller.slots)
    && a.base >= caller.slots
  }

  ghost predicate Protocol(views: seq<View>, acts: seq<Act>, sp: nat)
  {
    |views| == |acts| + 1
    && (forall i :: 0 <= i < |acts| ==> Activated(acts[i], views[i], views[i + 1]))
    && !views[|acts|].discardReturn && !views[|acts|].forIterPending
    && views[|acts|].slots <= sp
  }

  /** The stack after a call has returned: what was below its base, plus its result as its kind wants it. */
  function Returned(a: Act, stack: seq<Arg>, result: Arg): seq<Arg>
    requires a.base <= |stack| && (a.kind.Iteration? ==> a.base > 0)
  {
    match a.kind
    case Deletion => stack[..a.base]
    case Iteration(_) => if result == NIL then stack[..a.base - 1] else stack[..a.base] + [result]
    case _ => stack[..a.base] + [result]
  }

  /** The caller's frame afterwards: no flag is left, and an exhausted iteration jumps. */
  function Resumed(a: Act, v: View, result: Arg): View
  {
    v.(discardReturn := false, forIterPending := false,
       ip := if a.kind.Iteration? && result == NIL then v.ip + a.kind.offset else v.ip)
  }

  /** The caller's frame while the call is pending. */
  function Suspended(kind: Kind, v: View): View
  {
    match kind
    case Deletion => v.(discardReturn := true)
    case Iteration(offset) => v.(forIterPending := true, forIterOffset := offset)
    case _ => v
  }

  function Entered(kind: Kind, slots: nat, slotCount: nat): View
  {
    View(slots, slotCount, 0, kind.Constructor?, !kind.Function? && !kind.Constructor?, false, false, 0)
  }

  // ---------------------------------------------------------------------
  // The protocol as a state machine
  // ---------------------------------------------------------------------

  /** What the frames show, bottom first, the calls that have not returned, and the stack. */
  datatype State = State(views: seq<View>, acts: seq<Act>, stack: seq<Arg>)

  /** One of the four ways to call, work of the current call, or its return, with a value or without. */
  datatype Event =
    | CallPlain(p: Proto, argc: nat)
    | CallOn(p: Proto, self: Arg, argc: nat, isCtor: bool)
    | CallDunder(p: Proto, argv: seq<Arg>, kind: Kind)
    | CallNamed(p: Proto, posArgc: nat, es: seq<Entry>)
    | Works(s: seq<Arg>, ip: int)
    | Returns(popped: Option<Arg>)

  ghost predicate Ready(s: State)
  {
    Protocol(s.views, s.acts, |s.stack|)
  }

  /** A value that is returned is the one on top; a constructor's frame has its `self` above the floor in any case. */
  ghost predicate Popped(stack: seq<Arg>, floor: nat, kind: Kind, popped: Option<Arg>)
  {
    (popped.Some? || kind.Constructor? ==> floor < |stack|) && (popped.Some? ==> popped.value == stack[|stack| - 1])
  }

  /** What the running call demands of its bytecode. */
  ghost predicate CanDo(s: State, e: Event)
  {
    Ready(s)
    && var floor := s.views[|s.acts|].slots;
       match e
       case CallPlain(p, argc) => WellMade(p) && argc < |s.stack| && floor <= |s.stack| - argc - 1
       case CallOn(p, _, argc, _) => WellMade(p) && argc < |s.stack| && floor <= |s.stack| - argc - 1
       case CallDunder(p, _, kind) =>
         WellMade(p) && (kind.Operator? || kind.Deletion? || kind.Iteration?) && (kind.Iteration? ==> floor < |s.stack|)
       case CallNamed(p, posArgc, es) =>
         WellMade(p) && KeysDiffer(es) && posArgc + 1 < |s.stack| && floor <= |s.stack| - posArgc - 2
       case Works(stack, _) => floor <= |stack|
       case Returns(popped) => |s.acts| > 0 && Popped(s.stack, floor, s.acts[|s.acts| - 1].kind, popped)
  }

  /** A call's activation, the stack its frame begins with, and the slots its function needs. */
  datatype Call = Call(act: Act, bound: seq<Arg>, slotCount: nat)

  /** The call an event makes, if its arguments can be bound. */
  ghost function CallOf(s: State, e: Event): Option<Call>
    requires CanDo(s, e)
  {
    match e
    case CallPlain(p, argc) =>
      var base := |s.stack| - argc - 1;
      if Bindable(p, argc) then Some(Call(Act(base, Function), s.stack[..base + 1] + BoundSlots(p, s.stack[base + 1..]), p.localCount))
      else None
    case CallOn(p, self, argc, isCtor) =>
      var base := |s.stack| - argc - 1;
      if Bindable(p, argc + 1) then
        Some(Call(Act(base, if isCtor then Constructor else Method),
                  s.stack[..base] + BoundSlots(p, [self] + s.stack[base + 1..]), p.localCount))
      else None
    case CallDunder(p, argv, kind) =>
      if Bindable(p, |argv|) then Some(Call(Act(|s.stack|, kind), s.stack + BoundSlots(p, argv), p.localCount)) else None
    case CallNamed(p, posArgc, es) =>
      var base := |s.stack| - posArgc - 2;
      if KwBindable(p, posArgc, MapOfEntries(es)) then
        Some(Call(Act(base, Function),
                  s.stack[..base + 1] + KwSlots(p, s.stack[base + 1..|s.stack| - 1], MapOfEntries(es)), p.localCount))
      else None
    case _ => None
  }

  ghost function Done(s: State, e: Event): State
    requires CanDo(s, e)
  {
    var n := |s.acts|;
    match e
    case Works(stack, ip) => State(s.views[n := s.views[n].(ip := ip)], s.acts, stack)
    case Returns(popped) => Leaving(s, popped)
    case CallOn(_, self, argc, _) =>
      var c := CallOf(s, e);
      if c.Some? then Entering(s, c.value) else s.(stack := s.stack[|s.stack| - argc - 1 := self])
    case _ =>
      var c := CallOf(s, e);
      if c.Some? then Entering(s, c.value) else s
  }

  ghost function Entering(s: State, c: Call): State
    requires |s.views| == |s.acts| + 1
  {
    var n := |s.acts|;
    State(s.views[n := Suspended(c.act.kind, s.views[n])] + [Entered(c.act.kind, FirstSlot(c.act), c.slotCount)],
          s.acts + [c.act], c.bound)
  }

  /** A plain call keeps its callee below its slots; the others have put `self` or an argument there. */
  function FirstSlot(a: Act): nat
  {
    a.base + if a.kind.Function? then 1 else 0
  }

  ghost function Leaving(s: State, popped: Option<Arg>): State
    requires CanDo(s, Returns(popped))
  {
    var n := |s.acts| - 1;
    var a := s.acts[n];
    assert Activated(a, s.views[n], s.views[n + 1]);
    var result := Result(a, s.stack, popped);
    State(s.views[..n] + [Resumed(a, s.views[n], result)], s.acts[..n], Returned(a, s.stack, result))
  }

  /** What a call's result is: a constructor's is its slot 0, any other's the value returned, or nil. */
  function Result(a: Act, s: seq<Arg>, popped: Option<Arg>): Arg
    requires a.kind.Constructor? ==> a.base < |s|
  {
    if a.kind.Constructor? then s[a.base] else if popped.Some? then popped.value else NIL
  }

  // ---------------------------------------------------------------------
  // What a return does, said once more without the definitions above
  // ---------------------------------------------------------------------

  /** What a return with a value, or without one, gives. */
  function Given(popped: Option<Arg>): Arg
  {
    match popped
    case Some(v) => v
    case None => NIL
  }

  /**
    Below the call's base the stack is what it was just before the return. Above it there is the value that was
    returned; a constructor leaves slot 0 of its frame there, a deletion nothing; and an iteration that gave nil
    takes the iterator away.
  */
  ghost predicate HandsBack(a: Act, was: seq<Arg>, popped: Option<Arg>, now: seq<Arg>)
  {
    && a.base <= |was|
    && (a.kind.Function? || a.kind.Method? || a.kind.Operator? ==> now == was[..a.base] + [Given(popped)])
    && (a.kind.Constructor? ==> a.base < |was| && now == was[..a.base] + [was[a.base]])
    && (a.kind.Deletion? ==> now == was[..a.base])
    && (a.kind.Iteration? && Given(popped) != NIL ==> now == was[..a.base] + [Given(popped)])
    && (a.kind.Iteration? && Given(popped) == NIL ==> 0 < a.base && now == was[..a.base - 1])
  }

  /** The caller's frame goes on behind its call, or where a finished iteration sends it, with no flag left. */
  ghost predicate GoesOn(a: Act, v: View, popped: Option<Arg>, w: View)
  {
    && w.slots == v.slots && w.slotCount == v.slotCount && w.isCtor == v.isCtor && w.boundCall == v.boundCall
    && !w.discardReturn && !w.forIterPending
    && w.ip == v.ip + (if a.kind.Iteration? && Given(popped) == NIL then a.kind.offset else 0)
  }

  lemma LeavingHandsBack(s: State, popped: Option<Arg>)
    requires CanDo(s, Returns(popped))
    ensures var n := |s.acts| - 1;
      var u := Done(s, Returns(popped));
      && |s.views| == n + 2 && |u.views| == n + 1 && u.views[..n] == s.views[..n] && u.acts == s.acts[..n]
      && HandsBack(s.acts[n], s.stack, popped, u.stack) && GoesOn(s.acts[n], s.views[n], popped, u.views[n])
  {
    assert Activated(s.acts[|s.acts| - 1], s.views[|s.acts| - 1], s.views[|s.acts|]);
  }

  lemma ProtocolEnter(views: seq<View>, acts: seq<Act>, sp: nat, a: Act, slotCount: nat, sp': nat)
    requires Protocol(views, acts, sp) && views[|acts|].slots <= a.base && (a.kind.Iteration? ==> views[|acts|].slots < a.base)
    requires FirstSlot(a) <= sp'
    ensures Protocol(views[|acts| := Suspended(a.kind, views[|acts|])] + [Entered(a.kind, FirstSlot(a), slotCount)], acts + [a], sp')
  {
    var n := |acts|;
    var vs := views[n := Suspended(a.kind, views[n])] + [Entered(a.kind, FirstSlot(a), slotCount)];
    forall i | 0 <= i < n + 1
      ensures Activated((acts + [a])[i], vs[i], vs[i + 1])
    {
      if i < n {
        assert Activated(acts[i], views[i], views[i + 1]);
      }
    }
  }

  lemma ProtocolLeave(views: seq<View>, acts: seq<Act>, sp: nat, result: Arg, sp': nat)
    requires Protocol(views, acts, sp) && |acts| > 0
    requires var a := acts[|acts| - 1]; a.base - (if a.kind.Iteration? then 1 else 0) <= sp'
    ensures var n := |acts| - 1;
            Protocol(views[..n] + [Resumed(acts[n], views[n], result)], acts[..n], sp')
  {
    var n := |acts| - 1;
    var vs := views[..n] + [Resumed(acts[n], views[n], result)];
    assert Activated(acts[n], views[n], views[n + 1]);
    forall i | 0 <= i < n
      ensures Activated(acts[..n][i], vs[i], vs[i + 1])
    {
      assert Activated(acts[i], views[i], views[i + 1]);
    }
  }

  lemma ProtocolWork(views: seq<View>, acts: seq<Act>, sp: nat, ip: int, sp': nat)
    requires Protocol(views, acts, sp) && views[|acts|].slots <= sp'
    ensures Protocol(views[|acts| := views[|acts|].(ip := ip)], acts, sp')
  {
    var n := |acts|;
    var vs := views[n := views[n].(ip := ip)];
    forall i | 0 <= i < n
      ensures Activated(acts[i], vs[i], vs[i + 1])
    {
      assert Activated(acts[i], views[i], views[i + 1]);
    }
  }

  // ---------------------------------------------------------------------
  // Frames in the pool
  // ---------------------------------------------------------------------

  /** The frames in use are the pool's first ones, bottom up, and then frames of their own. */
  ghost predicate Pooled(frames: seq<Frame>, pool: seq<Frame>, poolTop: nat)
  {
    |pool| == POOL_SIZE && (forall i :: 0 <= i < POOL_SIZE ==> pool[i].poolIndex == i)
    && |frames| > 0 && frames[0].poolIndex < 0
    && poolTop == (if |frames| - 1 < POOL_SIZE then |frames| - 1 else POOL_SIZE)
    && (forall i :: 1 <= i < |frames| ==> if i <= POOL_SIZE then frames[i] == pool[i - 1] else frames[i].poolIndex < 0)
    && (forall i, j :: 0 <= i < j < |frames| ==> frames[i] != frames[j])
  }

  function Below(frames: seq<Frame>, i: int): Frame?
    requires i <= |frames|
  {
    if i > 0 then frames[i - 1] else null
  }

  /** The chain of frames, bottom first, and what its fields are. */
  ghost predicate Mirrored(frames: seq<Frame>, views: seq<View>, all: set<Frame>)
    reads all
  {
    |views| == |frames|
    && forall i :: 0 <= i < |frames| ==>
         frames[i] in all && frames[i].Shown() == views[i] && frames[i].caller == Below(frames, i)
  }

  lemma PooledMore(frames: seq<Frame>, pool: seq<Frame>, poolTop: nat, f: Frame)
    requires Pooled(frames, pool, poolTop) && f !in frames
    requires if poolTop < POOL_SIZE then f == pool[poolTop] else f.poolIndex < 0
    ensures Pooled(frames + [f], pool, if poolTop < POOL_SIZE then poolTop + 1 else poolTop)
  {
  }

  lemma PooledLess(frames: seq<Frame>, pool: seq<Frame>, poolTop: nat)
    requires Pooled(frames, pool, poolTop) && |frames| > 1
    ensures var f := frames[|frames| - 1];
            (f.poolIndex >= 0 <==> |frames| - 1 <= POOL_SIZE) && (f.poolIndex >= 0 ==> poolTop > 0)
            && Pooled(frames[..|frames| - 1], pool, if f.poolIndex >= 0 then poolTop - 1 else poolTop)
  {
  }

  /** The next pool frame is not in use. */
  lemma PoolFree(frames: seq<Frame>, pool: seq<Frame>, poolTop: nat)
    requires Pooled(frames, pool, poolTop) && poolTop < POOL_SIZE
    ensures |pool| == POOL_SIZE && pool[poolTop] !in frames && forall i :: 0 <= i < |frames| ==> frames[i] != pool[poolTop]
  {
    forall i | 0 <= i < |frames|
      ensures frames[i] != pool[poolTop]
    {
      if i > 0 {
        assert frames[i] == pool[i - 1];
      }
    }
  }

  ghost predicate AllIn(pool: seq<Frame>, all: set<Frame>)
  {
    forall i :: 0 <= i < |pool| ==> pool[i] in all
  }

  method MakePool() returns (frames: seq<Frame>)
    ensures |frames| == POOL_SIZE && fresh(set f | f in frames)
    ensures forall i :: 0 <= i < POOL_SIZE ==> frames[i].poolIndex == i
  {
    frames := [];
    for i := 0 to POOL_SIZE
      invariant |frames| == i && fresh(set f | f in frames)
      invariant forall j :: 0 <= j < i ==> frames[j].poolIndex == j
    {
      var f := new Frame(i);
      frames := frames + [f];
    }
  }

  class Thread {
    const pool: seq<Frame>
    var poolTop: nat
    var stack: seq<Arg>
    var topFrame: Frame

    ghost var all: set<Frame>
    ghost var frames: seq<Frame>
    ghost var views: seq<View>
    ghost var acts: seq<Act>

    ghost predicate Valid()
      reads this, all
    {
      AllIn(pool, all)
      && Pooled(frames, pool, poolTop) && topFrame == frames[|frames| - 1]
      && Mirrored(frames, views, all) && Protocol(views, acts, |stack|)
    }

    /** A thread about to run a program: one frame, not from the pool, and an empty stack. */
    constructor ()
      ensures Valid() && fresh(all) && stack == [] && acts == []
    {
      var frames := MakePool();
      var base := new Frame(-1);
      pool, poolTop, stack, topFrame := frames, 0, [], base;
      all, this.frames, views, acts := (set f | f in frames) + {base}, [base], [View(0, 0, 0, false, false, false, false, 0)], [];
    }

    ghost function Now(): State
      reads this
    {
      State(views, acts, stack)
    }

    /** The current call's slots begin here. */
    ghost function Floor(): nat
      requires |views| > 0
      reads this`views
    {
      views[|views| - 1].slots
    }

    lemma TopShown()
      requires Valid()
      ensures |views| == |frames| == |acts| + 1 && topFrame in all && topFrame.Shown() == views[|acts|] && Floor() <= |stack|
    {
    }

    /** From the pool while it lasts; either way no flag of an earlier use is left. */
    method NewFrame() returns (f: Frame)
      requires Valid()
      modifies this`poolTop, this`all, pool
      ensures f !in frames && (forall i :: 0 <= i < |frames| ==> frames[i] != f) && f in all && old(all) <= all && (f in old(all) || fresh(f))
      ensures if old(poolTop) < POOL_SIZE then f == pool[old(poolTop)] else f.poolIndex < 0
      ensures poolTop == if old(poolTop) < POOL_SIZE then old(poolTop) + 1 else old(poolTop)
      ensures !f.isCtor && !f.boundCall && !f.discardReturn && !f.forIterPending && f.forIterOffset == 0
      ensures all == old(all) + {f}
      ensures Mirrored(frames, views, all) && AllIn(pool, all)
      ensures |frames| > 0 && topFrame == frames[|frames| - 1] && forall i :: 0 <= i < |frames| - 1 ==> frames[i] != topFrame
    {
      hide Protocol, Mirrored, Pooled;
      TopIsLast();
      ghost var before := all;
      if poolTop < POOL_SIZE {
        PoolFree(frames, pool, poolTop);
        f := pool[poolTop];
        poolTop := poolTop + 1;
        MirroredFacts(frames, views, all);
        ResetFlags(f);
        MirroredAgain(frames, views, all);
      } else {
        f := new Frame(-1);
      }
      all := all + {f};
      MirroredGrow(frames, views, before, all);
    }

    method ResetFlags(f: Frame)
      modifies f
      ensures !f.isCtor && !f.boundCall && !f.discardReturn && !f.forIterPending && f.forIterOffset == 0
    {
      f.isCtor, f.boundCall, f.discardReturn, f.forIterPending, f.forIterOffset := false, false, false, false, 0;
    }

    /** Makes the call's frame current and marks what its return must do, in the two frames concerned. */
    method Enter(a: Act, bound: seq<Arg>, slotCount: nat)
      requires Valid() && Floor() <= a.base && (a.kind.Iteration? ==> Floor() < a.base)
      requires FirstSlot(a) <= |bound|
      modifies this`poolTop, this`stack, this`topFrame, this`all, this`frames, this`views, this`acts, all
      ensures fresh(all - old(all))
      ensures Valid() && stack == bound && acts == old(acts) + [a]
      ensures frames == old(frames) + [topFrame]
      ensures |old(views)| == |old(acts)| + 1 && Now() == Entering(old(Now()), Call(a, bound, slotCount))
    {
      hide Pooled, Protocol, Mirrored, Entered, Suspended;
      TopShown();
      ghost var n := |acts|;
      var slots := FirstSlot(a);
      ProtocolEnter(views, acts, |stack|, a, slotCount, |bound|);
      var f := NewFrame();
      PooledMore(frames, pool, old(poolTop), f);
      Wire(f, topFrame, a.kind, slots, slotCount);
      Commit(bound, f, frames + [f], views[n := Suspended(a.kind, views[n])] + [Entered(a.kind, slots, slotCount)], acts + [a]);
    }

    /** Sets the new frame up and leaves word in the caller's. */
    method Wire(f: Frame, caller: Frame, kind: Kind, slots: nat, slotCount: nat)
      requires Mirrored(frames, views, all) && |frames| > 0 && caller == frames[|frames| - 1] && f in all
      requires forall i :: 0 <= i < |frames| - 1 ==> frames[i] != caller
      requires forall i :: 0 <= i < |frames| ==> frames[i] != f
      requires !f.isCtor && !f.boundCall && !f.discardReturn && !f.forIterPending && f.forIterOffset == 0
      modifies f, caller
      ensures |views| == |frames|
      ensures Mirrored(frames + [f], views[|frames| - 1 := Suspended(kind, views[|frames| - 1])] + [Entered(kind, slots, slotCount)], all)
    {
      hide Entered, Suspended;
      MirroredFacts(frames, views, all);
      Start(f, kind, slots, slotCount, caller);
      Suspend(caller, kind);
      ghost var n := |frames| - 1;
      MirrorEntered(frames, views, all, f, Suspended(kind, views[n]), Entered(kind, slots, slotCount));
    }

    method Commit(bound: seq<Arg>, f: Frame, ghost fs: seq<Frame>, ghost vs: seq<View>, ghost calls: seq<Act>)
      requires AllIn(pool, all) && Pooled(fs, pool, poolTop) && |fs| > 0 && f == fs[|fs| - 1]
      requires Mirrored(fs, vs, all) && Protocol(vs, calls, |bound|)
      modifies this`stack, this`topFrame, this`frames, this`views, this`acts
      ensures Valid() && stack == bound && topFrame == f && frames == fs && views == vs && acts == calls
    {
      hide Pooled, Protocol, Mirrored;
      stack, topFrame := bound, f;
      frames, views, acts := fs, vs, calls;
    }

    lemma TopIsLast()
      requires Valid()
      ensures |frames| > 0 && topFrame == frames[|frames| - 1]
      ensures forall i :: 0 <= i < |frames| - 1 ==> frames[i] != topFrame
    {
    }

    method Start(f: Frame, kind: Kind, slots: nat, slotCount: nat, caller: Frame)
      requires !f.isCtor && !f.boundCall && !f.discardReturn && !f.forIterPending && f.forIterOffset == 0
      modifies f
      ensures f.Shown() == Entered(kind, slots, slotCount) && f.caller == caller
    {
      f.slots, f.slotCount, f.ip, f.caller := slots, slotCount, 0, caller;
      f.isCtor := kind.Constructor?;
      f.boundCall := kind.Method? || kind.Operator? || kind.Deletion? || kind.Iteration?;
    }

    method Suspend(caller: Frame, kind: Kind)
      modifies caller
      ensures caller.Shown() == Suspended(kind, old(caller.Shown())) && caller.caller == old(caller.caller)
    {
      if kind.Deletion? {
        caller.discardReturn := true;
      } else if kind.Iteration? {
        caller.forIterPending, caller.forIterOffset := true, kind.offset;
      }
    }

    // -------------------------------------------------------------------
    // Calls
    // -------------------------------------------------------------------

    /** `f(args)`: the callee stays below the frame's slots. A wrong number of arguments changes nothing. */
    method CallFunction(p: Proto, argc: nat) returns (ok: bool)
      requires Valid() && WellMade(p) && argc < |stack| && Floor() <= |stack| - argc - 1
      modifies this`poolTop, this`stack, this`topFrame, this`all, this`frames, this`views, this`acts, all
      ensures fresh(all - old(all))
      ensures Valid() && ok == Bindable(p, argc)
      ensures var base := old(|stack|) - argc - 1;
              if ok then acts == old(acts) + [Act(base, Function)] && frames == old(frames) + [topFrame]
                         && stack == old(stack)[..base + 1] + BoundSlots(p, old(stack)[base + 1..])
              else stack == old(stack) && acts == old(acts) && frames == old(frames)
      ensures ok ==> topFrame.Shown() == View(old(|stack|) - argc, p.localCount, 0, false, false, false, false, 0)
      ensures ok ==> topFrame.caller == old(topFrame) && old(topFrame).Shown() == old(topFrame.Shown())
      ensures CanDo(old(Now()), CallPlain(p, argc)) && Now() == Done(old(Now()), CallPlain(p, argc))
    {
      hide Pooled, Protocol, Mirrored, BoundSlots, Bindable;
      TopShown();
      var base := |stack| - argc - 1;
      ok := Bindable(p, argc);
      if ok {
        var bound := BindPositional(p, stack[..base + 1], stack[base + 1..]);
        Enter(Act(base, Function), bound, p.localCount);
        TopShown();
        CallerShown();
      }
    }

    /** A constructor or bound method: the callee's slot is overwritten with `self`, which becomes slot 0. */
    method CallSelf(p: Proto, self: Arg, argc: nat, isCtor: bool) returns (ok: bool)
      requires Valid() && WellMade(p) && argc < |stack| && Floor() <= |stack| - argc - 1
      modifies this`poolTop, this`stack, this`topFrame, this`all, this`frames, this`views, this`acts, all
      ensures fresh(all - old(all))
      ensures Valid() && ok == Bindable(p, argc + 1)
      ensures var base := old(|stack|) - argc - 1;
              if ok then acts == old(acts) + [Act(base, if isCtor then Constructor else Method)] && frames == old(frames) + [topFrame]
                         && stack == old(stack)[..base] + BoundSlots(p, [self] + old(stack)[base + 1..])
              else stack == old(stack)[base := self] && acts == old(acts) && frames == old(frames)
      ensures ok ==> topFrame.Shown() == View(old(|stack|) - argc - 1, p.localCount, 0, isCtor, !isCtor, false, false, 0)
      ensures ok ==> topFrame.caller == old(topFrame) && old(topFrame).Shown() == old(topFrame.Shown())
      ensures CanDo(old(Now()), CallOn(p, self, argc, isCtor)) && Now() == Done(old(Now()), CallOn(p, self, argc, isCtor))
    {
      hide Pooled, Protocol, Mirrored, BoundSlots, Bindable;
      TopShown();
      var base := |stack| - argc - 1;
      ok := Bindable(p, argc + 1);
      if ok {
        assert stack[base := self][base..] == [self] + stack[base + 1..];
        var bound := BindPositional(p, stack[..base], stack[base := self][base..]);
        Enter(Act(base, if isCtor then Constructor else Method), bound, p.localCount);
        TopShown();
        CallerShown();
      } else {
        Overwrite(base, self);
      }
    }

    method Overwrite(i: nat, v: Arg)
      requires Valid() && i < |stack|
      modifies this`stack
      ensures Valid() && stack == old(stack)[i := v]
    {
      hide Pooled, Mirrored;
      stack := stack[i := v];
    }

    /** A method run for an operator, `del x[k]` or a for-in loop: its arguments are pushed here. */
    method CallOperator(p: Proto, argv: seq<Arg>, kind: Kind) returns (ok: bool)
      requires Valid() && WellMade(p) && (kind.Operator? || kind.Deletion? || kind.Iteration?)
      requires kind.Iteration? ==> Floor() < |stack|
      modifies this`poolTop, this`stack, this`topFrame, this`all, this`frames, this`views, this`acts, all
      ensures fresh(all - old(all))
      ensures Valid() && ok == Bindable(p, |argv|)
      ensures if ok then acts == old(acts) + [Act(old(|stack|), kind)] && frames == old(frames) + [topFrame]
                         && stack == old(stack) + BoundSlots(p, argv)
              else stack == old(stack) && acts == old(acts) && frames == old(frames)
      ensures ok ==> topFrame.Shown() == View(old(|stack|), p.localCount, 0, false, true, false, false, 0)
      ensures ok ==> topFrame.caller == old(topFrame)
      ensures ok && kind.Operator? ==> old(topFrame).Shown() == old(topFrame.Shown())
      ensures ok && kind.Deletion? ==> old(topFrame).Shown() == old(topFrame.Shown()).(discardReturn := true)
      ensures ok && kind.Iteration? ==>
        old(topFrame).Shown() == old(topFrame.Shown()).(forIterPending := true, forIterOffset := kind.offset)
      ensures CanDo(old(Now()), CallDunder(p, argv, kind)) && Now() == Done(old(Now()), CallDunder(p, argv, kind))
    {
      hide Pooled, Protocol, Mirrored, BoundSlots, Bindable;
      TopShown();
      ok := Bindable(p, |argv|);
      if ok {
        var bound := BindPositional(p, stack, argv);
        Enter(Act(|stack|, kind), bound, p.localCount);
        TopShown();
        CallerShown();
      }
    }

    /** `f(args, **kwargs)`: nothing is touched unless every parameter can be bound. */
    method CallKeywords(p: Proto, posArgc: nat, es: seq<Entry>) returns (ok: bool)
      requires Valid() && WellMade(p) && KeysDiffer(es) && posArgc + 1 < |stack| && Floor() <= |stack| - posArgc - 2
      modifies this`poolTop, this`stack, this`topFrame, this`all, this`frames, this`views, this`acts, all
      ensures fresh(all - old(all))
      ensures Valid() && ok == KwBindable(p, posArgc, MapOfEntries(es))
      ensures var base := old(|stack|) - posArgc - 2;
              if ok then acts == old(acts) + [Act(base, Function)] && frames == old(frames) + [topFrame]
                         && stack == old(stack)[..base + 1] + KwSlots(p, old(stack)[base + 1..|old(stack)| - 1], MapOfEntries(es))
              else stack == old(stack) && acts == old(acts) && frames == old(frames) && topFrame == old(topFrame)
      ensures ok ==> topFrame.Shown() == View(old(|stack|) - posArgc - 1, p.localCount, 0, false, false, false, false, 0)
      ensures ok ==> topFrame.caller == old(topFrame) && old(topFrame).Shown() == old(topFrame.Shown())
      ensures CanDo(old(Now()), CallNamed(p, posArgc, es)) && Now() == Done(old(Now()), CallNamed(p, posArgc, es))
    {
      hide Pooled, Protocol, Mirrored, KwSlots, KwBindable, MapOfEntries, KeysDiffer;
      TopShown();
      var base := |stack| - posArgc - 2;
      var slots := BindKeywords(p, stack[base + 1..|stack| - 1], es);
      ok := slots.Some?;
      if ok {
        Enter(Act(base, Function), stack[..base + 1] + slots.value, p.localCount);
        TopShown();
        CallerShown();
      }
    }

    // -------------------------------------------------------------------
    // Returns
    // -------------------------------------------------------------------

    /** Work inside the current call: it moves on and never takes the stack below its own slots. */
    method Work(s: seq<Arg>, ip: int)
      requires Valid() && Floor() <= |s|
      modifies this`stack, this`views, topFrame
      ensures Valid() && frames == old(frames) && CanDo(old(Now()), Works(s, ip)) && Now() == Done(old(Now()), Works(s, ip))
    {
      hide Pooled, Protocol, Mirrored;
      TopShown();
      TopIsLast();
      MirroredFacts(frames, views, all);
      ProtocolWork(views, acts, |stack|, ip, |s|);
      ghost var n := |acts|;
      topFrame.ip := ip;
      stack, views := s, views[n := views[n].(ip := ip)];
      MirroredAgain(frames, views, all);
    }

    /** `OP_RETURN`: the value on top of the stack is the result, except in a constructor. */
    method Return()
      requires Valid() && |acts| > 0 && Floor() < |stack|
      modifies this`poolTop, this`stack, this`topFrame, this`frames, this`views, this`acts, all
      ensures Valid() && acts == old(acts)[..|old(acts)| - 1] && frames == old(frames)[..|old(frames)| - 1]
      ensures topFrame == old(frames)[|old(frames)| - 2]
      ensures HandsBack(old(acts)[|old(acts)| - 1], old(stack), Some(old(stack[|stack| - 1])), stack)
      ensures GoesOn(old(acts)[|old(acts)| - 1], old(frames[|frames| - 2].Shown()), Some(old(stack[|stack| - 1])), topFrame.Shown())
      ensures var e := Returns(Some(old(stack[|stack| - 1]))); CanDo(old(Now()), e) && Now() == Done(old(Now()), e)
    {
      hide AllIn, Pooled, Protocol, Mirrored, CanDo, Done, HandsBack, GoesOn;
      CallerIs();
      TopShown();
      Leave(Some(stack[|stack| - 1]));
    }

    /** `OP_RETURN_NIL`: there need be nothing above the slots, but a constructor's frame holds its `self`. */
    method ReturnNil()
      requires Valid() && |acts| > 0 && (topFrame.isCtor ==> Floor() < |stack|)
      modifies this`poolTop, this`stack, this`topFrame, this`frames, this`views, this`acts, all
      ensures Valid() && acts == old(acts)[..|old(acts)| - 1] && frames == old(frames)[..|old(frames)| - 1]
      ensures topFrame == old(frames)[|old(frames)| - 2]
      ensures HandsBack(old(acts)[|old(acts)| - 1], old(stack), None, stack)
      ensures GoesOn(old(acts)[|old(acts)| - 1], old(frames[|frames| - 2].Shown()), None, topFrame.Shown())
      ensures CanDo(old(Now()), Returns(None)) && Now() == Done(old(Now()), Returns(None))
    {
      hide AllIn, Pooled, Protocol, Mirrored, CanDo, Done, HandsBack, GoesOn;
      CallerIs();
      Leave(None);
    }

    /**
      The return path of all calls. The caller's frame is current again, the stack is what was below the
      call's base plus the result as the kind of call wants it, and no flag is left in the caller.
    */
    method Leave(popped: Option<Arg>)
      requires Valid() && |acts| > 0 && (popped.Some? || topFrame.isCtor ==> Floor() < |stack|)
      requires popped.Some? ==> popped.value == stack[|stack| - 1]
      modifies this`poolTop, this`stack, this`topFrame, this`frames, this`views, this`acts, all
      ensures Valid() && acts == old(acts)[..|old(acts)| - 1] && frames == old(frames)[..|old(frames)| - 1]
      ensures topFrame == old(frames)[|old(frames)| - 2]
      ensures HandsBack(old(acts)[|old(acts)| - 1], old(stack), popped, stack)
      ensures GoesOn(old(acts)[|old(acts)| - 1], old(frames[|frames| - 2].Shown()), popped, topFrame.Shown())
      ensures CanDo(old(Now()), Returns(popped)) && Now() == Done(old(Now()), Returns(popped))
    {
      hide AllIn, Pooled, Protocol, Mirrored, CanDo, Done, HandsBack, GoesOn;
      CallerIs();
      CallerShown();
      ghost var before := Now();
      PopFrame(popped);
      LeavingHandsBack(before, popped);
      TopShown();
    }

    lemma CallerShown()
      requires Valid() && |acts| > 0
      ensures |frames| == |views| == |acts| + 1 && frames[|acts| - 1].Shown() == views[|acts| - 1]
      ensures topFrame == frames[|acts|] && topFrame.caller == frames[|acts| - 1]
    {
    }

    /** The frame goes back to the pool, and the caller's is current. */
    method PopFrame(popped: Option<Arg>)
      requires Valid() && |acts| > 0 && (popped.Some? || topFrame.isCtor ==> Floor() < |stack|)
      requires popped.Some? ==> popped.value == stack[|stack| - 1]
      modifies this`poolTop, this`stack, this`topFrame, this`frames, this`views, this`acts, all
      ensures Valid() && acts == old(acts)[..|old(acts)| - 1] && frames == old(frames)[..|old(frames)| - 1]
      ensures CanDo(old(Now()), Returns(popped)) && Now() == Done(old(Now()), Returns(popped))
    {
      hide AllIn, Pooled, Protocol, Mirrored, Activated, Result, Returned, Resumed, CanDo, Done;
      CallerIs();
      LastCall();
      ReturnIs(Now(), popped);
      ghost var n := |acts| - 1;
      ghost var a, v := acts[n], views[n];
      ghost var fs := frames[..n + 1];
      var result, rest := Unwind(popped);
      var caller: Frame := topFrame.caller;
      assert fs[n] == caller;
      PooledLess(frames, pool, poolTop);
      ProtocolLeave(views, acts, |stack|, result, |Returned(a, stack, result)|);
      ReturnedBelow(a, stack, result);
      CallerBelow();
      if topFrame.poolIndex >= 0 {
        poolTop := poolTop - 1;
      }
      var s := Resume(caller, result, rest, a, v);
      Commit(s, caller, fs, views[..n] + [Resumed(a, v, result)], acts[..n]);
    }

    lemma CallerIs()
      requires Valid() && |acts| > 0
      ensures |views| == |frames| == |acts| + 1 && topFrame in all && Floor() <= |stack|
      ensures topFrame == frames[|frames| - 1] && topFrame.caller == frames[|frames| - 2] && frames[|frames| - 2] in all
    {
    }

    /** Word left in the caller's frame is consumed there, and the callee's frame is gone. */
    method Resume(caller: Frame, result: Arg, rest: seq<Arg>, ghost a: Act, ghost v: View) returns (s: seq<Arg>)
      requires Mirrored(frames, views, all) && |views| == |frames| == |acts| + 1 && |frames| > 1
      requires topFrame == frames[|frames| - 1] && caller == frames[|frames| - 2]
      requires forall i :: 0 <= i < |frames| - 2 ==> frames[i] != caller
      requires a == acts[|acts| - 1] && v == views[|acts| - 1] && Activated(a, v, views[|acts|])
      requires |rest| == a.base && (a.kind.Iteration? ==> a.base > 0)
      modifies caller
      ensures Mirrored(frames[..|frames| - 1], views[..|acts| - 1] + [Resumed(a, v, result)], all)
      ensures s == Returned(a, rest, result)
      ensures frames == old(frames) && all == old(all) && poolTop == old(poolTop) && Now() == old(Now())
    {
      hide Mirrored, Returned, Resumed, Activated;
      MirroredFacts(frames, views, all);
      FlagsOf(a, v, views[|acts|]);
      s := CompleteReturn(caller, result, rest, a, v);
      MirrorLeft(frames, views, all, Resumed(a, v, result));
    }

    lemma LastCall()
      requires Valid() && |acts| > 0
      ensures |views| == |acts| + 1 && topFrame.isCtor == acts[|acts| - 1].kind.Constructor?
      ensures var a := acts[|acts| - 1];
        && Activated(a, views[|acts| - 1], views[|acts|]) && a.base <= |stack| && (a.kind.Iteration? ==> a.base > 0)
        && (Floor() < |stack| ==> a.base < |stack|)
        && forall r :: |Returned(a, stack, r)| >= a.base - (if a.kind.Iteration? then 1 else 0)
    {
      assert Activated(acts[|acts| - 1], views[|acts| - 1], views[|acts|]);
    }

    /** The result, and the stack below the call. */
    method Unwind(popped: Option<Arg>) returns (result: Arg, rest: seq<Arg>)
      requires Valid() && |acts| > 0 && (popped.Some? || topFrame.isCtor ==> Floor() < |stack|)
      ensures var a := acts[|acts| - 1];
        && a.base <= |stack| && (a.kind.Constructor? ==> a.base < |stack|)
        && result == Result(a, stack, popped) && rest == stack[..a.base]
    {
      hide Pooled, Protocol, Mirrored;
      TopShown();
      LastCall();
      result := if topFrame.isCtor then stack[topFrame.slots] else if popped.Some? then popped.value else NIL;
      rest := stack[..if topFrame.isCtor || topFrame.boundCall then topFrame.slots else topFrame.slots - 1];
    }

    lemma CallerBelow()
      requires Valid() && |acts| > 0
      ensures |frames| >= 2 && forall i :: 0 <= i < |frames| - 2 ==> frames[i] != frames[|frames| - 2]
    {
    }

    /** Consumes whichever flag the caller set before it made the call. */
    method CompleteReturn(caller: Frame, result: Arg, rest: seq<Arg>, ghost a: Act, ghost v: View) returns (s: seq<Arg>)
      requires caller.Shown() == v && |rest| == a.base && (a.kind.Iteration? ==> a.base > 0)
      requires v.discardReturn == a.kind.Deletion? && v.forIterPending == a.kind.Iteration?
      requires a.kind.Iteration? ==> v.forIterOffset == a.kind.offset
      modifies caller
      ensures caller.Shown() == Resumed(a, v, result) && caller.caller == old(caller.caller)
      ensures s == Returned(a, rest, result)
      ensures frames == old(frames) && all == old(all) && poolTop == old(poolTop) && Now() == old(Now())
    {
      s := rest;
      if caller.forIterPending {
        caller.forIterPending := false;
        if result == NIL {
          s := s[..|s| - 1];
          caller.ip := caller.ip + caller.forIterOffset;
        } else {
          s := s + [result];
        }
      } else if !caller.discardReturn {
        s := s + [result];
      }
      caller.discardReturn := false;
    }
  }

  lemma ReturnIs(s: State, popped: Option<Arg>)
    requires Ready(s) && |s.acts| > 0
    requires Popped(s.stack, s.views[|s.acts|].slots, s.acts[|s.acts| - 1].kind, popped)
    ensures CanDo(s, Returns(popped))
    ensures var n := |s.acts| - 1;
      var a := s.acts[n];
      && a.base <= |s.stack| && (a.kind.Constructor? ==> a.base < |s.stack|) && (a.kind.Iteration? ==> a.base > 0)
      && var result := Result(a, s.stack, popped);
         Done(s, Returns(popped))
           == State(s.views[..n] + [Resumed(a, s.views[n], result)], s.acts[..n], Returned(a, s.stack, result))
  {
    var n := |s.acts| - 1;
    assert Activated(s.acts[n], s.views[n], s.views[n + 1]);
  }

  /** Only what is below the base matters. */
  lemma ReturnedBelow(a: Act, stack: seq<Arg>, result: Arg)
    requires a.base <= |stack| && (a.kind.Iteration? ==> a.base > 0)
    ensures Returned(a, stack[..a.base], result) == Returned(a, stack, result)
  {
    var rest := stack[..a.base];
    assert rest[..a.base] == rest;
    assert a.kind.Iteration? ==> rest[..a.base - 1] == stack[..a.base - 1];
  }

  lemma FlagsOf(a: Act, caller: View, callee: View)
    requires Activated(a, caller, callee)
    ensures caller.discardReturn == a.kind.Deletion? && caller.forIterPending == a.kind.Iteration?
    ensures a.kind.Iteration? ==> caller.forIterOffset == a.kind.offset && a.base > caller.slots
  {
  }

  lemma MirroredFacts(frames: seq<Frame>, views: seq<View>, all: set<Frame>)
    requires Mirrored(frames, views, all)
    ensures |views| == |frames|
    ensures forall i :: 0 <= i < |frames| ==>
              frames[i] in all && frames[i].Shown() == views[i] && frames[i].caller == Below(frames, i)
  {
  }

  /** The top frame is gone and the one below has been resumed. */
  lemma MirrorLeft(frames: seq<Frame>, views: seq<View>, all: set<Frame>, v: View)
    requires |views| == |frames| > 1
    requires forall i :: 0 <= i < |frames| - 1 ==> frames[i] in all && frames[i].caller == Below(frames, i)
    requires forall i :: 0 <= i < |frames| - 2 ==> frames[i].Shown() == views[i]
    requires frames[|frames| - 2].Shown() == v
    ensures Mirrored(frames[..|frames| - 1], views[..|frames| - 2] + [v], all)
  {
    var n := |frames| - 1;
    var fs, vs := frames[..n], views[..n - 1] + [v];
    forall i | 0 <= i < n
      ensures fs[i] in all && fs[i].Shown() == vs[i] && fs[i].caller == Below(fs, i)
    {
      assert fs[i] == frames[i] && Below(fs, i) == Below(frames, i);
    }
  }

  lemma MirroredAgain(frames: seq<Frame>, views: seq<View>, all: set<Frame>)
    requires |views| == |frames|
    requires forall i :: 0 <= i < |frames| ==>
               frames[i] in all && frames[i].Shown() == views[i] && frames[i].caller == Below(frames, i)
    ensures Mirrored(frames, views, all)
  {
  }

  lemma MirroredGrow(frames: seq<Frame>, views: seq<View>, all: set<Frame>, more: set<Frame>)
    requires Mirrored(frames, views, all) && all <= more
    ensures Mirrored(frames, views, more)
  {
  }

  lemma MirrorEntered(frames: seq<Frame>, views: seq<View>, all: set<Frame>, f: Frame, v: View, w: View)
    requires |views| == |frames| > 0 && f in all && f.Shown() == w && f.caller == frames[|frames| - 1]
    requires forall i :: 0 <= i < |frames| ==> frames[i] in all && frames[i].caller == Below(frames, i)
    requires forall i :: 0 <= i < |frames| - 1 ==> frames[i].Shown() == views[i]
    requires frames[|frames| - 1].Shown() == v
    ensures Mirrored(frames + [f], views[|frames| - 1 := v] + [w], all)
  {
    var n := |frames|;
    var fs, vs := frames + [f], views[n - 1 := v] + [w];
    forall i | 0 <= i < n + 1
      ensures fs[i] in all && fs[i].Shown() == vs[i] && fs[i].caller == Below(fs, i)
    {
      if i < n {
        assert fs[i] == frames[i] && Below(fs, i) == Below(frames, i);
      }
    }
  }
}
