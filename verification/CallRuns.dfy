/**
  Whole runs of calls, work and returns, nested in any way: what a return finds is what its call left.
*/
module CallRuns {
  import opened Values
  import opened Binding
  import opened Calls

  // ---------------------------------------------------------------------
  // Runs
  // ---------------------------------------------------------------------

  lemma ReadyDone(s: State, e: Event)
    requires CanDo(s, e)
    ensures Ready(Done(s, e))
  {
    hide Protocol, Bindable, KwBindable, BoundSlots, KwSlots, MapOfEntries, WellMade;
    var n := |s.acts|;
    match e
    case Works(stack, ip) => WorksReady(s, stack, ip);
    case Returns(popped) => ReturnsReady(s, popped);
    case _ =>
      if CallOf(s, e).Some? {
        CallReady(s, e);
      } else {
        FailedReady(s, e);
      }
  }

  lemma ShapeOf(s: State)
    requires Ready(s)
    ensures |s.views| == |s.acts| + 1 && s.views[|s.acts|].slots <= |s.stack|
  {
  }

  lemma WorksReady(s: State, stack: seq<Arg>, ip: int)
    requires CanDo(s, Works(stack, ip))
    ensures Ready(Done(s, Works(stack, ip)))
  {
    hide Protocol;
    ShapeOf(s);
    ProtocolWork(s.views, s.acts, |s.stack|, ip, |stack|);
  }

  lemma ReturnsReady(s: State, popped: Option<Arg>)
    requires CanDo(s, Returns(popped))
    ensures Ready(Done(s, Returns(popped)))
  {
    hide Protocol, Returned, Result, Resumed;
    ShapeOf(s);
    CanReturn(s, popped);
    ReturnIs(s, popped);
    var a := s.acts[|s.acts| - 1];
    var result := Result(a, s.stack, popped);
    ReturnedLength(a, s.stack, result);
    ProtocolLeave(s.views, s.acts, |s.stack|, result, |Returned(a, s.stack, result)|);
  }

  /** How much a call has added to the stack when it has returned. */
  function Net(kind: Kind, result: Arg): int
  {
    match kind
    case Deletion => 0
    case Iteration(_) => if result == NIL then -1 else 1
    case _ => 1
  }

  lemma ReturnedLength(a: Act, stack: seq<Arg>, result: Arg)
    requires a.base <= |stack| && (a.kind.Iteration? ==> a.base > 0)
    ensures |Returned(a, stack, result)| == a.base + Net(a.kind, result)
  {
  }

  /** A call's frame has its slots on the stack, and it begins inside its caller's part of the stack. */
  lemma CallFits(s: State, e: Event)
    requires CanDo(s, e) && CallOf(s, e).Some?
    ensures var c := CallOf(s, e).value;
      && FirstSlot(c.act) <= |c.bound| && c.act.base <= |s.stack| && s.views[|s.acts|].slots <= c.act.base
      && (c.act.kind.Iteration? ==> s.views[|s.acts|].slots < c.act.base)
  {
    hide Bindable, KwBindable, BoundSlots, KwSlots, MapOfEntries, WellMade;
  }

  lemma CallReady(s: State, e: Event)
    requires CanDo(s, e) && CallOf(s, e).Some?
    ensures Ready(Done(s, e)) && Done(s, e) == Entering(s, CallOf(s, e).value)
  {
    hide Protocol, Bindable, KwBindable, BoundSlots, KwSlots, MapOfEntries, WellMade;
    ShapeOf(s);
    CallFits(s, e);
    var c := CallOf(s, e).value;
    ProtocolEnter(s.views, s.acts, |s.stack|, c.act, c.slotCount, |c.bound|);
  }

  lemma FailedReady(s: State, e: Event)
    requires CanDo(s, e) && !e.Works? && !e.Returns? && CallOf(s, e).None?
    ensures Ready(Done(s, e)) && Done(s, e).acts == s.acts && Done(s, e).views == s.views
  {
    hide Protocol, Bindable, KwBindable, BoundSlots, KwSlots, MapOfEntries, WellMade;
  }

  /** Every event can be done when its turn comes. */
  ghost predicate Legal(s: State, es: seq<Event>)
    decreases |es|
  {
    es == [] || (CanDo(s, es[0]) && Legal(Done(s, es[0]), es[1..]))
  }

  ghost function Run(s: State, es: seq<Event>): State
    requires Legal(s, es)
    decreases |es|
  {
    if es == [] then s else Run(Done(s, es[0]), es[1..])
  }

  lemma {:induction false} RunReady(s: State, es: seq<Event>)
    requires Ready(s) && Legal(s, es)
    ensures Ready(Run(s, es))
    decreases |es|
  {
    hide Ready, CanDo, Done;
    if es != [] {
      ReadyDone(s, es[0]);
      RunReady(Done(s, es[0]), es[1..]);
    }
  }

  lemma {:induction false} RunSplit(s: State, es: seq<Event>, fs: seq<Event>)
    ensures Legal(s, es + fs) <==> Legal(s, es) && Legal(Run(s, es), fs)
    ensures Legal(s, es + fs) ==> Run(s, es + fs) == Run(Run(s, es), fs)
    decreases |es|
  {
    hide CanDo, Done;
    if es == [] {
      assert es + fs == fs;
    } else {
      assert (es + fs)[1..] == es[1..] + fs && (es + fs)[0] == es[0];
      if CanDo(s, es[0]) {
        RunSplit(Done(s, es[0]), es[1..], fs);
      }
    }
  }

  // ---------------------------------------------------------------------
  // Inside a call
  // ---------------------------------------------------------------------

  /** No event of `es` returns from the call at depth `n`. */
  ghost predicate Inside(s: State, es: seq<Event>, n: nat)
    ensures Inside(s, es, n) ==> Legal(s, es)
    decreases |es|
  {
    |s.acts| > n && (es == [] || (CanDo(s, es[0]) && Inside(Done(s, es[0]), es[1..], n)))
  }

  lemma {:induction false} InsideDepth(s: State, es: seq<Event>, n: nat)
    requires Inside(s, es, n)
    ensures |Run(s, es).acts| > n
    decreases |es|
  {
    hide CanDo, Done;
    if es != [] {
      InsideDepth(Done(s, es[0]), es[1..], n);
    }
  }

  /** The calls up to the one at depth `n`, and what the frames below that one show, flags included. */
  ghost predicate SameBelow(s: State, t: State, n: nat)
  {
    |s.acts| > n && |t.acts| > n && |s.views| > n && |t.views| > n
    && t.acts[..n + 1] == s.acts[..n + 1] && t.views[..n + 1] == s.views[..n + 1]
  }

  lemma StepKeepsBelow(s: State, e: Event, n: nat)
    requires Ready(s) && CanDo(s, e) && |s.acts| > n && |Done(s, e).acts| > n
    ensures SameBelow(s, Done(s, e), n)
  {
    hide Protocol, Bindable, KwBindable, BoundSlots, KwSlots, MapOfEntries, WellMade, CanDo, Suspended, Entered,
         Resumed;
    ReadyDone(s, e);
    ShapeOf(s);
    ShapeOf(Done(s, e));
    match e
    case Works(_, _) =>
    case Returns(_) =>
    case _ =>
      if CallOf(s, e).Some? {
        CallReady(s, e);
      } else {
        FailedReady(s, e);
      }
  }

  /** Nothing done inside a call changes what its caller's frame shows: a pending flag stays as the call set it. */
  lemma {:induction false} InsideKeepsBelow(s: State, es: seq<Event>, n: nat)
    requires Ready(s) && Inside(s, es, n)
    ensures Legal(s, es) && SameBelow(s, Run(s, es), n)
    decreases |es|
  {
    hide CanDo, Done, Ready;
    InsideDepth(s, es, n);
    if es == [] {
      ShapeOf(s);
    } else {
      var t := Done(s, es[0]);
      ReadyDone(s, es[0]);
      StepKeepsBelow(s, es[0], n);
      InsideKeepsBelow(t, es[1..], n);
    }
  }

  // ---------------------------------------------------------------------
  // The matching return
  // ---------------------------------------------------------------------

  /** Which call an event makes: where on the stack it begins, and what it is for. */
  ghost predicate Begins(s: State, e: Event, a: Act)
  {
    match e
    case CallPlain(_, argc) => a.kind == Function && a.base == |s.stack| - argc - 1
    case CallOn(_, _, argc, isCtor) => a.kind == (if isCtor then Constructor else Method) && a.base == |s.stack| - argc - 1
    case CallDunder(_, _, kind) => a.kind == kind && a.base == |s.stack|
    case CallNamed(_, posArgc, _) => a.kind == Function && a.base == |s.stack| - posArgc - 2
    case _ => false
  }

  lemma CallBegins(s: State, e: Event)
    requires CanDo(s, e) && CallOf(s, e).Some?
    ensures Begins(s, e, CallOf(s, e).value.act)
  {
    hide Bindable, KwBindable, BoundSlots, KwSlots, MapOfEntries, WellMade;
  }

  /**
    A call `e` made in `s`, anything at all inside it, and its return. The calls and the frames are those
    of `s` again, but that the caller's may have jumped; the flag its call set is gone; and the stack is
    what is below the call's base with its result as the kind of call wants it.
  */
  lemma ReturnRestores(s: State, e: Event, es: seq<Event>, popped: Option<Arg>)
    requires CanDo(s, e) && CallOf(s, e).Some? && Inside(Done(s, e), es, |s.acts|)
    requires var t := Run(Done(s, e), es);
      |t.acts| == |s.acts| + 1 && CanDo(t, Returns(popped))
    ensures var n := |s.acts|;
      var a := CallOf(s, e).value.act;
      var t := Run(Done(s, e), es);
      var u := Done(t, Returns(popped));
      && Begins(s, e, a) && u.acts == s.acts && |u.views| == |s.views| == n + 1 && u.views[..n] == s.views[..n]
      && HandsBack(a, t.stack, popped, u.stack) && GoesOn(a, s.views[n], popped, u.views[n])
  {
    hide CanDo, Done, Ready, Suspended, HandsBack, GoesOn, Begins, CallOf;
    var n := |s.acts|;
    var c := CallOf(s, e).value;
    var s1 := Done(s, e);
    ReadyDone(s, e);
    CallIs(s, e);
    InsideKeepsBelow(s1, es, n);
    InsideDepth(s1, es, n);
    RunReady(s1, es);
    var t := Run(s1, es);
    ShapeOf(t);
    LeavingHandsBack(t, popped);
    CallBegins(s, e);
    SuspendedGoesOn(c.act, s.views[n], popped, Done(t, Returns(popped)).views[n]);
    assert t.acts[n] == t.acts[..n + 1][n] == s1.acts[..n + 1][n] == c.act;
    assert t.views[n] == t.views[..n + 1][n] == s1.views[..n + 1][n] == Suspended(c.act.kind, s.views[n]);
    assert t.acts[..n] == t.acts[..n + 1][..n] == s1.acts[..n + 1][..n] == s.acts;
    assert t.views[..n] == t.views[..n + 1][..n] == s1.views[..n + 1][..n] == s.views[..n];
  }

  /** Suspending a frame sets flags only. */
  lemma SuspendedGoesOn(a: Act, v: View, popped: Option<Arg>, w: View)
    ensures GoesOn(a, Suspended(a.kind, v), popped, w) ==> GoesOn(a, v, popped, w)
  {
  }

  lemma CallIs(s: State, e: Event)
    requires CanDo(s, e) && CallOf(s, e).Some?
    ensures var n := |s.acts|;
      var a := CallOf(s, e).value.act;
      var t := Done(s, e);
      && |s.views| == n + 1 && |t.acts| == n + 1 && |t.views| == n + 2
      && t.acts[..n] == s.acts && t.acts[n] == a
      && t.views[..n] == s.views[..n] && t.views[n] == Suspended(a.kind, s.views[n])
  {
    hide Protocol, Bindable, KwBindable, BoundSlots, KwSlots, MapOfEntries, WellMade, Suspended, Entered;
    CallReady(s, e);
    ShapeOf(s);
  }

  lemma CanReturn(s: State, popped: Option<Arg>)
    requires CanDo(s, Returns(popped))
    ensures Ready(s) && |s.acts| > 0
    ensures Popped(s.stack, s.views[|s.acts|].slots, s.acts[|s.acts| - 1].kind, popped)
  {
  }

  /** The caller's own frame is as it was, apart from its position when an iteration has ended. */
  lemma CallerRestored(kind: Kind, base: nat, v: View, result: Arg)
    requires !v.discardReturn && !v.forIterPending
    ensures var w := Resumed(Act(base, kind), Suspended(kind, v), result);
      && w.slots == v.slots && w.slotCount == v.slotCount && w.isCtor == v.isCtor && w.boundCall == v.boundCall
      && !w.discardReturn && !w.forIterPending
      && w.ip == if kind.Iteration? && result == NIL then v.ip + kind.offset else v.ip
  {
  }

  /** In every legal run that comes back to depth `n` there is the return that does it first. */
  lemma {:induction false} FirstReturn(s: State, es: seq<Event>, n: nat) returns (k: nat)
    requires Ready(s) && Legal(s, es) && |s.acts| > n >= |Run(s, es).acts|
    ensures k < |es| && es[k].Returns? && Inside(s, es[..k], n) && Legal(s, es[..k])
    ensures |Run(s, es[..k]).acts| == n + 1 && CanDo(Run(s, es[..k]), es[k])
    decreases |es|
  {
    hide CanDo, Done, Ready;
    var t := Done(s, es[0]);
    ReadyDone(s, es[0]);
    DepthStep(s, es[0]);
    if |t.acts| <= n {
      k := 0;
      assert es[..0] == [];
    } else {
      var j := FirstReturn(t, es[1..], n);
      k := j + 1;
      assert es[..k][1..] == es[1..][..j] && es[..k][0] == es[0];
    }
  }

  lemma DepthStep(s: State, e: Event)
    requires CanDo(s, e)
    ensures |Done(s, e).acts| == if e.Returns? then |s.acts| - 1 else if CallOf(s, e).Some? then |s.acts| + 1 else |s.acts|
  {
    hide Protocol, Bindable, KwBindable, BoundSlots, KwSlots, MapOfEntries, WellMade;
  }

  /**
    Every call in every legal run: when the run comes back to the caller's depth, it does so by a return
    that restores the caller.
  */
  lemma EveryCallReturns(s: State, e: Event, es: seq<Event>) returns (k: nat)
    requires CanDo(s, e) && CallOf(s, e).Some? && Legal(Done(s, e), es) && |Run(Done(s, e), es).acts| <= |s.acts|
    ensures k < |es| && es[k].Returns? && Inside(Done(s, e), es[..k], |s.acts|)
    ensures Legal(Done(s, e), es[..k]) && Legal(Done(s, e), es[..k + 1])
    ensures var n := |s.acts|;
      var a := CallOf(s, e).value.act;
      var t := Run(Done(s, e), es[..k]);
      var u := Run(Done(s, e), es[..k + 1]);
      && Begins(s, e, a) && u.acts == s.acts && |u.views| == |s.views| == n + 1 && u.views[..n] == s.views[..n]
      && HandsBack(a, t.stack, es[k].popped, u.stack) && GoesOn(a, s.views[n], es[k].popped, u.views[n])
  {
    hide CanDo, Done, Ready, Suspended, HandsBack, GoesOn, Begins, CallOf;
    ReadyDone(s, e);
    CallIs(s, e);
    k := FirstReturn(Done(s, e), es, |s.acts|);
    ReturnRestores(s, e, es[..k], es[k].popped);
    assert es[..k + 1] == es[..k] + [es[k]];
    RunSplit(Done(s, e), es[..k], [es[k]]);
    RunOne(Run(Done(s, e), es[..k]), es[k]);
  }

  lemma {:induction false} RunOne(s: State, e: Event)
    ensures Legal(s, [e]) <==> CanDo(s, e)
    ensures CanDo(s, e) ==> Run(s, [e]) == Done(s, e)
  {
    hide CanDo, Done;
    assert [e][1..] == [];
  }

  // ---------------------------------------------------------------------
  // The frames run like that
  // ---------------------------------------------------------------------

  method Do(t: Thread, e: Event)
    requires t.Valid() && CanDo(t.Now(), e)
    modifies t, t.all
    ensures t.Valid() && t.Now() == Done(old(t.Now()), e)
    ensures fresh(t.all - old(t.all))
  {
    hide Pooled, Protocol, Mirrored, AllIn, Done, CallOf;
    t.TopShown();
    var ok: bool;
    match e {
      case CallPlain(p, argc) => ok := t.CallFunction(p, argc);
      case CallOn(p, self, argc, isCtor) => ok := t.CallSelf(p, self, argc, isCtor);
      case CallDunder(p, argv, kind) => ok := t.CallOperator(p, argv, kind);
      case CallNamed(p, posArgc, es) => ok := t.CallKeywords(p, posArgc, es);
      case Works(s, ip) => t.Work(s, ip);
      case Returns(popped) =>
        t.LastCall();
        if popped.Some? {
          t.Return();
        } else {
          t.ReturnNil();
        }
    }
  }

  /** Any legal sequence of events, run on real frames from the pool, does what `Run` says. */
  method Play(t: Thread, es: seq<Event>)
    requires t.Valid() && Legal(t.Now(), es)
    modifies t, t.all
    ensures t.Valid() && Legal(old(t.Now()), es) && t.Now() == Run(old(t.Now()), es)
  {
    hide CanDo, Done;
    var i := 0;
    while i < |es|
      invariant 0 <= i <= |es| && t.Valid() && fresh(t.all - old(t.all))
      invariant Legal(old(t.Now()), es) && Legal(t.Now(), es[i..]) && Run(old(t.Now()), es) == Run(t.Now(), es[i..])
    {
      assert es[i..][0] == es[i] && es[i..][1..] == es[i + 1..];
      Do(t, es[i]);
      i := i + 1;
    }
  }
}
