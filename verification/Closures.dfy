/**
  Whole runs: whatever closures do with their captured variables, they see what they would see if every
  variable were a heap cell of its own.
*/
module Closures {
  import opened Values
  import opened Cells
  import opened Upvalues

  /** What running code does to variables. Closures are known by the order in which they captured. */
  datatype Event =
    | Declare(v: Value)              // a new local on top of the stack
    | Drop                           // OP_POP
    | ReadLocal(i: nat)
    | WriteLocal(i: nat, v: Value)
    | CaptureSlot(i: nat)            // OP_MAKE_FUNC with a local descriptor
    | ReadCaptured(h: nat)           // OP_GET_UPVALUE
    | WriteCaptured(h: nat, v: Value)
    | CloseScope                     // OP_CLOSE_UPVALUE
    | Return(frame: nat, base: nat)  // OP_RETURN: the frame's slots and the call base

  /** The specification's state: cells, the cell each capture got, and what was read so far. */
  datatype Spec = Spec(cells: Cells, held: seq<nat>, seen: seq<Value>)

  /** What the compiler respects: slots exist, there is room, and captured variables leave by closing. */
  predicate Legal(s: Spec, e: Event, capacity: nat)
  {
    var n := |s.cells.env|;
    match e
    case Declare(_) => n < capacity
    case Drop => n > 0 && s.cells.env[n - 1] !in s.cells.captured
    case ReadLocal(i) => i < n && s.cells.env[i] < |s.cells.heap|
    case WriteLocal(i, _) => i < n && s.cells.env[i] < |s.cells.heap|
    case CaptureSlot(i) => i < n
    case ReadCaptured(h) => h < |s.held| && s.held[h] < |s.cells.heap|
    case WriteCaptured(h, _) => h < |s.held| && s.held[h] < |s.cells.heap|
    case CloseScope => n > 0
    case Return(frame, base) => base <= frame <= n && forall i :: base <= i < frame ==> s.cells.env[i] !in s.cells.captured
  }

  function Step(s: Spec, e: Event): Spec
  {
    var n := |s.cells.env|;
    match e
    case Declare(v) => s.(cells := Born(s.cells, v))
    case Drop => if n > 0 then s.(cells := Cut(s.cells, n - 1)) else s
    case ReadLocal(i) => if i < n && s.cells.env[i] < |s.cells.heap| then s.(seen := s.seen + [s.cells.heap[s.cells.env[i]]]) else s
    case WriteLocal(i, v) => if i < n && s.cells.env[i] < |s.cells.heap| then s.(cells := Stored(s.cells, s.cells.env[i], v)) else s
    case CaptureSlot(i) => if i < n then s.(cells := Held(s.cells, i), held := s.held + [s.cells.env[i]]) else s
    case ReadCaptured(h) => if h < |s.held| && s.held[h] < |s.cells.heap| then s.(seen := s.seen + [s.cells.heap[s.held[h]]]) else s
    case WriteCaptured(h, v) => if h < |s.held| && s.held[h] < |s.cells.heap| then s.(cells := Stored(s.cells, s.held[h], v)) else s
    case CloseScope => if n > 0 then s.(cells := Cut(s.cells, n - 1)) else s
    case Return(_, base) => if base <= n then s.(cells := Cut(s.cells, base)) else s
  }

  function Steps(s: Spec, es: seq<Event>): Spec
  {
    if es == [] then s else Step(Steps(s, es[..|es| - 1]), es[|es| - 1])
  }

  /** Every event is legal in the state the events before it lead to. */
  ghost predicate AllLegal(es: seq<Event>, capacity: nat)
  {
    forall i :: 0 <= i < |es| ==> Legal(Steps(Blank, es[..i]), es[i], capacity)
  }

  const Blank := Spec(Cells([], [], {}), [], [])

  /** The thread implements the cells, and each capture's upvalue stands for the cell the capture got. */
  ghost predicate Agrees(t: Thread, held: seq<Upvalue>, s: Spec)
    reads t, t.stack, t.nodes.Keys
  {
    t.Valid() && t.cells == s.cells && |held| == |s.held|
    && forall h :: 0 <= h < |held| ==> held[h] in t.nodes && t.nodes[held[h]].cell == s.held[h]
  }

  lemma Shape(t: Thread)
    requires t.Valid()
    ensures t.sp == |t.cells.env| <= t.stack.Length
    ensures forall i :: 0 <= i < t.sp ==> t.cells.env[i] < |t.cells.heap| && t.stack[i] == t.cells.heap[t.cells.env[i]]
  {
    assert forall i :: 0 <= i < t.sp ==> t.stack[i] == t.stack[..t.sp][i];
  }

  method Play(t: Thread, held: seq<Upvalue>, e: Event, ghost s: Spec) returns (held': seq<Upvalue>, seen: seq<Value>)
    requires Agrees(t, held, s) && Legal(s, e, t.stack.Length)
    modifies t, t.stack, t.nodes.Keys
    ensures Agrees(t, held', Step(s, e)) && Step(s, e).seen == s.seen + seen
    ensures fresh(t.nodes.Keys - old(t.nodes.Keys))
  {
    hide Implements, ListOf, MirrorOf;
    Shape(t);
    held', seen := held, [];
    match e {
      case Declare(v) => t.Push(v);
      case Drop => var _ := t.Pop();
      case ReadLocal(i) => seen := [t.stack[i]];
      case WriteLocal(i, v) => t.SetLocal(i, v);
      case CaptureSlot(i) =>
        var uv, _ := t.Capture(i);
        held' := held + [uv];
      case ReadCaptured(h) =>
        var v := t.GetUpvalue(held[h]);
        seen := [v];
      case WriteCaptured(h, v) => t.SetUpvalue(held[h], v);
      case CloseScope => t.CloseTop();
      case Return(frame, base) => t.Leave(frame, base);
    }
  }

  /** Over any legal run, the values read are those the specification reads. */
  method Replay(es: seq<Event>, capacity: nat) returns (seen: seq<Value>)
    requires AllLegal(es, capacity)
    ensures seen == Steps(Blank, es).seen
  {
    hide Implements, ListOf, MirrorOf, Step, Legal;
    var t := new Thread(capacity);
    var held: seq<Upvalue> := [];
    seen := [];
    ghost var s := Blank;
    for i := 0 to |es|
      invariant fresh(t) && fresh(t.stack) && fresh(t.nodes.Keys) && t.stack.Length == capacity
      invariant s == Steps(Blank, es[..i]) && Agrees(t, held, s) && seen == s.seen
    {
      var more;
      held, more := Play(t, held, es[i], s);
      assert es[..i + 1][..i] == es[..i];
      s := Step(s, es[i]);
      seen := seen + more;
    }
    assert es[..|es|] == es;
  }

  /** Two captures of one live variable share a cell, and still do after the variable is gone. */
  lemma {:induction false} SharingLasts(s: Spec, i: nat, es: seq<Event>)
    requires i < |s.cells.env|
    ensures var c := Step(Step(s, CaptureSlot(i)), CaptureSlot(i));
            |Steps(c, es).held| >= |s.held| + 2
            && Steps(c, es).held[|s.held|] == Steps(c, es).held[|s.held| + 1] == s.cells.env[i]
  {
    var c := Step(Step(s, CaptureSlot(i)), CaptureSlot(i));
    HeldGrows(c, es);
  }

  lemma {:induction false} HeldGrows(s: Spec, es: seq<Event>)
    ensures s.held <= Steps(s, es).held
  {
    if es != [] {
      HeldGrows(s, es[..|es| - 1]);
    }
  }

  // ---------------------------------------------------------------------
  // What is read
  // ---------------------------------------------------------------------

  /** Slots and captures have cells, and no two slots share one. */
  ghost predicate InOrder(s: Spec)
  {
    Sound(s.cells) && forall h :: 0 <= h < |s.held| ==> s.held[h] < |s.cells.heap|
  }

  lemma {:induction false} RunsInOrder(es: seq<Event>, capacity: nat)
    requires AllLegal(es, capacity)
    ensures InOrder(Steps(Blank, es))
  {
    hide Step, Legal;
    if es != [] {
      var n := |es| - 1;
      forall i | 0 <= i < n ensures Legal(Steps(Blank, es[..n][..i]), es[..n][i], capacity) {
        assert es[..n][..i] == es[..i];
      }
      RunsInOrder(es[..n], capacity);
      StepInOrder(Steps(Blank, es[..n]), es[n], capacity);
    }
  }

  lemma StepInOrder(s: Spec, e: Event, capacity: nat)
    requires InOrder(s) && Legal(s, e, capacity)
    ensures InOrder(Step(s, e))
  {
  }

  /** The values an event reads: none or one. */
  function Sees(s: Spec, e: Event): seq<Value>
  {
    var seen := Step(s, e).seen;
    if |seen| > |s.seen| then seen[|s.seen|..] else []
  }

  /** Slot j and capture h read in t what they read in s. */
  ghost predicate SameReads(s: Spec, t: Spec)
  {
    (forall j :: 0 <= j < |s.cells.env| && j < |t.cells.env| ==> Sees(t, ReadLocal(j)) == Sees(s, ReadLocal(j)))
    && (forall h :: 0 <= h < |s.held| && h < |t.held| ==> Sees(t, ReadCaptured(h)) == Sees(s, ReadCaptured(h)))
  }

  /** A new local has its value and no other variable changes. */
  lemma DeclaredIsRead(s: Spec, v: Value)
    requires InOrder(s)
    ensures var t := Step(s, Declare(v));
      |t.cells.env| == |s.cells.env| + 1 && t.held == s.held && SameReads(s, t) && Sees(t, ReadLocal(|s.cells.env|)) == [v]
      && forall h :: 0 <= h < |s.held| ==> !Shared(t, |s.cells.env|, h)
  {
  }

  /** Slots that go take nothing with them: the slots below and every capture read as before. */
  lemma LeavingKeeps(s: Spec, frame: nat, base: nat)
    requires InOrder(s) && base <= |s.cells.env|
    ensures var t := Step(s, Return(frame, base)); |t.cells.env| == base && t.held == s.held && SameReads(s, t)
    ensures base == |s.cells.env| - 1 ==>
      Step(s, Drop) == Step(s, CloseScope) == Step(s, Return(frame, base))
  {
  }

  /** A capture reads what its variable reads, and no variable changes by being captured. */
  lemma CaptureIsRead(s: Spec, i: nat)
    requires InOrder(s) && i < |s.cells.env|
    ensures var t := Step(s, CaptureSlot(i));
      |t.cells.env| == |s.cells.env| && |t.held| == |s.held| + 1 && SameReads(s, t)
      && Sees(t, ReadCaptured(|s.held|)) == Sees(s, ReadLocal(i)) && |Sees(s, ReadLocal(i))| == 1
      && Shared(t, i, |s.held|)
  {
  }

  /** Do the slot i and the capture h stand for one variable? */
  predicate Shared(s: Spec, i: nat, h: nat)
    requires i < |s.cells.env| && h < |s.held|
  {
    s.cells.env[i] == s.held[h]
  }

  /** Writing a local is seen there and by the captures of it, and nowhere else. */
  lemma WrittenIsRead(s: Spec, i: nat, v: Value)
    requires InOrder(s) && i < |s.cells.env|
    ensures var t := Step(s, WriteLocal(i, v));
      && |t.cells.env| == |s.cells.env| && t.held == s.held
      && (forall j :: 0 <= j < |s.cells.env| ==> Sees(t, ReadLocal(j)) == if j == i then [v] else Sees(s, ReadLocal(j)))
      && (forall h :: 0 <= h < |s.held| ==>
            Sees(t, ReadCaptured(h)) == if Shared(s, i, h) then [v] else Sees(s, ReadCaptured(h)))
  {
    assert forall j :: 0 <= j < |s.cells.env| && j != i ==> s.cells.env[j] != s.cells.env[i];
  }

  /** Writing through a capture is seen by all captures of the variable and, while it lives, in its slot. */
  lemma WrittenThroughIsRead(s: Spec, k: nat, v: Value)
    requires InOrder(s) && k < |s.held|
    ensures var t := Step(s, WriteCaptured(k, v));
      && |t.cells.env| == |s.cells.env| && t.held == s.held
      && (forall j :: 0 <= j < |s.cells.env| ==>
            Sees(t, ReadLocal(j)) == if Shared(s, j, k) then [v] else Sees(s, ReadLocal(j)))
      && (forall h :: 0 <= h < |s.held| ==>
            Sees(t, ReadCaptured(h)) == if s.held[h] == s.held[k] then [v] else Sees(s, ReadCaptured(h)))
  {
  }
}
