/** How the arguments of a call become the first slots of its frame. */
module Binding {
  import opened Values

  /** A stack value; the collectors `...args` and `**kwargs` get new lists and maps. */
  datatype Arg = Atom(v: Value) | ListOf(items: seq<Arg>) | MapOf(m: map<Value, Arg>)

  const NIL := Atom(Nil)

  /** A function prototype. `defaults[0]` is the last parameter's default. */
  datatype Proto = Proto(arity: nat, names: seq<Text>, defaults: seq<Arg>, hasVararg: bool, hasKwarg: bool, localCount: nat)

  function ArityMax(p: Proto): nat
  {
    |p.names|
  }

  /** Positional parameters come first, then the collectors, in the slots the compiler gave them. */
  function KwargsSlot(p: Proto): nat
  {
    ArityMax(p) + if p.hasVararg then 1 else 0
  }

  /** What the compiler sees to: defaulted parameters are the last ones, names differ, and parameters have slots. */
  ghost predicate WellMade(p: Proto)
  {
    p.arity + |p.defaults| == ArityMax(p)
    && (forall i, j :: 0 <= i < j < |p.names| ==> p.names[i] != p.names[j])
    && KwargsSlot(p) + (if p.hasKwarg then 1 else 0) <= p.localCount <= 256
  }

  // ---------------------------------------------------------------------
  // Defaults
  // ---------------------------------------------------------------------

  /** The default of the i-th parameter; an index that wraps around below zero is out of range. */
  function DefaultAt(p: Proto, i: nat): Option<Arg>
  {
    if i < p.arity then None else
    var k := |p.defaults| - 1 - (i - p.arity);
    if 0 <= k < |p.defaults| then Some(p.defaults[k]) else None
  }

  /** OP_MAKE_FUNC pops the values of the default expressions, which were pushed from left to right. */
  method PopDefaults(stack: seq<Arg>, count: nat) returns (rest: seq<Arg>, defaults: seq<Arg>)
    requires count <= |stack|
    ensures rest == stack[..|stack| - count]
    ensures |defaults| == count && forall i :: 0 <= i < count ==> defaults[i] == stack[|stack| - 1 - i]
  {
    rest, defaults := stack, [];
    for i := 0 to count
      invariant rest == stack[..|stack| - i]
      invariant |defaults| == i && forall j :: 0 <= j < i ==> defaults[j] == stack[|stack| - 1 - j]
    {
      defaults := defaults + [rest[|rest| - 1]];
      rest := rest[..|rest| - 1];
    }
  }

  /** So each defaulted parameter gets the value of its own default expression. */
  lemma DefaultsInOrder(p: Proto, stack: seq<Arg>, j: nat)
    requires WellMade(p) && |p.defaults| <= |stack| && j < |p.defaults|
    requires forall i :: 0 <= i < |p.defaults| ==> p.defaults[i] == stack[|stack| - 1 - i]
    ensures DefaultAt(p, p.arity + j) == Some(stack[|stack| - |p.defaults| + j])
  {
    var k := |p.defaults| - 1 - j;
    assert p.defaults[k] == stack[|stack| - 1 - k];
  }

  lemma DefaultExists(p: Proto, i: nat)
    requires WellMade(p) && i < ArityMax(p)
    ensures DefaultAt(p, i).Some? <==> i >= p.arity
  {
  }

  // ---------------------------------------------------------------------
  // Positional calls
  // ---------------------------------------------------------------------

  predicate Bindable(p: Proto, argc: nat)
  {
    p.arity <= argc && (p.hasVararg || argc <= ArityMax(p))
  }

  function ParamValue(p: Proto, args: seq<Arg>, i: nat): Arg
  {
    if i < |args| then args[i] else if DefaultAt(p, i).Some? then DefaultAt(p, i).value else NIL
  }

  function Padded(s: seq<Arg>, n: nat): (r: seq<Arg>)
    ensures |r| == if |s| < n then n else |s|
    ensures s <= r && forall i :: |s| <= i < |r| ==> r[i] == NIL
  {
    s + seq(if |s| < n then n - |s| else 0, _ => NIL)
  }

  function Params(p: Proto, args: seq<Arg>): (s: seq<Arg>)
    ensures |s| == ArityMax(p)
  {
    seq(ArityMax(p), i requires 0 <= i < ArityMax(p) => ParamValue(p, args, i))
  }

  /** The frame's slots after a positional call. */
  function BoundSlots(p: Proto, args: seq<Arg>): (s: seq<Arg>)
  {
    Padded(Params(p, args)
           + (if p.hasVararg then [ListOf(Rest(p, args))] else [])
           + (if p.hasKwarg then [MapOf(map[])] else []), p.localCount)
  }

  /**
    Slot by slot: the arguments, the defaults of the parameters that got none, the list of what is left over,
    an empty map, and nil. `defaults` holds the last parameter's default first.
  */
  lemma BoundSlotsAre(p: Proto, args: seq<Arg>)
    requires WellMade(p) && Bindable(p, |args|)
    ensures var s, n := BoundSlots(p, args), |p.names|;
      && |s| == p.localCount && n <= |s|
      && (forall i :: 0 <= i < n && i < |args| ==> s[i] == args[i])
      && (forall i :: |args| <= i < n ==> 0 <= n - 1 - i < |p.defaults| && s[i] == p.defaults[n - 1 - i])
      && (p.hasVararg ==> n < |s| && s[n] == ListOf(if |args| > n then args[n..] else []))
      && var m := n + if p.hasVararg then 1 else 0;
         && (p.hasKwarg ==> m < |s| && s[m] == MapOf(map[]))
         && forall i :: m + (if p.hasKwarg then 1 else 0) <= i < |s| ==> s[i] == NIL
  {
    var n := |p.names|;
    forall i | |args| <= i < n
      ensures DefaultAt(p, i) == Some(p.defaults[n - 1 - i])
    {
    }
  }

  lemma BindableIs(p: Proto, argc: nat)
    ensures Bindable(p, argc) <==> p.arity <= argc && (argc <= |p.names| || p.hasVararg)
  {
  }

  /** Missing trailing arguments come from the defaults. */
  method FillDefaults(p: Proto, below: seq<Arg>, args: seq<Arg>) returns (stack: seq<Arg>)
    ensures stack == below + if |args| < ArityMax(p) then Params(p, args) else args
  {
    stack := below + args;
    var i := |args|;
    ghost var all := Params(p, args);
    if i < ArityMax(p) {
      assert all[..i] == args;
    }
    while i < ArityMax(p)
      invariant |args| <= i && (i <= ArityMax(p) || i == |args|)
      invariant stack == below + if |args| < ArityMax(p) then all[..i] else args
    {
      stack := stack + [if DefaultAt(p, i).Some? then DefaultAt(p, i).value else NIL];
      assert all[..i + 1] == all[..i] + [all[i]];
      i := i + 1;
    }
    if |args| < ArityMax(p) {
      assert all[..i] == all;
    }
  }

  function Rest(p: Proto, args: seq<Arg>): seq<Arg>
  {
    if |args| > ArityMax(p) then args[ArityMax(p)..] else []
  }

  /** The arguments beyond the parameters move into a list, which takes the slot behind the parameters. */
  method CollectVararg(p: Proto, below: seq<Arg>, args: seq<Arg>, stack: seq<Arg>) returns (r: seq<Arg>)
    requires stack == below + if |args| < ArityMax(p) then Params(p, args) else args
    ensures r == below + (Params(p, args) + [ListOf(Rest(p, args))])
  {
    var count := if |args| > ArityMax(p) then |args| - ArityMax(p) else 0;
    var collected := [];
    for i := 0 to count
      invariant collected == Rest(p, args)[..i]
    {
      collected := collected + [stack[|below| + ArityMax(p) + i]];
    }
    assert collected == Rest(p, args);
    ParamsAreArgs(p, args);
    r := stack[..|below| + ArityMax(p)] + [ListOf(collected)];
  }

  lemma ParamsAreArgs(p: Proto, args: seq<Arg>)
    ensures |args| >= ArityMax(p) ==> Params(p, args) == args[..ArityMax(p)]
  {
  }

  /** Pads the frame up to its reserved slots. */
  method Pad(below: seq<Arg>, filled: seq<Arg>, n: nat) returns (stack: seq<Arg>)
    ensures stack == below + Padded(filled, n)
  {
    stack := below + filled;
    ghost var all := Padded(filled, n);
    ghost var k := |filled|;
    assert all[..k] == filled;
    while |stack| < |below| + n
      invariant |filled| <= k <= |all| && stack == below + all[..k]
      decreases |all| - k
    {
      assert all[..k + 1] == all[..k] + [all[k]];
      stack := stack + [NIL];
      k := k + 1;
    }
    assert all[..k] == all;
  }

  /** Fills the slots above `below`, where the arguments already lie. */
  method BindPositional(p: Proto, below: seq<Arg>, args: seq<Arg>) returns (stack: seq<Arg>)
    requires Bindable(p, |args|)
    ensures stack == below + BoundSlots(p, args)
  {
    stack := FillDefaults(p, below, args);
    ghost var filled := Params(p, args);
    ParamsAreArgs(p, args);
    if p.hasVararg {
      stack := CollectVararg(p, below, args, stack);
      filled := filled + [ListOf(Rest(p, args))];
    }
    if p.hasKwarg {
      stack := stack + [MapOf(map[])];
      filled := filled + [MapOf(map[])];
    }
    assert stack == below + filled;
    stack := Pad(below, stack[|below|..], p.localCount);
  }

  // ---------------------------------------------------------------------
  // Keyword calls
  // ---------------------------------------------------------------------

  /** The slot of the parameter called by this key, or -1; only strings name parameters. */
  function FindParam(p: Proto, key: Value): (i: int)
    ensures -1 <= i < |p.names|
    ensures i >= 0 ==> key == Str(p.names[i])
    ensures i < 0 ==> forall j :: 0 <= j < |p.names| ==> key != Str(p.names[j])
  {
    if !key.Str? then -1 else FirstNamed(p.names, key.s)
  }

  function FirstNamed(names: seq<Text>, name: Text): (i: int)
    ensures -1 <= i < |names|
    ensures i >= 0 ==> names[i] == name
    ensures i < 0 ==> forall j :: 0 <= j < |names| ==> names[j] != name
  {
    if names == [] then -1
    else if names[0] == name then 0
    else
      var i := FirstNamed(names[1..], name);
      assert forall j :: 1 <= j < |names| ==> names[j] == names[1..][j - 1];
      if i < 0 then -1 else i + 1
  }

  type Keywords = map<Value, Arg>

  /** Where each parameter's value can come from. */
  predicate ByPosition(posArgc: nat, i: nat) { i < posArgc }

  predicate ByKeyword(p: Proto, kw: Keywords, i: nat)
    requires i < |p.names|
  {
    Str(p.names[i]) in kw
  }

  /** No keyword clashes with a position or lacks a parameter. */
  ghost predicate NoClash(p: Proto, posArgc: nat, kw: Keywords)
  {
    forall k :: k in kw ==> if FindParam(p, k) >= 0 then FindParam(p, k) >= posArgc else p.hasKwarg
  }

  /** A keyword call succeeds exactly in this case. */
  ghost predicate KwBindable(p: Proto, posArgc: nat, kw: Keywords)
  {
    !p.hasVararg && posArgc <= ArityMax(p)
    && NoClash(p, posArgc, kw)
    && (forall i :: posArgc <= i < ArityMax(p) ==> ByKeyword(p, kw, i) || DefaultAt(p, i).Some?)
  }

  /** No parameter is given twice, each has a value, and nothing is left over without a collector. */
  ghost predicate OneValueEach(p: Proto, posArgc: nat, kw: Keywords)
  {
    !p.hasVararg && posArgc <= ArityMax(p)
    && (forall i :: 0 <= i < ArityMax(p) ==>
          !(ByPosition(posArgc, i) && ByKeyword(p, kw, i))
          && (ByPosition(posArgc, i) || ByKeyword(p, kw, i) || i >= p.arity))
    && (p.hasKwarg || forall k :: k in kw ==> exists i :: 0 <= i < |p.names| && k == Str(p.names[i]))
  }

  lemma FindsOwnName(p: Proto, i: nat)
    requires WellMade(p) && i < |p.names|
    ensures FindParam(p, Str(p.names[i])) == i
  {
    var j := FindParam(p, Str(p.names[i]));
    if j >= 0 {
      assert p.names[j] == p.names[i];
    }
  }

  lemma BindableWhenOneEach(p: Proto, posArgc: nat, kw: Keywords)
    requires WellMade(p)
    ensures KwBindable(p, posArgc, kw) <==> OneValueEach(p, posArgc, kw)
  {
    forall i | 0 <= i < ArityMax(p)
      ensures FindParam(p, Str(p.names[i])) == i && (DefaultAt(p, i).Some? <==> i >= p.arity)
    {
      FindsOwnName(p, i);
      DefaultExists(p, i);
    }
    if KwBindable(p, posArgc, kw) {
      forall i | 0 <= i < ArityMax(p)
        ensures !(ByPosition(posArgc, i) && ByKeyword(p, kw, i))
        ensures ByPosition(posArgc, i) || ByKeyword(p, kw, i) || i >= p.arity
      {
        assert Str(p.names[i]) in kw ==> FindParam(p, Str(p.names[i])) >= posArgc;
      }
    }
    if OneValueEach(p, posArgc, kw) {
      forall k | k in kw
        ensures if FindParam(p, k) >= 0 then FindParam(p, k) >= posArgc else p.hasKwarg
      {
        if FindParam(p, k) >= 0 {
          assert ByKeyword(p, kw, FindParam(p, k));
        }
      }
    }
  }

  function KwValue(p: Proto, pos: seq<Arg>, kw: Keywords, i: nat): Arg
    requires i < |p.names|
  {
    if i < |pos| then pos[i]
    else if Str(p.names[i]) in kw then kw[Str(p.names[i])]
    else if DefaultAt(p, i).Some? then DefaultAt(p, i).value else NIL
  }

  function Extra(p: Proto, kw: Keywords): Keywords
  {
    map k | k in kw && FindParam(p, k) < 0 :: kw[k]
  }

  /** The frame's slots after a keyword call: they depend on the keywords as a map, not on their order. */
  function KwSlots(p: Proto, pos: seq<Arg>, kw: Keywords): seq<Arg>
  {
    Padded(seq(ArityMax(p), i requires 0 <= i < ArityMax(p) => KwValue(p, pos, kw, i))
           + (if p.hasKwarg then [MapOf(Extra(p, kw))] else []), p.localCount)
  }

  /** A parameter that gets its value neither by position nor by keyword has a default. */
  lemma MissingHasDefault(p: Proto, posArgc: nat, kw: Keywords, i: nat)
    requires WellMade(p) && KwBindable(p, posArgc, kw) && posArgc <= i < |p.names| && Str(p.names[i]) !in kw
    ensures 0 <= |p.names| - 1 - i < |p.defaults| && DefaultAt(p, i) == Some(p.defaults[|p.names| - 1 - i])
  {
    assert ByKeyword(p, kw, i) || DefaultAt(p, i).Some?;
  }

  /** Slot by slot: positions, keywords and defaults, the map of the keywords that name no parameter, and nil. */
  lemma KwSlotsAre(p: Proto, pos: seq<Arg>, kw: Keywords)
    requires WellMade(p) && KwBindable(p, |pos|, kw)
    ensures var s, n := KwSlots(p, pos, kw), |p.names|;
      && |s| == p.localCount && |pos| <= n <= |s|
      && (forall i :: 0 <= i < |pos| ==> s[i] == pos[i] && Str(p.names[i]) !in kw)
      && (forall i :: |pos| <= i < n && Str(p.names[i]) in kw ==> s[i] == kw[Str(p.names[i])])
      && (forall i :: |pos| <= i < n && Str(p.names[i]) !in kw ==> 0 <= n - 1 - i < |p.defaults| && s[i] == p.defaults[n - 1 - i])
      && (p.hasKwarg ==> n < |s| && s[n] == MapOf(Extra(p, kw)))
      && forall i :: n + (if p.hasKwarg then 1 else 0) <= i < |s| ==> s[i] == NIL
  {
    hide DefaultAt, FindParam, KwBindable;
    var n := |p.names|;
    KwBindableFacts(p, |pos|, kw);
    forall i | 0 <= i < n
      ensures i < |pos| ==> Str(p.names[i]) !in kw
      ensures |pos| <= i && Str(p.names[i]) !in kw ==> 0 <= n - 1 - i < |p.defaults| && KwValue(p, pos, kw, i) == p.defaults[n - 1 - i]
    {
      FindsOwnName(p, i);
      if |pos| <= i && Str(p.names[i]) !in kw {
        MissingHasDefault(p, |pos|, kw, i);
      }
    }
  }

  lemma KwBindableFacts(p: Proto, posArgc: nat, kw: Keywords)
    requires KwBindable(p, posArgc, kw)
    ensures !p.hasVararg && posArgc <= |p.names|
    ensures forall k :: k in kw && FindParam(p, k) >= 0 ==> FindParam(p, k) >= posArgc
  {
  }

  /** The collector gets exactly the keywords that name no parameter, with their values. */
  lemma ExtraIs(p: Proto, kw: Keywords)
    ensures forall k :: k in Extra(p, kw) <==> k in kw && forall i :: 0 <= i < |p.names| ==> k != Str(p.names[i])
    ensures forall k :: k in Extra(p, kw) ==> Extra(p, kw)[k] == kw[k]
  {
  }

  /** Without keywords a keyword call and a positional one bind alike. */
  lemma NoKeywords(p: Proto, pos: seq<Arg>)
    requires WellMade(p) && !p.hasVararg
    ensures KwBindable(p, |pos|, map[]) <==> Bindable(p, |pos|)
    ensures Bindable(p, |pos|) ==> KwSlots(p, pos, map[]) == BoundSlots(p, pos)
  {
    forall i | 0 <= i < ArityMax(p)
      ensures DefaultAt(p, i).Some? <==> i >= p.arity
    {
      DefaultExists(p, i);
    }
    assert seq(ArityMax(p), i requires 0 <= i < ArityMax(p) => KwValue(p, pos, map[], i)) == Params(p, pos);
    assert Extra(p, map[]) == map[];
    assert KwBindable(p, |pos|, map[]) && |pos| < ArityMax(p) ==> ByKeyword(p, map[], |pos|) || DefaultAt(p, |pos|).Some?;
  }

  // ---------------------------------------------------------------------
  // The binding loops
  // ---------------------------------------------------------------------

  /** An occupied entry of the keyword map, in table order. */
  datatype Entry = Entry(key: Value, value: Arg)

  ghost predicate KeysDiffer(es: seq<Entry>)
  {
    forall i, j :: 0 <= i < j < |es| ==> es[i].key != es[j].key
  }

  function MapOfEntries(es: seq<Entry>): Keywords
  {
    if es == [] then map[] else MapOfEntries(es[..|es| - 1])[es[|es| - 1].key := es[|es| - 1].value]
  }

  lemma {:induction false} NotYet(es: seq<Entry>, k: Value)
    requires forall i :: 0 <= i < |es| ==> es[i].key != k
    ensures k !in MapOfEntries(es)
  {
    if es != [] {
      NotYet(es[..|es| - 1], k);
    }
  }

  /** The state of the scratch arrays once these keywords have been seen. */
  ghost predicate Scratch(p: Proto, pos: seq<Arg>, kw: Keywords, vals: seq<Arg>, filled: seq<bool>)
  {
    |vals| == |filled| == ArityMax(p)
    && forall i :: 0 <= i < ArityMax(p) ==>
         (filled[i] <==> ByPosition(|pos|, i) || ByKeyword(p, kw, i))
         && (filled[i] ==> vals[i] == KwValue(p, pos, kw, i))
  }

  /** A keyword without a parameter goes to the collector. */
  lemma ScratchExtra(p: Proto, pos: seq<Arg>, kw: Keywords, vals: seq<Arg>, filled: seq<bool>, e: Entry)
    requires Scratch(p, pos, kw, vals, filled) && e.key !in kw && FindParam(p, e.key) < 0
    ensures Scratch(p, pos, kw[e.key := e.value], vals, filled)
    ensures Extra(p, kw[e.key := e.value]) == Extra(p, kw)[e.key := e.value]
  {
  }

  /** A keyword with a parameter fills its slot, unless a position has. */
  lemma ScratchParam(p: Proto, pos: seq<Arg>, kw: Keywords, vals: seq<Arg>, filled: seq<bool>, e: Entry)
    requires WellMade(p) && Scratch(p, pos, kw, vals, filled) && e.key !in kw && FindParam(p, e.key) >= 0
    ensures var slot := FindParam(p, e.key);
            (filled[slot] <==> slot < |pos|)
            && (slot >= |pos| ==> Scratch(p, pos, kw[e.key := e.value], vals[slot := e.value], filled[slot := true]))
    ensures Extra(p, kw[e.key := e.value]) == Extra(p, kw)
  {
    forall i | 0 <= i < ArityMax(p)
      ensures FindParam(p, Str(p.names[i])) == i
    {
      FindsOwnName(p, i);
    }
  }

  /** Every parameter must end up with a value. */
  method FillMissing(p: Proto, pos: seq<Arg>, ghost kw: Keywords, vals: seq<Arg>,
                     filled: seq<bool>) returns (r: Option<seq<Arg>>)
    requires WellMade(p) && Scratch(p, pos, kw, vals, filled) && |pos| <= ArityMax(p)
    ensures r.Some? <==> forall i :: |pos| <= i < ArityMax(p) ==> ByKeyword(p, kw, i) || DefaultAt(p, i).Some?
    ensures r.Some? ==> r.value == seq(ArityMax(p), i requires 0 <= i < ArityMax(p) => KwValue(p, pos, kw, i))
  {
    var slotVals := vals;
    for i := 0 to ArityMax(p)
      invariant |slotVals| == ArityMax(p)
      invariant forall j :: 0 <= j < i ==> slotVals[j] == KwValue(p, pos, kw, j)
      invariant forall j :: i <= j < ArityMax(p) ==> slotVals[j] == vals[j]
      invariant forall j :: |pos| <= j < i ==> ByKeyword(p, kw, j) || DefaultAt(p, j).Some?
    {
      if !filled[i] {
        if DefaultAt(p, i).None? {
          return None;
        }
        slotVals := slotVals[i := DefaultAt(p, i).value];
      }
    }
    r := Some(slotVals);
  }

  /**
    Binds positional arguments and keywords; None stands for the TypeErrors. The entries come in the
    order of the keyword map's table, the outcome depends on the map alone.
  */
  method BindKeywords(p: Proto, pos: seq<Arg>, es: seq<Entry>) returns (r: Option<seq<Arg>>)
    requires WellMade(p) && KeysDiffer(es)
    ensures r.Some? <==> KwBindable(p, |pos|, MapOfEntries(es))
    ensures r.Some? ==> r.value == KwSlots(p, pos, MapOfEntries(es))
  {
    if p.hasVararg || |pos| > ArityMax(p) {
      return None;
    }
    var n := ArityMax(p);
    var slotVals := seq(n, i requires 0 <= i < n => if i < |pos| then pos[i] else NIL);
    var filled := seq(n, i requires 0 <= i < n => i < |pos|);
    var extra: Keywords := map[];
    for i := 0 to |es|
      invariant Scratch(p, pos, MapOfEntries(es[..i]), slotVals, filled) && NoClash(p, |pos|, MapOfEntries(es[..i]))
      invariant extra == Extra(p, MapOfEntries(es[..i]))
    {
      var e := es[i];
      NotYet(es[..i], e.key);
      assert es[..i + 1][..i] == es[..i];
      var slot := FindParam(p, e.key);
      if slot < 0 {
        ScratchExtra(p, pos, MapOfEntries(es[..i]), slotVals, filled, e);
        if !p.hasKwarg {
          KeywordStays(es, i);
          return None;
        }
        extra := extra[e.key := e.value];
      } else {
        ScratchParam(p, pos, MapOfEntries(es[..i]), slotVals, filled, e);
        if filled[slot] {
          KeywordStays(es, i);
          return None;
        }
        slotVals, filled := slotVals[slot := e.value], filled[slot := true];
      }
    }
    assert es[..|es|] == es;
    var vals := FillMissing(p, pos, MapOfEntries(es), slotVals, filled);
    if vals.None? {
      return None;
    }
    var s := Pad([], vals.value + if p.hasKwarg then [MapOf(extra)] else [], p.localCount);
    assert [] + KwSlots(p, pos, MapOfEntries(es)) == KwSlots(p, pos, MapOfEntries(es));
    r := Some(s);
  }

  lemma {:induction false} KeywordStays(es: seq<Entry>, i: nat)
    requires KeysDiffer(es) && i < |es|
    ensures es[i].key in MapOfEntries(es)
  {
    if i < |es| - 1 {
      KeywordStays(es[..|es| - 1], i);
    }
  }

  /** Tables with the same entries in another order bind alike. */
  lemma OrderDoesNotMatter(p: Proto, pos: seq<Arg>, es: seq<Entry>, fs: seq<Entry>)
    requires KeysDiffer(es) && KeysDiffer(fs) && (forall e :: e in es <==> e in fs)
    ensures KwBindable(p, |pos|, MapOfEntries(es)) == KwBindable(p, |pos|, MapOfEntries(fs))
    ensures KwSlots(p, pos, MapOfEntries(es)) == KwSlots(p, pos, MapOfEntries(fs))
  {
    forall k
      ensures k in MapOfEntries(es) ==> Entry(k, MapOfEntries(es)[k]) in es
      ensures k in MapOfEntries(fs) ==> Entry(k, MapOfEntries(fs)[k]) in fs
    {
      EntriesOf(es, k);
      EntriesOf(fs, k);
    }
    forall i | 0 <= i < |es|
      ensures es[i].key in MapOfEntries(es) && MapOfEntries(es)[es[i].key] == es[i].value
    {
      EntryHeld(es, i);
    }
    forall i | 0 <= i < |fs|
      ensures fs[i].key in MapOfEntries(fs) && MapOfEntries(fs)[fs[i].key] == fs[i].value
    {
      EntryHeld(fs, i);
    }
    assert MapOfEntries(es) == MapOfEntries(fs);
  }

  lemma {:induction false} EntriesOf(es: seq<Entry>, k: Value)
    ensures k in MapOfEntries(es) ==> Entry(k, MapOfEntries(es)[k]) in es
  {
    if es != [] {
      EntriesOf(es[..|es| - 1], k);
      assert es == es[..|es| - 1] + [es[|es| - 1]];
    }
  }

  lemma {:induction false} EntryHeld(es: seq<Entry>, i: nat)
    requires KeysDiffer(es) && i < |es|
    ensures es[i].key in MapOfEntries(es) && MapOfEntries(es)[es[i].key] == es[i].value
  {
    if i < |es| - 1 {
      EntryHeld(es[..|es| - 1], i);
    }
  }
}
