/**
  Back-patching: a chunk is emitted with zero bytes where jump operands go, and the operands are
  overwritten once their targets are known. These lemmas relate overwriting bytes in place to
  filling the holes of symbolic code.
*/
module Patching {
  import opened Bytecode
  import opened CodeGen

  // ---------------------------------------------------------------------
  // The two kinds of hole
  // ---------------------------------------------------------------------

  datatype Kind = ForBreak | ForContinue

  function Hole(kind: Kind, k: nat): Sym
  {
    if kind.ForBreak? then BreakHole(k) else ContinueHole(k)
  }

  function KindOf(s: Sym): (kind: Kind)
    requires !s.B?
  {
    if s.BreakHole? then ForBreak else ForContinue
  }

  /** Holes come in whole operands of three bytes. */
  predicate Whole(syms: seq<Sym>)
  {
    syms != [] ==>
      if syms[0].B? then Whole(syms[1..])
      else Starts(syms) && Whole(syms[3..])
  }

  predicate Starts(syms: seq<Sym>)
  {
    |syms| >= 3 && !syms[0].B?
    && var kind := KindOf(syms[0]); syms[0] == Hole(kind, 0) && syms[1] == Hole(kind, 1) && syms[2] == Hole(kind, 2)
  }

  /** Where the operands of one kind begin, for code placed at `at`. */
  function Holes(syms: seq<Sym>, kind: Kind, at: nat): seq<nat>
    requires Whole(syms)
  {
    if syms == [] then []
    else if syms[0].B? then Holes(syms[1..], kind, at + 1)
    else (if KindOf(syms[0]) == kind then [at] else []) + Holes(syms[3..], kind, at + 3)
  }

  /** Fills the holes of one kind; the target is relative to the code. */
  function FillKind(syms: seq<Sym>, kind: Kind, to: int): (filled: seq<Sym>)
    requires Whole(syms)
    ensures |filled| == |syms|
  {
    if syms == [] then []
    else if syms[0].B? then [syms[0]] + FillKind(syms[1..], kind, to - 1)
    else (if KindOf(syms[0]) == kind then Lift(EncodeAX((to - 3) % TWO_24)) else syms[..3]) + FillKind(syms[3..], kind, to - 3)
  }

  // ---------------------------------------------------------------------
  // Overwriting
  // ---------------------------------------------------------------------

  function PatchSyms(syms: seq<Sym>, p: nat, target: int): (patched: seq<Sym>)
    requires p + 3 <= |syms|
    ensures |patched| == |syms|
  {
    syms[..p] + Lift(JumpOperand(p, target)) + syms[p + 3..]
  }

  function PatchBytes(code: seq<byte>, p: nat, target: int): (patched: seq<byte>)
    requires p + 3 <= |code|
    ensures |patched| == |code|
  {
    code[..p] + JumpOperand(p, target) + code[p + 3..]
  }

  predicate Inside(ps: seq<nat>, n: nat)
  {
    forall i :: 0 <= i < |ps| ==> ps[i] + 3 <= n
  }

  function PatchAll(syms: seq<Sym>, ps: seq<nat>, target: int): (patched: seq<Sym>)
    requires Inside(ps, |syms|)
    ensures |patched| == |syms|
    decreases |ps|
  {
    if ps == [] then syms else PatchAll(PatchSyms(syms, ps[0], target), ps[1..], target)
  }

  /** The bytes of code whose holes are still zero. */
  function BytesOf(syms: seq<Sym>): (bytes: seq<byte>)
    ensures |bytes| == |syms|
  {
    seq(|syms|, i requires 0 <= i < |syms| => if syms[i].B? then syms[i].b else 0)
  }

  lemma BytesOfPatch(syms: seq<Sym>, p: nat, target: int)
    requires p + 3 <= |syms|
    ensures BytesOf(PatchSyms(syms, p, target)) == PatchBytes(BytesOf(syms), p, target)
  {
  }

  lemma BytesOfAppend(syms: seq<Sym>, bytes: seq<byte>)
    ensures BytesOf(syms + Lift(bytes)) == BytesOf(syms) + bytes
  {
  }

  lemma LiftAppend(a: seq<byte>, b: seq<byte>)
    ensures Lift(a + b) == Lift(a) + Lift(b)
  {
  }

  // ---------------------------------------------------------------------
  // Code is put together from pieces
  // ---------------------------------------------------------------------

  lemma {:induction false} WholeLift(bytes: seq<byte>)
    ensures Whole(Lift(bytes))
    ensures forall kind, at :: Holes(Lift(bytes), kind, at) == []
    decreases |bytes|
  {
    if bytes != [] {
      assert Lift(bytes)[1..] == Lift(bytes[1..]);
      WholeLift(bytes[1..]);
    }
  }

  lemma {:induction false} WholeAppend(a: seq<Sym>, b: seq<Sym>)
    requires Whole(a) && Whole(b)
    ensures Whole(a + b)
    decreases |a|
  {
    if a == [] {
      assert a + b == b;
    } else if a[0].B? {
      assert (a + b)[1..] == a[1..] + b;
      WholeAppend(a[1..], b);
    } else {
      assert (a + b)[3..] == a[3..] + b;
      WholeAppend(a[3..], b);
    }
  }

  lemma {:induction false} HolesAppend(a: seq<Sym>, b: seq<Sym>, kind: Kind, at: nat)
    requires Whole(a) && Whole(b) && Whole(a + b)
    ensures Holes(a + b, kind, at) == Holes(a, kind, at) + Holes(b, kind, at + |a|)
    decreases |a|
  {
    hide Hole, Starts, Holes, Whole;
    HolesStep(a, kind, at);
    HolesStep(a + b, kind, at);
    if a == [] {
      assert a + b == b;
    } else if a[0].B? {
      assert (a + b)[1..] == a[1..] + b;
      HolesAppend(a[1..], b, kind, at + 1);
    } else {
      assert (a + b)[3..] == a[3..] + b;
      HolesAppend(a[3..], b, kind, at + 3);
      if KindOf(a[0]) == kind {
        var ps := Holes(a, kind, at);
        assert ps == [at] + ps[1..];
      }
    }
  }

  lemma {:induction false} HolesInside(syms: seq<Sym>, kind: Kind, at: nat)
    requires Whole(syms)
    ensures Inside(Holes(syms, kind, at), at + |syms|)
    decreases |syms|
  {
    if syms != [] {
      if syms[0].B? {
        HolesInside(syms[1..], kind, at + 1);
      } else {
        HolesInside(syms[3..], kind, at + 3);
      }
    }
  }

  // ---------------------------------------------------------------------
  // Patching every recorded operand fills every hole
  // ---------------------------------------------------------------------

  /** Behind a prefix that stays as it is, patching the recorded offsets fills the holes of that kind. */
  lemma {:induction false} PatchAllFills(prefix: seq<Sym>, syms: seq<Sym>, kind: Kind, target: int)
    requires Whole(syms) && Inside(Holes(syms, kind, |prefix|), |prefix + syms|)
    ensures PatchAll(prefix + syms, Holes(syms, kind, |prefix|), target) == prefix + FillKind(syms, kind, target - |prefix|)
    decreases |syms|
  {
    hide PatchSyms, EncodeAX, JumpOperand, Hole, Holes, FillKind, Starts;
    HolesStep(syms, kind, |prefix|);
    if syms == [] {
      assert prefix + syms == prefix == prefix + FillKind(syms, kind, target - |prefix|);
    } else if syms[0].B? {
      PatchByte(prefix, syms, kind, target);
      PatchAllFills(prefix + [syms[0]], syms[1..], kind, target);
    } else {
      var next := prefix + FirstFilled(prefix, syms, kind, target);
      PatchHole(prefix, syms, kind, target);
      PatchAllFills(next, syms[3..], kind, target);
    }
  }

  lemma HolesStep(syms: seq<Sym>, kind: Kind, at: nat)
    requires Whole(syms)
    ensures var ps := Holes(syms, kind, at);
      && (syms == [] ==> ps == [])
      && (syms != [] && syms[0].B? ==> Whole(syms[1..]) && ps == Holes(syms[1..], kind, at + 1))
      && (syms != [] && !syms[0].B? ==> |syms| >= 3 && Whole(syms[3..]))
      && (syms != [] && !syms[0].B? && KindOf(syms[0]) == kind ==> ps != [] && ps[0] == at && ps[1..] == Holes(syms[3..], kind, at + 3))
      && (syms != [] && !syms[0].B? && KindOf(syms[0]) != kind ==> ps == Holes(syms[3..], kind, at + 3))
  {
  }

  lemma PatchByte(prefix: seq<Sym>, syms: seq<Sym>, kind: Kind, target: int)
    requires Whole(syms) && syms != [] && syms[0].B?
    ensures var next := prefix + [syms[0]];
      && next + syms[1..] == prefix + syms
      && prefix + FillKind(syms, kind, target - |prefix|) == next + FillKind(syms[1..], kind, target - |next|)
  {
  }

  /** The first operand after the loop over the recorded offsets has passed it. */
  function FirstFilled(prefix: seq<Sym>, syms: seq<Sym>, kind: Kind, target: int): (operand: seq<Sym>)
    requires Whole(syms) && syms != [] && !syms[0].B?
    ensures |operand| == 3
  {
    if KindOf(syms[0]) == kind then Lift(JumpOperand(|prefix|, target)) else syms[..3]
  }

  lemma PatchHole(prefix: seq<Sym>, syms: seq<Sym>, kind: Kind, target: int)
    requires Whole(syms) && syms != [] && !syms[0].B?
    ensures var next := prefix + FirstFilled(prefix, syms, kind, target);
      && next + syms[3..] == (if KindOf(syms[0]) == kind then PatchSyms(prefix + syms, |prefix|, target) else prefix + syms)
      && prefix + FillKind(syms, kind, target - |prefix|) == next + FillKind(syms[3..], kind, target - |next|)
  {
    hide FillKind, JumpOperand;
    FillFirst(prefix, syms, kind, target);
    var s := prefix + syms;
    assert s[..|prefix|] == prefix && s[|prefix| + 3..] == syms[3..];
    assert prefix + syms == (prefix + syms[..3]) + syms[3..];
  }

  lemma FillFirst(prefix: seq<Sym>, syms: seq<Sym>, kind: Kind, target: int)
    requires Whole(syms) && syms != [] && !syms[0].B?
    ensures FillKind(syms, kind, target - |prefix|)
      == FirstFilled(prefix, syms, kind, target) + FillKind(syms[3..], kind, target - |prefix| - 3)
  {
    hide EncodeAX;
  }

  lemma {:induction false} FillKindWhole(syms: seq<Sym>, kind: Kind, to: int)
    requires Whole(syms)
    ensures Whole(FillKind(syms, kind, to))
    ensures forall at :: Holes(FillKind(syms, kind, to), kind, at) == []
    ensures forall other, at :: other != kind ==> Holes(FillKind(syms, kind, to), other, at) == Holes(syms, other, at)
    decreases |syms|
  {
    var filled := FillKind(syms, kind, to);
    if syms != [] {
      if syms[0].B? {
        FillKindWhole(syms[1..], kind, to - 1);
        assert filled[1..] == FillKind(syms[1..], kind, to - 1);
      } else {
        var rest := FillKind(syms[3..], kind, to - 3);
        FillKindWhole(syms[3..], kind, to - 3);
        assert filled[3..] == rest;
        if KindOf(syms[0]) == kind {
          WholeLift(EncodeAX((to - 3) % TWO_24));
          WholeAppend(Lift(EncodeAX((to - 3) % TWO_24)), rest);
          forall other, at: nat ensures Holes(filled, other, at) == Holes(rest, other, at + 3) {
            HolesAppend(Lift(EncodeAX((to - 3) % TWO_24)), rest, other, at);
          }
        }
      }
    }
  }

  lemma FillAppend(a: seq<Sym>, b: seq<Sym>, breakTo: int, continueTo: int)
    ensures Fill(a + b, breakTo, continueTo) == Fill(a, breakTo, continueTo) + Fill(b, breakTo - |a|, continueTo - |a|)
  {
    hide OperandByte;
    var whole, parts := Fill(a + b, breakTo, continueTo), Fill(a, breakTo, continueTo) + Fill(b, breakTo - |a|, continueTo - |a|);
    forall i | 0 <= i < |a + b| ensures whole[i] == parts[i] {
      if i >= |a| {
        assert (a + b)[i] == b[i - |a|];
      }
    }
  }

  /** Filling one kind and then the other is what the loop's code is. */
  lemma {:induction false} FillBoth(syms: seq<Sym>, breakTo: int, continueTo: int)
    requires Whole(syms) && Whole(FillKind(syms, ForContinue, continueTo))
    ensures FillKind(FillKind(syms, ForContinue, continueTo), ForBreak, breakTo) == Fill(syms, breakTo, continueTo)
    decreases |syms|
  {
    hide Fill;
    if syms != [] {
      if syms[0].B? {
        FillKindWhole(syms[1..], ForContinue, continueTo - 1);
        FillBoth(syms[1..], breakTo - 1, continueTo - 1);
        FillByte(syms, breakTo, continueTo);
      } else {
        FillKindWhole(syms[3..], ForContinue, continueTo - 3);
        FillBoth(syms[3..], breakTo - 3, continueTo - 3);
        FillHole(syms, breakTo, continueTo);
      }
    }
  }

  lemma FillByte(syms: seq<Sym>, breakTo: int, continueTo: int)
    requires syms != [] && syms[0].B? && Whole(syms)
    requires Whole(syms[1..]) && Whole(FillKind(syms[1..], ForContinue, continueTo - 1))
    requires Whole(FillKind(syms, ForContinue, continueTo))
    ensures FillKind(FillKind(syms, ForContinue, continueTo), ForBreak, breakTo)
      == [syms[0]] + FillKind(FillKind(syms[1..], ForContinue, continueTo - 1), ForBreak, breakTo - 1)
    ensures Fill(syms, breakTo, continueTo) == [syms[0]] + Fill(syms[1..], breakTo - 1, continueTo - 1)
  {
    assert FillKind(syms, ForContinue, continueTo)[1..] == FillKind(syms[1..], ForContinue, continueTo - 1);
    assert syms == [syms[0]] + syms[1..];
    FillAppend([syms[0]], syms[1..], breakTo, continueTo);
    assert Fill([syms[0]], breakTo, continueTo) == [syms[0]];
  }

  lemma FillHole(syms: seq<Sym>, breakTo: int, continueTo: int)
    requires syms != [] && !syms[0].B? && Whole(syms)
    requires Whole(syms[3..]) && Whole(FillKind(syms[3..], ForContinue, continueTo - 3))
    requires Whole(FillKind(syms, ForContinue, continueTo))
    ensures var operand := Lift(EncodeAX(((if syms[0].BreakHole? then breakTo else continueTo) - 3) % TWO_24));
      && FillKind(FillKind(syms, ForContinue, continueTo), ForBreak, breakTo)
         == operand + FillKind(FillKind(syms[3..], ForContinue, continueTo - 3), ForBreak, breakTo - 3)
      && Fill(syms, breakTo, continueTo) == operand + Fill(syms[3..], breakTo - 3, continueTo - 3)
  {
    FillOperand(syms, breakTo, continueTo);
    assert syms == syms[..3] + syms[3..];
    FillAppend(syms[..3], syms[3..], breakTo, continueTo);
    var once, rest := FillKind(syms, ForContinue, continueTo), FillKind(syms[3..], ForContinue, continueTo - 3);
    assert once[3..] == rest;
    if syms[0].BreakHole? {
      assert once == syms[..3] + rest;
    } else {
      var bytes := EncodeAX((continueTo - 3) % TWO_24);
      assert once == Lift(bytes) + rest;
      SkipBytes(bytes, rest, breakTo);
    }
  }

  /** Bytes are passed over three at a time too. */
  lemma {:induction false} SkipBytes(bytes: seq<byte>, rest: seq<Sym>, to: int)
    requires |bytes| == 3 && Whole(rest) && Whole(Lift(bytes) + rest)
    ensures FillKind(Lift(bytes) + rest, ForBreak, to) == Lift(bytes) + FillKind(rest, ForBreak, to - 3)
  {
    var s := Lift(bytes) + rest;
    assert s[1..][1..][1..] == rest;
    assert FillKind(s[1..][1..], ForBreak, to - 2) == [s[2]] + FillKind(rest, ForBreak, to - 3);
    assert FillKind(s[1..], ForBreak, to - 1) == [s[1]] + FillKind(s[1..][1..], ForBreak, to - 2);
    assert Lift(bytes) == [s[0]] + ([s[1]] + [s[2]]);
  }

  lemma FillOperand(syms: seq<Sym>, breakTo: int, continueTo: int)
    requires Starts(syms)
    ensures Fill(syms[..3], breakTo, continueTo) ==
      Lift(EncodeAX(((if syms[0].BreakHole? then breakTo else continueTo) - 3) % TWO_24))
  {
  }

  lemma {:induction false} CountsAppend(a: seq<Sym>, b: seq<Sym>)
    ensures CountBreaks(a + b) == CountBreaks(a) + CountBreaks(b)
    ensures CountContinues(a + b) == CountContinues(a) + CountContinues(b)
    decreases |b|
  {
    if b == [] {
      assert a + b == a;
    } else {
      assert (a + b)[..|a + b| - 1] == a + b[..|b| - 1];
      CountsAppend(a, b[..|b| - 1]);
    }
  }

  /** The number of recorded offsets is the number the limit is checked against. */
  lemma {:induction false} HolesCounted(syms: seq<Sym>, at: nat)
    requires Whole(syms)
    ensures |Holes(syms, ForBreak, at)| == CountBreaks(syms) && |Holes(syms, ForContinue, at)| == CountContinues(syms)
    decreases |syms|
  {
    if syms != [] {
      if syms[0].B? {
        assert syms == [syms[0]] + syms[1..];
        CountsAppend([syms[0]], syms[1..]);
        HolesCounted(syms[1..], at + 1);
      } else {
        var s := syms[..3];
        assert syms == s + syms[3..];
        CountsAppend(s, syms[3..]);
        assert s == [syms[0]] + [syms[1]] + [syms[2]];
        CountsAppend([syms[0]] + [syms[1]], [syms[2]]);
        CountsAppend([syms[0]], [syms[1]]);
        HolesCounted(syms[3..], at + 3);
      }
    }
  }

  // ---------------------------------------------------------------------
  // Forward jumps
  // ---------------------------------------------------------------------

  const Unset: seq<byte> := [0, 0, 0]

  /** Patching a jump over `body` to the end of the code gives the jump by the body's length. */
  lemma PatchForward(prefix: seq<Sym>, op: byte, body: seq<Sym>)
    ensures PatchSyms(prefix + Lift([op] + Unset) + body, |prefix| + 1, |prefix| + 4 + |body|) == prefix + Lift(Jump(op, |body|)) + body
  {
  }

  /** A jump back to `start`, emitted at the end of the code. */
  lemma PatchBack(prefix: seq<Sym>, op: byte, start: int)
    ensures PatchSyms(prefix + Lift([op] + Unset), |prefix| + 1, start) == prefix + Lift(Jump(op, start - (|prefix| + 4)))
  {
  }

  // ---------------------------------------------------------------------
  // Several jumps to one target, patched after all of them were emitted
  // ---------------------------------------------------------------------

  lemma PatchesCommute(syms: seq<Sym>, p: nat, q: nat, target: int)
    requires p + 3 <= q && q + 3 <= |syms|
    ensures PatchSyms(PatchSyms(syms, p, target), q, target) == PatchSyms(PatchSyms(syms, q, target), p, target)
  {
  }

  /** The operand recorded last may as well be patched first. */
  lemma {:induction false} PatchLastFirst(syms: seq<Sym>, ps: seq<nat>, p: nat, target: int)
    requires Inside(ps, p) && p + 3 <= |syms|
    ensures Inside(ps + [p], |syms|) && Inside(ps, |syms|)
    ensures PatchAll(syms, ps + [p], target) == PatchAll(PatchSyms(syms, p, target), ps, target)
    decreases |ps|
  {
    hide PatchSyms;
    if ps == [] {
      assert ps + [p] == [p];
    } else {
      assert (ps + [p])[1..] == ps[1..] + [p] && (ps + [p])[0] == ps[0];
      PatchLastFirst(PatchSyms(syms, ps[0], target), ps[1..], p, target);
      PatchesCommute(syms, ps[0], p, target);
    }
  }

  /** What is emitted behind the operands does not matter to them. */
  lemma {:induction false} PatchAllAppend(syms: seq<Sym>, ps: seq<nat>, target: int, more: seq<Sym>)
    requires Inside(ps, |syms|) && Inside(ps, |syms + more|)
    ensures PatchAll(syms + more, ps, target) == PatchAll(syms, ps, target) + more
    decreases |ps|
  {
    if ps != [] {
      assert PatchSyms(syms + more, ps[0], target) == PatchSyms(syms, ps[0], target) + more;
      PatchAllAppend(PatchSyms(syms, ps[0], target), ps[1..], target, more);
    }
  }
}
