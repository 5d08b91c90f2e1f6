/**
  When an expression comes back as a null pointer, told from its tokens, and what happens to a map
  literal one of whose keys does.
*/
module Nulls {
  import opened Values
  import opened Pratt
  import opened Grammar
  import opened Parsing
  import opened Reading
  import Recovery
  import Parser

  /** The ways to read nothing, each with the well-formed part that stands before the place of the error. */
  datatype Null =
    | NoRule
    | GroupNull(inner: Null)
    | EmptyIndex(obj: Tree, after: Tokens)
    | NullIndex(obj: Tree, after: Tokens, inner: Null)

  /** A closing parenthesis that is missing is an error, but the parser is in panic mode already. */
  function PastParen(ts: Tokens): Tokens
  {
    if Cur(ts) == TRParen then Advance(ts) else ts
  }

  /** What is left when the null pointer comes back. */
  function End(w: Null, ts: Tokens): Tokens
  {
    match w
    case NoRule => Advance(ts)
    case GroupNull(g) => PastParen(End(g, Advance(ts)))
    case EmptyIndex(_, after) => after
    case NullIndex(_, after, k) => End(k, after)
  }

  /** A postfix operator can follow `obj`, which is all that has been read. */
  ghost predicate Subscripted(obj: Tree, ts: Tokens, after: Tokens, min: nat, mode: Mode)
  {
    mode == Fine && min <= PREC_CALL < Edge(obj) && Fits(obj, min) && ts == Flat(obj, Push(TLBracket, after))
  }

  /**
    No prefix rule at the first token, a parenthesis around such an expression with no comma behind it,
    or, outside panic mode, a well-formed expression with an empty index or such an expression as its index.
  */
  ghost predicate NullAs(w: Null, ts: Tokens, min: nat, mode: Mode)
  {
    match w
    case NoRule => !HasPrefix(Cur(ts))
    case GroupNull(g) =>
      && Cur(ts) == TLParen && Cur(Advance(ts)) != TRParen
      && NullAs(g, Advance(ts), PREC_IF_EXPR, mode) && Cur(End(g, Advance(ts))) != TComma
    case EmptyIndex(obj, after) => Subscripted(obj, ts, after, min, mode) && Cur(after) == TRBracket
    case NullIndex(obj, after, k) =>
      && Subscripted(obj, ts, after, min, mode) && Cur(after) != TRBracket && Cur(after) != TColon
      && NullAs(k, after, PREC_IF_EXPR, Fine) && Cur(End(k, after)) != TColon
  }

  // ---------------------------------------------------------------------
  // These forms come back null
  // ---------------------------------------------------------------------

  lemma {:induction false} NoRuleRead(ts: Tokens, min: nat, mode: Mode)
    requires min > 0 && !HasPrefix(Cur(ts))
    ensures ParsePrecedence(ts, min, mode) == Out(Missing, Advance(ts), AfterError(mode))
  {
    hide Prefix, Climb;
  }

  lemma {:induction false} GroupSteps(ts: Tokens, min: nat, mode: Mode)
    requires min > 0 && Cur(ts) == TLParen
    ensures var p := GroupOrTuple(ts[1..], mode);
      ParsePrecedence(ts, min, mode) == Climb(p.node, p.rest, min, p.mode)
  {
    hide Climb, GroupOrTuple, ListLiteral, PrefixUnary, MapOrSet, MakeExpr, Receive, Clear, NoFunctions;
  }

  lemma StopsInPanic(left: Node, ts: Tokens, min: nat, mode: Mode)
    requires min > 0 && mode != Fine
    ensures Climb(left, ts, min, mode) == Out(left, ts, mode)
  {
    hide ApplyInfix;
  }

  lemma {:induction false} NullGroup(ts: Tokens, mode: Mode)
    requires Cur(ts) != TRParen
    requires var e := ParsePrecedence(ts, PREC_IF_EXPR, mode); e.node == Missing && e.mode == Panic && Cur(e.rest) != TComma
    ensures GroupOrTuple(ts, mode) == Out(Missing, PastParen(ParsePrecedence(ts, PREC_IF_EXPR, mode).rest), Panic)
  {
    hide ParsePrecedence, TupleFrom, Clear, NoFunctions;
  }

  /** An empty index, or an index that is null itself. */
  lemma {:induction false} NullSubscript(left: Node, after: Tokens)
    requires Cur(after) != TColon
    ensures Cur(after) == TRBracket ==> IndexOrSlice(left, after) == Out(Missing, after, Panic)
    ensures var k := ParsePrecedence(after, PREC_IF_EXPR, Fine);
      Cur(after) != TRBracket && k.node == Missing && k.mode == Panic && Cur(k.rest) != TColon ==>
        IndexOrSlice(left, after) == Out(Missing, k.rest, Panic)
  {
    hide ParsePrecedence, SliceFrom, Clear, NoFunctions;
  }

  lemma SubscriptRead(obj: Tree, ts: Tokens, after: Tokens, min: nat, mode: Mode, end: Tokens)
    requires min > 0 && Subscripted(obj, ts, after, min, mode)
    requires IndexOrSlice(Strip(obj), after) == Out(Missing, end, Panic)
    ensures ParsePrecedence(ts, min, mode) == Out(Missing, end, Panic)
  {
    hide ApplyInfix, IndexOrSlice, ParsePrecedence, Fits, Flat, Strip, Edge;
    InfixRules(Strip(obj), after);
    EndBindsNothing();
    Parses(obj, min, Push(TLBracket, after));
    StopsInPanic(Missing, end, min, Panic);
  }

  lemma {:induction false} NullReads(w: Null, ts: Tokens, min: nat, mode: Mode)
    requires min > 0 && (mode == Fine || mode == Panic) && NullAs(w, ts, min, mode)
    ensures ParsePrecedence(ts, min, mode) == Out(Missing, End(w, ts), Panic)
    decreases w
  {
    hide ParsePrecedence, GroupOrTuple, Climb, Subscripted, HasPrefix, IndexOrSlice;
    match w
    case NoRule => NoRuleRead(ts, min, mode);
    case GroupNull(g) =>
      NullReads(g, Advance(ts), PREC_IF_EXPR, mode);
      NullGroup(Advance(ts), mode);
      GroupSteps(ts, min, mode);
      StopsInPanic(Missing, End(w, ts), min, Panic);
    case EmptyIndex(obj, after) =>
      NullSubscript(Strip(obj), after);
      SubscriptRead(obj, ts, after, min, mode, after);
    case NullIndex(obj, after, k) =>
      NullReads(k, after, PREC_IF_EXPR, Fine);
      NullSubscript(Strip(obj), after);
      SubscriptRead(obj, ts, after, min, mode, End(k, after));
  }

  // ---------------------------------------------------------------------
  // Nothing else does
  // ---------------------------------------------------------------------

  /** A null pointer never comes back without an error. */
  lemma {:induction false} NullIsError(ts: Tokens, min: nat, mode: Mode)
    requires min > 0 && ParsePrecedence(ts, min, mode).node == Missing
    ensures ParsePrecedence(ts, min, mode).mode != Fine
  {
    hide ParsePrecedence;
    if mode == Fine && ParsePrecedence(ts, min, Fine).mode == Fine {
      var c := ReadTree(ts, min);
    }
  }

  lemma OnlyGroups(t: Token, ts: Tokens, mode: Mode)
    requires (mode == Fine || mode == Panic) && HasPrefix(t)
    requires Prefix(t, ts, mode).node == Missing && Prefix(t, ts, mode).mode == Panic
    ensures t == TLParen && Prefix(t, ts, mode) == GroupOrTuple(ts, mode)
  {
    hide Prefix, GroupOrTuple, ListLiteral, PrefixUnary, MapOrSet, MakeExpr, Receive, IsLeaf, Clear, NoFunctions;
    if IsLeaf(t) {
      Parser.LeafCase(t, ts, mode);
    } else if t == TMinus || t == TPlus || t == TTilde || t == TNot {
      Parser.SignCases(t, ts, mode);
      ListsAndSigns(ts, mode);
    } else if t == TFunc || t == TAsync {
      Parser.FunctionCases(t, ts, mode);
    } else {
      Parser.BracketCases(t, ts, mode);
      Parser.OtherPrefixCases(t, ts, mode);
      ListsAndSigns(ts, mode);
      BracesAndChannels(ts, mode);
    }
  }

  lemma {:induction false} ListsAndSigns(ts: Tokens, mode: Mode)
    ensures ListLiteral(ts, mode).node != Missing
    ensures forall op :: PrefixUnary(op, ts, mode).node != Missing
  {
    hide ParsePrecedence, Items, Expect, Clear, NoFunctions;
  }

  lemma {:induction false} BracesAndChannels(ts: Tokens, mode: Mode)
    ensures MapOrSet(ts, mode).mode == Panic ==> MapOrSet(ts, mode).node != Missing
    ensures MakeExpr(ts, mode).node != Missing && Receive(ts, mode).node != Missing
  {
    hide ParsePrecedence, Expect, MorePairs, MoreElems, CapacityPart, Clear, NoFunctions;
    if Cur(ts) != TRBrace {
      var first := ParsePrecedence(ts, PREC_IF_EXPR, mode);
      FilledBraces(first.node, Advance(first.rest), first.mode);
      FilledBraces(first.node, first.rest, first.mode);
    }
  }

  lemma FilledBraces(key: Node, ts: Tokens, mode: Mode)
    ensures MapFrom(key, ts, mode).mode == Panic ==> MapFrom(key, ts, mode).node != Missing
    ensures SetFrom(key, ts, mode).node != Missing
  {
    hide ParsePrecedence, Expect, MorePairs, MoreElems, Clear, NoFunctions;
  }

  lemma OnlyIndexes(left: Node, t: Token, ts: Tokens)
    requires left != Missing && ApplyInfix(left, t, ts).node == Missing && InfixOf(t) != NoInfix
    ensures t == TLBracket && ApplyInfix(left, t, ts) == IndexOrSlice(left, ts)
  {
    hide ApplyInfix, InfixBinary, InfixIsIn, InfixIf, IndexOrSlice, InfixCall, Clear, NoFunctions;
    InfixUnfolded(left, t, ts);
    RuleToken(t);
    WordsAndCalls(left, t, ts);
  }

  lemma InfixUnfolded(left: Node, t: Token, ts: Tokens)
    ensures InfixOf(t).BinaryRule? ==> ApplyInfix(left, t, ts) == InfixBinary(left, InfixOf(t).op, ts, Fine)
    ensures InfixOf(t).IsInRule? ==> ApplyInfix(left, t, ts) == InfixIsIn(left, t, ts)
    ensures InfixOf(t).IfRule? ==> ApplyInfix(left, t, ts) == InfixIf(left, ts)
    ensures InfixOf(t).AttrRule? ==> ApplyInfix(left, t, ts).node.Attr?
    ensures InfixOf(t).IndexRule? ==> ApplyInfix(left, t, ts) == IndexOrSlice(left, ts)
    ensures InfixOf(t).CallRule? ==> ApplyInfix(left, t, ts) == InfixCall(left, ts)
    ensures InfixOf(t).PostfixRule? ==> ApplyInfix(left, t, ts).node.IncDec?
  {
    hide InfixBinary, InfixIsIn, InfixIf, IndexOrSlice, InfixCall, InfixOf, Clear, NoFunctions;
  }

  lemma WordsAndCalls(left: Node, t: Token, ts: Tokens)
    ensures forall op :: InfixBinary(left, op, ts, Fine).node != Missing
    ensures InfixIsIn(left, t, ts).node != Missing && InfixIf(left, ts).node != Missing && InfixCall(left, ts).node != Missing
  {
    hide ParsePrecedence, CallArgs, Expect, Clear, NoFunctions;
  }

  lemma {:induction false} InGroup(ts: Tokens, mode: Mode)
    requires GroupOrTuple(ts, mode).node == Missing && GroupOrTuple(ts, mode).mode == Panic
    ensures Cur(ts) != TRParen
    ensures var e := ParsePrecedence(ts, PREC_IF_EXPR, mode);
      e.node == Missing && (e.mode == Fine || e.mode == Panic) && Cur(e.rest) != TComma && GroupOrTuple(ts, mode).rest == PastParen(e.rest)
  {
    hide ParsePrecedence, Items, Clear, NoFunctions;
  }

  lemma {:induction false} InIndex(left: Node, ts: Tokens)
    requires IndexOrSlice(left, ts).node == Missing && IndexOrSlice(left, ts).mode == Panic
    ensures Cur(ts) == TRBracket ==> IndexOrSlice(left, ts).rest == ts
    ensures Cur(ts) != TColon
    ensures var k := ParsePrecedence(ts, PREC_IF_EXPR, Fine);
      Cur(ts) != TRBracket ==>
        k.node == Missing && (k.mode == Fine || k.mode == Panic) && Cur(k.rest) != TColon && IndexOrSlice(left, ts).rest == k.rest
  {
    hide ParsePrecedence, StepPart, Clear, NoFunctions;
  }

  /** How an expression that has come back null did. */
  lemma {:induction false} ReadNull(ts: Tokens, min: nat, mode: Mode) returns (w: Null)
    requires min > 0 && (mode == Fine || mode == Panic)
    requires ParsePrecedence(ts, min, mode).node == Missing && ParsePrecedence(ts, min, mode).mode == Panic
    ensures NullAs(w, ts, min, mode) && End(w, ts) == ParsePrecedence(ts, min, mode).rest
    decreases |ts|, 3
  {
    hide Prefix, Climb, GroupOrTuple, HasPrefix, Fits, Flat, Strip, Edge, Clear, NoFunctions;
    if ts == [] || !HasPrefix(ts[0]) {
      w := NoRule;
      NoPrefixAtEnd();
    } else {
      var p := Prefix(ts[0], ts[1..], mode);
      if p.mode == Fine {
        var c := ReadPrefix(ts, min);
        w := ClimbNull(c, p.rest, min);
      } else {
        StopsInPanic(p.node, p.rest, min, p.mode);
        w := ReadNullGroup(ts, min, mode);
      }
    }
  }

  lemma NoPrefixAtEnd()
    ensures !HasPrefix(TEof)
  {
  }

  lemma {:induction false} ReadNullGroup(ts: Tokens, min: nat, mode: Mode) returns (w: Null)
    requires min > 0 && (mode == Fine || mode == Panic) && ts != [] && HasPrefix(ts[0])
    requires Prefix(ts[0], ts[1..], mode).node == Missing && Prefix(ts[0], ts[1..], mode).mode == Panic
    ensures NullAs(w, ts, min, mode) && End(w, ts) == Prefix(ts[0], ts[1..], mode).rest
    decreases |ts|, 2
  {
    hide ParsePrecedence, GroupOrTuple, Prefix;
    OnlyGroups(ts[0], ts[1..], mode);
    InGroup(ts[1..], mode);
    NullIsError(ts[1..], PREC_IF_EXPR, mode);
    var g := ReadNull(ts[1..], PREC_IF_EXPR, mode);
    w := GroupNull(g);
  }

  /** Behind a left operand that has been read already. */
  lemma {:induction false} ClimbNull(c: Tree, ts: Tokens, min: nat) returns (w: Null)
    requires min > 0 && Fits(c, min) && Prec(Cur(ts)) < Edge(c)
    requires Climb(Strip(c), ts, min, Fine).node == Missing && Climb(Strip(c), ts, min, Fine).mode == Panic
    ensures NullAs(w, Flat(c, ts), min, Fine) && End(w, Flat(c, ts)) == Climb(Strip(c), ts, min, Fine).rest
    decreases |ts|, 2
  {
    hide ApplyInfix, Fits, Flat, Strip, Edge, Prec, Clear, NoFunctions, NullAs, End;
    RuleToken(Cur(ts));
    EndBindsNothing();
    var p := ApplyInfix(Strip(c), ts[0], ts[1..]);
    if p.mode == Fine {
      var d := ReadInfix(c, ts, min);
      w := ClimbNull(d, p.rest, min);
    } else {
      StopsInPanic(p.node, p.rest, min, p.mode);
      w := NullBehind(c, ts, min);
    }
  }

  lemma EndBindsNothing()
    ensures Prec(TEof) == PREC_NONE && Prec(TLBracket) == PREC_CALL
  {
  }

  lemma {:induction false} NullBehind(c: Tree, ts: Tokens, min: nat) returns (w: Null)
    requires ts != [] && Fits(c, min) && 0 < min <= Prec(ts[0]) < Edge(c)
    requires ApplyInfix(Strip(c), ts[0], ts[1..]).node == Missing && ApplyInfix(Strip(c), ts[0], ts[1..]).mode == Panic
    ensures NullAs(w, Flat(c, ts), min, Fine) && End(w, Flat(c, ts)) == ApplyInfix(Strip(c), ts[0], ts[1..]).rest
    decreases |ts|, 1
  {
    hide ApplyInfix, ParsePrecedence, IndexOrSlice, Fits, Flat, Strip, Edge, Prec, Clear, NoFunctions;
    var after := ts[1..];
    RuleToken(ts[0]);
    EndBindsNothing();
    OnlyIndexes(Strip(c), ts[0], after);
    InIndex(Strip(c), after);
    Unpush(ts);
    if Cur(after) == TRBracket {
      w := EmptyIndex(c, after);
    } else {
      NullIsError(after, PREC_IF_EXPR, Fine);
      var k := ReadNull(after, PREC_IF_EXPR, Fine);
      w := NullIndex(c, after, k);
    }
  }

  /**
    An expression comes back null exactly when its tokens have one of the forms, as long as it comes back
    at all and no function literal has been met.
  */
  lemma {:induction false} NullExactly(ts: Tokens, min: nat, mode: Mode)
    requires min > 0 && (mode == Fine || mode == Panic)
    ensures var r := ParsePrecedence(ts, min, mode);
      r.node == Missing && r.mode != Foreign && r.mode != Crashed <==> exists w :: NullAs(w, ts, min, mode)
    ensures forall w :: NullAs(w, ts, min, mode) ==> ParsePrecedence(ts, min, mode) == Out(Missing, End(w, ts), Panic)
  {
    hide ParsePrecedence, NullAs, End;
    var r := ParsePrecedence(ts, min, mode);
    if r.node == Missing && r.mode != Foreign && r.mode != Crashed {
      NullIsError(ts, min, mode);
      var w := ReadNull(ts, min, mode);
    }
    forall w | NullAs(w, ts, min, mode) ensures r == Out(Missing, End(w, ts), Panic) {
      NullReads(w, ts, min, mode);
    }
  }

  // ---------------------------------------------------------------------
  // Null keys
  // ---------------------------------------------------------------------

  /** A map literal whose first key is null, whatever its value is, is looked into after the value. */
  lemma NullKeyCrashes(w: Null, ts: Tokens, mode: Mode)
    requires (mode == Fine || mode == Panic) && NullAs(w, ts, PREC_IF_EXPR, mode)
    requires Cur(ts) != TRBrace && Cur(End(w, ts)) == TColon
    requires ParsePrecedence(Advance(End(w, ts)), PREC_IF_EXPR, Panic).mode != Foreign
    ensures MapOrSet(ts, mode) == Out(Missing, [], Crashed)
  {
    hide ParsePrecedence, NullAs, End, MorePairs, MoreElems, Clear, NoFunctions;
    NullReads(w, ts, PREC_IF_EXPR, mode);
  }

  /** `{ ) : 1 }`. */
  lemma NoKeyCrashes()
    ensures ParsePrecedence([TLBrace, TRParen, TColon, TInt(1), TRBrace], PREC_IF_EXPR, Fine) == Out(Missing, [], Crashed)
  {
    hide ParsePrecedence, MapOrSet, Clear;
    var ts := [TLBrace, TRParen, TColon, TInt(1), TRBrace];
    var key := ts[1..];
    assert key[0] == TRParen && key[1..] == ts[2..] && ts[2..][1..] == ts[3..];
    assert NoFunctions(ts[4..]) && ts[3..][1..] == ts[4..] by {
      assert ts[4..] == [TRBrace] && [TRBrace][1..] == [];
    }
    NoFunctionMet(ts[3..]);
    NullKeyCrashes(NoRule, key, Fine);
    BraceSteps(ts, PREC_IF_EXPR);
    StopsInPanic(Missing, [], PREC_IF_EXPR, Crashed);
  }

  /** A later key that is null is looked into behind its value whether or not there is a colon. */
  lemma LaterNullKeyCrashes(w: Null, ts: Tokens, mode: Mode)
    requires (mode == Fine || mode == Panic) && NullAs(w, ts, PREC_IF_EXPR, mode)
    requires var (rest, _) := Expect(End(w, ts), TColon, Panic); ParsePrecedence(rest, PREC_IF_EXPR, Panic).mode != Foreign
    ensures KeyValue(ts, mode) == Out(Missing, [], Crashed)
  {
    hide ParsePrecedence, NullAs, End, Clear, NoFunctions;
    NullReads(w, ts, PREC_IF_EXPR, mode);
  }

  /** The left side of a select case is null exactly when its tokens have one of the forms. */
  lemma {:induction false} NullSideExactly(ts: Tokens, mode: Mode)
    requires mode == Fine || mode == Panic
    ensures Parser.NullSide(ts, mode) <==>
      exists w :: NullAs(w, ts, PREC_IF_EXPR, mode) && (Cur(End(w, ts)) == Recovery.COLON_ASSIGN || Cur(End(w, ts)) == TArrowLeft)
  {
    hide ParsePrecedence, NullAs, End;
    NullExactly(ts, PREC_IF_EXPR, mode);
  }

  /** The parser object at `{ ) : 1 }`. */
  method ReadNoKey() returns (p: Parser.Parser, n: Node)
    ensures fresh(p) && p.crashed && !p.ReadToEnd()
  {
    NoKeyCrashes();
    p := new Parser.Parser([TLBrace, TRParen, TColon, TInt(1), TRBrace]);
    n := p.ParseExpr();
  }

  /** And at a select case `) := x`. */
  method ReadNoSide(x: Text) returns (p: Parser.Parser)
    ensures fresh(p) && p.crashed && !p.ReadToEnd()
  {
    var ts := [TRParen, Recovery.COLON_ASSIGN, TIdent(x), TColon];
    NoRuleRead(ts, PREC_IF_EXPR, Fine);
    p := new Parser.Parser(ts);
    p.ParseComm();
  }

  lemma {:induction false} NoFunctionMet(ts: Tokens)
    requires NoFunctions(ts)
    ensures ParsePrecedence(ts, PREC_IF_EXPR, Panic).mode != Foreign
  {
    hide ParsePrecedence;
  }

  lemma {:induction false} BraceSteps(ts: Tokens, min: nat)
    requires min > 0 && Cur(ts) == TLBrace
    ensures var p := MapOrSet(ts[1..], Fine);
      ParsePrecedence(ts, min, Fine) == Climb(p.node, p.rest, min, p.mode)
  {
    hide Climb, GroupOrTuple, ListLiteral, PrefixUnary, MapOrSet, MakeExpr, Receive, Clear, NoFunctions;
  }
}
