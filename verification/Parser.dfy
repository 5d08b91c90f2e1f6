/**
  The parser object: the tokens that are left, the token taken last, and the error flags. One family of
  methods reads expressions, blocks and statements, which contain each other through function literals;
  every method comes to its end on every token sequence, or to a null pointer that is looked into. An
  expression method leaves the object where the function of the same rule in `Pratt` says, as long as no
  function literal has been read.
*/
module Parser {
  import opened Values
  import P = Pratt
  import opened Pratt
  import opened Recovery

  /** Appending through the tail pointer. */
  function Append(l: NodeList, n: Node): NodeList
  {
    match l
    case NoNodes => Item(n, NoNodes)
    case Item(h, t) => Item(h, Append(t, n))
  }

  function Join(l: NodeList, m: NodeList): NodeList
  {
    match l
    case NoNodes => m
    case Item(h, t) => Item(h, Join(t, m))
  }

  lemma {:induction false} JoinAppend(l: NodeList, n: Node, m: NodeList)
    ensures Join(Append(l, n), m) == Join(l, Item(n, m))
  {
    if l.Item? {
      JoinAppend(l.next, n, m);
    }
  }

  lemma {:induction false} JoinNothing(l: NodeList)
    ensures Join(l, NoNodes) == l
  {
    if l.Item? {
      JoinNothing(l.next);
    }
  }

  lemma {:induction false} JoinOne(n: Node, l: NodeList)
    ensures Join(Item(n, NoNodes), l) == Item(n, l)
  {
  }

  /** An expression whose position has been looked at: where and how it was read, and whether it came back null. */
  datatype Looked = Looked(ts: Tokens, mode: Mode, missing: bool)

  /** Unless there is a function literal in it, the expression was null if and only if the functions say so. */
  ghost predicate Right(l: Looked)
  {
    var r := P.ParsePrecedence(l.ts, PREC_IF_EXPR, l.mode);
    r.mode != Foreign ==> r.mode != Crashed && (l.missing <==> r.node == Missing)
  }

  /** `n` is what comes back where the parser has not crashed. */
  ghost predicate WasRead(n: Node, ts: Tokens, mode: Mode)
  {
    var r := P.ParsePrecedence(ts, PREC_IF_EXPR, mode);
    r.mode != Foreign ==> r.mode != Crashed && n == r.node
  }

  /** The parser has crashed exactly when the last expression looked into was null; those before it were not. */
  ghost predicate Told(looked: seq<Looked>, crashed: bool)
  {
    && (forall i :: 0 <= i < |looked| ==> Right(looked[i]))
    && (forall i :: 0 <= i < |looked| ==> (looked[i].missing <==> crashed && i == |looked| - 1))
    && (crashed ==> looked != [])
  }

  /** What stands before `:=` or `<-` comes back null. */
  ghost predicate NullSide(ts: Tokens, mode: Mode)
  {
    var l := P.ParsePrecedence(ts, PREC_IF_EXPR, mode);
    l.node == Missing && l.mode == Panic && (Cur(l.rest) == COLON_ASSIGN || Cur(l.rest) == TArrowLeft)
  }

  lemma ToldExactly(looked: seq<Looked>, crashed: bool)
    requires Told(looked, crashed)
    ensures !crashed <==> forall l :: l in looked ==> !l.missing
  {
    hide Right;
    if crashed {
      assert looked[|looked| - 1] in looked;
    }
  }

  class Parser {
    var rest: Tokens
    var prev: Token
    var panicMode: bool
    var hadError: bool
    /** A null pointer has been looked into; there are no tokens left then. */
    var crashed: bool
    ghost var looked: seq<Looked>

    constructor (ts: Tokens)
      ensures Valid() && rest == ts && Now() == Fine && !hadError && looked == []
    {
      rest, prev, panicMode, hadError, crashed, looked := ts, TEof, false, false, false, [];
    }

    /** Panic mode is only ever entered together with the error flag. */
    ghost predicate Valid()
      reads this
    {
      (Now() != Fine ==> hadError) && (crashed ==> rest == []) && Told(looked, crashed)
    }

    ghost function Now(): Mode
      reads this
    {
      if crashed then Crashed else if panicMode then Panic else Fine
    }

    /** Tokens are only taken, and neither errors nor what has been looked at is forgotten. */
    twostate predicate Kept()
      reads this
    {
      Valid() && |rest| <= |old(rest)| && (old(hadError) ==> hadError) && old(looked) <= looked && (old(crashed) ==> crashed)
    }

    /** `n` has been read at `ts`, and now its position is looked at, unless nothing is any more. */
    method LookInto(n: Node, ghost ts: Tokens, ghost mode: Mode)
      requires Valid() && (n == Missing ==> hadError) && (!crashed ==> WasRead(n, ts, mode))
      modifies `rest, `crashed, `looked
      ensures Kept() && looked == if old(crashed) then old(looked) else old(looked) + [Looked(ts, mode, n == Missing)]
      ensures crashed == (old(crashed) || n == Missing) && rest == if crashed then [] else old(rest)
    {
      hide P.ParsePrecedence;
      if !crashed {
        looked := looked + [Looked(ts, mode, n == Missing)];
        if n == Missing {
          crashed, rest := true, [];
        }
      }
    }

    /** The parser is where `r` says, unless that is in the middle of a function literal. */
    ghost predicate Agrees(had: bool, n: Node, r: Out)
      reads this
    {
      r.mode != Foreign ==> n == r.node && Stands(had, r.rest, r.mode)
    }

    ghost predicate Stands(had: bool, ts: Tokens, mode: Mode)
      reads this
    {
      rest == ts && Now() == mode && hadError == (had || mode != Fine)
    }

    /** The first error since the last recovery is recorded; the others are not. */
    method Error()
      requires Valid()
      modifies `panicMode, `hadError
      ensures Valid() && panicMode && hadError
    {
      hide Told;
      if !panicMode {
        panicMode, hadError := true, true;
      }
    }

    method Advance()
      modifies `rest, `prev
      ensures prev == Cur(old(rest)) && rest == P.Advance(old(rest))
    {
      hide Told;
      prev := Cur(rest);
      rest := if rest == [] then [] else rest[1..];
    }

    method Match(t: Token) returns (took: bool)
      modifies `rest, `prev
      ensures took == (Cur(old(rest)) == t)
      ensures took ==> prev == t
      ensures !took ==> prev == old(prev)
      ensures rest == if took then P.Advance(old(rest)) else old(rest)
    {
      hide Told;
      took := Cur(rest) == t;
      if took {
        Advance();
      }
    }

    method Expect(t: Token)
      requires Valid()
      modifies `rest, `prev, `panicMode, `hadError
      ensures Valid() && (rest, Now()) == P.Expect(old(rest), t, old(Now()))
      ensures hadError == (old(hadError) || Now() != Fine)
      ensures Cur(old(rest)) == t ==> prev == t
      ensures Cur(old(rest)) != t ==> prev == old(prev)
    {
      hide Told;
      if Cur(rest) == t {
        Advance();
      } else {
        Error();
      }
    }

    method ParsePrecedence(min: nat) returns (n: Node)
      requires Valid() && min > 0
      modifies this
      ensures Kept() && Agrees(old(hadError), n, P.ParsePrecedence(old(rest), min, old(Now())))
      ensures n == Missing ==> Now() != Fine
      ensures old(rest) != [] ==> |rest| < |old(rest)|
      decreases |rest|, 2
    {
      hide P.ParsePrecedence, P.Climb, P.Prefix, P.ApplyInfix, Prec, InfixOf, HasPrefix, Told;
      ghost var all := P.ParsePrecedence(rest, min, Now());
      Starts(rest, min, Now());
      Advance();
      if !HasPrefix(prev) {
        Error();
        return Missing;
      }
      n := ParsePrefix();
      while !panicMode
        invariant Kept() && |rest| < |old(rest)| && (n == Missing ==> Now() != Fine)
        invariant all.mode != Foreign ==> P.Climb(n, rest, min, Now()) == all && hadError == (old(hadError) || Now() != Fine)
        decreases |rest|, !panicMode
      {
        if Prec(Cur(rest)) < min {
          break;
        }
        ClimbGoesOn(n, rest, min);
        Advance();
        n := ParseInfix(n);
      }
      ClimbStops(n, rest, min, Now());
    }

    method ParseExpr() returns (n: Node)
      requires Valid()
      modifies this
      ensures Kept() && Agrees(old(hadError), n, P.ParsePrecedence(old(rest), PREC_IF_EXPR, old(Now())))
      ensures n == Missing ==> Now() != Fine
      ensures old(rest) != [] ==> |rest| < |old(rest)|
      decreases |rest|, 3
    {
      hide Told;
      n := ParsePrecedence(PREC_IF_EXPR);
    }

    /** The prefix rule of the token taken last. */
    method ParsePrefix() returns (n: Node)
      requires Valid() && !crashed && HasPrefix(prev)
      modifies this
      ensures Kept() && Agrees(old(hadError), n, P.Prefix(old(prev), old(rest), old(Now())))
      ensures n == Missing ==> Now() != Fine
      decreases |rest|, 15
    {
      hide P.Prefix, P.ListLiteral, P.GroupOrTuple, P.PrefixUnary, P.MapOrSet, P.MakeExpr, P.Receive, Told;
      if IsLeaf(prev) {
        LeafCase(prev, rest, Now());
        n := LeafNode(prev);
      } else if prev == TLBracket {
        BracketCases(prev, rest, Now());
        n := ParseListLit();
      } else if prev == TLParen {
        BracketCases(prev, rest, Now());
        n := ParseGroupOrTuple();
      } else if prev == TMinus || prev == TPlus || prev == TTilde || prev == TNot {
        SignCases(prev, rest, Now());
        n := ParseUnary();
      } else {
        n := ParseOtherPrefix();
      }
    }

    method ParseOtherPrefix() returns (n: Node)
      requires Valid() && !crashed && (prev == TLBrace || prev == TMake || prev == TArrowLeft || prev == TFunc || prev == TAsync)
      modifies this
      ensures Kept() && Agrees(old(hadError), n, P.Prefix(old(prev), old(rest), old(Now())))
      ensures n == Missing ==> Now() != Fine
      decreases |rest|, 14
    {
      hide P.Prefix, P.MapOrSet, P.MakeExpr, P.Receive, Lasts, Clear, NoFunctions, Told;
      OtherPrefixCases(prev, rest, Now());
      if prev == TLBrace {
        n := ParseMapOrSetLit();
      } else if prev == TMake {
        n := ParseMake();
      } else if prev == TArrowLeft {
        n := ParseRecv();
      } else if prev == TFunc {
        FunctionCases(prev, rest, Now());
        n := ParseFuncLit();
      } else {
        FunctionCases(prev, rest, Now());
        n := ParseAsyncFuncLit();
      }
    }

    method ParseUnary() returns (n: Node)
      requires Valid() && (prev == TMinus || prev == TPlus || prev == TTilde || prev == TNot)
      modifies this
      ensures Kept() && Agrees(old(hadError), n, P.PrefixUnary(UnaryOf(old(prev)), old(rest), old(Now())))
      ensures n != Missing
      decreases |rest|, 4
    {
      hide P.ParsePrecedence, Told;
      var op := UnaryOf(prev);
      n := ParsePrecedence(OperandPrec(op));
      n := Unary(op, n);
    }

    /** The infix rule of the token taken last. */
    method ParseInfix(left: Node) returns (n: Node)
      requires Valid() && Now() == Fine && InfixOf(prev) != NoInfix && left != Missing
      modifies this
      ensures Kept() && Agrees(old(hadError), n, P.ApplyInfix(left, old(prev), old(rest)))
      ensures n == Missing ==> Now() != Fine
      decreases |rest|, 8
    {
      hide P.InfixBinary, P.InfixIsIn, P.InfixIf, P.InfixCall, P.IndexOrSlice, Told;
      match InfixOf(prev)
      case BinaryRule(_) => n := ParseBinary(left);
      case IsInRule => n := ParseIsIn(left);
      case IfRule => n := ParseIfExpr(left);
      case AttrRule => n := ParseAttr(left);
      case IndexRule => n := ParseIndex(left);
      case CallRule => n := ParseCall(left);
      case PostfixRule(_) => n := IncDec(left, prev == TInc);
    }

    method ParseBinary(left: Node) returns (n: Node)
      requires Valid() && InfixOf(prev).BinaryRule?
      modifies this
      ensures Kept() && Agrees(old(hadError), n, P.InfixBinary(left, InfixOf(old(prev)).op, old(rest), old(Now())))
      ensures n != Missing
      decreases |rest|, 4
    {
      hide P.ParsePrecedence, Told;
      var op := InfixOf(prev).op;
      BinaryLevel(prev);
      var right := ParsePrecedence(if op == Pow then Prec(prev) else Prec(prev) + 1);
      n := Binary(op, left, right);
    }

    /** The right operand of a comparison word. */
    method ParseCompared(left: Node, op: Op) returns (n: Node)
      requires Valid() && PrecOfOp(op) == PREC_COMPARE
      modifies this
      ensures Kept() && Agrees(old(hadError), n, P.InfixBinary(left, op, old(rest), old(Now())))
      ensures n != Missing
      decreases |rest|, 4
    {
      hide P.ParsePrecedence, Told;
      var right := ParsePrecedence(PREC_COMPARE + 1);
      n := Binary(op, left, right);
    }

    method ParseIsIn(left: Node) returns (n: Node)
      requires Valid() && Now() == Fine && InfixOf(prev) == IsInRule
      modifies this
      ensures Kept() && Agrees(old(hadError), n, P.InfixIsIn(left, old(prev), old(rest)))
      ensures n != Missing
      decreases |rest|, 5
    {
      hide P.InfixBinary, Told;
      IsInTokens(prev);
      var op := if prev == TIs then Is else In;
      if prev == TIs {
        var negated := Match(TNot);
        if negated {
          op := IsNot;
        }
      } else if prev == TNot {
        Expect(TIn);
        op := NotIn;
      }
      n := ParseCompared(left, op);
    }

    method ParseIfExpr(value: Node) returns (n: Node)
      requires Valid() && Now() == Fine
      modifies this
      ensures Kept() && Agrees(old(hadError), n, P.InfixIf(value, old(rest)))
      ensures n != Missing
      decreases |rest|, 5
    {
      hide P.ParsePrecedence, P.Expect, Clear, NoFunctions, Told;
      var cond := ParsePrecedence(PREC_IF_EXPR);
      Expect(TElse);
      var alt := ParsePrecedence(PREC_IF_EXPR);
      n := IfElse(value, cond, alt);
    }

    method ParseAttr(obj: Node) returns (n: Node)
      requires Valid() && Now() == Fine && prev == TDot
      modifies `rest, `prev, `panicMode, `hadError
      ensures Kept() && Agrees(old(hadError), n, P.ApplyInfix(obj, TDot, old(rest)))
      ensures n != Missing
    {
      hide Told;
      if Cur(rest).TIdent? {
        Advance();
        n := Attr(obj, prev.x);
      } else {
        Error();
        n := Attr(obj, NoName);
      }
    }

    /** One part of a subscript, unless it is left out. */
    method ParsePart(colonEnds: bool) returns (n: Node)
      requires Valid()
      modifies this
      ensures Kept() && Agrees(old(hadError), n, P.OptionalPart(old(rest), colonEnds, old(Now())))
      decreases |rest|, 5
    {
      hide P.ParsePrecedence, Told;
      n := Missing;
      if !(colonEnds && Cur(rest) == TColon) && Cur(rest) != TRBracket {
        n := ParseExpr();
      }
    }

    method ParseIndex(obj: Node) returns (n: Node)
      requires Valid() && Now() == Fine
      modifies this
      ensures Kept() && Agrees(old(hadError), n, P.IndexOrSlice(obj, old(rest)))
      ensures n == Missing ==> Now() != Fine
      decreases |rest|, 7
    {
      hide P.OptionalPart, P.SliceFrom, P.KeyEnd, Clear, NoFunctions, Told;
      var lo := ParsePart(true);
      var isSlice := Match(TColon);
      if isSlice {
        n := ParseSlice(obj, lo);
      } else {
        n := FinishKey(obj, lo);
      }
    }

    /** A subscript that is not a slice must not be empty. */
    method FinishKey(obj: Node, key: Node) returns (n: Node)
      requires Valid()
      modifies this
      ensures Kept() && Agrees(old(hadError), n, P.KeyEnd(obj, key, old(rest), old(Now())))
      ensures n == Missing ==> Now() != Fine
    {
      hide P.Expect, Told;
      if key == Missing {
        Error();
        return Missing;
      }
      Expect(TRBracket);
      n := Index(obj, key);
    }

    /** The rest of a slice, behind its first colon. */
    method ParseSlice(obj: Node, lo: Node) returns (n: Node)
      requires Valid()
      modifies this
      ensures Kept() && Agrees(old(hadError), n, P.SliceFrom(obj, lo, old(rest), old(Now())))
      ensures n != Missing
      decreases |rest|, 7
    {
      hide P.OptionalPart, P.StepPart, P.Expect, Told;
      var hi := ParsePart(true);
      var step := ParseStep();
      Expect(TRBracket);
      n := Slice(obj, lo, hi, step);
    }

    method ParseStep() returns (n: Node)
      requires Valid()
      modifies this
      ensures Kept() && Agrees(old(hadError), n, P.StepPart(old(rest), old(Now())))
      decreases |rest|, 6
    {
      hide P.OptionalPart, Told;
      n := Missing;
      var third := Match(TColon);
      if third {
        n := ParsePart(false);
      }
    }

    method ParseListLit() returns (n: Node)
      requires Valid()
      modifies this
      ensures Kept() && Agrees(old(hadError), n, P.ListLiteral(old(rest), old(Now())))
      ensures n != Missing
      decreases |rest|, 7
    {
      hide P.ParsePrecedence, P.Expect, Told;
      var elems := ParseItems(NoNodes, TRBracket);
      Expect(TRBracket);
      n := List(elems);
    }

    /** One element, and whether a comma came behind it. */
    method ParseItem(before: NodeList) returns (elems: NodeList, more: bool)
      requires Valid()
      modifies this
      ensures Kept() && (more ==> |rest| < |old(rest)|)
      ensures Took(old(hadError), before, elems, more, P.ParsePrecedence(old(rest), PREC_IF_EXPR, old(Now())))
      decreases |rest|, 5
    {
      hide P.ParsePrecedence, Append, Told;
      var e := ParseExpr();
      elems := Append(before, e);
      more := Match(TComma);
    }

    /** An element and the comma behind it, if there is one, have been taken. */
    ghost predicate Took(had: bool, before: NodeList, elems: NodeList, more: bool, e: Out)
      reads this
    {
      e.mode != Foreign ==>
        elems == Append(before, e.node) && more == (Cur(e.rest) == TComma) && Stands(had, PastComma(e.rest), e.mode)
    }

    ghost predicate Finished(had: bool, first: NodeList, elems: NodeList, r: Outs)
      reads this
    {
      r.mode != Foreign ==> elems == Join(first, r.nodes) && Stands(had, r.rest, r.mode)
    }

    /** The element loop of lists and tuples; a comma may come last. */
    method ParseItems(first: NodeList, close: Token) returns (elems: NodeList)
      requires Valid()
      modifies this
      ensures Kept()
      ensures Finished(old(hadError), first, elems, P.Items(old(rest), close, old(Now())))
      decreases |rest|, 6
    {
      hide P.ParsePrecedence, P.Items, Gathered, Pending, Append, AtEnd, Clear, NoFunctions, Told;
      elems := first;
      ghost var all := Pending(true, rest, close, Now());
      var more := true;
      NothingGathered(first, Pending(more, rest, close, Now()));
      while more && !AtEnd(rest, close)
        invariant Kept()
        invariant all.mode != Foreign ==> hadError == (old(hadError) || Now() != Fine)
        invariant Gathered(first, elems, Pending(more, rest, close, Now()), all)
        decreases |rest|, more
      {
        ItemsStep(rest, close, Now());
        ghost var e := P.ParsePrecedence(rest, PREC_IF_EXPR, Now());
        ghost var before := elems;
        elems, more := ParseItem(elems);
        ItemGathered(first, before, elems, e, AfterItem(e, close), Pending(more, rest, close, Now()), all);
      }
      ItemsEnd(more, rest, close, Now());
      AllGathered(first, elems, rest, Now(), all);
      PendingAll(old(rest), close, old(Now()));
    }

    method ParseGroupOrTuple() returns (n: Node)
      requires Valid()
      modifies this
      ensures Kept() && Agrees(old(hadError), n, P.GroupOrTuple(old(rest), old(Now())))
      ensures n == Missing ==> Now() != Fine
      decreases |rest|, 9
    {
      hide P.ParsePrecedence, P.GroupOrTuple, GroupEnd, Clear, NoFunctions, Told;
      GroupSteps(rest, Now());
      var empty := Match(TRParen);
      if empty {
        n := Tuple(NoNodes);
      } else {
        var first := ParsePrecedence(PREC_IF_EXPR);
        n := ParseGroupEnd(first);
      }
    }

    /** Behind the first expression. */
    method ParseGroupEnd(first: Node) returns (n: Node)
      requires Valid() && (first == Missing ==> Now() != Fine)
      modifies this
      ensures Kept() && Agrees(old(hadError), n, GroupEnd(first, old(rest), old(Now())))
      ensures n == Missing ==> Now() != Fine
      decreases |rest|, 8
    {
      hide P.TupleFrom, Clear, NoFunctions, Told;
      var comma := Match(TComma);
      if comma {
        n := ParseTupleFrom(first);
      } else {
        Expect(TRParen);
        n := first;
      }
    }

    /** The rest of a tuple, behind its first comma. */
    method ParseTupleFrom(first: Node) returns (n: Node)
      requires Valid()
      modifies this
      ensures Kept() && Agrees(old(hadError), n, P.TupleFrom(first, old(rest), old(Now())))
      ensures n != Missing
      decreases |rest|, 7
    {
      hide P.Items, P.Expect, Join, Told;
      JoinOne(first, P.Items(rest, TRParen, Now()).nodes);
      var elems := ParseItems(Item(first, NoNodes), TRParen);
      Expect(TRParen);
      n := Tuple(elems);
    }

    method ParseArgument() returns (n: Node)
      requires Valid() && rest != []
      modifies this
      ensures Kept() && Agrees(old(hadError), n, P.Argument(old(rest), old(Now())))
      ensures |rest| < |old(rest)|
      decreases |rest|, 5
    {
      hide P.ParsePrecedence, Told;
      var isMap := Match(TStarStar);
      if isMap {
        n := ParseExpr();
        return DoubleStar(n);
      }
      var isList := Match(TStar);
      if isList {
        n := ParseExpr();
        return Star(n);
      }
      if Cur(rest).TIdent? && Cur(rest[1..]) == TAssign {
        Advance();
        var name := prev.x;
        Advance();
        n := ParseExpr();
        return Keyword(name, n);
      }
      n := ParseExpr();
    }

    /** The argument loop; a comma may come last. */
    method ParseArgs() returns (args: NodeList, kwargs: NodeList)
      requires Valid()
      modifies this
      ensures Kept()
      ensures var r := P.CallArgs(old(rest), old(Now()));
        r.mode != Foreign ==> args == r.args && kwargs == r.kwargs && Stands(old(hadError), r.rest, r.mode)
      decreases |rest|, 6
    {
      hide P.Argument, P.CallArgs, IsKeywordArg, AddArgument, Collected, Append, Clear, NoFunctions, Told;
      args, kwargs := NoNodes, NoNodes;
      ghost var all := P.CallArgs(rest, Now());
      var more := true;
      NothingCollected(all);
      ArgsAhead(rest, Now());
      while more && Cur(rest) != TRParen && Cur(rest) != TEof
        invariant Kept()
        invariant all.mode != Foreign ==> hadError == (old(hadError) || Now() != Fine)
        invariant Collected(args, kwargs, Ahead(more, rest, Now()), all)
        decreases |rest|, more
      {
        ghost var e := P.Argument(rest, Now());
        ArgsStep(rest, Now());
        var a := ParseArgument();
        var args0, kwargs0 := args, kwargs;
        if IsKeywordArg(a) {
          kwargs := Append(kwargs, a);
        } else {
          args := Append(args, a);
        }
        more := Match(TComma);
        ArgumentCollected(args0, kwargs0, args, kwargs, a, e, Ahead(more, rest, Now()), all);
      }
      ArgsEnd(more, rest, Now());
      AllCollected(args, kwargs, rest, Now(), all);
    }

    method ParseCall(callee: Node) returns (n: Node)
      requires Valid() && Now() == Fine
      modifies this
      ensures Kept() && Agrees(old(hadError), n, P.InfixCall(callee, old(rest)))
      ensures n != Missing
      decreases |rest|, 7
    {
      hide P.CallArgs, P.Expect, Told;
      var args, kwargs := ParseArgs();
      Expect(TRParen);
      n := Call(callee, args, kwargs);
    }

    // -------------------------------------------------------------------
    // Braces, channels and function literals
    // -------------------------------------------------------------------

    method ParseMapOrSetLit() returns (n: Node)
      requires Valid()
      modifies this
      ensures Kept() && Agrees(old(hadError), n, P.MapOrSet(old(rest), old(Now())))
      ensures n == Missing ==> Now() != Fine
      decreases |rest|, 10
    {
      hide P.ParsePrecedence, P.MapOrSet, BraceEnd, Clear, NoFunctions, Told;
      BraceSteps(rest, Now());
      var empty := Match(TRBrace);
      if empty {
        n := MapLit(NoNodes);
      } else {
        ghost var ts, mode := rest, Now();
        var first := ParseExpr();
        n := ParseBraceEnd(first, ts, mode);
      }
    }

    /** Behind the first expression, which was read at `ts`. */
    method ParseBraceEnd(first: Node, ghost ts: Tokens, ghost mode: Mode) returns (n: Node)
      requires Valid() && (first == Missing ==> hadError) && (!crashed ==> WasRead(first, ts, mode))
      modifies this
      ensures Kept() && Agrees(old(hadError), n, BraceEnd(first, old(rest), old(Now())))
      ensures n == Missing ==> crashed
      decreases |rest|, 9
    {
      hide P.SetFrom, P.MapFrom, WasRead, Clear, NoFunctions, Told;
      var isMap := Match(TColon);
      if isMap {
        n := ParseMapFrom(first, ts, mode);
      } else {
        n := ParseSetFrom(first);
      }
    }

    /** The rest of a set, behind its first element. */
    method ParseSetFrom(first: Node) returns (n: Node)
      requires Valid()
      modifies this
      ensures Kept() && Agrees(old(hadError), n, P.SetFrom(first, old(rest), old(Now())))
      ensures n != Missing
      decreases |rest|, 7
    {
      hide P.MoreElems, P.Expect, Join, Told;
      JoinOne(first, P.MoreElems(rest, Now()).nodes);
      var elems := ParseMoreElems(Item(first, NoNodes));
      Expect(TRBrace);
      n := SetLit(elems);
    }

    /** The rest of a map, behind its first colon; `key` was read at `ts` and is looked into behind its value. */
    method ParseMapFrom(key: Node, ghost ts: Tokens, ghost mode: Mode) returns (n: Node)
      requires Valid() && !crashed && (key == Missing ==> hadError)
      requires WasRead(key, ts, mode)
      modifies this
      ensures Kept() && Agrees(old(hadError), n, P.MapFrom(key, old(rest), old(Now())))
      ensures (n == Missing ==> crashed) && (key == Missing ==> crashed)
      decreases |rest|, 9
    {
      hide P.ParsePrecedence, P.MapFrom, PairsFrom, ValueOf, Told, WasRead;
      MapSteps(key, rest, Now());
      var val := ParseValue(key, ts, mode);
      if key == Missing {
        return Missing;
      }
      n := ParsePairsFrom(Pair(key, val));
    }

    /** The rest of a map, behind its first pair. */
    method ParsePairsFrom(first: Node) returns (n: Node)
      requires Valid()
      modifies this
      ensures Kept() && Agrees(old(hadError), n, PairsFrom(first, old(rest), old(Now())))
      ensures n != Missing
      decreases |rest|, 8
    {
      hide P.MorePairs, P.Expect, Join, Told;
      JoinOne(first, P.MorePairs(rest, Now()).nodes);
      var pairs := ParseMorePairs(Item(first, NoNodes));
      Expect(TRBrace);
      n := MapLit(pairs);
    }

    method ParseMoreElems(first: NodeList) returns (elems: NodeList)
      requires Valid()
      modifies this
      ensures Kept()
      ensures Finished(old(hadError), first, elems, P.MoreElems(old(rest), old(Now())))
      decreases |rest|, 6
    {
      hide P.ParsePrecedence, P.MoreElems, Gathered, Append, BraceElems, Told;
      elems := first;
      ghost var all := P.MoreElems(rest, Now());
      ElemsAhead(rest, Now());
      var comma := Match(TComma);
      NothingGathered(first, all);
      while comma && Cur(rest) != TRBrace
        invariant Kept() && (comma ==> |rest| < |old(rest)|)
        invariant all.mode != Foreign ==> hadError == (old(hadError) || Now() != Fine)
        invariant Gathered(first, elems, BraceElems(comma, rest, Now()), all)
        decreases |rest|, comma
      {
        ghost var e := P.ParsePrecedence(rest, PREC_IF_EXPR, Now());
        ghost var before := elems;
        ElemsStep(rest, Now());
        elems, comma := ParseItem(elems);
        ElemsAhead(e.rest, e.mode);
        ItemGathered(first, before, elems, e, P.MoreElems(e.rest, e.mode), BraceElems(comma, rest, Now()), all);
      }
      BraceElemsEnd(comma, rest, Now());
      AllGathered(first, elems, rest, Now(), all);
    }

    method ParseKeyValue() returns (n: Node)
      requires Valid()
      modifies this
      ensures Kept() && Agrees(old(hadError), n, P.KeyValue(old(rest), old(Now())))
      ensures old(rest) != [] ==> |rest| < |old(rest)|
      decreases |rest|, 6
    {
      hide P.ParsePrecedence, P.KeyValue, PairEnd, Clear, NoFunctions, Told;
      PairSteps(rest, Now());
      ghost var ts, mode := rest, Now();
      var k := ParseExpr();
      n := ParsePairEnd(k, ts, mode);
    }

    /** The colon and the value behind a key that was read at `ts`; then the key is looked into. */
    method ParsePairEnd(key: Node, ghost ts: Tokens, ghost mode: Mode) returns (n: Node)
      requires Valid() && (key == Missing ==> hadError) && (!crashed ==> WasRead(key, ts, mode))
      modifies this
      ensures Kept() && Agrees(old(hadError), n, PairEnd(key, old(rest), old(Now())))
      ensures key == Missing ==> crashed
      decreases |rest|, 5
    {
      hide P.ParsePrecedence, ValueOf, WasRead, Clear, NoFunctions, Told;
      Expect(TColon);
      var v := ParseValue(key, ts, mode);
      n := if key == Missing then Missing else Pair(key, v);
    }

    /** A value, behind which its key is looked into. */
    method ParseValue(key: Node, ghost ts: Tokens, ghost mode: Mode) returns (n: Node)
      requires Valid() && (key == Missing ==> hadError) && (!crashed ==> WasRead(key, ts, mode))
      modifies this
      ensures Kept() && Agrees(old(hadError), n, ValueOf(key, old(rest), old(Now())))
      ensures key == Missing ==> crashed
      decreases |rest|, 4
    {
      hide P.ParsePrecedence, WasRead, Clear, NoFunctions, Told;
      n := ParseExpr();
      LookInto(key, ts, mode);
    }

    method ParsePair(before: NodeList) returns (pairs: NodeList, more: bool)
      requires Valid()
      modifies this
      ensures Kept() && (more ==> |rest| < |old(rest)|)
      ensures Took(old(hadError), before, pairs, more, P.KeyValue(old(rest), old(Now())))
      decreases |rest|, 7
    {
      hide P.KeyValue, Append, Told;
      var e := ParseKeyValue();
      pairs := Append(before, e);
      more := Match(TComma);
    }

    method ParseMorePairs(first: NodeList) returns (pairs: NodeList)
      requires Valid()
      modifies this
      ensures Kept()
      ensures Finished(old(hadError), first, pairs, P.MorePairs(old(rest), old(Now())))
      decreases |rest|, 7
    {
      hide P.KeyValue, P.MorePairs, Gathered, Append, BracePairs, Told;
      pairs := first;
      ghost var all := P.MorePairs(rest, Now());
      PairsAhead(rest, Now());
      var comma := Match(TComma);
      NothingGathered(first, all);
      while comma && Cur(rest) != TRBrace
        invariant Kept() && (comma ==> |rest| < |old(rest)|)
        invariant all.mode != Foreign ==> hadError == (old(hadError) || Now() != Fine)
        invariant Gathered(first, pairs, BracePairs(comma, rest, Now()), all)
        decreases |rest|, comma
      {
        ghost var e := P.KeyValue(rest, Now());
        ghost var before := pairs;
        PairsStep(rest, Now());
        pairs, comma := ParsePair(pairs);
        PairsAhead(e.rest, e.mode);
        ItemGathered(first, before, pairs, e, P.MorePairs(e.rest, e.mode), BracePairs(comma, rest, Now()), all);
      }
      BracePairsEnd(comma, rest, Now());
      AllGathered(first, pairs, rest, Now(), all);
    }

    method ParseMake() returns (n: Node)
      requires Valid()
      modifies this
      ensures Kept() && Agrees(old(hadError), n, P.MakeExpr(old(rest), old(Now())))
      ensures n != Missing
      decreases |rest|, 6
    {
      hide P.CapacityPart, P.Expect, Clear, NoFunctions, Told;
      Expect(TLParen);
      Expect(TChan);
      n := ParseCapacity();
      Expect(TRParen);
      n := Make(n);
    }

    method ParseCapacity() returns (n: Node)
      requires Valid()
      modifies this
      ensures Kept() && Agrees(old(hadError), n, P.CapacityPart(old(rest), old(Now())))
      decreases |rest|, 5
    {
      hide P.ParsePrecedence, Told;
      n := Missing;
      var comma := Match(TComma);
      if comma {
        n := ParseExpr();
      }
    }

    method ParseRecv() returns (n: Node)
      requires Valid()
      modifies this
      ensures Kept() && Agrees(old(hadError), n, P.Receive(old(rest), old(Now())))
      ensures n != Missing
      decreases |rest|, 4
    {
      hide P.ParsePrecedence, Told;
      var channel := ParsePrecedence(PREC_UNARY);
      n := Recv(channel);
    }

    method ParseFuncLit() returns (n: Node)
      requires Valid()
      modifies this
      ensures Kept() && n == FuncLit(false)
      decreases |rest|, 11
    {
      hide Told;
      StmtExpect(TLParen);
      ParseParamList();
      StmtExpect(TRParen);
      ParseBraced();
      n := FuncLit(false);
    }

    method ParseAsyncFuncLit() returns (n: Node)
      requires Valid()
      modifies this
      ensures Kept() && n == FuncLit(true)
      decreases |rest|, 12
    {
      hide Told;
      StmtExpect(TFunc);
      n := ParseFuncLit();
      n := FuncLit(true);
    }

    // -------------------------------------------------------------------
    // Recovery
    // -------------------------------------------------------------------

    method SyncError()
      requires Valid()
      modifies `rest, `prev, `panicMode
      ensures Valid() && !panicMode && hadError == old(hadError) && rest == SkipToSync(old(rest))
    {
      hide StartsAfresh, EndsLine, Told;
      panicMode := false;
      while Cur(rest) != TEof
        invariant Valid() && !panicMode && hadError == old(hadError)
        invariant SkipToSync(rest) == SkipToSync(old(rest))
        decreases |rest|
      {
        if EndsLine(Cur(rest)) {
          LineEndIsNoStart(Cur(rest));
          Advance();
          return;
        }
        if StartsAfresh(Cur(rest)) {
          return;
        }
        Advance();
      }
    }

    method FinishStmt()
      requires Valid()
      modifies `rest, `prev, `panicMode
      ensures Kept() && (hadError ==> !panicMode)
    {
      hide Told;
      var newline := Match(NEWLINE);
      var semicolon := Match(SEMICOLON);
      if hadError {
        SyncError();
      }
    }

    method SkipLineEnds()
      requires Valid()
      modifies `rest, `prev
      ensures Kept() && !EndsLine(Cur(rest)) && hadError == old(hadError) && panicMode == old(panicMode)
    {
      hide Told;
      while EndsLine(Cur(rest))
        invariant Kept() && hadError == old(hadError) && panicMode == old(panicMode)
        decreases |rest|
      {
        Advance();
      }
    }

    // -------------------------------------------------------------------
    // Blocks and lists
    // -------------------------------------------------------------------

    // What statements need to know of the three steps they are made of.

    method StmtExpr() returns (n: Node)
      requires Valid()
      modifies this
      ensures Kept() && (n == Missing ==> Now() != Fine)
      ensures old(rest) != [] ==> |rest| < |old(rest)|
      decreases |rest|, 4
    {
      hide Agrees, Told;
      n := ParseExpr();
    }

    method StmtExpect(t: Token)
      requires Valid()
      modifies `rest, `prev, `panicMode, `hadError
      ensures Kept()
    {
      hide Told;
      Expect(t);
    }

    method StmtMatch(t: Token) returns (took: bool)
      requires Valid() && t != TEof
      modifies `rest, `prev
      ensures Kept() && took == (Cur(old(rest)) == t)
      ensures if took then |rest| < |old(rest)| && prev == t else rest == old(rest) && prev == old(prev)
    {
      hide Told;
      took := Match(t);
    }

    /** Statements up to the closing brace or the end of the input. */
    method ParseBlock()
      requires Valid()
      modifies this
      ensures Kept()
      decreases |rest|, 8
    {
      hide Agrees, EndsLine, Told;
      SkipLineEnds();
      while Cur(rest) != TRBrace && Cur(rest) != TEof
        invariant Kept()
        decreases |rest|
      {
        ParseStmt();
        SkipLineEnds();
      }
      StmtExpect(TRBrace);
    }

    method ParseBraced()
      requires Valid()
      modifies this
      ensures Kept()
      decreases |rest|, 9
    {
      hide Told;
      StmtExpect(TLBrace);
      ParseBlock();
    }

    /** The statements of a switch or select case. */
    method ParseCaseBody()
      requires Valid()
      modifies this
      ensures Kept()
      decreases |rest|, 8
    {
      hide Agrees, EndsLine, Told, EndsCase;
      CasesEnd();
      SkipLineEnds();
      while !EndsCase(Cur(rest))
        invariant Kept()
        decreases |rest|
      {
        ParseStmt();
        SkipLineEnds();
      }
    }

    method ParseExprList()
      requires Valid()
      modifies this
      ensures Kept()
      decreases |rest|, 5
    {
      hide Agrees, Told;
      var more := true;
      while more
        invariant Kept()
        decreases |rest|, more
      {
        var e := StmtExpr();
        more := StmtMatch(TComma);
      }
    }

    /** Names separated by `separator`. */
    method ParseNames(separator: Token)
      requires Valid() && separator != TEof
      modifies `rest, `prev, `panicMode, `hadError
      ensures Kept()
    {
      hide Told;
      var more := true;
      while more
        invariant Kept()
        decreases |rest|, more
      {
        ExpectName();
        more := StmtMatch(separator);
      }
    }

    method ExpectName()
      requires Valid()
      modifies `rest, `prev, `panicMode, `hadError
      ensures Kept()
      ensures Cur(old(rest)).TIdent? ==> rest == P.Advance(old(rest)) && panicMode == old(panicMode)
      ensures !Cur(old(rest)).TIdent? ==> rest == old(rest) && panicMode
    {
      hide Told;
      if Cur(rest).TIdent? {
        Advance();
      } else {
        Error();
      }
    }

    /** The name of one parameter, and for a plain one perhaps its default. */
    method ParseParam(plain: bool) returns (default: bool)
      requires Valid()
      modifies this
      ensures Kept()
      decreases |rest|, 5
    {
      hide Agrees, Told;
      ExpectName();
      default := false;
      if plain {
        default := StmtMatch(TAssign);
        if default {
          var value := StmtExpr();
        }
      }
    }

    /** `**name`, `...name` or `name`, perhaps with a default; the order they may come in is checked as they come. */
    method ParseOneParam(sawVararg: bool, sawKwarg: bool, sawDefault: bool, first: bool)
      returns (vararg: bool, kwarg: bool, default: bool)
      requires Valid()
      modifies this
      ensures Kept()
      decreases |rest|, 7
    {
      hide Told;
      kwarg := StmtMatch(TStarStar);
      vararg := false;
      if !kwarg {
        vararg := StmtMatch(DOTDOTDOT);
      }
      if sawKwarg || (sawVararg && !kwarg) || (vararg && first) {
        Error();
      }
      default := ParseParam(!kwarg && !vararg);
      if !default && !kwarg && !vararg && sawDefault {
        Error();
      }
    }

    method ParseParamList()
      requires Valid()
      modifies this
      ensures Kept()
      decreases |rest|, 8
    {
      hide Told;
      var sawVararg, sawKwarg, sawDefault, first, more := false, false, false, true, true;
      while more && Cur(rest) != TRParen && Cur(rest) != TEof
        invariant Kept()
        decreases |rest|, more
      {
        var vararg, kwarg, default := ParseOneParam(sawVararg, sawKwarg, sawDefault, first);
        sawVararg, sawKwarg, sawDefault := sawVararg || vararg, sawKwarg || kwarg, sawDefault || default;
        first := false;
        more := StmtMatch(TComma);
      }
    }

    // -------------------------------------------------------------------
    // Statements with blocks
    // -------------------------------------------------------------------

    method ParseIf()
      requires Valid()
      modifies this
      ensures Kept()
      decreases |rest|, 10
    {
      hide Agrees, Told;
      var cond := ParsePrecedence(PREC_OR);
      ParseBraced();
      var otherwise := StmtMatch(TElse);
      if otherwise {
        ParseElse();
      }
    }

    method ParseElse()
      requires Valid()
      modifies this
      ensures Kept()
      decreases |rest|, 11
    {
      hide Agrees, Told;
      var chained := StmtMatch(TIf);
      if chained {
        ParseIf();
      } else {
        ParseBraced();
      }
    }

    /** Without a header, over an iterable, three-part, or with a condition; `in` is looked for before any expression. */
    method ParseFor()
      requires Valid()
      modifies this
      ensures Kept()
      decreases |rest|, 10
    {
      hide Agrees, Told;
      var forever := StmtMatch(TLBrace);
      if forever {
        ParseBlock();
        return;
      }
      if Cur(rest).TIdent? && (Cur(rest[1..]) == TIn || Cur(rest[1..]) == TComma) {
        ParseNames(TComma);
        StmtExpect(TIn);
        var iter := StmtExpr();
        ParseBraced();
        return;
      }
      ParseForHeader();
      ParseBraced();
    }

    /** A condition, or an initialiser, a condition and a step. */
    method ParseForHeader()
      requires Valid()
      modifies this
      ensures Kept()
      decreases |rest|, 6
    {
      hide Agrees, Told;
      ParseForInit();
      var threePart := StmtMatch(SEMICOLON);
      if threePart {
        ParseUnless(SEMICOLON);
        StmtExpect(SEMICOLON);
        ParseUnless(TLBrace);
      }
    }

    method ParseForInit()
      requires Valid()
      modifies this
      ensures Kept()
      decreases |rest|, 5
    {
      hide Agrees, Told;
      var first := StmtExpr();
      if first.Name? {
        var short := StmtMatch(COLON_ASSIGN);
        if short {
          first := StmtExpr();
        }
      }
    }

    /** A part that may be left out. */
    method ParseUnless(t: Token)
      requires Valid()
      modifies this
      ensures Kept()
      decreases |rest|, 5
    {
      hide Agrees, Told;
      if Cur(rest) != t {
        var e := StmtExpr();
      }
    }

    /** `case` and its values or `default`; anything else ends the cases. */
    method ParseSwitchHead() returns (found: bool)
      requires Valid() && Cur(rest) != TEof
      modifies this
      ensures Kept() && (found ==> |rest| < |old(rest)|)
      decreases |rest|, 6
    {
      hide Agrees, Told;
      found := StmtMatch(CASE);
      if found {
        ParseExprList();
      } else {
        found := StmtMatch(DEFAULT);
      }
      if found {
        StmtExpect(TColon);
      } else {
        Error();
      }
    }

    method ParseSwitch()
      requires Valid()
      modifies this
      ensures Kept()
      decreases |rest|, 11
    {
      hide Agrees, Told;
      ParseUnless(TLBrace);
      StmtExpect(TLBrace);
      SkipLineEnds();
      ParseSwitchCases();
      StmtExpect(TRBrace);
    }

    method ParseSwitchCases()
      requires Valid()
      modifies this
      ensures Kept()
      decreases |rest|, 10
    {
      hide Agrees, Told;
      while Cur(rest) != TRBrace && Cur(rest) != TEof
        invariant Kept()
        decreases |rest|
      {
        var found := ParseSwitchHead();
        if !found {
          break;
        }
        ParseCaseBody();
      }
    }

    /** `default`, or `case` and a communication; anything else ends the cases. */
    method ParseSelectHead() returns (found: bool)
      requires Valid() && Cur(rest) != TEof
      modifies this
      ensures Kept() && (found ==> |rest| < |old(rest)|)
      decreases |rest|, 6
    {
      hide Agrees, NullSide, Told;
      found := StmtMatch(DEFAULT);
      if !found {
        found := StmtMatch(CASE);
        if found {
          ParseComm();
        }
      }
      if found {
        StmtExpect(TColon);
      } else {
        Error();
      }
    }

    method ParseSelect()
      requires Valid()
      modifies this
      ensures Kept()
      decreases |rest|, 10
    {
      hide Agrees, Told;
      StmtExpect(TLBrace);
      SkipLineEnds();
      while Cur(rest) != TRBrace && Cur(rest) != TEof
        invariant Kept()
        decreases |rest|
      {
        var found := ParseSelectHead();
        if !found {
          break;
        }
        ParseCaseBody();
      }
      StmtExpect(TRBrace);
    }

    /** `<-ch`, `v := <-ch` or `ch <- v`. */
    method ParseComm()
      requires Valid()
      modifies this
      ensures Kept() && (Cur(old(rest)) != TArrowLeft && NullSide(old(rest), old(Now())) ==> crashed)
      decreases |rest|, 5
    {
      hide Agrees, Told, NullSide;
      var receive := StmtMatch(TArrowLeft);
      if receive {
        var channel := StmtExpr();
      } else {
        ParseSides();
      }
    }

    /** The left side is looked into behind the right one. */
    method ParseSides()
      requires Valid()
      modifies this
      ensures Kept() && (NullSide(old(rest), old(Now())) ==> crashed)
      decreases |rest|, 4
    {
      hide P.ParsePrecedence, Told;
      ghost var ts, mode := rest, Now();
      var lhs := ParseExpr();
      var two := Cur(rest) == COLON_ASSIGN || Cur(rest) == TArrowLeft;
      if two {
        Advance();
        var rhs := StmtExpr();
        LookInto(lhs, ts, mode);
      } else {
        Error();
      }
    }

    method ParseCatchHeader()
      requires Valid()
      modifies this
      ensures Kept()
      decreases |rest|, 6
    {
      hide Agrees, Told;
      StmtExpect(TLParen);
      ExpectName();
      var typed := StmtMatch(TColon);
      if typed {
        ParseExprList();
      }
      StmtExpect(TRParen);
    }

    /** One clause, behind its keyword, and the line ends after it. */
    method ParseCatch()
      requires Valid()
      modifies this
      ensures Kept()
      decreases |rest|, 10
    {
      hide Agrees, Told;
      ParseCatchHeader();
      ParseBraced();
      SkipLineEnds();
    }

    method ParseCatches() returns (found: bool)
      requires Valid()
      modifies this
      ensures Kept()
      decreases |rest|, 11
    {
      hide Agrees, Told;
      found := false;
      var more := StmtMatch(CATCH);
      while more
        invariant Kept() && (more ==> |rest| < |old(rest)|)
        decreases |rest|, more
      {
        found := true;
        ParseCatch();
        more := StmtMatch(CATCH);
      }
    }

    method ParseTry()
      requires Valid()
      modifies this
      ensures Kept()
      decreases |rest|, 12
    {
      hide Agrees, Told;
      ParseBraced();
      SkipLineEnds();
      var handlers := ParseCatches();
      var last := StmtMatch(FINALLY);
      if last {
        ParseBraced();
      } else if !handlers {
        Error();
      }
    }

    method ParseWith()
      requires Valid()
      modifies this
      ensures Kept()
      decreases |rest|, 10
    {
      hide Agrees, Told;
      var e := StmtExpr();
      var named := StmtMatch(AS);
      if named {
        ExpectName();
      }
      ParseBraced();
    }

    method ParseFunc()
      requires Valid()
      modifies this
      ensures Kept()
      decreases |rest|, 10
    {
      hide Agrees, Told;
      if prev == TAsync {
        StmtExpect(TFunc);
      }
      ExpectName();
      StmtExpect(TLParen);
      ParseParamList();
      StmtExpect(TRParen);
      ParseBraced();
    }

    method ParseClass()
      requires Valid()
      modifies this
      ensures Kept()
      decreases |rest|, 10
    {
      hide Agrees, Told;
      ExpectName();
      var base := StmtMatch(EXTENDS);
      if base {
        ExpectName();
      }
      ParseBraced();
    }

    // -------------------------------------------------------------------
    // Statements
    // -------------------------------------------------------------------

    /** Behind `async`: a declaration when a name follows `func`, otherwise a function literal on its own. */
    method ParseAsync()
      requires Valid() && prev == TAsync && Cur(rest) == TFunc
      modifies this
      ensures Kept()
      decreases |rest|, 13
    {
      hide Agrees, Told;
      if Cur(rest[1..]).TIdent? {
        ParseFunc();
      } else {
        var f := ParseAsyncFuncLit();
        FinishStmt();
      }
    }

    /** A statement always takes a token: its first one goes either to a keyword or to an expression. */
    method ParseStmt()
      requires Valid() && Cur(rest) != TEof
      modifies this
      ensures Kept() && |rest| < |old(rest)|
      decreases |rest|, 7
    {
      hide Agrees, HasBlock, Told;
      var t := Cur(rest);
      if HasBlock(t) {
        Advance();
        ParseWithBlock(t);
      } else if t == TFunc && Cur(rest[1..]).TIdent? {
        Advance();
        ParseFunc();
      } else if t == TAsync && Cur(rest[1..]) == TFunc {
        Advance();
        ParseAsync();
      } else {
        ParseSimple();
        FinishStmt();
      }
    }

    method ParseWithBlock(t: Token)
      requires Valid() && HasBlock(t)
      modifies this
      ensures Kept()
      decreases |rest|, 13
    {
      hide Agrees, Told;
      if t == TIf {
        ParseIf();
      } else if t == FOR {
        ParseFor();
      } else if t == SWITCH {
        ParseSwitch();
      } else if t == TRY {
        ParseTry();
      } else if t == SELECT {
        ParseSelect();
      } else if t == WITH {
        ParseWith();
      } else {
        ParseClass();
      }
    }

    method ParseVarDecl()
      requires Valid()
      modifies this
      ensures Kept()
      decreases |rest|, 5
    {
      hide Agrees, Told;
      ExpectName();
      var init := StmtMatch(TAssign);
      if init {
        var e := StmtExpr();
      }
    }

    /** The value of `return` and `raise`, unless the line ends. */
    method ParseResult()
      requires Valid()
      modifies this
      ensures Kept()
      decreases |rest|, 5
    {
      hide Agrees, Told;
      if !EndsLine(Cur(rest)) && Cur(rest) != TEof {
        var e := StmtExpr();
      }
    }

    method ParseAssert()
      requires Valid()
      modifies this
      ensures Kept()
      decreases |rest|, 5
    {
      hide Agrees, Told;
      var cond := StmtExpr();
      var withMessage := StmtMatch(TComma);
      if withMessage {
        var message := StmtExpr();
      }
    }

    method ParseImport()
      requires Valid()
      modifies this
      ensures Kept()
    {
      hide Agrees, Told;
      ParseNames(TDot);
      var named := StmtMatch(AS);
      if named {
        ExpectName();
      }
    }

    /** The statements that begin with a keyword and have no block, behind the keyword. */
    method ParseAfterKeyword(t: Token)
      requires Valid() && IsSimple(t)
      modifies this
      ensures Kept()
      decreases |rest|, 6
    {
      hide Agrees, Told;
      if t == VAR {
        ParseVarDecl();
      } else if t == RETURN || t == RAISE {
        ParseResult();
      } else if t == DEL || t == GO {
        var e := StmtExpr();
      } else if t == ASSERT {
        ParseAssert();
      } else if t == IMPORT {
        ParseImport();
      }
    }

    /** A statement without a block, up to what ends the line. */
    method ParseSimple()
      requires Valid() && Cur(rest) != TEof
      modifies this
      ensures Kept() && |rest| < |old(rest)|
      decreases |rest|, 6
    {
      hide Agrees, IsSimple, Told;
      if IsSimple(Cur(rest)) {
        Advance();
        ParseAfterKeyword(prev);
      } else {
        ParseExprOrAssign();
      }
    }

    /** An expression, and perhaps an assignment to it. */
    method ParseExprOrAssign()
      requires Valid() && Cur(rest) != TEof
      modifies this
      ensures Kept() && |rest| < |old(rest)|
      decreases |rest|, 5
    {
      hide Agrees, Told;
      var target := StmtExpr();
      if target != Missing {
        if Cur(rest) == COLON_ASSIGN {
          if !target.Name? {
            Error();
            return;
          }
          Advance();
          var value := StmtExpr();
        } else if Cur(rest) == TAssign || Cur(rest) == OP_ASSIGN {
          Advance();
          var value := StmtExpr();
        }
      }
    }

    ghost predicate ReadToEnd()
      reads this
    {
      !crashed && Cur(rest) == TEof
    }

    /**
      The whole program is read to its end if and only if no expression in front of a map's colon or of
      `:=` and `<-` in a select case came back null.
    */
    method ParseProgram()
      requires Valid() && looked == []
      modifies this
      ensures Kept()
      ensures ReadToEnd() <==> forall l :: l in looked ==> !l.missing
    {
      hide Agrees, Told;
      while Cur(rest) != TEof
        invariant Kept()
        decreases |rest|
      {
        if EndsLine(Cur(rest)) {
          Advance();
        } else {
          ParseStmt();
        }
      }
      ToldExactly(looked, crashed);
    }
  }

  lemma {:induction false} Starts(ts: Tokens, min: nat, mode: Mode)
    requires min > 0
    ensures HasPrefix(Cur(ts)) ==> ts != []
    ensures P.ParsePrecedence(ts, min, mode) ==
      if HasPrefix(Cur(ts)) then
        var p := P.Prefix(Cur(ts), P.Advance(ts), mode);
        P.Climb(p.node, p.rest, min, p.mode)
      else Out(Missing, P.Advance(ts), AfterError(mode))
  {
    hide P.Prefix, P.Climb;
  }

  lemma {:induction false} ClimbGoesOn(left: Node, ts: Tokens, min: nat)
    requires 0 < min <= Prec(Cur(ts))
    ensures ts != [] && InfixOf(ts[0]) != NoInfix
    ensures var p := P.ApplyInfix(left, ts[0], ts[1..]);
      P.Climb(left, ts, min, Fine) == P.Climb(p.node, p.rest, min, p.mode)
  {
    hide P.ApplyInfix;
  }

  lemma ClimbStops(left: Node, ts: Tokens, min: nat, mode: Mode)
    requires min > 0 && (mode != Fine || Prec(Cur(ts)) < min)
    ensures P.Climb(left, ts, min, mode) == Out(left, ts, mode)
  {
    hide P.ApplyInfix;
  }

  /** What the element loop still has to read, unless it stops for want of a comma. */
  ghost function Pending(more: bool, ts: Tokens, close: Token, mode: Mode): Outs
  {
    if more then P.Items(ts, close, mode) else Outs(NoNodes, ts, mode)
  }

  ghost function AfterItem(e: Out, close: Token): (r: Outs)
    ensures Lasts(e.mode, r.mode)
  {
    if Cur(e.rest) == TComma then P.Items(P.Advance(e.rest), close, e.mode) else Outs(NoNodes, e.rest, e.mode)
  }

  lemma ItemsStep(ts: Tokens, close: Token, mode: Mode)
    requires !AtEnd(ts, close)
    ensures ts != []
    ensures var e := P.ParsePrecedence(ts, PREC_IF_EXPR, mode);
      && Pending(true, ts, close, mode) == Before(e.node, AfterItem(e, close))
      && AfterItem(e, close) == Pending(Cur(e.rest) == TComma, PastComma(e.rest), close, e.mode)
  {
    hide P.ParsePrecedence;
  }

  function Before(e: Node, more: Outs): Outs
  {
    Outs(Item(e, more.nodes), more.rest, more.mode)
  }

  lemma PendingAll(ts: Tokens, close: Token, mode: Mode)
    ensures Pending(true, ts, close, mode) == P.Items(ts, close, mode)
  {
  }

  lemma ItemsEnd(more: bool, ts: Tokens, close: Token, mode: Mode)
    requires more ==> AtEnd(ts, close)
    ensures Pending(more, ts, close, mode) == Outs(NoNodes, ts, mode)
  {
  }

  /** What an element loop has, joined to what is still to come, is the whole list behind `first`. */
  ghost predicate Gathered(first: NodeList, elems: NodeList, s: Outs, all: Outs)
  {
    all.mode != Foreign ==> Join(elems, s.nodes) == Join(first, all.nodes) && s.rest == all.rest && s.mode == all.mode
  }

  lemma NothingGathered(first: NodeList, all: Outs)
    ensures Gathered(first, first, all, all)
  {
  }

  /** One more element; `more` is what is to come behind it and `now` what the loop takes it to be. */
  lemma ItemGathered(first: NodeList, before: NodeList, elems: NodeList, e: Out, more: Outs, now: Outs, all: Outs)
    requires Gathered(first, before, Before(e.node, more), all) && Lasts(e.mode, more.mode)
    requires e.mode != Foreign ==> elems == Append(before, e.node) && now == more
    ensures Gathered(first, elems, now, all)
    ensures e.mode == Foreign ==> all.mode == Foreign
  {
    JoinAppend(before, e.node, more.nodes);
  }

  lemma AllGathered(first: NodeList, elems: NodeList, rest: Tokens, mode: Mode, all: Outs)
    requires Gathered(first, elems, Outs(NoNodes, rest, mode), all)
    ensures all.mode != Foreign ==> elems == Join(first, all.nodes) && rest == all.rest && mode == all.mode
  {
    JoinNothing(elems);
  }

  /** What the argument loop still has to read. */
  ghost function Ahead(more: bool, ts: Tokens, mode: Mode): Arguments
  {
    if more then P.CallArgs(ts, mode) else Arguments(NoNodes, NoNodes, ts, mode)
  }

  ghost function AfterArg(e: Out): (r: Arguments)
    ensures Lasts(e.mode, r.mode)
  {
    if Cur(e.rest) == TComma then P.CallArgs(P.Advance(e.rest), e.mode) else Arguments(NoNodes, NoNodes, e.rest, e.mode)
  }

  lemma {:induction false} ArgsAhead(ts: Tokens, mode: Mode)
    ensures Ahead(true, ts, mode) == P.CallArgs(ts, mode)
  {
  }

  lemma {:induction false} ArgsStep(ts: Tokens, mode: Mode)
    requires Cur(ts) != TRParen && Cur(ts) != TEof
    ensures ts != []
    ensures var e := P.Argument(ts, mode);
      && Ahead(true, ts, mode) == AddArgument(e.node, AfterArg(e))
      && AfterArg(e) == Ahead(Cur(e.rest) == TComma, PastComma(e.rest), e.mode)
  {
    hide P.Argument, AddArgument;
  }

  lemma ArgsEnd(more: bool, ts: Tokens, mode: Mode)
    requires more ==> Cur(ts) == TRParen || Cur(ts) == TEof
    ensures Ahead(more, ts, mode) == Arguments(NoNodes, NoNodes, ts, mode)
  {
  }

  /** What the argument loop has, joined to what is still to come, is the whole list. */
  ghost predicate Collected(args: NodeList, kwargs: NodeList, s: Arguments, all: Arguments)
  {
    all.mode != Foreign ==>
      Join(args, s.args) == all.args && Join(kwargs, s.kwargs) == all.kwargs && s.rest == all.rest && s.mode == all.mode
  }

  lemma NothingCollected(all: Arguments)
    ensures Collected(NoNodes, NoNodes, all, all)
  {
  }

  lemma AllCollected(args: NodeList, kwargs: NodeList, rest: Tokens, mode: Mode, all: Arguments)
    requires Collected(args, kwargs, Arguments(NoNodes, NoNodes, rest, mode), all)
    ensures all.mode != Foreign ==> Arguments(args, kwargs, rest, mode) == all
  {
    JoinNothing(args);
    JoinNothing(kwargs);
  }

  lemma ArgumentCollected(args0: NodeList, kwargs0: NodeList, args: NodeList, kwargs: NodeList, a: Node, e: Out,
                          now: Arguments, all: Arguments)
    requires Collected(args0, kwargs0, AddArgument(e.node, AfterArg(e)), all)
    requires args == if IsKeywordArg(a) then args0 else Append(args0, a)
    requires kwargs == if IsKeywordArg(a) then Append(kwargs0, a) else kwargs0
    requires e.mode != Foreign ==> a == e.node && now == AfterArg(e)
    ensures Collected(args, kwargs, now, all)
    ensures e.mode == Foreign ==> all.mode == Foreign
  {
    hide AfterArg, P.CallArgs;
    JoinAppend(args0, a, now.args);
    JoinAppend(kwargs0, a, now.kwargs);
  }

  // ---------------------------------------------------------------------
  // Braces
  // ---------------------------------------------------------------------

  /** What is still to be read inside braces, behind a comma or for want of one. */
  ghost function BraceElems(comma: bool, ts: Tokens, mode: Mode): (r: Outs)
    ensures Lasts(mode, r.mode)
  {
    if comma && Cur(ts) != TRBrace then
      var e := P.ParsePrecedence(ts, PREC_IF_EXPR, mode);
      Before(e.node, P.MoreElems(e.rest, e.mode))
    else Outs(NoNodes, ts, mode)
  }

  lemma {:induction false} ElemsAhead(ts: Tokens, mode: Mode)
    ensures P.MoreElems(ts, mode) == BraceElems(Cur(ts) == TComma, PastComma(ts), mode)
  {
    hide P.ParsePrecedence;
  }

  /** A map or a set behind its first expression. */
  ghost function BraceEnd(first: Node, ts: Tokens, mode: Mode): (r: Out)
    ensures Lasts(mode, r.mode)
  {
    if Cur(ts) == TColon then P.MapFrom(first, P.Advance(ts), mode) else P.SetFrom(first, ts, mode)
  }

  lemma {:induction false} BraceSteps(ts: Tokens, mode: Mode)
    ensures var e := P.ParsePrecedence(ts, PREC_IF_EXPR, mode);
      P.MapOrSet(ts, mode) ==
        if Cur(ts) == TRBrace then Out(MapLit(NoNodes), P.Advance(ts), mode) else BraceEnd(e.node, e.rest, e.mode)
  {
    hide P.ParsePrecedence, P.MapFrom, P.SetFrom;
  }

  /** A group or a tuple behind its first expression. */
  ghost function GroupEnd(first: Node, ts: Tokens, mode: Mode): (r: Out)
    ensures Lasts(mode, r.mode)
  {
    if Cur(ts) == TComma then P.TupleFrom(first, P.Advance(ts), mode) else
    var (rest, bad) := P.Expect(ts, TRParen, mode);
    Out(first, rest, bad)
  }

  lemma {:induction false} GroupSteps(ts: Tokens, mode: Mode)
    ensures var e := P.ParsePrecedence(ts, PREC_IF_EXPR, mode);
      P.GroupOrTuple(ts, mode) ==
        if Cur(ts) == TRParen then Out(Tuple(NoNodes), P.Advance(ts), mode) else GroupEnd(e.node, e.rest, e.mode)
  {
    hide P.ParsePrecedence, P.TupleFrom, P.Expect;
  }

  /** The rest of a map, behind its first pair. */
  ghost function PairsFrom(first: Node, ts: Tokens, mode: Mode): (r: Out)
    ensures Lasts(mode, r.mode)
  {
    var more := P.MorePairs(ts, mode);
    var (rest, bad) := P.Expect(more.rest, TRBrace, more.mode);
    Out(MapLit(Item(first, more.nodes)), rest, bad)
  }

  /** A value, behind which its key is looked into. */
  ghost function ValueOf(key: Node, ts: Tokens, mode: Mode): (r: Out)
    ensures Lasts(mode, r.mode) && (key == Missing && r.mode != Foreign ==> r.mode == Crashed && r.rest == [])
  {
    var v := P.ParsePrecedence(ts, PREC_IF_EXPR, mode);
    if key == Missing && v.mode != Foreign then Out(v.node, [], Crashed) else v
  }

  /** A later pair behind its key. */
  ghost function PairEnd(key: Node, ts: Tokens, mode: Mode): (r: Out)
    ensures Lasts(mode, r.mode)
  {
    var (rest, bad) := P.Expect(ts, TColon, mode);
    var v := ValueOf(key, rest, bad);
    Out(if key == Missing && v.mode != Foreign then Missing else Pair(key, v.node), v.rest, v.mode)
  }

  lemma {:induction false} PairSteps(ts: Tokens, mode: Mode)
    ensures var k := P.ParsePrecedence(ts, PREC_IF_EXPR, mode); P.KeyValue(ts, mode) == PairEnd(k.node, k.rest, k.mode)
  {
    hide P.ParsePrecedence, P.Expect;
  }

  lemma MapSteps(key: Node, ts: Tokens, mode: Mode)
    ensures var v := ValueOf(key, ts, mode);
      P.MapFrom(key, ts, mode) ==
        if key == Missing && v.mode != Foreign then Out(Missing, [], Crashed) else PairsFrom(Pair(key, v.node), v.rest, v.mode)
  {
    hide P.ParsePrecedence, P.MorePairs, P.Expect;
  }

  ghost function BracePairs(comma: bool, ts: Tokens, mode: Mode): (r: Outs)
    ensures Lasts(mode, r.mode)
  {
    if comma && Cur(ts) != TRBrace then
      var e := P.KeyValue(ts, mode);
      Before(e.node, P.MorePairs(e.rest, e.mode))
    else Outs(NoNodes, ts, mode)
  }

  lemma {:induction false} PairsAhead(ts: Tokens, mode: Mode)
    ensures P.MorePairs(ts, mode) == BracePairs(Cur(ts) == TComma, PastComma(ts), mode)
  {
    hide P.KeyValue;
  }

  lemma {:induction false} ElemsStep(ts: Tokens, mode: Mode)
    requires Cur(ts) != TRBrace
    ensures var e := P.ParsePrecedence(ts, PREC_IF_EXPR, mode);
      BraceElems(true, ts, mode) == Before(e.node, P.MoreElems(e.rest, e.mode))
  {
    hide P.ParsePrecedence, P.MoreElems;
  }

  lemma BraceElemsEnd(comma: bool, ts: Tokens, mode: Mode)
    requires comma ==> Cur(ts) == TRBrace
    ensures BraceElems(comma, ts, mode) == Outs(NoNodes, ts, mode)
  {
  }

  lemma {:induction false} PairsStep(ts: Tokens, mode: Mode)
    requires Cur(ts) != TRBrace
    ensures var e := P.KeyValue(ts, mode);
      BracePairs(true, ts, mode) == Before(e.node, P.MorePairs(e.rest, e.mode))
  {
    hide P.KeyValue, P.MorePairs;
  }

  lemma BracePairsEnd(comma: bool, ts: Tokens, mode: Mode)
    requires comma ==> Cur(ts) == TRBrace
    ensures BracePairs(comma, ts, mode) == Outs(NoNodes, ts, mode)
  {
  }

  predicate IsSimple(t: Token)
  {
    t == VAR || t == FALLTHROUGH || t == RETURN || t == BREAK || t == CONTINUE || t == PASS || t == DEL || t == ASSERT
    || t == RAISE || t == GO || t == IMPORT
  }

  predicate EndsCase(t: Token)
  {
    t == CASE || t == DEFAULT || t == TRBrace || t == TEof
  }

  lemma CasesEnd()
    ensures EndsCase(TEof)
  {
  }

  predicate HasBlock(t: Token)
  {
    t == TIf || t == FOR || t == SWITCH || t == TRY || t == SELECT || t == WITH || t == CLASS
  }

  lemma IsInTokens(t: Token)
    requires InfixOf(t) == IsInRule
    ensures t == TIs || t == TNot || t == TIn
  {
  }

  lemma LeafCase(t: Token, ts: Tokens, mode: Mode)
    requires IsLeaf(t)
    ensures P.Prefix(t, ts, mode) == Out(LeafNode(t), ts, mode)
  {
    hide P.ListLiteral, P.GroupOrTuple, P.PrefixUnary, P.MapOrSet, P.MakeExpr, P.Receive;
  }

  lemma BracketCases(t: Token, ts: Tokens, mode: Mode)
    ensures t == TLBracket ==> P.Prefix(t, ts, mode) == P.ListLiteral(ts, mode)
    ensures t == TLParen ==> P.Prefix(t, ts, mode) == P.GroupOrTuple(ts, mode)
  {
    hide P.ListLiteral, P.GroupOrTuple, P.PrefixUnary, P.MapOrSet, P.MakeExpr, P.Receive, IsLeaf, Clear,
         NoFunctions;
  }

  lemma SignCases(t: Token, ts: Tokens, mode: Mode)
    requires t == TMinus || t == TPlus || t == TTilde || t == TNot
    ensures P.Prefix(t, ts, mode) == P.PrefixUnary(UnaryOf(t), ts, mode)
  {
    hide P.ListLiteral, P.GroupOrTuple, P.PrefixUnary, P.MapOrSet, P.MakeExpr, P.Receive, IsLeaf;
  }

  lemma OtherPrefixCases(t: Token, ts: Tokens, mode: Mode)
    ensures t == TLBrace ==> P.Prefix(t, ts, mode) == P.MapOrSet(ts, mode)
    ensures t == TMake ==> P.Prefix(t, ts, mode) == P.MakeExpr(ts, mode)
    ensures t == TArrowLeft ==> P.Prefix(t, ts, mode) == P.Receive(ts, mode)
  {
    hide P.ListLiteral, P.GroupOrTuple, P.PrefixUnary, P.MapOrSet, P.MakeExpr, P.Receive, IsLeaf, Clear,
         NoFunctions;
  }

  lemma FunctionCases(t: Token, ts: Tokens, mode: Mode)
    requires (t == TFunc || t == TAsync) && mode != Crashed
    ensures P.Prefix(t, ts, mode).mode == Foreign
  {
    hide P.ListLiteral, P.GroupOrTuple, P.PrefixUnary, P.MapOrSet, P.MakeExpr, P.Receive, IsLeaf, Clear,
         NoFunctions;
  }

  lemma BinaryLevel(t: Token)
    requires InfixOf(t).BinaryRule?
    ensures Prec(t) == PrecOfOp(InfixOf(t).op) > 0
  {
  }
}
