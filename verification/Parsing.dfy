/**
  Precedence climbing against the grammar. `Parses` and its cases: every concrete tree that fits is
  read back. `Climbed` and its cases: whatever is read without an error is spelled by a tree that fits.
*/
module Parsing {
  import opened Values
  import opened Pratt
  import opened Grammar

  // ---------------------------------------------------------------------
  // Trees that fit are read back
  // ---------------------------------------------------------------------

  /** Reading the tokens of `c` brings the climbing loop to where `c` is its left operand. */
  lemma {:induction false} Parses(c: Tree, min: nat, rest: Tokens)
    requires min > 0 && Fits(c, min) && Prec(Cur(rest)) < Edge(c)
    ensures ParsePrecedence(Flat(c, rest), min, Fine) == Climb(Strip(c), rest, min, Fine)
    decreases c, 2
  {
    hide Prefix, Climb, ParsePrecedence;
    match c
    case Leaf(_) => ParsesLeaf(c, min, rest);
    case Group(_) => ParsesGroup(c, min, rest);
    case PrefixOp(_, _) => ParsesPrefix(c, min, rest);
    case InfixOp(_, _, _) => ParsesInfix(c, min, rest);
    case Cond(_, _, _) => ParsesCond(c, min, rest);
    case Dot(_, _) => ParsesDot(c, min, rest);
    case Subscript(_, _) => ParsesSubscript(c, min, rest);
    case Slicing(_, _) => ParsesSlicing(c, min, rest);
    case Apply(_, _, _) => ParsesApply(c, min, rest);
    case Bump(_, _) => ParsesBump(c, min, rest);
    case Brackets(_, _) => ParsesBrackets(c, min, rest);
    case Parens(_, _) => ParsesParens(c, min, rest);
    case SetBraces(_, _) => ParsesSetBraces(c, min, rest);
    case MapBraces(_, _) => ParsesMapBraces(c, min, rest);
    case MakeChan(_) => ParsesMake(c, min, rest);
    case ReceiveOp(_) => ParsesReceive(c, min, rest);
  }

  /** Followed by nothing that binds tightly enough, `c` is all that is read. */
  lemma {:induction false} ParsesWhole(c: Tree, min: nat, rest: Tokens)
    requires min > 0 && Fits(c, min) && EndsBefore(c, rest, min)
    ensures ParsePrecedence(Flat(c, rest), min, Fine) == Out(Strip(c), rest, Fine)
    ensures Flat(c, rest) != [] && Flat(c, rest)[0] == First(c) && HasPrefix(First(c))
    decreases c, 3
  {
    hide Fits, Flat, Strip, ParsePrecedence;
    Parses(c, min, rest);
    FirstToken(c, min, rest);
  }

  /** Between brackets or before a comma, a colon or `else`, nothing binds. */
  lemma {:induction false} ParsesInside(c: Tree, rest: Tokens)
    requires Fits(c, PREC_IF_EXPR) && Prec(Cur(rest)) == PREC_NONE
    ensures ParsePrecedence(Flat(c, rest), PREC_IF_EXPR, Fine) == Out(Strip(c), rest, Fine)
    ensures Flat(c, rest) != [] && Flat(c, rest)[0] == First(c) && HasPrefix(First(c))
    decreases c, 4
  {
    hide Fits, Flat, Strip, ParsePrecedence;
    EdgePositive(c);
    ParsesWhole(c, PREC_IF_EXPR, rest);
  }

  lemma {:induction false} EdgePositive(c: Tree)
    ensures 0 < Edge(c) <= PREC_COUNT
  {
    match c
    case PrefixOp(_, e) => EdgePositive(e);
    case InfixOp(_, _, r) => EdgePositive(r);
    case Cond(_, _, a) => EdgePositive(a);
    case ReceiveOp(e) => EdgePositive(e);
    case _ =>
  }

  /** What a prefix rule reads becomes the first left operand. */
  lemma PrefixStep(t: Token, after: Tokens, min: nat, n: Node, rest: Tokens)
    requires min > 0 && HasPrefix(t) && Prefix(t, after, Fine) == Out(n, rest, Fine)
    ensures ParsePrecedence(Push(t, after), min, Fine) == Climb(n, rest, min, Fine)
  {
    hide Prefix, Climb, HasPrefix;
  }

  /** What an infix rule that binds tightly enough makes becomes the next left operand. */
  lemma InfixStep(left: Node, t: Token, after: Tokens, min: nat, n: Node, rest: Tokens)
    requires 0 < min <= Prec(t) && ApplyInfix(left, t, after) == Out(n, rest, Fine)
    ensures Climb(left, Push(t, after), min, Fine) == Climb(n, rest, min, Fine)
  {
    hide ApplyInfix, Prec;
  }

  lemma {:induction false} PrefixRules(after: Tokens)
    ensures Prefix(TLParen, after, Fine) == GroupOrTuple(after, Fine)
    ensures Prefix(TLBracket, after, Fine) == ListLiteral(after, Fine)
  {
    hide PrefixUnary, GroupOrTuple, ListLiteral, MapOrSet, MakeExpr, Receive, Clear, NoFunctions;
  }

  lemma {:induction false} SignRule(op: UnOp, after: Tokens)
    ensures HasPrefix(UnToken(op)) && Prefix(UnToken(op), after, Fine) == PrefixUnary(op, after, Fine)
  {
    hide PrefixUnary, GroupOrTuple, ListLiteral, MapOrSet, MakeExpr, Receive, Clear, NoFunctions;
  }

  lemma {:induction false} BraceRule(after: Tokens)
    ensures Prefix(TLBrace, after, Fine) == MapOrSet(after, Fine)
  {
    hide PrefixUnary, GroupOrTuple, ListLiteral, MapOrSet, MakeExpr, Receive;
  }

  lemma {:induction false} MakeRule(after: Tokens)
    ensures Prefix(TMake, after, Fine) == MakeExpr(after, Fine)
  {
    hide PrefixUnary, GroupOrTuple, ListLiteral, MapOrSet, MakeExpr, Receive;
  }

  lemma {:induction false} ReceiveRule(after: Tokens)
    ensures Prefix(TArrowLeft, after, Fine) == Receive(after, Fine)
  {
    hide PrefixUnary, GroupOrTuple, ListLiteral, MapOrSet, MakeExpr, Receive;
  }

  lemma {:induction false} FunctionRule(t: Token, after: Tokens)
    requires t == TFunc || t == TAsync
    ensures Prefix(t, after, Fine).mode == Foreign
  {
    hide PrefixUnary, GroupOrTuple, ListLiteral, MapOrSet, MakeExpr, Receive;
  }

  lemma {:induction false} InfixRules(left: Node, after: Tokens)
    ensures Prec(TLBracket) == PREC_CALL && ApplyInfix(left, TLBracket, after) == IndexOrSlice(left, after)
    ensures Prec(TLParen) == PREC_CALL && ApplyInfix(left, TLParen, after) == InfixCall(left, after)
    ensures Prec(TIf) == PREC_IF_EXPR && ApplyInfix(left, TIf, after) == InfixIf(left, after)
  {
    hide IndexOrSlice, InfixCall, InfixIf;
    assert InfixOf(TLBracket) == IndexRule && InfixOf(TLParen) == CallRule && InfixOf(TIf) == IfRule;
  }

  lemma {:induction false} DotRule(left: Node, after: Tokens)
    ensures Prec(TDot) == PREC_CALL
    ensures var r := ApplyInfix(left, TDot, after);
      if Cur(after).TIdent? then r == Out(Attr(left, after[0].x), after[1..], Fine) else r.mode != Fine
  {
    hide InfixCall, InfixIf, IndexOrSlice, InfixIsIn, InfixBinary;
  }

  lemma BumpRule(left: Node, isInc: bool, after: Tokens)
    ensures var t := if isInc then TInc else TDec;
      Prec(t) == PREC_CALL && ApplyInfix(left, t, after) == Out(IncDec(left, isInc), after, Fine)
  {
    hide IndexOrSlice, InfixCall, InfixIf;
    assert InfixOf(TInc) == PostfixRule(true) && InfixOf(TDec) == PostfixRule(false);
  }

  lemma {:induction false} ParsesLeaf(c: Tree, min: nat, rest: Tokens)
    requires c.Leaf? && min > 0 && Fits(c, min)
    ensures ParsePrecedence(Flat(c, rest), min, Fine) == Climb(Strip(c), rest, min, Fine)
    decreases c, 1
  {
    hide Climb, ParsePrecedence;
    PrefixStep(c.t, rest, min, Strip(c), rest);
  }

  lemma {:induction false} ParsesGrouped(g: Tree, rest: Tokens)
    requires Fits(g, PREC_IF_EXPR)
    ensures GroupOrTuple(Flat(g, Push(TRParen, rest)), Fine) == Out(Strip(g), rest, Fine)
    decreases g, 5
  {
    hide ParsePrecedence, Items, Flat, Strip, Fits, First;
    ParsesInside(g, Push(TRParen, rest));
  }

  lemma {:induction false} ParsesGroup(c: Tree, min: nat, rest: Tokens)
    requires c.Group? && min > 0 && Fits(c, min)
    ensures ParsePrecedence(Flat(c, rest), min, Fine) == Climb(Strip(c), rest, min, Fine)
    decreases c, 1
  {
    hide Climb, ParsePrecedence, Prefix, GroupOrTuple;
    var after := Flat(c.inner, Push(TRParen, rest));
    ParsesGrouped(c.inner, rest);
    PrefixRules(after);
    PrefixStep(TLParen, after, min, Strip(c), rest);
  }

  lemma {:induction false} ParsesPrefix(c: Tree, min: nat, rest: Tokens)
    requires c.PrefixOp? && min > 0 && Fits(c, min) && Prec(Cur(rest)) < Edge(c)
    ensures ParsePrecedence(Flat(c, rest), min, Fine) == Climb(Strip(c), rest, min, Fine)
    decreases c, 1
  {
    hide Climb, ParsePrecedence, Prefix;
    var after := Flat(c.operand, rest);
    ParsesWhole(c.operand, OperandPrec(c.uop), rest);
    SignRule(c.uop, after);
    PrefixStep(UnToken(c.uop), after, min, Strip(c), rest);
  }

  lemma {:induction false} ParsesInfix(c: Tree, min: nat, rest: Tokens)
    requires c.InfixOp? && min > 0 && Fits(c, min) && Prec(Cur(rest)) < Edge(c)
    ensures ParsePrecedence(Flat(c, rest), min, Fine) == Climb(Strip(c), rest, min, Fine)
    decreases c, 1
  {
    hide ParsePrecedence, ApplyInfix, FlatOp;
    var right := Flat(c.right, rest);
    var middle := FlatOp(c.op, right);
    ParsesWhole(c.right, RightPrec(c.op), rest);
    OpApplies(c.op, Strip(c.left), right);
    Parses(c.left, min, middle);
  }

  lemma {:induction false} ParsesCond(c: Tree, min: nat, rest: Tokens)
    requires c.Cond? && min > 0 && Fits(c, min) && Prec(Cur(rest)) < Edge(c)
    ensures ParsePrecedence(Flat(c, rest), min, Fine) == Climb(Strip(c), rest, min, Fine)
    decreases c, 1
  {
    hide ParsePrecedence, Climb, ApplyInfix, FlatArgs, FlatSlice, FlatList, FlatPairs, FlatCapacity, FlatOp, StripList, StripPairs,
         StripPart, Positional, Keywords;
    var alt := Push(TElse, Flat(c.alt, rest));
    var after := Flat(c.cond, alt);
    ParsesWhole(c.alt, PREC_IF_EXPR, rest);
    ParsesInside(c.cond, alt);
    assert InfixIf(Strip(c.value), after) == Out(Strip(c), rest, Fine);
    InfixRules(Strip(c.value), after);
    Parses(c.value, min, Push(TIf, after));
    InfixStep(Strip(c.value), TIf, after, min, Strip(c), rest);
  }

  lemma {:induction false} ParsesDot(c: Tree, min: nat, rest: Tokens)
    requires c.Dot? && min > 0 && Fits(c, min)
    ensures ParsePrecedence(Flat(c, rest), min, Fine) == Climb(Strip(c), rest, min, Fine)
    decreases c, 1
  {
    hide ParsePrecedence, Climb, ApplyInfix;
    var after := Push(TIdent(c.name), rest);
    DotRule(Strip(c.obj), after);
    Parses(c.obj, min, Push(TDot, after));
    InfixStep(Strip(c.obj), TDot, after, min, Strip(c), rest);
  }

  lemma {:induction false} ParsesBump(c: Tree, min: nat, rest: Tokens)
    requires c.Bump? && min > 0 && Fits(c, min)
    ensures ParsePrecedence(Flat(c, rest), min, Fine) == Climb(Strip(c), rest, min, Fine)
    decreases c, 1
  {
    hide ParsePrecedence, Climb, ApplyInfix, Prec;
    BumpRule(Strip(c.target), c.isInc, rest);
    var t := if c.isInc then TInc else TDec;
    Parses(c.target, min, Push(t, rest));
    InfixStep(Strip(c.target), t, rest, min, Strip(c), rest);
  }

  lemma {:induction false} ParsesSubscript(c: Tree, min: nat, rest: Tokens)
    requires c.Subscript? && min > 0 && Fits(c, min)
    ensures ParsePrecedence(Flat(c, rest), min, Fine) == Climb(Strip(c), rest, min, Fine)
    decreases c, 1
  {
    hide ParsePrecedence, Climb, ApplyInfix, Clear, NoFunctions, FlatArgs, FlatSlice, FlatList, FlatPairs, FlatCapacity,
         FlatOp, StripList, StripPairs, StripPart, Positional, Keywords;
    var last := Push(TRBracket, rest);
    var after := Flat(c.key, last);
    ParsesInside(c.key, last);
    assert OptionalPart(after, true, Fine) == Out(Strip(c.key), last, Fine);
    assert IndexOrSlice(Strip(c.obj), after) == Out(Strip(c), rest, Fine);
    InfixRules(Strip(c.obj), after);
    Parses(c.obj, min, Push(TLBracket, after));
    InfixStep(Strip(c.obj), TLBracket, after, min, Strip(c), rest);
  }

  lemma ParsesPart(p: Part, colonEnds: bool, rest: Tokens)
    requires FitsPart(p) && (Cur(rest) == TRBracket || Cur(rest) == TColon)
    requires p.Absent? ==> Cur(rest) == TRBracket || colonEnds
    ensures OptionalPart(FlatPart(p, rest), colonEnds, Fine) == Out(StripPart(p), rest, Fine)
    decreases p, 5
  {
    hide ParsePrecedence, Clear, NoFunctions;
    if p.Present? {
      ParsesInside(p.tree, rest);
    }
  }

  /** The parts of a slice, up to the closing bracket. */
  lemma ParsesSliceParts(p: Parts, left: Node, rest: Tokens)
    requires FitsSlice(p)
    ensures IndexOrSlice(left, FlatSlice(p, rest)) ==
      Out(Slice(left, StripPart(p.lo), StripPart(p.hi), StripPart(p.step)), rest, Fine)
    decreases p, 0
  {
    hide OptionalPart, FlatPart, StripPart;
    var last := Push(TRBracket, rest);
    var third := if p.twoColons then Push(TColon, FlatPart(p.step, last)) else last;
    ParsesPart(p.lo, true, Push(TColon, FlatPart(p.hi, third)));
    ParsesPart(p.hi, true, third);
    if p.twoColons {
      ParsesPart(p.step, false, last);
    } else {
      AbsentPart(p.step);
    }
    assert StepPart(third, Fine) == Out(StripPart(p.step), last, Fine);
    assert SliceFrom(left, StripPart(p.lo), FlatPart(p.hi, third), Fine) ==
      Out(Slice(left, StripPart(p.lo), StripPart(p.hi), StripPart(p.step)), rest, Fine);
  }

  lemma {:induction false} AbsentPart(p: Part)
    requires p.Absent?
    ensures FitsPart(p) && StripPart(p) == Missing
  {
  }

  lemma {:induction false} ParsesSlicing(c: Tree, min: nat, rest: Tokens)
    requires c.Slicing? && min > 0 && Fits(c, min)
    ensures ParsePrecedence(Flat(c, rest), min, Fine) == Climb(Strip(c), rest, min, Fine)
    decreases c, 1
  {
    hide ParsePrecedence, Climb, ApplyInfix, OptionalPart, IndexOrSlice, FlatSlice, FitsSlice;
    var after := FlatSlice(c.parts, rest);
    ParsesSliceParts(c.parts, Strip(c.obj), rest);
    InfixRules(Strip(c.obj), after);
    Parses(c.obj, min, Push(TLBracket, after));
    InfixStep(Strip(c.obj), TLBracket, after, min, Strip(c), rest);
  }

  lemma ParsesItems(l: TreeList, trailing: bool, close: Token, rest: Tokens)
    requires FitsList(l) && (l.NoTrees? ==> !trailing)
    requires Cur(rest) == close && (close == TRBracket || close == TRParen)
    ensures Items(FlatList(l, trailing, rest), close, Fine) == Outs(StripList(l), rest, Fine)
    decreases l, 1
  {
    hide ParsePrecedence, Flat, Strip, Fits, AtEnd, HasPrefix, First;
    AtClose(rest, close);
    if l.Trees? {
      var more := trailing && l.tail.Trees?;
      assert FlatList(l.tail, trailing, rest) == FlatList(l.tail, more, rest);
      var next := if l.tail.NoTrees? && !trailing then rest else Push(TComma, FlatList(l.tail, more, rest));
      ParsesInside(l.head, next);
      NotAtEnd(Flat(l.head, next), close);
      ParsesItems(l.tail, more, close, rest);
    }
  }

  lemma AtClose(rest: Tokens, close: Token)
    requires Cur(rest) == close && (close == TRBracket || close == TRParen)
    ensures AtEnd(rest, close) && Prec(Cur(rest)) == PREC_NONE && Cur(rest) != TComma
  {
  }

  lemma NotAtEnd(ts: Tokens, close: Token)
    requires ts != [] && HasPrefix(ts[0]) && (close == TRBracket || close == TRParen)
    ensures !AtEnd(ts, close)
  {
  }

  lemma {:induction false} ParsesBrackets(c: Tree, min: nat, rest: Tokens)
    requires c.Brackets? && min > 0 && Fits(c, min)
    ensures ParsePrecedence(Flat(c, rest), min, Fine) == Climb(Strip(c), rest, min, Fine)
    decreases c, 1
  {
    hide Climb, Items, ParsePrecedence, Prefix;
    var items := FlatList(c.elems, c.trailing, Push(TRBracket, rest));
    ParsesItems(c.elems, c.trailing, TRBracket, Push(TRBracket, rest));
    PrefixRules(items);
    PrefixStep(TLBracket, items, min, Strip(c), rest);
  }

  lemma {:induction false} ParsesTuple(l: TreeList, trailing: bool, rest: Tokens)
    requires FitsList(l) && (l.NoTrees? ==> !trailing) && (l.Trees? && l.tail.NoTrees? ==> trailing)
    ensures GroupOrTuple(FlatList(l, trailing, Push(TRParen, rest)), Fine) == Out(Tuple(StripList(l)), rest, Fine)
    decreases l, 2
  {
    hide ParsePrecedence, Items, Flat, Strip, Fits, Clear, NoFunctions;
    var last := Push(TRParen, rest);
    if l.Trees? {
      var more := trailing && l.tail.Trees?;
      assert FlatList(l.tail, trailing, last) == FlatList(l.tail, more, last);
      ParsesInside(l.head, Push(TComma, FlatList(l.tail, more, last)));
      ParsesItems(l.tail, more, TRParen, last);
    }
  }

  lemma {:induction false} ParsesParens(c: Tree, min: nat, rest: Tokens)
    requires c.Parens? && min > 0 && Fits(c, min)
    ensures ParsePrecedence(Flat(c, rest), min, Fine) == Climb(Strip(c), rest, min, Fine)
    decreases c, 1
  {
    hide Climb, ParsePrecedence, GroupOrTuple, Prefix;
    PrefixRules(FlatList(c.elems, c.trailing, Push(TRParen, rest)));
    ParsesTuple(c.elems, c.trailing, rest);
    PrefixStep(TLParen, FlatList(c.elems, c.trailing, Push(TRParen, rest)), min, Strip(c), rest);
  }

  // ---------------------------------------------------------------------
  // Braces
  // ---------------------------------------------------------------------

  /** What stands behind an element of a list with more elements `l`. */
  function FlatMore(l: TreeList, trailing: bool, rest: Tokens): Tokens
  {
    if l.NoTrees? && !trailing then rest else Push(TComma, FlatList(l, trailing, rest))
  }

  function FlatMorePairs(l: PairList, trailing: bool, rest: Tokens): Tokens
  {
    if l.NoPairs? && !trailing then rest else Push(TComma, FlatPairs(l, trailing, rest))
  }

  /** Behind an element, a comma goes on to the next, unless the brace comes right after it. */
  lemma CommaGoesOn(after: Tokens)
    requires after != [] && HasPrefix(after[0])
    ensures GoesOn(Push(TComma, after)) && Push(TComma, after)[1..] == after && Cur(after) != TRBrace
  {
  }

  lemma BraceStops(rest: Tokens, trailing: bool)
    requires Cur(rest) == TRBrace
    ensures var ts := if trailing then Push(TComma, rest) else rest; !GoesOn(ts) && PastComma(ts) == rest
  {
  }

  lemma MoreHead(l: TreeList, trailing: bool, rest: Tokens)
    requires Cur(rest) == TRBrace && l.Trees?
    ensures FlatMore(l, trailing, rest) == Push(TComma, Flat(l.head, FlatMore(l.tail, trailing, rest)))
    ensures Prec(Cur(FlatMore(l.tail, trailing, rest))) == PREC_NONE && Cur(FlatMore(l.tail, trailing, rest)) != TColon
  {
    hide Flat;
  }

  lemma MorePairsHead(l: PairList, trailing: bool, rest: Tokens)
    requires Cur(rest) == TRBrace && l.Pairs?
    ensures FlatMorePairs(l, trailing, rest) == Push(TComma, Flat(l.key, Push(TColon, Flat(l.val, FlatMorePairs(l.more, trailing, rest)))))
    ensures Prec(Cur(FlatMorePairs(l.more, trailing, rest))) == PREC_NONE
  {
    hide Flat;
  }

  lemma {:induction false} ParsesMore(l: TreeList, trailing: bool, rest: Tokens)
    requires FitsList(l) && Cur(rest) == TRBrace
    ensures MoreElems(FlatMore(l, trailing, rest), Fine) == Outs(StripList(l), rest, Fine)
    decreases l, 1
  {
    hide ParsePrecedence, Flat, Strip, Fits, HasPrefix, First, GoesOn, FlatList, PastComma, FlatMore;
    if l.NoTrees? {
      NoMore(trailing, rest);
      BraceStops(rest, trailing);
    } else {
      MoreHead(l, trailing, rest);
      var next := FlatMore(l.tail, trailing, rest);
      ParsesInside(l.head, next);
      CommaGoesOn(Flat(l.head, next));
      ParsesMore(l.tail, trailing, rest);
    }
  }

  lemma NoMore(trailing: bool, rest: Tokens)
    ensures FlatMore(NoTrees, trailing, rest) == if trailing then Push(TComma, rest) else rest
    ensures FlatMorePairs(NoPairs, trailing, rest) == if trailing then Push(TComma, rest) else rest
  {
  }

  lemma {:induction false} ParsesKeyValue(l: PairList, next: Tokens)
    requires l.Pairs? && FitsPairs(l) && Prec(Cur(next)) == PREC_NONE
    ensures var ts := Flat(l.key, Push(TColon, Flat(l.val, next)));
      ts != [] && HasPrefix(ts[0]) && KeyValue(ts, Fine) == Out(Pair(Strip(l.key), Strip(l.val)), next, Fine)
    decreases l, 0
  {
    hide ParsePrecedence, Flat, Strip, Fits, HasPrefix, First;
    ParsesInside(l.key, Push(TColon, Flat(l.val, next)));
    ParsesInside(l.val, next);
  }

  lemma {:induction false} ParsesMorePairs(l: PairList, trailing: bool, rest: Tokens)
    requires FitsPairs(l) && Cur(rest) == TRBrace
    ensures MorePairs(FlatMorePairs(l, trailing, rest), Fine) == Outs(StripPairs(l), rest, Fine)
    decreases l, 1
  {
    hide KeyValue, Flat, Strip, Fits, HasPrefix, GoesOn, FlatPairs, PastComma, FlatMorePairs;
    if l.NoPairs? {
      NoMore(trailing, rest);
      BraceStops(rest, trailing);
    } else {
      MorePairsHead(l, trailing, rest);
      var next := FlatMorePairs(l.more, trailing, rest);
      ParsesKeyValue(l, next);
      CommaGoesOn(Flat(l.key, Push(TColon, Flat(l.val, next))));
      ParsesMorePairs(l.more, trailing, rest);
    }
  }

  lemma {:induction false} ParsesSet(l: TreeList, trailing: bool, rest: Tokens)
    requires FitsList(l) && l.Trees?
    ensures MapOrSet(FlatList(l, trailing, Push(TRBrace, rest)), Fine) == Out(SetLit(StripList(l)), rest, Fine)
    decreases l, 2
  {
    hide ParsePrecedence, MoreElems, Flat, Strip, Fits, First, FlatMore;
    var last := Push(TRBrace, rest);
    var next := FlatMore(l.tail, trailing, last);
    MoreHead(l, trailing, last);
    SetHead(l, trailing, last);
    ParsesInside(l.head, next);
    CommaGoesOn(Flat(l.head, next));
    ParsesMore(l.tail, trailing, last);
  }

  lemma {:induction false} SetHead(l: TreeList, trailing: bool, rest: Tokens)
    requires l.Trees?
    ensures FlatList(l, trailing, rest) == Flat(l.head, FlatMore(l.tail, trailing, rest))
  {
    hide Flat;
  }

  lemma {:induction false} ParsesMap(l: PairList, trailing: bool, rest: Tokens)
    requires FitsPairs(l) && (l.NoPairs? ==> !trailing)
    ensures MapOrSet(FlatPairs(l, trailing, Push(TRBrace, rest)), Fine) == Out(MapLit(StripPairs(l)), rest, Fine)
    decreases l, 2
  {
    hide ParsePrecedence, MorePairs, Flat, Strip, Fits, First, FlatMorePairs, MoreElems;
    var last := Push(TRBrace, rest);
    if l.Pairs? {
      var next := FlatMorePairs(l.more, trailing, last);
      MorePairsHead(l, trailing, last);
      MapHead(l, trailing, last);
      ParsesInside(l.key, Push(TColon, Flat(l.val, next)));
      CommaGoesOn(Flat(l.key, Push(TColon, Flat(l.val, next))));
      ParsesInside(l.val, next);
      ParsesMorePairs(l.more, trailing, last);
      assert MapFrom(Strip(l.key), Flat(l.val, next), Fine) == Out(MapLit(StripPairs(l)), rest, Fine);
    }
  }

  lemma {:induction false} MapHead(l: PairList, trailing: bool, rest: Tokens)
    requires l.Pairs?
    ensures FlatPairs(l, trailing, rest) == Flat(l.key, Push(TColon, Flat(l.val, FlatMorePairs(l.more, trailing, rest))))
  {
    hide Flat;
  }

  lemma {:induction false} ParsesSetBraces(c: Tree, min: nat, rest: Tokens)
    requires c.SetBraces? && min > 0 && Fits(c, min)
    ensures ParsePrecedence(Flat(c, rest), min, Fine) == Climb(Strip(c), rest, min, Fine)
    decreases c, 1
  {
    hide Climb, ParsePrecedence, MapOrSet, Prefix;
    var after := FlatList(c.elems, c.trailing, Push(TRBrace, rest));
    BraceRule(after);
    ParsesSet(c.elems, c.trailing, rest);
    PrefixStep(TLBrace, after, min, Strip(c), rest);
  }

  lemma {:induction false} ParsesMapBraces(c: Tree, min: nat, rest: Tokens)
    requires c.MapBraces? && min > 0 && Fits(c, min)
    ensures ParsePrecedence(Flat(c, rest), min, Fine) == Climb(Strip(c), rest, min, Fine)
    decreases c, 1
  {
    hide Climb, ParsePrecedence, MapOrSet, Prefix;
    var after := FlatPairs(c.pairs, c.trailing, Push(TRBrace, rest));
    BraceRule(after);
    ParsesMap(c.pairs, c.trailing, rest);
    PrefixStep(TLBrace, after, min, Strip(c), rest);
  }

  lemma {:induction false} ParsesCapacity(p: Part, rest: Tokens)
    requires FitsPart(p)
    ensures MakeExpr(Push(TLParen, Push(TChan, FlatCapacity(p, Push(TRParen, rest)))), Fine) == Out(Make(StripPart(p)), rest, Fine)
    decreases p, 5
  {
    hide ParsePrecedence, Flat, Strip, Fits, First;
    if p.Present? {
      ParsesInside(p.tree, Push(TRParen, rest));
    }
  }

  lemma {:induction false} ParsesMake(c: Tree, min: nat, rest: Tokens)
    requires c.MakeChan? && min > 0 && Fits(c, min)
    ensures ParsePrecedence(Flat(c, rest), min, Fine) == Climb(Strip(c), rest, min, Fine)
    decreases c, 1
  {
    hide Climb, ParsePrecedence, MakeExpr, Prefix;
    var after := Push(TLParen, Push(TChan, FlatCapacity(c.capacity, Push(TRParen, rest))));
    MakeRule(after);
    ParsesCapacity(c.capacity, rest);
    PrefixStep(TMake, after, min, Strip(c), rest);
  }

  lemma {:induction false} ParsesReceive(c: Tree, min: nat, rest: Tokens)
    requires c.ReceiveOp? && min > 0 && Fits(c, min) && Prec(Cur(rest)) < Edge(c)
    ensures ParsePrecedence(Flat(c, rest), min, Fine) == Climb(Strip(c), rest, min, Fine)
    decreases c, 1
  {
    hide Climb, ParsePrecedence, Prefix;
    var after := Flat(c.channel, rest);
    ParsesWhole(c.channel, PREC_UNARY, rest);
    ReceiveRule(after);
    PrefixStep(TArrowLeft, after, min, Strip(c), rest);
  }

  // ---------------------------------------------------------------------
  // Arguments
  // ---------------------------------------------------------------------

  function MarkNode(m: Mark, n: Node): Node
  {
    match m
    case Plain => n
    case Starred => Star(n)
    case DoubleStarred => DoubleStar(n)
    case Named(x) => Keyword(x, n)
  }

  lemma {:induction false} ParsesArg(l: ArgList, next: Tokens)
    requires l.Args? && FitsArgs(l) && (Cur(next) == TComma || Cur(next) == TRParen)
    ensures var ts := FlatMark(l.mark, Flat(l.head, next));
      && ts != [] && Cur(ts) != TRParen && Cur(ts) != TEof
      && Argument(ts, Fine) == Out(MarkNode(l.mark, Strip(l.head)), next, Fine)
    decreases l, 0
  {
    hide ParsePrecedence, Flat, Strip, Fits, First, Clear, NoFunctions;
    ParsesInside(l.head, next);
    FirstToken(l.head, PREC_IF_EXPR, next);
  }

  lemma {:induction false} ParsesArgs(l: ArgList, trailing: bool, rest: Tokens)
    requires FitsArgs(l) && (l.NoArgs? ==> !trailing) && Cur(rest) == TRParen
    ensures CallArgs(FlatArgs(l, trailing, rest), Fine) == Arguments(Positional(l), Keywords(l), rest, Fine)
    decreases l, 1
  {
    hide ParsePrecedence, Flat, Argument, Strip, Fits, FlatMark, Clear, NoFunctions;
    if l.Args? {
      var more := trailing && l.tail.Args?;
      assert FlatArgs(l.tail, trailing, rest) == FlatArgs(l.tail, more, rest);
      ParsesArg(l, if l.tail.NoArgs? && !trailing then rest else Push(TComma, FlatArgs(l.tail, more, rest)));
      ParsesArgs(l.tail, more, rest);
    }
  }

  lemma {:induction false} ParsesApply(c: Tree, min: nat, rest: Tokens)
    requires c.Apply? && min > 0 && Fits(c, min)
    ensures ParsePrecedence(Flat(c, rest), min, Fine) == Climb(Strip(c), rest, min, Fine)
    decreases c, 1
  {
    hide ParsePrecedence, CallArgs, Climb, ApplyInfix;
    var last := Push(TRParen, rest);
    var args := FlatArgs(c.args, c.trailing, last);
    ParsesArgs(c.args, c.trailing, last);
    InfixRules(Strip(c.callee), args);
    assert InfixCall(Strip(c.callee), args) == Out(Strip(c), rest, Fine);
    Parses(c.callee, min, Push(TLParen, args));
    InfixStep(Strip(c.callee), TLParen, args, min, Strip(c), rest);
  }
}
