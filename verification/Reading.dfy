/**
  The other direction: whatever precedence climbing reads without an error is spelled by a concrete
  tree that fits, and that tree is what it returns.
*/
module Reading {
  import opened Values
  import opened Pratt
  import opened Grammar
  import opened Parsing

  lemma Unpush(ts: Tokens)
    requires ts != []
    ensures ts == Push(ts[0], ts[1..])
  {
  }

  // ---------------------------------------------------------------------
  // One step of each definition, for the trees that are put together below
  // ---------------------------------------------------------------------

  lemma DotTree(c: Tree, x: Text, min: nat, rest: Tokens)
    requires Fits(c, min) && min <= PREC_CALL < Edge(c)
    ensures var d := Dot(c, x);
      && Fits(d, min) && Edge(d) == PREC_COUNT && Strip(d) == Attr(Strip(c), x)
      && Flat(d, rest) == Flat(c, Push(TDot, Push(TIdent(x), rest)))
  {
  }

  lemma BumpTree(c: Tree, isInc: bool, min: nat, rest: Tokens)
    requires Fits(c, min) && min <= PREC_CALL < Edge(c)
    ensures var d := Bump(c, isInc);
      && Fits(d, min) && Edge(d) == PREC_COUNT && Strip(d) == IncDec(Strip(c), isInc)
      && Flat(d, rest) == Flat(c, Push(if isInc then TInc else TDec, rest))
  {
  }

  lemma SubscriptTree(c: Tree, k: Tree, min: nat, rest: Tokens)
    requires Fits(c, min) && min <= PREC_CALL < Edge(c) && Fits(k, PREC_IF_EXPR)
    ensures var d := Subscript(c, k);
      && Fits(d, min) && Edge(d) == PREC_COUNT && Strip(d) == Index(Strip(c), Strip(k))
      && Flat(d, rest) == Flat(c, Push(TLBracket, Flat(k, Push(TRBracket, rest))))
  {
  }

  lemma SlicingTree(c: Tree, p: Parts, min: nat, rest: Tokens)
    requires Fits(c, min) && min <= PREC_CALL < Edge(c) && FitsSlice(p)
    ensures var d := Slicing(c, p);
      && Fits(d, min) && Edge(d) == PREC_COUNT
      && Strip(d) == Slice(Strip(c), StripPart(p.lo), StripPart(p.hi), StripPart(p.step))
      && Flat(d, rest) == Flat(c, Push(TLBracket, FlatSlice(p, rest)))
  {
    hide FitsSlice, FlatSlice, StripPart;
  }

  lemma ApplyTree(c: Tree, args: ArgList, trailing: bool, min: nat, rest: Tokens)
    requires Fits(c, min) && min <= PREC_CALL < Edge(c) && FitsArgs(args) && (args.NoArgs? ==> !trailing)
    ensures var d := Apply(c, args, trailing);
      && Fits(d, min) && Edge(d) == PREC_COUNT && Strip(d) == Call(Strip(c), Positional(args), Keywords(args))
      && Flat(d, rest) == Flat(c, Push(TLParen, FlatArgs(args, trailing, Push(TRParen, rest))))
  {
    hide FitsArgs, FlatArgs, Positional, Keywords, FitsList, FitsPairs, FitsSlice, FitsPart, FlatList, FlatPairs, FlatSlice,
         FlatCapacity, FlatOp, StripList, StripPairs, StripPart, PrecOfOp, RightPrec, OperandPrec, First, IsLeaf;
  }

  lemma CondTree(c: Tree, k: Tree, a: Tree, min: nat, rest: Tokens)
    requires Fits(c, min) && min <= PREC_IF_EXPR < Edge(c) && Fits(k, PREC_IF_EXPR) && Fits(a, PREC_IF_EXPR)
    ensures var d := Cond(c, k, a);
      && Fits(d, min) && Edge(d) == Min(PREC_IF_EXPR, Edge(a)) && Strip(d) == IfElse(Strip(c), Strip(k), Strip(a))
      && Flat(d, rest) == Flat(c, Push(TIf, Flat(k, Push(TElse, Flat(a, rest)))))
  {
  }

  lemma TupleTree(h: Tree, l: TreeList, trailing: bool, rest: Tokens)
    requires Fits(h, PREC_IF_EXPR) && FitsList(l) && (l.NoTrees? ==> trailing)
    ensures var d := Parens(Trees(h, l), trailing);
      && Fits(d, PREC_COUNT) && Strip(d) == Tuple(Item(Strip(h), StripList(l)))
      && Flat(d, rest) == Push(TLParen, Flat(h, Push(TComma, FlatList(l, trailing, Push(TRParen, rest)))))
  {
    hide Flat, Strip, Fits, FlatList, StripList, FitsList;
    ConsList(h, l, trailing, Push(TRParen, rest));
    FlatParens(Trees(h, l), trailing, rest);
    FitsParens(Trees(h, l), trailing);
  }

  lemma ConsList(h: Tree, l: TreeList, trailing: bool, rest: Tokens)
    requires Fits(h, PREC_IF_EXPR) && FitsList(l) && (l.NoTrees? ==> trailing)
    ensures var t := Trees(h, l);
      && FitsList(t) && StripList(t) == Item(Strip(h), StripList(l))
      && FlatList(t, trailing, rest) == Flat(h, Push(TComma, FlatList(l, trailing, rest)))
  {
    hide Flat, Strip, Fits;
  }

  lemma {:induction false} FitsParens(l: TreeList, trailing: bool)
    requires FitsList(l) && l.Trees? && (l.tail.NoTrees? ==> trailing)
    ensures Fits(Parens(l, trailing), PREC_COUNT)
  {
    hide FitsList;
  }

  lemma {:induction false} FlatParens(l: TreeList, trailing: bool, rest: Tokens)
    ensures Flat(Parens(l, trailing), rest) == Push(TLParen, FlatList(l, trailing, Push(TRParen, rest)))
    ensures Strip(Parens(l, trailing)) == Tuple(StripList(l))
  {
    hide FlatList, StripList;
  }

  /** The tree spelled by what a call reads. */
  lemma {:induction false} ReadTree(ts: Tokens, min: nat) returns (c: Tree)
    requires min > 0 && ParsePrecedence(ts, min, Fine).mode == Fine
    ensures var r := ParsePrecedence(ts, min, Fine);
      Fits(c, min) && EndsBefore(c, r.rest, min) && Flat(c, r.rest) == ts && Strip(c) == r.node
    decreases |ts|, 3
  {
    hide Prefix, Climb, Fits, Flat, Strip, Edge, Clear, NoFunctions;
    var p := Prefix(ts[0], ts[1..], Fine);
    FineBefore(p.node, p.rest, min, p.mode);
    c := ReadPrefix(ts, min);
    c := ReadClimb(c, p.rest, min);
  }

  lemma FineBefore(left: Node, ts: Tokens, min: nat, mode: Mode)
    requires min > 0 && Climb(left, ts, min, mode).mode == Fine
    ensures mode == Fine
  {
    hide Prec, ApplyInfix;
  }

  /** The same for the climbing loop, from a left operand that has been read already. */
  lemma {:induction false} ReadClimb(c: Tree, ts: Tokens, min: nat) returns (d: Tree)
    requires min > 0 && Fits(c, min) && Prec(Cur(ts)) < Edge(c)
    requires Climb(Strip(c), ts, min, Fine).mode == Fine
    ensures var r := Climb(Strip(c), ts, min, Fine);
      Fits(d, min) && EndsBefore(d, r.rest, min) && Flat(d, r.rest) == Flat(c, ts) && Strip(d) == r.node
    decreases |ts|, 2
  {
    hide ApplyInfix, Fits, Flat, Strip, Edge, Clear, NoFunctions;
    if Prec(Cur(ts)) < min {
      d := c;
    } else {
      var p := ApplyInfix(Strip(c), ts[0], ts[1..]);
      FineBefore(p.node, p.rest, min, p.mode);
      d := ReadInfix(c, ts, min);
      d := ReadClimb(d, p.rest, min);
    }
  }

  lemma ReadPrefix(ts: Tokens, min: nat) returns (c: Tree)
    requires ts != [] && HasPrefix(ts[0]) && Prefix(ts[0], ts[1..], Fine).mode == Fine
    ensures var r := Prefix(ts[0], ts[1..], Fine);
      Fits(c, min) && Prec(Cur(r.rest)) < Edge(c) && Flat(c, r.rest) == ts && Strip(c) == r.node
    decreases |ts|, 2
  {
    hide Prefix, PrefixUnary, ListLiteral, GroupOrTuple, MapOrSet, MakeExpr, Receive, Prec, Fits, Flat, Strip,
         Clear, NoFunctions;
    Unpush(ts);
    PrecBounded(Cur(Prefix(ts[0], ts[1..], Fine).rest));
    if IsLeaf(ts[0]) {
      LeafRule(ts[0], ts[1..], min);
      c := Leaf(ts[0]);
    } else if ts[0] == TMinus || ts[0] == TPlus || ts[0] == TTilde || ts[0] == TNot {
      SignRule(UnaryOf(ts[0]), ts[1..]);
      c := ReadOperator(ts, min);
    } else {
      c := ReadDelimited(ts);
      FitsBelow(c, PREC_COUNT, min);
    }
  }

  lemma ReadOperator(ts: Tokens, min: nat) returns (c: Tree)
    requires ts != [] && (ts[0] == TMinus || ts[0] == TPlus || ts[0] == TTilde || ts[0] == TNot)
    requires PrefixUnary(UnaryOf(ts[0]), ts[1..], Fine).mode == Fine
    ensures var r := PrefixUnary(UnaryOf(ts[0]), ts[1..], Fine);
      Fits(c, min) && Prec(Cur(r.rest)) < Edge(c) && Flat(c, r.rest) == ts && Strip(c) == r.node
    decreases |ts|, 1
  {
    hide PrefixUnary, Prec;
    Unpush(ts);
    var op := UnaryOf(ts[0]);
    var e := ReadOperand(op, ts[1..]);
    c := PrefixOp(op, e);
  }

  /** Parentheses, brackets, braces, `make` and a received value. */
  lemma ReadDelimited(ts: Tokens) returns (c: Tree)
    requires ts != [] && !IsLeaf(ts[0]) && HasPrefix(ts[0])
    requires ts[0] != TMinus && ts[0] != TPlus && ts[0] != TTilde && ts[0] != TNot
    requires Prefix(ts[0], ts[1..], Fine).mode == Fine
    ensures var r := Prefix(ts[0], ts[1..], Fine);
      Delimited(c) && Fits(c, PREC_COUNT) && Prec(Cur(r.rest)) < Edge(c) && Flat(c, r.rest) == ts && Strip(c) == r.node
    decreases |ts|, 1
  {
    hide Prefix, ListLiteral, GroupOrTuple, MapOrSet, MakeExpr, Receive, Prec, Fits, Flat, Strip, Clear,
         NoFunctions;
    var after := ts[1..];
    Unpush(ts);
    PrecBounded(Cur(Prefix(ts[0], after, Fine).rest));
    if ts[0] == TLParen {
      PrefixRules(after);
      c := ReadGroup(after);
    } else if ts[0] == TLBracket {
      PrefixRules(after);
      c := ReadList(after);
    } else if ts[0] == TLBrace {
      BraceRule(after);
      c := ReadBraces(after);
    } else if ts[0] == TMake {
      MakeRule(after);
      c := ReadMake(after);
    } else if ts[0] == TArrowLeft {
      ReceiveRule(after);
      c := ReadReceive(after);
    } else {
      FunctionRule(ts[0], after);
    }
  }

  /** Trees that fit at every minimum. */
  predicate Delimited(c: Tree)
  {
    c.Group? || c.Parens? || c.Brackets? || c.SetBraces? || c.MapBraces? || c.MakeChan? || c.ReceiveOp?
  }

  lemma {:induction false} FitsBelow(c: Tree, high: nat, low: nat)
    requires Delimited(c) && Fits(c, high)
    ensures Fits(c, low)
  {
  }

  lemma ReadReceive(ts: Tokens) returns (c: Tree)
    requires Receive(ts, Fine).mode == Fine
    ensures c.ReceiveOp?
    ensures var r := Receive(ts, Fine);
      Fits(c, PREC_COUNT) && Prec(Cur(r.rest)) < Edge(c) && Flat(c, r.rest) == Push(TArrowLeft, ts) && Strip(c) == r.node
    decreases |ts|, 4
  {
    hide ParsePrecedence, Prec, Fits, Flat, Strip, Edge;
    var e := ReadTree(ts, PREC_UNARY);
    ReceiveTree(e, ParsePrecedence(ts, PREC_UNARY, Fine).rest);
    c := ReceiveOp(e);
  }

  lemma {:induction false} ReceiveTree(e: Tree, rest: Tokens)
    requires Fits(e, PREC_UNARY)
    ensures var d := ReceiveOp(e);
      && Fits(d, PREC_COUNT) && Edge(d) == Min(PREC_UNARY, Edge(e)) && Strip(d) == Recv(Strip(e))
      && Flat(d, rest) == Push(TArrowLeft, Flat(e, rest))
  {
  }

  lemma TookExpected(ts: Tokens, t: Token, mode: Mode)
    requires Expect(ts, t, mode).1 == Fine && t != TEof
    ensures mode == Fine && ts != [] && ts == Push(t, ts[1..]) && Expect(ts, t, mode).0 == ts[1..]
  {
    Unpush(ts);
  }

  lemma {:induction false} MakeSteps(ts: Tokens)
    ensures var one := Expect(ts, TLParen, Fine);
      var two := Expect(one.0, TChan, one.1);
      var n := CapacityPart(two.0, two.1);
      var last := Expect(n.rest, TRParen, n.mode);
      MakeExpr(ts, Fine) == Out(Make(n.node), last.0, last.1)
  {
    hide Expect, CapacityPart;
  }

  lemma {:induction false} MakeParts(ts: Tokens)
    requires MakeExpr(ts, Fine).mode == Fine
    ensures |ts| >= 2
    ensures var n := CapacityPart(ts[2..], Fine);
      && n.mode == Fine && n.rest != [] && n.rest == Push(TRParen, n.rest[1..])
      && ts == Push(TLParen, Push(TChan, ts[2..])) && MakeExpr(ts, Fine) == Out(Make(n.node), n.rest[1..], Fine)
  {
    hide MakeExpr, Expect, CapacityPart, Push;
    MakeSteps(ts);
    var one := Expect(ts, TLParen, Fine);
    var two := Expect(one.0, TChan, one.1);
    var n := CapacityPart(two.0, two.1);
    var last := Expect(n.rest, TRParen, n.mode);
    TookExpected(n.rest, TRParen, n.mode);
    TookExpected(one.0, TChan, one.1);
    TookExpected(ts, TLParen, Fine);
    assert ts[1..][1..] == ts[2..];
  }

  lemma ReadMake(ts: Tokens) returns (c: Tree)
    requires MakeExpr(ts, Fine).mode == Fine
    ensures c.MakeChan?
    ensures var r := MakeExpr(ts, Fine);
      Fits(c, PREC_COUNT) && Flat(c, r.rest) == Push(TMake, ts) && Strip(c) == r.node
    decreases |ts|, 5
  {
    hide MakeExpr, CapacityPart, FitsPart, StripPart, FlatCapacity, Push;
    MakeParts(ts);
    var n := ReadCapacity(ts[2..]);
    c := MakeChan(n);
  }

  lemma ReadCapacity(ts: Tokens) returns (p: Part)
    requires CapacityPart(ts, Fine).mode == Fine
    ensures var r := CapacityPart(ts, Fine);
      FitsPart(p) && FlatCapacity(p, r.rest) == ts && StripPart(p) == r.node
    decreases |ts|, 4
  {
    hide ParsePrecedence, Fits, Flat, Strip, Prec;
    if Cur(ts) == TComma {
      Unpush(ts);
      var e := ReadTree(ts[1..], PREC_IF_EXPR);
      p := Present(e);
    } else {
      p := Absent;
    }
  }

  lemma SetTree(h: Tree, l: TreeList, trailing: bool, rest: Tokens)
    requires Fits(h, PREC_IF_EXPR) && FitsList(l)
    ensures var d := SetBraces(Trees(h, l), trailing);
      && Fits(d, PREC_COUNT) && Strip(d) == SetLit(Item(Strip(h), StripList(l)))
      && Flat(d, rest) == Push(TLBrace, Flat(h, FlatMore(l, trailing, Push(TRBrace, rest))))
  {
    hide FlatMore, Flat, Strip, Fits;
    SetHead(Trees(h, l), trailing, Push(TRBrace, rest));
    SetBracesTree(Trees(h, l), trailing, rest);
  }

  lemma {:induction false} SetBracesTree(l: TreeList, trailing: bool, rest: Tokens)
    ensures FitsList(l) && l.Trees? ==> Fits(SetBraces(l, trailing), PREC_COUNT)
    ensures Strip(SetBraces(l, trailing)) == SetLit(StripList(l))
    ensures Flat(SetBraces(l, trailing), rest) == Push(TLBrace, FlatList(l, trailing, Push(TRBrace, rest)))
  {
    hide FlatList, StripList, FitsList;
  }

  lemma MapTree(k: Tree, v: Tree, l: PairList, trailing: bool, rest: Tokens)
    requires Fits(k, PREC_IF_EXPR) && Fits(v, PREC_IF_EXPR) && FitsPairs(l)
    ensures var d := MapBraces(Pairs(k, v, l), trailing);
      && Fits(d, PREC_COUNT) && Strip(d) == MapLit(Item(Pair(Strip(k), Strip(v)), StripPairs(l)))
      && Flat(d, rest) == Push(TLBrace, Flat(k, Push(TColon, Flat(v, FlatMorePairs(l, trailing, Push(TRBrace, rest))))))
  {
    hide FlatMorePairs, Flat, Strip, Fits;
    MapHead(Pairs(k, v, l), trailing, Push(TRBrace, rest));
    MapBracesTree(Pairs(k, v, l), trailing, rest);
  }

  lemma {:induction false} MapBracesTree(l: PairList, trailing: bool, rest: Tokens)
    ensures FitsPairs(l) && l.Pairs? ==> Fits(MapBraces(l, trailing), PREC_COUNT)
    ensures Strip(MapBraces(l, trailing)) == MapLit(StripPairs(l))
    ensures Flat(MapBraces(l, trailing), rest) == Push(TLBrace, FlatPairs(l, trailing, Push(TRBrace, rest)))
  {
    hide FlatPairs, StripPairs, FitsPairs;
  }

  lemma ReadBraces(ts: Tokens) returns (c: Tree)
    requires MapOrSet(ts, Fine).mode == Fine
    ensures c.SetBraces? || c.MapBraces?
    ensures var r := MapOrSet(ts, Fine);
      Fits(c, PREC_COUNT) && Flat(c, r.rest) == Push(TLBrace, ts) && Strip(c) == r.node
    decreases |ts|, 6
  {
    hide ParsePrecedence, MoreElems, MapFrom, Prec, Fits, Flat, Strip, FlatMore, FlatPairs;
    if Cur(ts) == TRBrace {
      c := ReadEmptyMap(ts);
    } else {
      var first := ParsePrecedence(ts, PREC_IF_EXPR, Fine);
      if Cur(first.rest) == TColon {
        c := ReadMapFrom(ts);
      } else {
        var more := MoreElems(first.rest, Fine);
        var h := ReadTree(ts, PREC_IF_EXPR);
        var l, trailing := ReadMore(first.rest);
        Unpush(more.rest);
        SetTree(h, l, trailing, more.rest[1..]);
        c := SetBraces(Trees(h, l), trailing);
      }
    }
  }

  lemma ReadEmptyMap(ts: Tokens) returns (c: Tree)
    requires Cur(ts) == TRBrace
    ensures c.MapBraces? && Fits(c, PREC_COUNT) && Flat(c, ts[1..]) == Push(TLBrace, ts) && Strip(c) == MapLit(NoNodes)
  {
    Unpush(ts);
    c := MapBraces(NoPairs, false);
  }

  lemma {:induction false} ReadMore(ts: Tokens) returns (l: TreeList, trailing: bool)
    requires var r := MoreElems(ts, Fine); r.mode == Fine && Cur(r.rest) == TRBrace
    ensures var r := MoreElems(ts, Fine);
      FitsList(l) && FlatMore(l, trailing, r.rest) == ts && StripList(l) == r.nodes
    decreases |ts|, 4
  {
    hide ParsePrecedence, Fits, Flat, Strip, Edge, Prec, FlatMore, FlatList;
    if !GoesOn(ts) {
      l, trailing := NoTrees, Cur(ts) == TComma;
      NoMore(trailing, PastComma(ts));
      if trailing {
        Unpush(ts);
      }
    } else {
      Unpush(ts);
      var e := ParsePrecedence(ts[1..], PREC_IF_EXPR, Fine);
      var h := ReadTree(ts[1..], PREC_IF_EXPR);
      l, trailing := ReadMore(e.rest);
      l := Trees(h, l);
      MoreHead(l, trailing, MoreElems(ts, Fine).rest);
    }
  }

  lemma ReadKeyValue(ts: Tokens) returns (k: Tree, v: Tree)
    requires KeyValue(ts, Fine).mode == Fine
    ensures var r := KeyValue(ts, Fine);
      && Fits(k, PREC_IF_EXPR) && Fits(v, PREC_IF_EXPR)
      && Flat(k, Push(TColon, Flat(v, r.rest))) == ts && Pair(Strip(k), Strip(v)) == r.node
    decreases |ts|, 4
  {
    hide ParsePrecedence, Fits, Flat, Strip, Edge, Prec;
    var a := ParsePrecedence(ts, PREC_IF_EXPR, Fine);
    k := ReadTree(ts, PREC_IF_EXPR);
    Unpush(a.rest);
    v := ReadTree(a.rest[1..], PREC_IF_EXPR);
  }

  lemma {:induction false} ReadMorePairs(ts: Tokens) returns (l: PairList, trailing: bool)
    requires var r := MorePairs(ts, Fine); r.mode == Fine && Cur(r.rest) == TRBrace
    ensures var r := MorePairs(ts, Fine);
      FitsPairs(l) && FlatMorePairs(l, trailing, r.rest) == ts && StripPairs(l) == r.nodes
    decreases |ts|, 4
  {
    hide KeyValue, Fits, Flat, Strip, Edge, Prec, FlatMorePairs, FlatPairs;
    if !GoesOn(ts) {
      l, trailing := NoPairs, Cur(ts) == TComma;
      NoMore(trailing, PastComma(ts));
      if trailing {
        Unpush(ts);
      }
    } else {
      Unpush(ts);
      var e := KeyValue(ts[1..], Fine);
      var k, v := ReadKeyValue(ts[1..]);
      l, trailing := ReadMorePairs(e.rest);
      l := Pairs(k, v, l);
      MorePairsHead(l, trailing, MorePairs(ts, Fine).rest);
    }
  }

  lemma ReadMapFrom(ts: Tokens) returns (c: Tree)
    requires Cur(ts) != TRBrace
    requires var first := ParsePrecedence(ts, PREC_IF_EXPR, Fine);
      Cur(first.rest) == TColon && MapFrom(first.node, first.rest[1..], first.mode).mode == Fine
    ensures var first := ParsePrecedence(ts, PREC_IF_EXPR, Fine);
      var r := MapFrom(first.node, first.rest[1..], first.mode);
      c.MapBraces? && Fits(c, PREC_COUNT) && Flat(c, r.rest) == Push(TLBrace, ts) && Strip(c) == r.node
    decreases |ts|, 5
  {
    hide ParsePrecedence, MorePairs, Prec, Fits, Flat, Strip, FlatMorePairs, FlatPairs;
    var first := ParsePrecedence(ts, PREC_IF_EXPR, Fine);
    var k := ReadTree(ts, PREC_IF_EXPR);
    Unpush(first.rest);
    var b := ParsePrecedence(first.rest[1..], PREC_IF_EXPR, Fine);
    var v := ReadTree(first.rest[1..], PREC_IF_EXPR);
    var more := MorePairs(b.rest, Fine);
    var l, trailing := ReadMorePairs(b.rest);
    Unpush(more.rest);
    MapTree(k, v, l, trailing, more.rest[1..]);
    c := MapBraces(Pairs(k, v, l), trailing);
  }

  lemma PrecBounded(t: Token)
    ensures Prec(t) <= PREC_CALL
  {
  }

  lemma {:induction false} LeafRule(t: Token, after: Tokens, min: nat)
    requires IsLeaf(t)
    ensures Prefix(t, after, Fine) == Out(LeafNode(t), after, Fine)
    ensures Fits(Leaf(t), min) && Strip(Leaf(t)) == LeafNode(t) && Flat(Leaf(t), after) == Push(t, after)
  {
    hide PrefixUnary, ListLiteral, GroupOrTuple;
  }

  lemma ReadOperand(op: UnOp, ts: Tokens) returns (e: Tree)
    requires PrefixUnary(op, ts, Fine).mode == Fine
    ensures var r := PrefixUnary(op, ts, Fine);
      Fits(e, OperandPrec(op)) && EndsBefore(e, r.rest, OperandPrec(op)) && Flat(e, r.rest) == ts && Unary(op, Strip(e)) == r.node
    decreases |ts|, 4
  {
    hide ParsePrecedence, Fits, Flat, Strip, Edge, Prec;
    e := ReadTree(ts, OperandPrec(op));
  }

  lemma ReadGroup(ts: Tokens) returns (c: Tree)
    requires GroupOrTuple(ts, Fine).mode == Fine
    ensures c.Group? || c.Parens?
    ensures var r := GroupOrTuple(ts, Fine);
      Fits(c, PREC_COUNT) && Flat(c, r.rest) == Push(TLParen, ts) && Strip(c) == r.node
    decreases |ts|, 5
  {
    hide ParsePrecedence, Items, Fits, Flat, Strip, Edge, Prec, FitsList, FlatList, StripList;
    if Cur(ts) == TRParen {
      c := ReadEmptyTuple(ts);
    } else {
      var first := ParsePrecedence(ts, PREC_IF_EXPR, Fine);
      var h := ReadTree(ts, PREC_IF_EXPR);
      Unpush(first.rest);
      if Cur(first.rest) == TComma {
        var more := Items(first.rest[1..], TRParen, Fine);
        Unpush(more.rest);
        var l, trailing := ReadItems(first.rest[1..], TRParen);
        trailing := l.NoTrees? || trailing;
        FlatTrailing(l, trailing, more.rest);
        TupleTree(h, l, trailing, more.rest[1..]);
        c := Parens(Trees(h, l), trailing);
      } else {
        GroupTree(h, first.rest[1..]);
        c := Group(h);
      }
    }
  }

  lemma {:induction false} GroupTree(h: Tree, rest: Tokens)
    requires Fits(h, PREC_IF_EXPR)
    ensures Fits(Group(h), PREC_COUNT) && Strip(Group(h)) == Strip(h)
    ensures Flat(Group(h), rest) == Push(TLParen, Flat(h, Push(TRParen, rest)))
  {
  }

  lemma {:induction false} FlatTrailing(l: TreeList, trailing: bool, rest: Tokens)
    ensures l.NoTrees? ==> FlatList(l, trailing, rest) == FlatList(l, false, rest)
  {
  }

  lemma ReadEmptyTuple(ts: Tokens) returns (c: Tree)
    requires ts != [] && ts[0] == TRParen
    ensures c.Parens? && Fits(c, PREC_COUNT) && Flat(c, ts[1..]) == Push(TLParen, ts) && Strip(c) == Tuple(NoNodes)
  {
    Unpush(ts);
    c := Parens(NoTrees, false);
  }

  lemma ReadList(ts: Tokens) returns (c: Tree)
    requires ListLiteral(ts, Fine).mode == Fine
    ensures c.Brackets?
    ensures var r := ListLiteral(ts, Fine);
      Fits(c, PREC_COUNT) && Flat(c, r.rest) == Push(TLBracket, ts) && Strip(c) == r.node
    decreases |ts|, 5
  {
    hide Items;
    var more := Items(ts, TRBracket, Fine);
    Unpush(more.rest);
    var l, trailing := ReadItems(ts, TRBracket);
    c := Brackets(l, trailing);
  }

  lemma {:induction false} ReadItems(ts: Tokens, close: Token) returns (l: TreeList, trailing: bool)
    requires close != TEof && close != TComma
    requires var r := Items(ts, close, Fine); r.mode == Fine && Cur(r.rest) == close
    ensures var r := Items(ts, close, Fine);
      FitsList(l) && (l.NoTrees? ==> !trailing) && FlatList(l, trailing, r.rest) == ts && StripList(l) == r.nodes
    decreases |ts|, 4
  {
    hide ParsePrecedence, Fits, Flat, Strip, Edge, Prec;
    if Cur(ts) == close {
      l, trailing := NoTrees, false;
    } else {
      var e := ParsePrecedence(ts, PREC_IF_EXPR, Fine);
      var h := ReadTree(ts, PREC_IF_EXPR);
      if Cur(e.rest) != TComma {
        l, trailing := Trees(h, NoTrees), false;
      } else {
        Unpush(e.rest);
        var t, more := ReadItems(e.rest[1..], close);
        l, trailing := Trees(h, t), if t.NoTrees? then true else more;
      }
    }
  }

  lemma ReadInfix(c: Tree, ts: Tokens, min: nat) returns (d: Tree)
    requires ts != [] && Fits(c, min) && 0 < min <= Prec(ts[0]) < Edge(c)
    requires ApplyInfix(Strip(c), ts[0], ts[1..]).mode == Fine
    ensures var r := ApplyInfix(Strip(c), ts[0], ts[1..]);
      Fits(d, min) && Prec(Cur(r.rest)) < Edge(d) && Flat(d, r.rest) == Flat(c, ts) && Strip(d) == r.node
    decreases |ts|, 1
  {
    hide ApplyInfix, Fits, Flat, Strip, Edge, Prec, Clear, NoFunctions;
    RuleToken(ts[0]);
    match InfixOf(ts[0])
    case BinaryRule(op) => d := ReadBinary(c, ts, min);
    case IsInRule => d := ReadIsIn(c, ts, min);
    case IfRule => d := ReadCond(c, ts, min);
    case AttrRule => d := ReadDot(c, ts, min);
    case IndexRule => d := ReadIndex(c, ts, min);
    case CallRule => d := ReadCall(c, ts, min);
    case PostfixRule(isInc) => d := ReadBump(c, ts, min);
  }

  /** Only the binary operators share a rule. */
  lemma RuleToken(t: Token)
    ensures InfixOf(t) == IsInRule ==> t == TIs || t == TIn || t == TNot
    ensures InfixOf(t) == IfRule ==> t == TIf
    ensures InfixOf(t) == AttrRule ==> t == TDot
    ensures InfixOf(t) == IndexRule ==> t == TLBracket
    ensures InfixOf(t) == CallRule ==> t == TLParen
    ensures InfixOf(t).PostfixRule? ==> t == TInc || t == TDec
    ensures InfixOf(t) == NoInfix <==> Prec(t) == PREC_NONE
  {
  }

  // ---------------------------------------------------------------------
  // One lemma for each infix rule
  // ---------------------------------------------------------------------

  /** What the tree read by an infix rule must satisfy. */
  ghost predicate Extends(d: Tree, c: Tree, ts: Tokens, min: nat, r: Out)
  {
    Fits(d, min) && Prec(Cur(r.rest)) < Edge(d) && Flat(d, r.rest) == Flat(c, ts) && Strip(d) == r.node
  }

  lemma BinaryToken(t: Token, op: Op)
    requires InfixOf(t) == BinaryRule(op)
    ensures t == OpToken(op) && Prec(t) == PrecOfOp(op) && !IsComparisonWord(op)
  {
    hide PrecOfOp, Prec;
    BinaryPrec(t, op);
  }

  lemma BinaryPrec(t: Token, op: Op)
    requires InfixOf(t) == BinaryRule(op)
    ensures Prec(t) == PrecOfOp(op)
  {
    hide PrecOfOp, InfixOf;
  }

  lemma InfixTree(c: Tree, op: Op, r: Tree, min: nat, rest: Tokens)
    requires Fits(c, min) && min <= PrecOfOp(op) < Edge(c) && Fits(r, RightPrec(op)) && (op == Is ==> First(r) != TNot)
    ensures var d := InfixOp(op, c, r);
      && Fits(d, min) && Edge(d) == Min(RightPrec(op), Edge(r)) && Strip(d) == Binary(op, Strip(c), Strip(r))
      && Flat(d, rest) == Flat(c, FlatOp(op, Flat(r, rest)))
  {
    hide FlatOp, PrecOfOp, RightPrec, First;
  }

  /** The right operand of a binary operator. */
  lemma ReadRight(c: Tree, op: Op, ts: Tokens, min: nat) returns (d: Tree)
    requires Fits(c, min) && 0 < min <= PrecOfOp(op) < Edge(c)
    requires op == Is ==> Cur(ts) != TNot
    requires InfixBinary(Strip(c), op, ts, Fine).mode == Fine
    ensures Extends(d, c, FlatOp(op, ts), min, InfixBinary(Strip(c), op, ts, Fine))
    decreases |ts|, 4
  {
    hide ParsePrecedence, FlatOp, Prec, InfixOf, PrecOfOp, Fits, Edge, Flat, Strip, First;
    var rest := ParsePrecedence(ts, RightPrec(op), Fine).rest;
    var r := ReadTree(ts, RightPrec(op));
    FirstToken(r, RightPrec(op), rest);
    InfixTree(c, op, r, min, rest);
    d := InfixOp(op, c, r);
  }

  lemma ReadBinary(c: Tree, ts: Tokens, min: nat) returns (d: Tree)
    requires ts != [] && InfixOf(ts[0]).BinaryRule? && Fits(c, min) && 0 < min <= Prec(ts[0]) < Edge(c)
    requires ApplyInfix(Strip(c), ts[0], ts[1..]).mode == Fine
    ensures Extends(d, c, ts, min, ApplyInfix(Strip(c), ts[0], ts[1..]))
    decreases |ts|, 0
  {
    hide InfixBinary, Extends, Fits, Edge, Flat, Strip, InfixOf, Prec, OpToken;
    var op := InfixOf(ts[0]).op;
    BinaryToken(ts[0], op);
    Unpush(ts);
    d := ReadRight(c, op, ts[1..], min);
  }

  lemma IsInApplies(left: Node, t: Token, after: Tokens)
    requires t == TIs || t == TIn || t == TNot
    ensures Prec(t) == PREC_COMPARE && ApplyInfix(left, t, after) == InfixIsIn(left, t, after)
  {
    hide InfixIsIn;
    assert InfixOf(t) == IsInRule;
  }

  lemma ReadIsIn(c: Tree, ts: Tokens, min: nat) returns (d: Tree)
    requires ts != [] && (ts[0] == TIs || ts[0] == TIn || ts[0] == TNot) && Fits(c, min) && 0 < min <= Prec(ts[0]) < Edge(c)
    requires ApplyInfix(Strip(c), ts[0], ts[1..]).mode == Fine
    ensures Extends(d, c, ts, min, ApplyInfix(Strip(c), ts[0], ts[1..]))
    decreases |ts|, 0
  {
    hide ApplyInfix, InfixBinary, Extends, Fits, Edge, Flat, Strip, InfixOf, Prec, Clear, NoFunctions;
    var t, after := ts[0], ts[1..];
    IsInApplies(Strip(c), t, after);
    Unpush(ts);
    if t == TIs {
      d := ReadIs(c, after, min);
    } else if t == TNot {
      Unpush(after);
      d := ReadRight(c, NotIn, after[1..], min);
    } else {
      d := ReadRight(c, In, after, min);
    }
  }

  lemma ReadIs(c: Tree, after: Tokens, min: nat) returns (d: Tree)
    requires Fits(c, min) && 0 < min <= PREC_COMPARE < Edge(c)
    requires InfixIsIn(Strip(c), TIs, after).mode == Fine
    ensures Extends(d, c, Push(TIs, after), min, InfixIsIn(Strip(c), TIs, after))
    decreases |after|, 5
  {
    hide InfixBinary, Extends, Fits, Edge, Flat, Strip, InfixOf, Prec;
    if Cur(after) == TNot {
      Unpush(after);
      d := ReadRight(c, IsNot, after[1..], min);
    } else {
      d := ReadRight(c, Is, after, min);
    }
  }

  lemma {:induction false} IfParts(left: Node, after: Tokens)
    requires InfixIf(left, after).mode == Fine
    ensures var k := ParsePrecedence(after, PREC_IF_EXPR, Fine);
      && k.mode == Fine && k.rest != [] && k.rest[0] == TElse
      && var a := ParsePrecedence(k.rest[1..], PREC_IF_EXPR, Fine);
      && a.mode == Fine && InfixIf(left, after) == Out(IfElse(left, k.node, a.node), a.rest, Fine)
  {
    hide ParsePrecedence;
  }

  lemma ReadCond(c: Tree, ts: Tokens, min: nat) returns (d: Tree)
    requires ts != [] && ts[0] == TIf && Fits(c, min) && 0 < min <= Prec(ts[0]) < Edge(c)
    requires ApplyInfix(Strip(c), ts[0], ts[1..]).mode == Fine
    ensures Extends(d, c, ts, min, ApplyInfix(Strip(c), ts[0], ts[1..]))
    decreases |ts|, 0
  {
    hide ParsePrecedence, ApplyInfix, InfixIf, Prec, InfixOf, Fits, Flat, Strip, Edge, Push, Extends, EndsBefore;
    var after := ts[1..];
    InfixRules(Strip(c), after);
    IfParts(Strip(c), after);
    var k := ParsePrecedence(after, PREC_IF_EXPR, Fine);
    var cond := ReadTree(after, PREC_IF_EXPR);
    var a := ParsePrecedence(k.rest[1..], PREC_IF_EXPR, Fine);
    var alt := ReadTree(k.rest[1..], PREC_IF_EXPR);
    d := Cond(c, cond, alt);
    Unpush(ts);
    Unpush(k.rest);
    CondExtends(c, cond, alt, min, k.rest[1..], a.rest);
  }

  lemma CondExtends(c: Tree, cond: Tree, alt: Tree, min: nat, tail: Tokens, rest: Tokens)
    requires Fits(c, min) && 0 < min <= PREC_IF_EXPR < Edge(c)
    requires Fits(cond, PREC_IF_EXPR) && Fits(alt, PREC_IF_EXPR) && EndsBefore(alt, rest, PREC_IF_EXPR) && Flat(alt, rest) == tail
    ensures Extends(Cond(c, cond, alt), c, Push(TIf, Flat(cond, Push(TElse, tail))), min,
      Out(IfElse(Strip(c), Strip(cond), Strip(alt)), rest, Fine))
  {
    hide Fits, Flat, Strip, Edge, Prec, Push;
    CondTree(c, cond, alt, min, rest);
  }

  lemma ReadDot(c: Tree, ts: Tokens, min: nat) returns (d: Tree)
    requires ts != [] && ts[0] == TDot && Fits(c, min) && 0 < min <= Prec(ts[0]) < Edge(c)
    requires ApplyInfix(Strip(c), ts[0], ts[1..]).mode == Fine
    ensures Extends(d, c, ts, min, ApplyInfix(Strip(c), ts[0], ts[1..]))
  {
    hide ApplyInfix, Prec, InfixOf, Fits, Flat, Strip, Edge;
    var after := ts[1..];
    DotRule(Strip(c), after);
    Unpush(ts);
    Unpush(after);
    PrecBounded(Cur(after[1..]));
    DotTree(c, after[0].x, min, after[1..]);
    d := Dot(c, after[0].x);
  }

  lemma ReadBump(c: Tree, ts: Tokens, min: nat) returns (d: Tree)
    requires ts != [] && (ts[0] == TInc || ts[0] == TDec) && Fits(c, min) && 0 < min <= Prec(ts[0]) < Edge(c)
    ensures Extends(d, c, ts, min, ApplyInfix(Strip(c), ts[0], ts[1..]))
  {
    hide ApplyInfix, Prec, InfixOf, Fits, Flat, Strip, Edge;
    var isInc := ts[0] == TInc;
    BumpRule(Strip(c), isInc, ts[1..]);
    Unpush(ts);
    PrecBounded(Cur(ts[1..]));
    BumpTree(c, isInc, min, ts[1..]);
    d := Bump(c, isInc);
  }

  lemma ReadPart(ts: Tokens, colonEnds: bool) returns (p: Part)
    requires OptionalPart(ts, colonEnds, Fine).mode == Fine
    ensures var r := OptionalPart(ts, colonEnds, Fine);
      && FitsPart(p) && FlatPart(p, r.rest) == ts && StripPart(p) == r.node
      && (p.Absent? ==> Cur(ts) == TRBracket || (colonEnds && Cur(ts) == TColon))
    decreases |ts|, 4
  {
    hide ParsePrecedence, Fits, Flat, Strip, Edge, Prec;
    if Cur(ts) == TRBracket || (colonEnds && Cur(ts) == TColon) {
      p := Absent;
    } else {
      var e := ReadTree(ts, PREC_IF_EXPR);
      p := Present(e);
    }
  }

  /** A subscript that is not a slice. */
  lemma ReadKey(c: Tree, ts: Tokens, min: nat, first: Part) returns (d: Tree)
    requires ts != [] && ts[0] == TLBracket && Fits(c, min) && 0 < min <= PREC_CALL < Edge(c)
    requires IndexOrSlice(Strip(c), ts[1..]).mode == Fine
    requires var lo := OptionalPart(ts[1..], true, Fine);
      && lo.mode == Fine && Cur(lo.rest) != TColon && lo.node != Missing
      && first.Present? && FitsPart(first) && FlatPart(first, lo.rest) == ts[1..] && StripPart(first) == lo.node
    ensures Extends(d, c, ts, min, IndexOrSlice(Strip(c), ts[1..]))
  {
    hide OptionalPart, Prec, InfixOf, Fits, Flat, Strip, Edge;
    var lo := OptionalPart(ts[1..], true, Fine);
    Unpush(ts);
    Unpush(lo.rest);
    PrecBounded(Cur(lo.rest[1..]));
    SubscriptTree(c, first.tree, min, lo.rest[1..]);
    d := Subscript(c, first.tree);
  }

  /** A subscript without an error has a readable first part, which only a slice may leave out. */
  lemma {:induction false} SubscriptParts(left: Node, after: Tokens)
    requires IndexOrSlice(left, after).mode == Fine
    ensures var lo := OptionalPart(after, true, Fine); lo.mode == Fine && (Cur(lo.rest) != TColon ==> lo.node != Missing)
  {
    hide OptionalPart;
  }

  lemma ReadIndex(c: Tree, ts: Tokens, min: nat) returns (d: Tree)
    requires ts != [] && ts[0] == TLBracket && Fits(c, min) && 0 < min <= Prec(ts[0]) < Edge(c)
    requires ApplyInfix(Strip(c), ts[0], ts[1..]).mode == Fine
    ensures Extends(d, c, ts, min, ApplyInfix(Strip(c), ts[0], ts[1..]))
    decreases |ts|, 0
  {
    hide OptionalPart, ApplyInfix, IndexOrSlice, Prec, InfixOf, Fits, Flat, Strip, Edge, Extends, FlatPart,
         FitsPart;
    var after := ts[1..];
    InfixRules(Strip(c), after);
    SubscriptParts(Strip(c), after);
    var first := ReadPart(after, true);
    if Cur(OptionalPart(after, true, Fine).rest) == TColon {
      d := ReadSlice(c, ts, min, first);
    } else {
      d := ReadKey(c, ts, min, first);
    }
  }

  lemma ReadSlice(c: Tree, ts: Tokens, min: nat, first: Part) returns (d: Tree)
    requires ts != [] && ts[0] == TLBracket && Fits(c, min) && 0 < min <= PREC_CALL < Edge(c)
    requires IndexOrSlice(Strip(c), ts[1..]).mode == Fine
    requires var lo := OptionalPart(ts[1..], true, Fine);
      lo.mode == Fine && Cur(lo.rest) == TColon && FitsPart(first) && FlatPart(first, lo.rest) == ts[1..] && StripPart(first) == lo.node
    ensures Extends(d, c, ts, min, IndexOrSlice(Strip(c), ts[1..]))
    decreases |ts[1..]|, 9
  {
    hide OptionalPart, StepPart, ApplyInfix, Prec, InfixOf, Fits, Flat, Strip, Edge, FitsPart, FlatPart, StripPart;
    var lo := OptionalPart(ts[1..], true, Fine);
    Unpush(ts);
    Unpush(lo.rest);
    SliceParts(Strip(c), lo.node, lo.rest[1..]);
    var hi := OptionalPart(lo.rest[1..], true, Fine);
    var second := ReadPart(lo.rest[1..], true);
    var step := StepPart(hi.rest, Fine);
    Unpush(step.rest);
    PrecBounded(Cur(step.rest[1..]));
    var third, two := ReadStep(hi.rest);
    d := Slicing(c, Parts(first, second, third, two));
    SlicingTree(c, d.parts, min, step.rest[1..]);
  }

  /** A slice without an error has readable parts and ends at the bracket. */
  lemma SliceParts(left: Node, lo: Node, ts: Tokens)
    requires SliceFrom(left, lo, ts, Fine).mode == Fine
    ensures var hi := OptionalPart(ts, true, Fine);
      && hi.mode == Fine
      && var step := StepPart(hi.rest, Fine);
      && step.mode == Fine && step.rest != [] && step.rest[0] == TRBracket
      && SliceFrom(left, lo, ts, Fine) == Out(Slice(left, lo, hi.node, step.node), step.rest[1..], Fine)
  {
    hide OptionalPart, StepPart;
  }

  lemma ReadStep(ts: Tokens) returns (p: Part, two: bool)
    requires var r := StepPart(ts, Fine); r.mode == Fine && Cur(r.rest) == TRBracket
    ensures var r := StepPart(ts, Fine);
      && FitsPart(p) && (!two ==> p.Absent?) && StripPart(p) == r.node
      && (if two then Push(TColon, FlatPart(p, r.rest)) else r.rest) == ts
    decreases |ts|, 5
  {
    hide OptionalPart, FitsPart, FlatPart, StripPart;
    if Cur(ts) == TColon {
      Unpush(ts);
      p := ReadPart(ts[1..], false);
      two := true;
    } else {
      p, two := Absent, false;
      AbsentPart(p);
    }
  }

  lemma ReadArg(ts: Tokens) returns (m: Mark, h: Tree)
    requires ts != [] && Argument(ts, Fine).mode == Fine
    ensures var r := Argument(ts, Fine);
      Fits(h, PREC_IF_EXPR) && FlatMark(m, Flat(h, r.rest)) == ts && MarkNode(m, Strip(h)) == r.node
    decreases |ts|, 4
  {
    hide ParsePrecedence, Fits, Flat, Strip, Edge, Prec;
    Unpush(ts);
    if ts[0] == TStarStar {
      m := DoubleStarred;
      h := ReadTree(ts[1..], PREC_IF_EXPR);
    } else if ts[0] == TStar {
      m := Starred;
      h := ReadTree(ts[1..], PREC_IF_EXPR);
    } else if ts[0].TIdent? && Cur(ts[1..]) == TAssign {
      Unpush(ts[1..]);
      m := Named(ts[0].x);
      h := ReadTree(ts[2..], PREC_IF_EXPR);
    } else {
      m := Plain;
      h := ReadTree(ts, PREC_IF_EXPR);
    }
  }

  lemma {:induction false} ReadArgs(ts: Tokens) returns (l: ArgList, trailing: bool)
    requires var r := CallArgs(ts, Fine); r.mode == Fine && Cur(r.rest) == TRParen
    ensures var r := CallArgs(ts, Fine);
      && FitsArgs(l) && (l.NoArgs? ==> !trailing) && FlatArgs(l, trailing, r.rest) == ts
      && Positional(l) == r.args && Keywords(l) == r.kwargs
    decreases |ts|, 5
  {
    hide Argument, Fits, Flat, Strip, FlatMark, FlatArgs, Positional, Keywords, IsKeywordArg;
    if Cur(ts) == TRParen {
      NoArgsTree(ts);
      l, trailing := NoArgs, false;
    } else {
      var e := Argument(ts, Fine);
      var m, h := ReadArg(ts);
      if Cur(e.rest) != TComma {
        NoArgsTree(e.rest);
        LastArg(m, h, e.rest);
        l, trailing := Args(m, h, NoArgs), false;
      } else {
        Unpush(e.rest);
        var t, more := ReadArgs(e.rest[1..]);
        l, trailing := Args(m, h, t), if t.NoArgs? then true else more;
        ConsArg(m, h, t, more, CallArgs(ts, Fine).rest);
      }
    }
  }

  lemma {:induction false} NoArgsTree(rest: Tokens)
    ensures FlatArgs(NoArgs, false, rest) == rest && Positional(NoArgs) == NoNodes && Keywords(NoArgs) == NoNodes
  {
  }

  lemma LastArg(m: Mark, h: Tree, rest: Tokens)
    ensures var l := Args(m, h, NoArgs);
      && FlatArgs(l, false, rest) == FlatMark(m, Flat(h, rest))
      && Arguments(Positional(l), Keywords(l), rest, Fine)
        == AddArgument(MarkNode(m, Strip(h)), Arguments(NoNodes, NoNodes, rest, Fine))
  {
    hide Flat, Strip, FlatMark;
  }

  lemma ConsArg(m: Mark, h: Tree, t: ArgList, more: bool, rest: Tokens)
    requires t.NoArgs? ==> !more
    ensures var l := Args(m, h, t);
      && FlatArgs(l, if t.NoArgs? then true else more, rest) == FlatMark(m, Flat(h, Push(TComma, FlatArgs(t, more, rest))))
      && Arguments(Positional(l), Keywords(l), rest, Fine)
        == AddArgument(MarkNode(m, Strip(h)), Arguments(Positional(t), Keywords(t), rest, Fine))
  {
    hide Flat, Strip, FlatMark;
  }

  lemma ReadCall(c: Tree, ts: Tokens, min: nat) returns (d: Tree)
    requires ts != [] && ts[0] == TLParen && Fits(c, min) && 0 < min <= Prec(ts[0]) < Edge(c)
    requires ApplyInfix(Strip(c), ts[0], ts[1..]).mode == Fine
    ensures Extends(d, c, ts, min, ApplyInfix(Strip(c), ts[0], ts[1..]))
    decreases |ts|, 0
  {
    hide CallArgs, ApplyInfix, Prec, InfixOf, Fits, Flat, Strip, Edge, FlatArgs, FitsArgs, Positional, Keywords;
    var after := ts[1..];
    Unpush(ts);
    InfixRules(Strip(c), after);
    var a := CallArgs(after, Fine);
    Unpush(a.rest);
    var l, trailing := ReadArgs(after);
    PrecBounded(Cur(a.rest[1..]));
    ApplyTree(c, l, trailing, min, a.rest[1..]);
    d := Apply(c, l, trailing);
  }
}
