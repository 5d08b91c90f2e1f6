/**
  What the two directions give: the parser accepts exactly the grammar, the grammar is unambiguous,
  printing and parsing are inverse, and the associativity of the operators.
*/
module RoundTrip {
  import opened Values
  import opened Pratt
  import opened Grammar
  import opened Parsing
  import opened Reading

  /** `ts` spells `n` in front of `rest`, and nothing in `rest` would be taken into it. */
  ghost predicate Spelled(c: Tree, ts: Tokens, min: nat, n: Node, rest: Tokens)
  {
    Fits(c, min) && EndsBefore(c, rest, min) && Flat(c, rest) == ts && Strip(c) == n
  }

  /**
    The parser succeeds with a tree and a rest exactly when the grammar has that spelling. `Fine` says
    that there was no error and no function literal; the grammar has none.
  */
  lemma ParsesExactly(ts: Tokens, min: nat, n: Node, rest: Tokens)
    requires min > 0
    ensures ParsePrecedence(ts, min, Fine) == Out(n, rest, Fine) <==> exists c :: Spelled(c, ts, min, n, rest)
  {
    hide ParsePrecedence, Fits, EndsBefore, Flat, Strip;
    if ParsePrecedence(ts, min, Fine) == Out(n, rest, Fine) {
      var c := ReadTree(ts, min);
      assert Spelled(c, ts, min, n, rest);
    }
    forall c | Spelled(c, ts, min, n, rest) ensures ParsePrecedence(ts, min, Fine) == Out(n, rest, Fine) {
      ParsesWhole(c, min, rest);
    }
  }

  /** No tokens have two meanings. */
  lemma Unambiguous(c: Tree, d: Tree, min: nat, rest: Tokens, tail: Tokens)
    requires min > 0 && Fits(c, min) && Fits(d, min) && EndsBefore(c, rest, min) && EndsBefore(d, tail, min)
    requires Flat(c, rest) == Flat(d, tail)
    ensures Strip(c) == Strip(d) && rest == tail
  {
    hide ParsePrecedence, Fits, EndsBefore, Flat, Strip;
    ParsesWhole(c, min, rest);
    ParsesWhole(d, min, tail);
  }

  // ---------------------------------------------------------------------
  // Printing with as many parentheses as precedence asks for
  // ---------------------------------------------------------------------

  /** The syntax trees of expressions that were parsed without an error and hold no function literal. */
  predicate Printable(n: Node)
  {
    match n
    case Missing => false
    case Unary(_, e) => Printable(e)
    case Binary(_, l, r) => Printable(l) && Printable(r)
    case IfElse(v, c, a) => Printable(v) && Printable(c) && Printable(a)
    case Attr(o, _) => Printable(o)
    case Index(o, k) => Printable(o) && Printable(k)
    case Slice(o, lo, hi, step) =>
      Printable(o) && (lo.Missing? || Printable(lo)) && (hi.Missing? || Printable(hi)) && (step.Missing? || Printable(step))
    case Call(f, args, kwargs) => Printable(f) && PrintableArgs(args) && PrintableKeywords(kwargs)
    case Star(_) => false
    case DoubleStar(_) => false
    case Keyword(_, _) => false
    case IncDec(e, _) => Printable(e)
    case List(elems) => PrintableList(elems)
    case Tuple(elems) => PrintableList(elems)
    case SetLit(elems) => PrintableList(elems) && elems.Item?
    case MapLit(pairs) => PrintablePairs(pairs)
    case Pair(_, _) => false
    case Make(n) => n.Missing? || Printable(n)
    case Recv(e) => Printable(e)
    case FuncLit(_) => false
    case _ => true
  }

  predicate PrintableList(l: NodeList)
  {
    l.Item? ==> Printable(l.node) && PrintableList(l.next)
  }

  predicate PrintablePairs(l: NodeList)
  {
    l.Item? ==> l.node.Pair? && Printable(l.node.key) && Printable(l.node.val) && PrintablePairs(l.next)
  }

  predicate PrintableArgs(l: NodeList)
  {
    l.Item? ==> (if l.node.Star? then Printable(l.node.inner) else Printable(l.node)) && PrintableArgs(l.next)
  }

  predicate PrintableKeywords(l: NodeList)
  {
    l.Item? ==> IsKeywordArg(l.node) && Printable(l.node.inner) && PrintableKeywords(l.next)
  }

  /** How tightly the outermost operator binds. */
  function Level(n: Node): nat
  {
    match n
    case Unary(op, _) => OperandPrec(op)
    case Binary(op, _, _) => PrecOfOp(op)
    case IfElse(_, _, _) => PREC_IF_EXPR
    case Attr(_, _) => PREC_CALL
    case Index(_, _) => PREC_CALL
    case Slice(_, _, _, _) => PREC_CALL
    case Call(_, _, _) => PREC_CALL
    case IncDec(_, _) => PREC_CALL
    case Recv(_) => PREC_UNARY
    case _ => PREC_COUNT
  }

  /** The minimum for the left operand; it is above the operator only for `**`. */
  function LeftPrec(op: Op): nat
  {
    if op == Pow then PREC_CALL else PrecOfOp(op)
  }

  function Dress(n: Node, min: nat): Tree
    requires Printable(n)
    decreases n, 1
  {
    if Level(n) < min then Group(Bare(n)) else Bare(n)
  }

  function Bare(n: Node): Tree
    requires Printable(n)
    decreases n, 0
  {
    match n
    case IntLit(i) => Leaf(TInt(i))
    case FloatLit(f) => Leaf(TFloat(f))
    case StrLit(s) => Leaf(TStr(s))
    case BytesLit(s) => Leaf(TBytes(s))
    case BoolLit(b) => Leaf(if b then TTrue else TFalse)
    case NilLit => Leaf(TNil)
    case Name(x) => Leaf(TIdent(x))
    case Unary(op, e) => PrefixOp(op, Dress(e, OperandPrec(op)))
    case Binary(op, l, r) => InfixOp(op, Dress(l, LeftPrec(op)), Dress(r, RightPrec(op)))
    case IfElse(v, c, a) => Cond(Dress(v, PREC_OR), Dress(c, PREC_IF_EXPR), Dress(a, PREC_IF_EXPR))
    case Attr(o, x) => Dot(Dress(o, PREC_CALL), x)
    case Index(o, k) => Subscript(Dress(o, PREC_CALL), Dress(k, PREC_IF_EXPR))
    case Slice(o, lo, hi, step) =>
      Slicing(Dress(o, PREC_CALL), Parts(DressPart(lo), DressPart(hi), DressPart(step), !step.Missing?))
    case Call(f, args, kwargs) => Apply(Dress(f, PREC_CALL), DressArgs(args, DressKeywords(kwargs)), false)
    case IncDec(e, isInc) => Bump(Dress(e, PREC_CALL), isInc)
    case List(elems) => Brackets(DressList(elems), false)
    case Tuple(elems) => Parens(DressList(elems), elems.Item? && elems.next.NoNodes?)
    case SetLit(elems) => SetBraces(DressList(elems), false)
    case MapLit(pairs) => MapBraces(DressPairs(pairs), false)
    case Make(n) => MakeChan(DressPart(n))
    case Recv(e) => ReceiveOp(Dress(e, PREC_UNARY))
  }

  function DressPart(n: Node): Part
    requires n.Missing? || Printable(n)
    decreases n, 2
  {
    if n.Missing? then Absent else Present(Dress(n, PREC_IF_EXPR))
  }

  function DressList(l: NodeList): TreeList
    requires PrintableList(l)
    decreases l, 0
  {
    match l
    case NoNodes => NoTrees
    case Item(n, next) => Trees(Dress(n, PREC_IF_EXPR), DressList(next))
  }

  function DressPairs(l: NodeList): PairList
    requires PrintablePairs(l)
    decreases l, 0
  {
    match l
    case NoNodes => NoPairs
    case Item(n, next) => Pairs(Dress(n.key, PREC_IF_EXPR), Dress(n.val, PREC_IF_EXPR), DressPairs(next))
  }

  function DressArgs(args: NodeList, more: ArgList): ArgList
    requires PrintableArgs(args)
    decreases args, 0
  {
    match args
    case NoNodes => more
    case Item(n, next) =>
      if n.Star? then Args(Starred, Dress(n.inner, PREC_IF_EXPR), DressArgs(next, more))
      else Args(Plain, Dress(n, PREC_IF_EXPR), DressArgs(next, more))
  }

  function DressKeywords(kwargs: NodeList): ArgList
    requires PrintableKeywords(kwargs)
  {
    match kwargs
    case NoNodes => NoArgs
    case Item(n, next) =>
      Args(if n.Keyword? then Named(n.kname) else DoubleStarred, Dress(n.inner, PREC_IF_EXPR), DressKeywords(next))
  }

  /** The levels of the left-associative operators and of the postfix forms. */
  predicate LeftLevel(p: nat)
  {
    p == PREC_OR || p == PREC_AND || PREC_COMPARE <= p <= PREC_FACTOR || p == PREC_CALL
  }

  lemma {:induction false} EdgeOfBare(n: Node)
    requires Printable(n)
    ensures Edge(Bare(n)) >= Level(n) && (LeftLevel(Level(n)) ==> Edge(Bare(n)) > Level(n))
    decreases n, 0
  {
    match n
    case Unary(op, e) => EdgeOfDress(e, OperandPrec(op));
    case Binary(op, _, r) => EdgeOfDress(r, RightPrec(op));
    case IfElse(_, _, a) => EdgeOfDress(a, PREC_IF_EXPR);
    case Recv(e) => EdgeOfDress(e, PREC_UNARY);
    case _ =>
  }

  lemma {:induction false} EdgeOfDress(n: Node, p: nat)
    requires Printable(n) && p <= PREC_COUNT
    ensures Edge(Dress(n, p)) >= p && (LeftLevel(p) ==> Edge(Dress(n, p)) > p)
    decreases n, 1
  {
    EdgeOfBare(n);
  }

  /** Below a comparison, an unparenthesised expression does not start with `not`. */
  lemma {:induction false} FirstOfDress(n: Node, p: nat)
    requires Printable(n) && p >= PREC_COMPARE
    ensures First(Dress(n, p)) != TNot
    decreases n, 1
  {
    hide DressList, DressPart, DressArgs, DressKeywords, DressPairs, RightPrec;
    if Level(n) >= p {
      match n
      case Binary(op, l, _) => FirstOfDress(l, LeftPrec(op));
      case Attr(_, _) => FirstOfObject(n);
      case Index(_, _) => FirstOfObject(n);
      case Slice(_, _, _, _) => FirstOfObject(n);
      case Call(_, _, _) => FirstOfObject(n);
      case IncDec(_, _) => FirstOfObject(n);
      case _ =>
    }
  }

  /** What a postfix form stands behind. */
  function Object(n: Node): Node
    requires n.Attr? || n.Index? || n.Slice? || n.Call? || n.IncDec?
  {
    match n
    case Attr(o, _) => o
    case Index(o, _) => o
    case Slice(o, _, _, _) => o
    case Call(f, _, _) => f
    case IncDec(e, _) => e
  }

  lemma {:induction false} FirstOfObject(n: Node)
    requires Printable(n) && (n.Attr? || n.Index? || n.Slice? || n.Call? || n.IncDec?)
    ensures First(Bare(n)) != TNot
    decreases n, 0
  {
    hide DressList, DressPart, DressArgs, DressKeywords, DressPairs, Dress, PrecOfOp, RightPrec, LeftPrec, OperandPrec;
    FirstOfDress(Object(n), PREC_CALL);
  }

  /** A tree that fits at a minimum fits at every lower one. */
  lemma {:induction false} FitsDown(c: Tree, high: nat, low: nat)
    requires Fits(c, high) && low <= high
    ensures Fits(c, low)
  {
    match c
    case InfixOp(_, l, _) => FitsDown(l, high, low);
    case Cond(v, _, _) => FitsDown(v, high, low);
    case Dot(o, _) => FitsDown(o, high, low);
    case Subscript(o, _) => FitsDown(o, high, low);
    case Slicing(o, _) => FitsDown(o, high, low);
    case Apply(f, _, _) => FitsDown(f, high, low);
    case Bump(e, _) => FitsDown(e, high, low);
    case _ =>
  }

  // ---------------------------------------------------------------------
  // The printed tree fits and means what was printed
  // ---------------------------------------------------------------------

  ghost predicate Dressed(n: Node, p: nat)
    requires Printable(n)
  {
    Fits(Dress(n, p), p) && Strip(Dress(n, p)) == n
  }

  lemma {:induction false} DressFits(n: Node, p: nat)
    requires Printable(n) && p <= PREC_COUNT
    ensures Dressed(n, p)
    decreases n, 3
  {
    hide Fits, Strip, Bare;
    if Level(n) < p {
      BareFits(n, PREC_IF_EXPR);
      GroupTree(Bare(n), []);
      FitsAnywhere(Bare(n), p);
    } else {
      BareFits(n, p);
    }
  }

  lemma {:induction false} FitsAnywhere(c: Tree, p: nat)
    requires Fits(Group(c), PREC_COUNT)
    ensures Fits(Group(c), p)
  {
  }

  lemma {:induction false} BareFits(n: Node, p: nat)
    requires Printable(n) && p <= Level(n)
    ensures Fits(Bare(n), p) && Strip(Bare(n)) == n
    decreases n, 2
  {
    hide Fits, Strip, Bare;
    match n
    case Unary(_, _) => BareUnary(n, p);
    case Binary(_, _, _) => BareBinary(n, p);
    case IfElse(_, _, _) => BareIfElse(n, p);
    case Attr(_, _) => BarePostfix(n, p);
    case Index(_, _) => BarePostfix(n, p);
    case Slice(_, _, _, _) => BareSlice(n, p);
    case Call(_, _, _) => BareCall(n, p);
    case IncDec(_, _) => BarePostfix(n, p);
    case List(_) => BareLists(n, p);
    case Tuple(_) => BareLists(n, p);
    case SetLit(_) => BareLists(n, p);
    case MapLit(_) => BareMap(n, p);
    case Make(_) => BareMake(n, p);
    case Recv(_) => BareReceive(n, p);
    case _ => BareLeaf(n, p);
  }

  lemma {:induction false} BareLeaf(n: Node, p: nat)
    requires Printable(n) && (n.IntLit? || n.FloatLit? || n.StrLit? || n.BytesLit? || n.BoolLit? || n.NilLit? || n.Name?)
    ensures Fits(Bare(n), p) && Strip(Bare(n)) == n
  {
  }

  lemma {:induction false} BareUnary(n: Node, p: nat)
    requires Printable(n) && n.Unary?
    ensures Fits(Bare(n), p) && Strip(Bare(n)) == n
    decreases n, 1
  {
    DressFits(n.operand, OperandPrec(n.uop));
  }

  lemma {:induction false} BareBinary(n: Node, p: nat)
    requires Printable(n) && n.Binary? && p <= Level(n)
    ensures Fits(Bare(n), p) && Strip(Bare(n)) == n
    decreases n, 1
  {
    hide Fits, Strip, Edge, First, Dress;
    var l, r := Dress(n.left, LeftPrec(n.op)), Dress(n.right, RightPrec(n.op));
    DressFits(n.left, LeftPrec(n.op));
    DressFits(n.right, RightPrec(n.op));
    EdgeOfDress(n.left, LeftPrec(n.op));
    if n.op == Is {
      FirstOfDress(n.right, RightPrec(n.op));
    }
    FitsDown(l, LeftPrec(n.op), p);
    InfixTree(l, n.op, r, p, []);
  }

  lemma {:induction false} BareIfElse(n: Node, p: nat)
    requires Printable(n) && n.IfElse? && p <= PREC_IF_EXPR
    ensures Fits(Bare(n), p) && Strip(Bare(n)) == n
    decreases n, 1
  {
    hide Fits, Strip, Edge, Dress;
    DressFits(n.value, PREC_OR);
    DressFits(n.cond, PREC_IF_EXPR);
    DressFits(n.alt, PREC_IF_EXPR);
    EdgeOfDress(n.value, PREC_OR);
    FitsDown(Dress(n.value, PREC_OR), PREC_OR, p);
    CondTree(Dress(n.value, PREC_OR), Dress(n.cond, PREC_IF_EXPR), Dress(n.alt, PREC_IF_EXPR), p, []);
  }

  /** What a postfix form stands behind. */
  lemma {:induction false} PostfixObject(o: Node, p: nat)
    requires Printable(o) && p <= PREC_CALL
    ensures Fits(Dress(o, PREC_CALL), p) && Edge(Dress(o, PREC_CALL)) > PREC_CALL && Strip(Dress(o, PREC_CALL)) == o
    decreases o, 4
  {
    hide Fits, Strip, Edge, Dress;
    DressFits(o, PREC_CALL);
    EdgeOfDress(o, PREC_CALL);
    FitsDown(Dress(o, PREC_CALL), PREC_CALL, p);
  }

  lemma {:induction false} BarePostfix(n: Node, p: nat)
    requires Printable(n) && (n.Attr? || n.Index? || n.IncDec?) && p <= PREC_CALL
    ensures Fits(Bare(n), p) && Strip(Bare(n)) == n
    decreases n, 1
  {
    hide Fits, Strip, Edge, Dress;
    if n.IncDec? {
      PostfixObject(n.target, p);
      BumpTree(Dress(n.target, PREC_CALL), n.isInc, p, []);
    } else if n.Attr? {
      PostfixObject(n.obj, p);
      DotTree(Dress(n.obj, PREC_CALL), n.name, p, []);
    } else {
      PostfixObject(n.obj, p);
      DressFits(n.key, PREC_IF_EXPR);
      SubscriptTree(Dress(n.obj, PREC_CALL), Dress(n.key, PREC_IF_EXPR), p, []);
    }
  }

  lemma {:induction false} PartFits(n: Node)
    requires n.Missing? || Printable(n)
    ensures FitsPart(DressPart(n)) && StripPart(DressPart(n)) == n
    decreases n, 4
  {
    hide Fits, Strip, Dress;
    if !n.Missing? {
      DressFits(n, PREC_IF_EXPR);
    }
  }

  lemma {:induction false} BareSlice(n: Node, p: nat)
    requires Printable(n) && n.Slice? && p <= PREC_CALL
    ensures Fits(Bare(n), p) && Strip(Bare(n)) == n
    decreases n, 1
  {
    hide Fits, Strip, Edge, Dress, FitsPart, StripPart;
    PostfixObject(n.obj, p);
    PartFits(n.lo);
    PartFits(n.hi);
    PartFits(n.step);
    SlicingTree(Dress(n.obj, PREC_CALL), Bare(n).parts, p, []);
  }

  lemma {:induction false} ListFits(l: NodeList)
    requires PrintableList(l)
    ensures FitsList(DressList(l)) && StripList(DressList(l)) == l
    decreases l, 0
  {
    hide Fits, Strip, Dress;
    if l.Item? {
      DressFits(l.node, PREC_IF_EXPR);
      ListFits(l.next);
    }
  }

  lemma {:induction false} BareLists(n: Node, p: nat)
    requires Printable(n) && (n.List? || n.Tuple? || n.SetLit?)
    ensures Fits(Bare(n), p) && Strip(Bare(n)) == n
    decreases n, 1
  {
    hide Fits, Strip, FitsList, StripList;
    ListFits(n.elems);
    ListTrees(DressList(n.elems), p);
  }

  lemma {:induction false} ListTrees(l: TreeList, p: nat)
    requires FitsList(l)
    ensures Fits(Brackets(l, false), p) && Strip(Brackets(l, false)) == List(StripList(l))
    ensures l.Trees? ==> Fits(SetBraces(l, false), p) && Strip(SetBraces(l, false)) == SetLit(StripList(l))
    ensures var trailing := l.Trees? && l.tail.NoTrees?;
      Fits(Parens(l, trailing), p) && Strip(Parens(l, trailing)) == Tuple(StripList(l))
  {
    hide FitsList, StripList, FitsPairs, StripPairs, FitsArgs, FitsSlice, FitsPart, StripPart, PrecOfOp, RightPrec,
         OperandPrec, Edge, First, IsLeaf, Positional, Keywords;
  }

  lemma {:induction false} PairsFit(l: NodeList)
    requires PrintablePairs(l)
    ensures FitsPairs(DressPairs(l)) && StripPairs(DressPairs(l)) == l
    decreases l, 0
  {
    hide Fits, Strip, Dress;
    if l.Item? {
      DressFits(l.node.key, PREC_IF_EXPR);
      DressFits(l.node.val, PREC_IF_EXPR);
      PairsFit(l.next);
    }
  }

  lemma {:induction false} BareMap(n: Node, p: nat)
    requires Printable(n) && n.MapLit?
    ensures Fits(Bare(n), p) && Strip(Bare(n)) == n
    decreases n, 1
  {
    hide FitsPairs, StripPairs;
    PairsFit(n.pairs);
  }

  lemma {:induction false} BareMake(n: Node, p: nat)
    requires Printable(n) && n.Make?
    ensures Fits(Bare(n), p) && Strip(Bare(n)) == n
    decreases n, 1
  {
    hide FitsPart, StripPart;
    PartFits(n.capacity);
  }

  lemma {:induction false} BareReceive(n: Node, p: nat)
    requires Printable(n) && n.Recv?
    ensures Fits(Bare(n), p) && Strip(Bare(n)) == n
    decreases n, 1
  {
    DressFits(n.channel, PREC_UNARY);
  }

  lemma {:induction false} KeywordsFit(l: NodeList)
    requires PrintableKeywords(l)
    ensures var a := DressKeywords(l); FitsArgs(a) && Positional(a) == NoNodes && Keywords(a) == l
    decreases l, 0
  {
    hide Fits, Strip, Dress;
    if l.Item? {
      DressFits(l.node.inner, PREC_IF_EXPR);
      KeywordsFit(l.next);
    }
  }

  lemma {:induction false} ArgsFit(l: NodeList, more: ArgList)
    requires PrintableArgs(l) && FitsArgs(more) && Positional(more) == NoNodes
    ensures var a := DressArgs(l, more); FitsArgs(a) && Positional(a) == l && Keywords(a) == Keywords(more)
    decreases l, 0
  {
    hide Fits, Strip, Dress;
    if l.Item? {
      DressFits(if l.node.Star? then l.node.inner else l.node, PREC_IF_EXPR);
      ArgsFit(l.next, more);
    }
  }

  lemma {:induction false} BareCall(n: Node, p: nat)
    requires Printable(n) && n.Call? && p <= PREC_CALL
    ensures Fits(Bare(n), p) && Strip(Bare(n)) == n
    decreases n, 1
  {
    hide Fits, Strip, Edge, Dress, FitsArgs, Positional, Keywords;
    PostfixObject(n.callee, p);
    KeywordsFit(n.kwargs);
    ArgsFit(n.args, DressKeywords(n.kwargs));
    ApplyTree(Dress(n.callee, PREC_CALL), DressArgs(n.args, DressKeywords(n.kwargs)), false, p, []);
  }

  lemma {:induction false} StripPrintable(c: Tree, min: nat)
    requires Fits(c, min)
    ensures Printable(Strip(c))
    decreases c
  {
    hide Edge, PrecOfOp, RightPrec, FitsArgs, FitsList, FitsPairs, FitsPart, StripPairs, StripPart, Positional,
         Keywords;
    hide PrintableList, PrintablePairs, PrintableArgs, PrintableKeywords;
    match c
    case Leaf(_) =>
    case Group(g) => StripPrintable(g, PREC_IF_EXPR);
    case PrefixOp(op, e) => StripPrintable(e, OperandPrec(op));
    case InfixOp(op, l, r) =>
      StripPrintable(l, min);
      StripPrintable(r, RightPrec(op));
    case Cond(v, k, a) =>
      StripPrintable(v, min);
      StripPrintable(k, PREC_IF_EXPR);
      StripPrintable(a, PREC_IF_EXPR);
    case Dot(o, _) => StripPrintable(o, min);
    case Subscript(o, k) =>
      StripPrintable(o, min);
      StripPrintable(k, PREC_IF_EXPR);
    case Slicing(o, p) =>
      StripPrintable(o, min);
      PartPrintable(p.lo);
      PartPrintable(p.hi);
      PartPrintable(p.step);
    case Apply(f, args, _) =>
      StripPrintable(f, min);
      ArgsPrintable(args);
    case Bump(e, _) => StripPrintable(e, min);
    case Brackets(l, _) => ListPrintable(l);
    case Parens(l, _) => ListPrintable(l);
    case SetBraces(l, _) => ListPrintable(l);
    case MapBraces(l, _) => PairsPrintable(l);
    case MakeChan(n) => PartPrintable(n);
    case ReceiveOp(e) => StripPrintable(e, PREC_UNARY);
  }

  lemma {:induction false} PairsPrintable(l: PairList)
    requires FitsPairs(l)
    ensures PrintablePairs(StripPairs(l))
    decreases l
  {
    if l.Pairs? {
      StripPrintable(l.key, PREC_IF_EXPR);
      StripPrintable(l.val, PREC_IF_EXPR);
      PairsPrintable(l.more);
    }
  }

  lemma {:induction false} PartPrintable(p: Part)
    requires FitsPart(p)
    ensures StripPart(p).Missing? || Printable(StripPart(p))
    decreases p
  {
    if p.Present? {
      StripPrintable(p.tree, PREC_IF_EXPR);
    }
  }

  lemma {:induction false} ListPrintable(l: TreeList)
    requires FitsList(l)
    ensures PrintableList(StripList(l))
    decreases l
  {
    if l.Trees? {
      StripPrintable(l.head, PREC_IF_EXPR);
      ListPrintable(l.tail);
    }
  }

  lemma {:induction false} ArgsPrintable(l: ArgList)
    requires FitsArgs(l)
    ensures PrintableArgs(Positional(l)) && PrintableKeywords(Keywords(l))
    decreases l
  {
    if l.Args? {
      StripPrintable(l.head, PREC_IF_EXPR);
      ArgsPrintable(l.tail);
    }
  }

  /** The tokens that spell `n` at a minimum precedence, in front of `rest`. */
  function Printed(n: Node, min: nat, rest: Tokens): Tokens
    requires Printable(n)
  {
    Flat(Dress(n, min), rest)
  }

  /** Printing and parsing: the same tree comes back, and reading stops at the first token below the minimum. */
  lemma {:induction false} PrintedParses(n: Node, min: nat, rest: Tokens)
    requires Printable(n) && 0 < min <= PREC_COUNT && Prec(Cur(rest)) < min
    ensures ParsePrecedence(Printed(n, min, rest), min, Fine) == Out(n, rest, Fine)
  {
    hide ParsePrecedence, Fits, Flat, Strip, Edge, Dress;
    DressFits(n, min);
    EdgeOfDress(n, min);
    ParsesWhole(Dress(n, min), min, rest);
  }

  /** Parsing and printing: what was read without an error prints to tokens that read the same. */
  lemma {:induction false} ParsedPrints(ts: Tokens, min: nat)
    requires 0 < min <= PREC_COUNT && ParsePrecedence(ts, min, Fine).mode == Fine
    ensures var r := ParsePrecedence(ts, min, Fine);
      Printable(r.node) && ParsePrecedence(Printed(r.node, min, r.rest), min, Fine) == r
  {
    hide ParsePrecedence, Fits, Flat, Strip, Dress;
    var r := ParsePrecedence(ts, min, Fine);
    var c := ReadTree(ts, min);
    StripPrintable(c, min);
    PrintedParses(r.node, min, r.rest);
  }

  // ---------------------------------------------------------------------
  // Associativity and precedence, for operands of any shape
  // ---------------------------------------------------------------------

  /** An operand that needs no parentheses on either side of an operator at level `p`. */
  predicate Operand(c: Tree, p: nat)
  {
    Fits(c, p + 1) && Edge(c) > p + 1 && First(c) != TNot
  }

  lemma BindsRight(op: Op)
    requires op != Pow
    ensures PrecOfOp(op) > 0 && RightPrec(op) == PrecOfOp(op) + 1
  {
  }

  lemma LeftTree(op1: Op, op2: Op, x: Tree, y: Tree, z: Tree, rest: Tokens) returns (c: Tree)
    requires op1 != Pow && op2 != Pow && PrecOfOp(op1) == PrecOfOp(op2)
    requires Operand(x, PrecOfOp(op1)) && Operand(y, PrecOfOp(op1)) && Operand(z, PrecOfOp(op1))
    ensures Fits(c, PrecOfOp(op1)) && Edge(c) == PrecOfOp(op1) + 1
    ensures Flat(c, rest) == Flat(x, FlatOp(op1, Flat(y, FlatOp(op2, Flat(z, rest)))))
    ensures Strip(c) == Binary(op2, Binary(op1, Strip(x), Strip(y)), Strip(z))
  {
    hide Fits, Flat, Strip, Edge, First, FlatOp, PrecOfOp, RightPrec;
    var p := PrecOfOp(op1);
    BindsRight(op1);
    BindsRight(op2);
    FitsDown(x, p + 1, p);
    InfixTree(x, op1, y, p, FlatOp(op2, Flat(z, rest)));
    InfixTree(InfixOp(op1, x, y), op2, z, p, rest);
    c := InfixOp(op2, InfixOp(op1, x, y), z);
  }

  /** Operators of one level group to the left, except `**`. */
  lemma LeftAssociates(op1: Op, op2: Op, x: Tree, y: Tree, z: Tree, rest: Tokens)
    requires op1 != Pow && op2 != Pow && PrecOfOp(op1) == PrecOfOp(op2)
    requires Operand(x, PrecOfOp(op1)) && Operand(y, PrecOfOp(op1)) && Operand(z, PrecOfOp(op1))
    requires Prec(Cur(rest)) < PrecOfOp(op1)
    ensures ParsePrecedence(Flat(x, FlatOp(op1, Flat(y, FlatOp(op2, Flat(z, rest))))), PrecOfOp(op1), Fine)
      == Out(Binary(op2, Binary(op1, Strip(x), Strip(y)), Strip(z)), rest, Fine)
  {
    hide ParsePrecedence, Fits, Flat, Strip, Edge, First, FlatOp, Prec, PrecOfOp, Operand;
    BindsRight(op1);
    var c := LeftTree(op1, op2, x, y, z, rest);
    ParsesWhole(c, PrecOfOp(op1), rest);
  }

  /** `**` groups to the right. */
  lemma PowerAssociatesRight(x: Tree, y: Tree, z: Tree, rest: Tokens)
    requires Operand(x, PREC_POWER) && Operand(y, PREC_POWER) && Operand(z, PREC_POWER)
    requires Prec(Cur(rest)) < PREC_POWER
    ensures ParsePrecedence(Flat(x, FlatOp(Pow, Flat(y, FlatOp(Pow, Flat(z, rest))))), PREC_POWER, Fine)
      == Out(Binary(Pow, Strip(x), Binary(Pow, Strip(y), Strip(z))), rest, Fine)
  {
    hide ParsePrecedence, Fits, Flat, Strip, Edge, First, FlatOp;
    FitsDown(x, PREC_CALL, PREC_POWER);
    FitsDown(y, PREC_CALL, PREC_POWER);
    FitsDown(z, PREC_CALL, PREC_POWER);
    InfixTree(y, Pow, z, PREC_POWER, rest);
    InfixTree(x, Pow, InfixOp(Pow, y, z), PREC_POWER, rest);
    ParsesWhole(InfixOp(Pow, x, InfixOp(Pow, y, z)), PREC_POWER, rest);
  }

  /** `-x ** y` is `-(x ** y)` at every minimum; so are `+x ** y` and `~x ** y`. */
  lemma SignOverPower(op: UnOp, x: Tree, y: Tree, min: nat, rest: Tokens)
    requires op != Not && min > 0
    requires Operand(x, PREC_POWER) && Operand(y, PREC_POWER) && Prec(Cur(rest)) < PREC_POWER && Prec(Cur(rest)) < min
    ensures ParsePrecedence(Push(UnToken(op), Flat(x, FlatOp(Pow, Flat(y, rest)))), min, Fine)
      == Out(Unary(op, Binary(Pow, Strip(x), Strip(y))), rest, Fine)
  {
    hide ParsePrecedence, FlatOp, First;
    FitsDown(x, PREC_CALL, PREC_POWER);
    FitsDown(y, PREC_CALL, PREC_POWER);
    InfixTree(x, Pow, y, PREC_POWER, rest);
    ParsesWhole(PrefixOp(op, InfixOp(Pow, x, y)), min, rest);
  }

  /** `v1 if k1 else v2 if k2 else v3` is `v1 if k1 else (v2 if k2 else v3)`. */
  lemma ConditionalsNestRight(v1: Tree, k1: Tree, v2: Tree, k2: Tree, v3: Tree, rest: Tokens)
    requires Operand(v1, PREC_IF_EXPR) && Operand(v2, PREC_IF_EXPR) && Operand(v3, PREC_IF_EXPR)
    requires Fits(k1, PREC_IF_EXPR) && Fits(k2, PREC_IF_EXPR) && Prec(Cur(rest)) == PREC_NONE
    ensures ParsePrecedence(Flat(Cond(v1, k1, Cond(v2, k2, v3)), rest), PREC_IF_EXPR, Fine)
      == Out(IfElse(Strip(v1), Strip(k1), IfElse(Strip(v2), Strip(k2), Strip(v3))), rest, Fine)
    ensures Flat(Cond(v1, k1, Cond(v2, k2, v3)), rest)
      == Flat(v1, Push(TIf, Flat(k1, Push(TElse, Flat(v2, Push(TIf, Flat(k2, Push(TElse, Flat(v3, rest)))))))))
  {
    hide ParsePrecedence, Fits, Flat, Strip, Edge, First;
    FitsDown(v1, PREC_OR, PREC_IF_EXPR);
    FitsDown(v2, PREC_OR, PREC_IF_EXPR);
    FitsDown(v3, PREC_OR, PREC_IF_EXPR);
    CondTree(v2, k2, v3, PREC_IF_EXPR, rest);
    CondTree(v1, k1, Cond(v2, k2, v3), PREC_IF_EXPR, rest);
    ParsesWhole(Cond(v1, k1, Cond(v2, k2, v3)), PREC_IF_EXPR, rest);
  }
}
