/**
  The grammar the rule table stands for, written without a parser: concrete trees with explicit
  parentheses and trailing commas, the tokens each one spells, the syntax tree each one means, and
  which of them need no further parentheses at a given minimum precedence.
*/
module Grammar {
  import opened Values
  import opened Pratt

  datatype Tree =
    | Leaf(t: Token)
    | Group(inner: Tree)
    | PrefixOp(uop: UnOp, operand: Tree)
    | InfixOp(op: Op, left: Tree, right: Tree)
    | Cond(value: Tree, cond: Tree, alt: Tree)
    | Dot(obj: Tree, name: Text)
    | Subscript(obj: Tree, key: Tree)
    | Slicing(obj: Tree, parts: Parts)
    | Apply(callee: Tree, args: ArgList, trailing: bool)
    | Bump(target: Tree, isInc: bool)
    | Brackets(elems: TreeList, trailing: bool)
    | Parens(elems: TreeList, trailing: bool)
    | SetBraces(elems: TreeList, trailing: bool)
    | MapBraces(pairs: PairList, trailing: bool)
    | MakeChan(capacity: Part)
    | ReceiveOp(channel: Tree)

  datatype Part = Absent | Present(tree: Tree)

  datatype Parts = Parts(lo: Part, hi: Part, step: Part, twoColons: bool)

  datatype TreeList = NoTrees | Trees(head: Tree, tail: TreeList)

  datatype PairList = NoPairs | Pairs(key: Tree, val: Tree, more: PairList)

  datatype Mark = Plain | Starred | DoubleStarred | Named(name: Text)

  datatype ArgList = NoArgs | Args(mark: Mark, head: Tree, tail: ArgList)

  // ---------------------------------------------------------------------
  // What a concrete tree spells and means
  // ---------------------------------------------------------------------

  function Push(t: Token, ts: Tokens): (r: Tokens)
    ensures r != [] && r[0] == t && r[1..] == ts
  {
    [t] + ts
  }

  function UnToken(op: UnOp): Token
  {
    match op
    case Neg => TMinus
    case Pos => TPlus
    case Inv => TTilde
    case Not => TNot
  }

  function OpToken(op: Op): Token
  {
    match op
    case Or => TOr
    case And => TAnd
    case Eq => TEq
    case Neq => TNeq
    case Lt => TLt
    case Gt => TGt
    case Le => TLe
    case Ge => TGe
    case Is => TIs
    case IsNot => TIs
    case In => TIn
    case NotIn => TNot
    case BitOr => TPipe
    case BitXor => TCaret
    case BitAnd => TAmp
    case Shl => TShl
    case Shr => TShr
    case Add => TPlus
    case Sub => TMinus
    case Mul => TStar
    case Div => TSlash
    case Mod => TPercent
    case Pow => TStarStar
  }

  /** `is not` and `not in` are spelled with two tokens. */
  function FlatOp(op: Op, rest: Tokens): Tokens
  {
    Push(OpToken(op), if op == IsNot then Push(TNot, rest) else if op == NotIn then Push(TIn, rest) else rest)
  }

  /** The tokens of `c`, in front of `rest`. */
  function Flat(c: Tree, rest: Tokens): Tokens
  {
    match c
    case Leaf(t) => Push(t, rest)
    case Group(g) => Push(TLParen, Flat(g, Push(TRParen, rest)))
    case PrefixOp(op, e) => Push(UnToken(op), Flat(e, rest))
    case InfixOp(op, l, r) => Flat(l, FlatOp(op, Flat(r, rest)))
    case Cond(v, k, a) => Flat(v, Push(TIf, Flat(k, Push(TElse, Flat(a, rest)))))
    case Dot(o, x) => Flat(o, Push(TDot, Push(TIdent(x), rest)))
    case Subscript(o, k) => Flat(o, Push(TLBracket, Flat(k, Push(TRBracket, rest))))
    case Slicing(o, p) => Flat(o, Push(TLBracket, FlatSlice(p, rest)))
    case Apply(f, args, trailing) => Flat(f, Push(TLParen, FlatArgs(args, trailing, Push(TRParen, rest))))
    case Bump(e, isInc) => Flat(e, Push(if isInc then TInc else TDec, rest))
    case Brackets(elems, trailing) => Push(TLBracket, FlatList(elems, trailing, Push(TRBracket, rest)))
    case Parens(elems, trailing) => Push(TLParen, FlatList(elems, trailing, Push(TRParen, rest)))
    case SetBraces(elems, trailing) => Push(TLBrace, FlatList(elems, trailing, Push(TRBrace, rest)))
    case MapBraces(pairs, trailing) => Push(TLBrace, FlatPairs(pairs, trailing, Push(TRBrace, rest)))
    case MakeChan(n) => Push(TMake, Push(TLParen, Push(TChan, FlatCapacity(n, Push(TRParen, rest)))))
    case ReceiveOp(e) => Push(TArrowLeft, Flat(e, rest))
  }

  function FlatPart(p: Part, rest: Tokens): Tokens
  {
    if p.Absent? then rest else Flat(p.tree, rest)
  }

  function FlatSlice(p: Parts, rest: Tokens): Tokens
  {
    var last := Push(TRBracket, rest);
    FlatPart(p.lo, Push(TColon, FlatPart(p.hi, if p.twoColons then Push(TColon, FlatPart(p.step, last)) else last)))
  }

  function FlatList(l: TreeList, trailing: bool, rest: Tokens): Tokens
  {
    match l
    case NoTrees => rest
    case Trees(h, t) =>
      Flat(h, if t.NoTrees? && !trailing then rest else Push(TComma, FlatList(t, trailing, rest)))
  }

  function FlatPairs(l: PairList, trailing: bool, rest: Tokens): Tokens
  {
    match l
    case NoPairs => rest
    case Pairs(k, v, t) =>
      Flat(k, Push(TColon, Flat(v, if t.NoPairs? && !trailing then rest else Push(TComma, FlatPairs(t, trailing, rest)))))
  }

  function FlatCapacity(p: Part, rest: Tokens): Tokens
  {
    if p.Absent? then rest else Push(TComma, Flat(p.tree, rest))
  }

  function FlatMark(m: Mark, rest: Tokens): Tokens
  {
    match m
    case Plain => rest
    case Starred => Push(TStar, rest)
    case DoubleStarred => Push(TStarStar, rest)
    case Named(x) => Push(TIdent(x), Push(TAssign, rest))
  }

  function FlatArgs(l: ArgList, trailing: bool, rest: Tokens): Tokens
  {
    match l
    case NoArgs => rest
    case Args(m, h, t) =>
      FlatMark(m, Flat(h, if t.NoArgs? && !trailing then rest else Push(TComma, FlatArgs(t, trailing, rest))))
  }

  /** The syntax tree: parentheses and trailing commas are gone. */
  function Strip(c: Tree): (n: Node)
    ensures !n.Missing? && !IsKeywordArg(n)
  {
    match c
    case Leaf(t) => if IsLeaf(t) then LeafNode(t) else NilLit
    case Group(g) => Strip(g)
    case PrefixOp(op, e) => Unary(op, Strip(e))
    case InfixOp(op, l, r) => Binary(op, Strip(l), Strip(r))
    case Cond(v, k, a) => IfElse(Strip(v), Strip(k), Strip(a))
    case Dot(o, x) => Attr(Strip(o), x)
    case Subscript(o, k) => Index(Strip(o), Strip(k))
    case Slicing(o, p) => Slice(Strip(o), StripPart(p.lo), StripPart(p.hi), StripPart(p.step))
    case Apply(f, args, _) => Call(Strip(f), Positional(args), Keywords(args))
    case Bump(e, isInc) => IncDec(Strip(e), isInc)
    case Brackets(elems, _) => List(StripList(elems))
    case Parens(elems, _) => Tuple(StripList(elems))
    case SetBraces(elems, _) => SetLit(StripList(elems))
    case MapBraces(pairs, _) => MapLit(StripPairs(pairs))
    case MakeChan(n) => Make(StripPart(n))
    case ReceiveOp(e) => Recv(Strip(e))
  }

  function StripPart(p: Part): Node
  {
    if p.Absent? then Missing else Strip(p.tree)
  }

  function StripList(l: TreeList): NodeList
  {
    match l
    case NoTrees => NoNodes
    case Trees(h, t) => Item(Strip(h), StripList(t))
  }

  function StripPairs(l: PairList): NodeList
  {
    match l
    case NoPairs => NoNodes
    case Pairs(k, v, t) => Item(Pair(Strip(k), Strip(v)), StripPairs(t))
  }

  function Positional(l: ArgList): NodeList
  {
    match l
    case NoArgs => NoNodes
    case Args(m, h, t) =>
      if m.Plain? then Item(Strip(h), Positional(t))
      else if m.Starred? then Item(Star(Strip(h)), Positional(t))
      else Positional(t)
  }

  function Keywords(l: ArgList): NodeList
  {
    match l
    case NoArgs => NoNodes
    case Args(m, h, t) =>
      if m.DoubleStarred? then Item(DoubleStar(Strip(h)), Keywords(t))
      else if m.Named? then Item(Keyword(m.name, Strip(h)), Keywords(t))
      else Keywords(t)
  }

  // ---------------------------------------------------------------------
  // Which concrete trees need no more parentheses
  // ---------------------------------------------------------------------

  function Min(a: nat, b: nat): nat
  {
    if a < b then a else b
  }

  /** An operator at this precedence or above, right after `c`, would be taken into `c`. */
  function Edge(c: Tree): nat
  {
    match c
    case PrefixOp(op, e) => Min(OperandPrec(op), Edge(e))
    case InfixOp(op, _, r) => Min(RightPrec(op), Edge(r))
    case Cond(_, _, a) => Min(PREC_IF_EXPR, Edge(a))
    case ReceiveOp(e) => Min(PREC_UNARY, Edge(e))
    case _ => PREC_COUNT
  }

  function First(c: Tree): Token
  {
    match c
    case Leaf(t) => t
    case PrefixOp(op, _) => UnToken(op)
    case InfixOp(_, l, _) => First(l)
    case Cond(v, _, _) => First(v)
    case Dot(o, _) => First(o)
    case Subscript(o, _) => First(o)
    case Slicing(o, _) => First(o)
    case Apply(f, _, _) => First(f)
    case Bump(e, _) => First(e)
    case Brackets(_, _) => TLBracket
    case SetBraces(_, _) => TLBrace
    case MapBraces(_, _) => TLBrace
    case MakeChan(_) => TMake
    case ReceiveOp(_) => TArrowLeft
    case _ => TLParen
  }

  /** Prefix operators fit anywhere; an infix operator fits when it reaches the minimum. */
  predicate Fits(c: Tree, min: nat)
  {
    match c
    case Leaf(t) => IsLeaf(t)
    case Group(g) => Fits(g, PREC_IF_EXPR)
    case PrefixOp(op, e) => Fits(e, OperandPrec(op))
    case InfixOp(op, l, r) =>
      min <= PrecOfOp(op) < Edge(l) && Fits(l, min) && Fits(r, RightPrec(op)) && (op == Is ==> First(r) != TNot)
    case Cond(v, k, a) =>
      min <= PREC_IF_EXPR < Edge(v) && Fits(v, min) && Fits(k, PREC_IF_EXPR) && Fits(a, PREC_IF_EXPR)
    case Dot(o, _) => min <= PREC_CALL < Edge(o) && Fits(o, min)
    case Subscript(o, k) => min <= PREC_CALL < Edge(o) && Fits(o, min) && Fits(k, PREC_IF_EXPR)
    case Slicing(o, p) => min <= PREC_CALL < Edge(o) && Fits(o, min) && FitsSlice(p)
    case Apply(f, args, trailing) =>
      min <= PREC_CALL < Edge(f) && Fits(f, min) && FitsArgs(args) && (args.NoArgs? ==> !trailing)
    case Bump(e, _) => min <= PREC_CALL < Edge(e) && Fits(e, min)
    case Brackets(elems, trailing) => FitsList(elems) && (elems.NoTrees? ==> !trailing)
    case Parens(elems, trailing) =>
      FitsList(elems) && (elems.NoTrees? ==> !trailing) && (elems.Trees? && elems.tail.NoTrees? ==> trailing)
    case SetBraces(elems, _) => FitsList(elems) && elems.Trees?
    case MapBraces(pairs, trailing) => FitsPairs(pairs) && (pairs.NoPairs? ==> !trailing)
    case MakeChan(n) => FitsPart(n)
    case ReceiveOp(e) => Fits(e, PREC_UNARY)
  }

  predicate FitsPart(p: Part)
  {
    p.Present? ==> Fits(p.tree, PREC_IF_EXPR)
  }

  predicate FitsSlice(p: Parts)
  {
    FitsPart(p.lo) && FitsPart(p.hi) && FitsPart(p.step) && (!p.twoColons ==> p.step.Absent?)
  }

  predicate FitsList(l: TreeList)
  {
    l.Trees? ==> Fits(l.head, PREC_IF_EXPR) && FitsList(l.tail)
  }

  predicate FitsPairs(l: PairList)
  {
    l.Pairs? ==> Fits(l.key, PREC_IF_EXPR) && Fits(l.val, PREC_IF_EXPR) && FitsPairs(l.more)
  }

  predicate FitsArgs(l: ArgList)
  {
    l.Args? ==> Fits(l.head, PREC_IF_EXPR) && FitsArgs(l.tail)
  }

  /** `c` may stand before `rest` at minimum `min`: nothing that follows is taken into it. */
  predicate EndsBefore(c: Tree, rest: Tokens, min: nat)
  {
    Prec(Cur(rest)) < Edge(c) && Prec(Cur(rest)) < min
  }

  // ---------------------------------------------------------------------
  // First tokens
  // ---------------------------------------------------------------------

  lemma {:induction false} FirstToken(c: Tree, min: nat, rest: Tokens)
    requires Fits(c, min)
    ensures Flat(c, rest) != [] && Flat(c, rest)[0] == First(c) && HasPrefix(First(c))
    ensures Cur(rest) != TAssign && First(c).TIdent? ==> Cur(Flat(c, rest)[1..]) != TAssign
  {
    hide Edge, PrecOfOp, RightPrec, FlatArgs, FlatSlice, FlatList, FlatPairs, FlatCapacity;
    hide FitsArgs, FitsSlice, FitsList, FitsPairs, FitsPart, HasPrefix, IsLeaf;
    StartsWithPrefix(c, min);
    match c
    case InfixOp(op, l, r) =>
      OpTokenIsNoAssign(op, Flat(r, rest));
      FirstToken(l, min, FlatOp(op, Flat(r, rest)));
    case Cond(v, k, a) => FirstToken(v, min, Push(TIf, Flat(k, Push(TElse, Flat(a, rest)))));
    case Dot(o, x) => FirstToken(o, min, Push(TDot, Push(TIdent(x), rest)));
    case Subscript(o, k) => FirstToken(o, min, Push(TLBracket, Flat(k, Push(TRBracket, rest))));
    case Slicing(o, p) => FirstToken(o, min, Push(TLBracket, FlatSlice(p, rest)));
    case Apply(f, args, trailing) => FirstToken(f, min, Push(TLParen, FlatArgs(args, trailing, Push(TRParen, rest))));
    case Bump(e, isInc) => FirstToken(e, min, Push(if isInc then TInc else TDec, rest));
    case _ =>
  }

  lemma OpTokenIsNoAssign(op: Op, rest: Tokens)
    ensures Cur(FlatOp(op, rest)) != TAssign
  {
  }

  lemma {:induction false} StartsWithPrefix(c: Tree, min: nat)
    requires Fits(c, min)
    ensures HasPrefix(First(c))
  {
    hide Edge, PrecOfOp, RightPrec, FitsArgs, FitsSlice, FitsList, FitsPairs, FitsPart;
    match c
    case InfixOp(_, l, _) => StartsWithPrefix(l, min);
    case Cond(v, _, _) => StartsWithPrefix(v, min);
    case Dot(o, _) => StartsWithPrefix(o, min);
    case Subscript(o, _) => StartsWithPrefix(o, min);
    case Slicing(o, _) => StartsWithPrefix(o, min);
    case Apply(f, _, _) => StartsWithPrefix(f, min);
    case Bump(e, _) => StartsWithPrefix(e, min);
    case _ =>
  }

  predicate IsComparisonWord(op: Op)
  {
    op == Is || op == IsNot || op == In || op == NotIn
  }

  lemma OpRule(op: Op)
    ensures Prec(OpToken(op)) == PrecOfOp(op)
    ensures InfixOf(OpToken(op)) == if IsComparisonWord(op) then IsInRule else BinaryRule(op)
  {
  }

  /** An infix token acts on what follows it. */
  lemma OpApplies(op: Op, left: Node, rest: Tokens)
    requires op == Is ==> Cur(rest) != TNot
    ensures var ts := FlatOp(op, rest);
      ts != [] && Prec(ts[0]) == PrecOfOp(op) && ApplyInfix(left, ts[0], ts[1..]) == InfixBinary(left, op, rest, Fine)
  {
    hide InfixBinary, InfixIf, IndexOrSlice, CallArgs, ParsePrecedence, InfixOf, Prec, PrecOfOp;
    OpRule(op);
  }
}
