/**
  Expression syntax: tokens, trees, the rule table, and precedence climbing as a function from the
  tokens that are left to a tree and the tokens that are left then.
*/
module Pratt {
  import opened Values

  datatype Token =
    | TInt(i: int) | TFloat(f: Text) | TStr(s: Text) | TBytes(s: Text) | TIdent(x: Text) | TTrue | TFalse | TNil
    | TMinus | TPlus | TTilde | TNot
    | TStar | TSlash | TPercent | TStarStar | TShl | TShr | TAmp | TPipe | TCaret
    | TEq | TNeq | TLt | TGt | TLe | TGe | TIs | TIn | TAnd | TOr | TIf | TElse
    | TDot | TLBracket | TRBracket | TLParen | TRParen | TLBrace | TRBrace | TComma | TColon | TAssign | TInc | TDec
    | TFunc | TAsync | TMake | TChan | TArrowLeft
    | TEof | TOther(kind: nat)

  datatype UnOp = Neg | Pos | Inv | Not

  datatype Op =
    | Or | And | Eq | Neq | Lt | Gt | Le | Ge | Is | IsNot | In | NotIn
    | BitOr | BitXor | BitAnd | Shl | Shr | Add | Sub | Mul | Div | Mod | Pow

  datatype NodeList = NoNodes | Item(node: Node, next: NodeList)

  /** `Missing` stands for the null pointers left by errors and for absent slice bounds. */
  datatype Node =
    | Missing
    | IntLit(i: int) | FloatLit(f: Text) | StrLit(s: Text) | BytesLit(s: Text) | BoolLit(b: bool) | NilLit | Name(x: Text)
    | Unary(uop: UnOp, operand: Node)
    | Binary(op: Op, left: Node, right: Node)
    | IfElse(value: Node, cond: Node, alt: Node)
    | Attr(obj: Node, name: Text)
    | Index(obj: Node, key: Node)
    | Slice(obj: Node, lo: Node, hi: Node, step: Node)
    | Call(callee: Node, args: NodeList, kwargs: NodeList)
    | Star(inner: Node) | DoubleStar(inner: Node) | Keyword(kname: Text, inner: Node)
    | IncDec(target: Node, isInc: bool)
    | List(elems: NodeList)
    | Tuple(elems: NodeList)
    | SetLit(elems: NodeList)
    | MapLit(pairs: NodeList) | Pair(key: Node, val: Node)
    | Make(capacity: Node)
    | Recv(channel: Node)
    | FuncLit(isAsync: bool)

  const PREC_NONE := 0
  const PREC_IF_EXPR := 1
  const PREC_OR := 2
  const PREC_AND := 3
  const PREC_NOT := 4
  const PREC_COMPARE := 5
  const PREC_BITOR := 6
  const PREC_BITXOR := 7
  const PREC_BITAND := 8
  const PREC_SHIFT := 9
  const PREC_TERM := 10
  const PREC_FACTOR := 11
  const PREC_UNARY := 12
  const PREC_POWER := 13
  const PREC_CALL := 14
  const PREC_COUNT := 15

  // ---------------------------------------------------------------------
  // The rule table
  // ---------------------------------------------------------------------

  /** What an infix token does; every token with a precedence has an infix rule. */
  datatype Infix = NoInfix | BinaryRule(op: Op) | IsInRule | IfRule | AttrRule | IndexRule | CallRule | PostfixRule(isInc: bool)

  function InfixOf(t: Token): Infix
  {
    match t
    case TOr => BinaryRule(Or)
    case TAnd => BinaryRule(And)
    case TEq => BinaryRule(Eq)
    case TNeq => BinaryRule(Neq)
    case TLt => BinaryRule(Lt)
    case TGt => BinaryRule(Gt)
    case TLe => BinaryRule(Le)
    case TGe => BinaryRule(Ge)
    case TPipe => BinaryRule(BitOr)
    case TCaret => BinaryRule(BitXor)
    case TAmp => BinaryRule(BitAnd)
    case TShl => BinaryRule(Shl)
    case TShr => BinaryRule(Shr)
    case TPlus => BinaryRule(Add)
    case TMinus => BinaryRule(Sub)
    case TStar => BinaryRule(Mul)
    case TSlash => BinaryRule(Div)
    case TPercent => BinaryRule(Mod)
    case TStarStar => BinaryRule(Pow)
    case TIs => IsInRule
    case TIn => IsInRule
    case TNot => IsInRule
    case TIf => IfRule
    case TDot => AttrRule
    case TLBracket => IndexRule
    case TLParen => CallRule
    case TInc => PostfixRule(true)
    case TDec => PostfixRule(false)
    case _ => NoInfix
  }

  function PrecOfOp(op: Op): nat
  {
    match op
    case Or => PREC_OR
    case And => PREC_AND
    case BitOr => PREC_BITOR
    case BitXor => PREC_BITXOR
    case BitAnd => PREC_BITAND
    case Shl => PREC_SHIFT
    case Shr => PREC_SHIFT
    case Add => PREC_TERM
    case Sub => PREC_TERM
    case Mul => PREC_FACTOR
    case Div => PREC_FACTOR
    case Mod => PREC_FACTOR
    case Pow => PREC_POWER
    case _ => PREC_COMPARE
  }

  function Prec(t: Token): nat
  {
    match InfixOf(t)
    case NoInfix => PREC_NONE
    case BinaryRule(op) => PrecOfOp(op)
    case IsInRule => PREC_COMPARE
    case IfRule => PREC_IF_EXPR
    case _ => PREC_CALL
  }

  function UnaryOf(t: Token): (op: UnOp)
    requires t == TMinus || t == TPlus || t == TTilde || t == TNot
  {
    match t
    case TMinus => Neg
    case TPlus => Pos
    case TTilde => Inv
    case _ => Not
  }

  /** `-`, `+` and `~` bind less tightly than `**` but more than everything else; `not` is above comparisons. */
  function OperandPrec(op: UnOp): nat
  {
    if op == Not then PREC_NOT else PREC_POWER
  }

  /** Only `**` is right-associative. */
  function RightPrec(op: Op): nat
  {
    if op == Pow then PREC_POWER else PrecOfOp(op) + 1
  }

  // ---------------------------------------------------------------------
  // The parser's state
  // ---------------------------------------------------------------------

  type Tokens = seq<Token>

  /** Behind the last token there are only end-of-file tokens. */
  function Cur(ts: Tokens): Token
  {
    if ts == [] then TEof else ts[0]
  }

  function Advance(ts: Tokens): (r: Tokens)
    ensures |r| <= |ts| && (ts != [] ==> |r| < |ts|)
    ensures NoFunctions(ts) ==> NoFunctions(r)
  {
    if ts == [] then [] else ts[1..]
  }

  /**
    `Panic` lasts until the next statement. `Foreign`: a function literal has been met; its body is made
    of statements, and these functions do not follow the tokens from there. `Crashed`: the parser has
    looked into the null pointer that stands for a key it could not read; nothing is read any more.
  */
  datatype Mode = Fine | Panic | Foreign | Crashed

  function AfterError(mode: Mode): Mode
  {
    if mode == Fine then Panic else mode
  }

  predicate Lasts(before: Mode, after: Mode)
  {
    (before == Foreign || before == Crashed ==> after == before) && (before != Fine ==> after != Fine)
  }

  /** No function literal can begin here. */
  predicate NoFunctions(ts: Tokens)
  {
    ts == [] || (ts[0] != TFunc && ts[0] != TAsync && NoFunctions(ts[1..]))
  }

  /** Without `func` and `async`, no function literal is met. */
  predicate Clear(ts: Tokens, before: Mode, rest: Tokens, after: Mode)
  {
    NoFunctions(ts) ==> NoFunctions(rest) && (after == Foreign ==> before == Foreign)
  }

  datatype Out = Out(node: Node, rest: Tokens, mode: Mode)

  datatype Outs = Outs(nodes: NodeList, rest: Tokens, mode: Mode)

  /** Takes the token if it is the one expected, else enters panic mode. */
  function Expect(ts: Tokens, t: Token, mode: Mode): (r: (Tokens, Mode))
    ensures |r.0| <= |ts| && Lasts(mode, r.1) && Clear(ts, mode, r.0, r.1)
  {
    if Cur(ts) == t then (Advance(ts), mode) else (ts, AfterError(mode))
  }

  // ---------------------------------------------------------------------
  // Precedence climbing
  // ---------------------------------------------------------------------

  predicate HasPrefix(t: Token)
  {
    IsLeaf(t) || t == TMinus || t == TPlus || t == TTilde || t == TNot || t == TLBracket || t == TLParen
    || t == TLBrace || t == TFunc || t == TAsync || t == TMake || t == TArrowLeft
  }

  predicate IsLeaf(t: Token)
  {
    t.TInt? || t.TFloat? || t.TStr? || t.TBytes? || t.TIdent? || t == TTrue || t == TFalse || t == TNil
  }

  function LeafNode(t: Token): (n: Node)
    requires IsLeaf(t)
  {
    match t
    case TInt(i) => IntLit(i)
    case TFloat(f) => FloatLit(f)
    case TStr(s) => StrLit(s)
    case TBytes(s) => BytesLit(s)
    case TIdent(x) => Name(x)
    case TNil => NilLit
    case _ => BoolLit(t == TTrue)
  }

  /** Always takes a token; what begins with a prefix rule goes on while operators bind tightly enough. */
  function ParsePrecedence(ts: Tokens, min: nat, mode: Mode): (r: Out)
    requires min > 0
    ensures |r.rest| <= |ts| && (ts != [] ==> |r.rest| < |ts|)
    ensures Lasts(mode, r.mode) && Clear(ts, mode, r.rest, r.mode)
    decreases |ts|, 3
  {
    if ts == [] || !HasPrefix(ts[0]) then Out(Missing, Advance(ts), AfterError(mode)) else
    var p := Prefix(ts[0], ts[1..], mode);
    Climb(p.node, p.rest, min, p.mode)
  }

  function Climb(left: Node, ts: Tokens, min: nat, mode: Mode): (r: Out)
    requires min > 0
    ensures |r.rest| <= |ts|
    ensures Lasts(mode, r.mode) && Clear(ts, mode, r.rest, r.mode)
    decreases |ts|, 2
  {
    if mode != Fine || Prec(Cur(ts)) < min then Out(left, ts, mode) else
    var p := ApplyInfix(left, ts[0], ts[1..]);
    Climb(p.node, p.rest, min, p.mode)
  }

  function Prefix(t: Token, ts: Tokens, mode: Mode): (r: Out)
    requires HasPrefix(t)
    ensures |r.rest| <= |ts|
    ensures Lasts(mode, r.mode)
    ensures t != TFunc && t != TAsync ==> Clear(ts, mode, r.rest, r.mode)
    decreases |ts|, 7
  {
    match t
    case TLBracket => ListLiteral(ts, mode)
    case TLParen => GroupOrTuple(ts, mode)
    case TMinus => PrefixUnary(Neg, ts, mode)
    case TPlus => PrefixUnary(Pos, ts, mode)
    case TTilde => PrefixUnary(Inv, ts, mode)
    case TNot => PrefixUnary(Not, ts, mode)
    case TLBrace => MapOrSet(ts, mode)
    case TMake => MakeExpr(ts, mode)
    case TArrowLeft => Receive(ts, mode)
    case TFunc => Out(Missing, ts, if mode == Crashed then Crashed else Foreign)
    case TAsync => Out(Missing, ts, if mode == Crashed then Crashed else Foreign)
    case _ => Out(LeafNode(t), ts, mode)
  }

  function ListLiteral(ts: Tokens, mode: Mode): (r: Out)
    ensures |r.rest| <= |ts|
    ensures Lasts(mode, r.mode) && Clear(ts, mode, r.rest, r.mode)
    decreases |ts|, 5
  {
    var l := Items(ts, TRBracket, mode);
    var (rest, bad) := Expect(l.rest, TRBracket, l.mode);
    Out(List(l.nodes), rest, bad)
  }

  function PrefixUnary(op: UnOp, ts: Tokens, mode: Mode): (r: Out)
    ensures |r.rest| <= |ts|
    ensures Lasts(mode, r.mode) && Clear(ts, mode, r.rest, r.mode)
    decreases |ts|, 4
  {
    var p := ParsePrecedence(ts, OperandPrec(op), mode);
    Out(Unary(op, p.node), p.rest, p.mode)
  }

  function ApplyInfix(left: Node, t: Token, ts: Tokens): (r: Out)
    ensures |r.rest| <= |ts| && Clear(ts, Fine, r.rest, r.mode)
    decreases |ts|, 7
  {
    match InfixOf(t)
    case BinaryRule(op) => InfixBinary(left, op, ts, Fine)
    case IsInRule => InfixIsIn(left, t, ts)
    case IfRule => InfixIf(left, ts)
    case AttrRule =>
      if Cur(ts).TIdent? then Out(Attr(left, ts[0].x), ts[1..], Fine) else Out(Attr(left, NoName), ts, Panic)
    case IndexRule => IndexOrSlice(left, ts)
    case CallRule => InfixCall(left, ts)
    case PostfixRule(isInc) => Out(IncDec(left, isInc), ts, Fine)
    case NoInfix => Out(left, ts, Panic)
  }

  function InfixBinary(left: Node, op: Op, ts: Tokens, mode: Mode): (r: Out)
    ensures |r.rest| <= |ts|
    ensures Lasts(mode, r.mode) && Clear(ts, mode, r.rest, r.mode)
    decreases |ts|, 4
  {
    var p := ParsePrecedence(ts, RightPrec(op), mode);
    Out(Binary(op, left, p.node), p.rest, p.mode)
  }

  /** `is`, `is not`, `in` and `not in`; a `not` right after `is` always belongs to the operator. */
  function InfixIsIn(left: Node, t: Token, ts: Tokens): (r: Out)
    ensures |r.rest| <= |ts| && Clear(ts, Fine, r.rest, r.mode)
    decreases |ts|, 5
  {
    if t == TIs && Cur(ts) == TNot then InfixBinary(left, IsNot, Advance(ts), Fine)
    else if t == TNot then
      var (rest, bad) := Expect(ts, TIn, Fine);
      InfixBinary(left, NotIn, rest, bad)
    else InfixBinary(left, if t == TIs then Is else In, ts, Fine)
  }

  function InfixIf(left: Node, ts: Tokens): (r: Out)
    ensures |r.rest| <= |ts| && Clear(ts, Fine, r.rest, r.mode)
    decreases |ts|, 5
  {
    var c := ParsePrecedence(ts, PREC_IF_EXPR, Fine);
    var (rest, bad) := Expect(c.rest, TElse, c.mode);
    var a := ParsePrecedence(rest, PREC_IF_EXPR, bad);
    Out(IfElse(left, c.node, a.node), a.rest, a.mode)
  }

  /** A subscript: up to three parts separated by colons; without a colon it must not be empty. */
  function IndexOrSlice(obj: Node, ts: Tokens): (r: Out)
    ensures |r.rest| <= |ts| && Clear(ts, Fine, r.rest, r.mode)
    decreases |ts|, 5
  {
    var lo := OptionalPart(ts, true, Fine);
    if Cur(lo.rest) == TColon then
      SliceFrom(obj, lo.node, Advance(lo.rest), lo.mode)
    else KeyEnd(obj, lo.node, lo.rest, lo.mode)
  }

  function KeyEnd(obj: Node, key: Node, ts: Tokens, mode: Mode): (r: Out)
    ensures |r.rest| <= |ts|
    ensures Lasts(mode, r.mode) && Clear(ts, mode, r.rest, r.mode)
  {
    if key == Missing then Out(Missing, ts, AfterError(mode)) else
    var (rest, bad) := Expect(ts, TRBracket, mode);
    Out(Index(obj, key), rest, bad)
  }

  /** The second and third part, behind the first colon. */
  function SliceFrom(obj: Node, lo: Node, ts: Tokens, mode: Mode): (r: Out)
    ensures |r.rest| <= |ts|
    ensures Lasts(mode, r.mode) && Clear(ts, mode, r.rest, r.mode)
    decreases |ts|, 6
  {
    var hi := OptionalPart(ts, true, mode);
    var step := StepPart(hi.rest, hi.mode);
    var (rest, bad) := Expect(step.rest, TRBracket, step.mode);
    Out(Slice(obj, lo, hi.node, step.node), rest, bad)
  }

  function StepPart(ts: Tokens, mode: Mode): (r: Out)
    ensures |r.rest| <= |ts|
    ensures Lasts(mode, r.mode) && Clear(ts, mode, r.rest, r.mode)
    decreases |ts|, 5
  {
    if Cur(ts) == TColon then OptionalPart(Advance(ts), false, mode) else Out(Missing, ts, mode)
  }

  function OptionalPart(ts: Tokens, colonEnds: bool, mode: Mode): (r: Out)
    ensures |r.rest| <= |ts|
    ensures Lasts(mode, r.mode) && Clear(ts, mode, r.rest, r.mode)
    decreases |ts|, 4
  {
    if Cur(ts) == TRBracket || (colonEnds && Cur(ts) == TColon) then Out(Missing, ts, mode)
    else ParsePrecedence(ts, PREC_IF_EXPR, mode)
  }

  predicate AtEnd(ts: Tokens, close: Token)
  {
    Cur(ts) == close || Cur(ts) == TEof
  }

  /** Elements separated by commas, up to the closing token; a comma may come last. */
  function Items(ts: Tokens, close: Token, mode: Mode): (r: Outs)
    ensures |r.rest| <= |ts|
    ensures Lasts(mode, r.mode) && Clear(ts, mode, r.rest, r.mode)
    decreases |ts|, 4
  {
    if AtEnd(ts, close) then Outs(NoNodes, ts, mode) else
    var e := ParsePrecedence(ts, PREC_IF_EXPR, mode);
    if Cur(e.rest) != TComma then Outs(Item(e.node, NoNodes), e.rest, e.mode) else
    var more := Items(Advance(e.rest), close, e.mode);
    Outs(Item(e.node, more.nodes), more.rest, more.mode)
  }

  /** `()`, a parenthesised expression, or a tuple, which is what a comma after the first expression makes it. */
  function GroupOrTuple(ts: Tokens, mode: Mode): (r: Out)
    ensures |r.rest| <= |ts|
    ensures Lasts(mode, r.mode) && Clear(ts, mode, r.rest, r.mode)
    decreases |ts|, 5
  {
    if Cur(ts) == TRParen then Out(Tuple(NoNodes), Advance(ts), mode) else
    var first := ParsePrecedence(ts, PREC_IF_EXPR, mode);
    if Cur(first.rest) == TComma then TupleFrom(first.node, Advance(first.rest), first.mode)
    else
      var (rest, bad) := Expect(first.rest, TRParen, first.mode);
      Out(first.node, rest, bad)
  }

  /** The rest of a tuple, behind its first comma. */
  function TupleFrom(first: Node, ts: Tokens, mode: Mode): (r: Out)
    ensures |r.rest| <= |ts|
    ensures Lasts(mode, r.mode) && Clear(ts, mode, r.rest, r.mode)
    decreases |ts|, 5
  {
    var more := Items(ts, TRParen, mode);
    var (rest, bad) := Expect(more.rest, TRParen, more.mode);
    Out(Tuple(Item(first, more.nodes)), rest, bad)
  }

  /** `{}` is a map; otherwise a colon behind the first expression makes it one. */
  function MapOrSet(ts: Tokens, mode: Mode): (r: Out)
    ensures |r.rest| <= |ts|
    ensures Lasts(mode, r.mode) && Clear(ts, mode, r.rest, r.mode)
    decreases |ts|, 6
  {
    if Cur(ts) == TRBrace then Out(MapLit(NoNodes), Advance(ts), mode) else
    var first := ParsePrecedence(ts, PREC_IF_EXPR, mode);
    if Cur(first.rest) == TColon then MapFrom(first.node, Advance(first.rest), first.mode)
    else SetFrom(first.node, first.rest, first.mode)
  }

  /** The rest of a set, behind its first element. */
  function SetFrom(first: Node, ts: Tokens, mode: Mode): (r: Out)
    ensures |r.rest| <= |ts|
    ensures Lasts(mode, r.mode) && Clear(ts, mode, r.rest, r.mode)
    decreases |ts|, 5
  {
    var more := MoreElems(ts, mode);
    var (rest, bad) := Expect(more.rest, TRBrace, more.mode);
    Out(SetLit(Item(first, more.nodes)), rest, bad)
  }

  /** The rest of a map, behind its first colon; the position of the pair is that of its key. */
  function MapFrom(key: Node, ts: Tokens, mode: Mode): (r: Out)
    ensures |r.rest| <= |ts|
    ensures Lasts(mode, r.mode) && Clear(ts, mode, r.rest, r.mode)
    decreases |ts|, 5
  {
    var v := ParsePrecedence(ts, PREC_IF_EXPR, mode);
    if key == Missing && v.mode != Foreign then Out(Missing, [], Crashed) else
    var more := MorePairs(v.rest, v.mode);
    var (rest, bad) := Expect(more.rest, TRBrace, more.mode);
    Out(MapLit(Item(Pair(key, v.node), more.nodes)), rest, bad)
  }

  /** Is there another element? A comma right before the closing brace is the last thing inside it. */
  predicate GoesOn(ts: Tokens)
  {
    Cur(ts) == TComma && Cur(Advance(ts)) != TRBrace
  }

  function PastComma(ts: Tokens): (r: Tokens)
    ensures |r| <= |ts|
  {
    if Cur(ts) == TComma then Advance(ts) else ts
  }

  function MoreElems(ts: Tokens, mode: Mode): (r: Outs)
    ensures |r.rest| <= |ts|
    ensures Lasts(mode, r.mode) && Clear(ts, mode, r.rest, r.mode)
    decreases |ts|, 4
  {
    if !GoesOn(ts) then Outs(NoNodes, PastComma(ts), mode) else
    var e := ParsePrecedence(ts[1..], PREC_IF_EXPR, mode);
    var more := MoreElems(e.rest, e.mode);
    Outs(Item(e.node, more.nodes), more.rest, more.mode)
  }

  function MorePairs(ts: Tokens, mode: Mode): (r: Outs)
    ensures |r.rest| <= |ts|
    ensures Lasts(mode, r.mode) && Clear(ts, mode, r.rest, r.mode)
    decreases |ts|, 4
  {
    if !GoesOn(ts) then Outs(NoNodes, PastComma(ts), mode) else
    var e := KeyValue(ts[1..], mode);
    var more := MorePairs(e.rest, e.mode);
    Outs(Item(e.node, more.nodes), more.rest, more.mode)
  }

  function KeyValue(ts: Tokens, mode: Mode): (r: Out)
    ensures |r.rest| <= |ts|
    ensures Lasts(mode, r.mode) && Clear(ts, mode, r.rest, r.mode)
    decreases |ts|, 4
  {
    var k := ParsePrecedence(ts, PREC_IF_EXPR, mode);
    var (rest, bad) := Expect(k.rest, TColon, k.mode);
    var v := ParsePrecedence(rest, PREC_IF_EXPR, bad);
    if k.node == Missing && v.mode != Foreign then Out(Missing, [], Crashed) else
    Out(Pair(k.node, v.node), v.rest, v.mode)
  }

  /** `make(chan)` or `make(chan, capacity)`. */
  function MakeExpr(ts: Tokens, mode: Mode): (r: Out)
    ensures |r.rest| <= |ts|
    ensures Lasts(mode, r.mode) && Clear(ts, mode, r.rest, r.mode)
    decreases |ts|, 5
  {
    var (inner, bad) := Expect(ts, TLParen, mode);
    var (after, worse) := Expect(inner, TChan, bad);
    var n := CapacityPart(after, worse);
    var (rest, end) := Expect(n.rest, TRParen, n.mode);
    Out(Make(n.node), rest, end)
  }

  function CapacityPart(ts: Tokens, mode: Mode): (r: Out)
    ensures |r.rest| <= |ts|
    ensures Lasts(mode, r.mode) && Clear(ts, mode, r.rest, r.mode)
    decreases |ts|, 4
  {
    if Cur(ts) == TComma then ParsePrecedence(Advance(ts), PREC_IF_EXPR, mode) else Out(Missing, ts, mode)
  }

  function Receive(ts: Tokens, mode: Mode): (r: Out)
    ensures |r.rest| <= |ts|
    ensures Lasts(mode, r.mode) && Clear(ts, mode, r.rest, r.mode)
    decreases |ts|, 4
  {
    var c := ParsePrecedence(ts, PREC_UNARY, mode);
    Out(Recv(c.node), c.rest, c.mode)
  }

  datatype Arguments = Arguments(args: NodeList, kwargs: NodeList, rest: Tokens, mode: Mode)

  /** Behind `name =`. */
  function PastName(ts: Tokens): (r: Tokens)
    requires |ts| >= 2
    ensures r == ts[2..] && (NoFunctions(ts) ==> NoFunctions(r))
  {
    var r := Advance(Advance(ts));
    assert r == ts[2..];
    r
  }

  /** One argument: `**e`, `*e`, `name = e` or `e`. */
  function Argument(ts: Tokens, mode: Mode): (r: Out)
    requires ts != []
    ensures |r.rest| < |ts|
    ensures Lasts(mode, r.mode) && Clear(ts, mode, r.rest, r.mode)
    decreases |ts|, 4
  {
    if ts[0] == TStarStar then
      var e := ParsePrecedence(ts[1..], PREC_IF_EXPR, mode);
      Out(DoubleStar(e.node), e.rest, e.mode)
    else if ts[0] == TStar then
      var e := ParsePrecedence(ts[1..], PREC_IF_EXPR, mode);
      Out(Star(e.node), e.rest, e.mode)
    else if ts[0].TIdent? && Cur(ts[1..]) == TAssign then
      var e := ParsePrecedence(PastName(ts), PREC_IF_EXPR, mode);
      Out(Keyword(ts[0].x, e.node), e.rest, e.mode)
    else ParsePrecedence(ts, PREC_IF_EXPR, mode)
  }

  predicate IsKeywordArg(n: Node)
  {
    n.DoubleStar? || n.Keyword?
  }

  function InfixCall(left: Node, ts: Tokens): (r: Out)
    ensures |r.rest| <= |ts| && Clear(ts, Fine, r.rest, r.mode)
    decreases |ts|, 6
  {
    var a := CallArgs(ts, Fine);
    var (rest, bad) := Expect(a.rest, TRParen, a.mode);
    Out(Call(left, a.args, a.kwargs), rest, bad)
  }

  /** `**e` and `name = e` go to the keyword list, everything else to the positional one. */
  function CallArgs(ts: Tokens, mode: Mode): (r: Arguments)
    ensures |r.rest| <= |ts|
    ensures Lasts(mode, r.mode) && Clear(ts, mode, r.rest, r.mode)
    decreases |ts|, 5
  {
    if Cur(ts) == TRParen || Cur(ts) == TEof then Arguments(NoNodes, NoNodes, ts, mode) else
    var e := Argument(ts, mode);
    var more :=
      if Cur(e.rest) != TComma then Arguments(NoNodes, NoNodes, e.rest, e.mode)
      else CallArgs(Advance(e.rest), e.mode);
    AddArgument(e.node, more)
  }

  function AddArgument(a: Node, more: Arguments): Arguments
  {
    if IsKeywordArg(a) then more.(kwargs := Item(a, more.kwargs)) else more.(args := Item(a, more.args))
  }
}
