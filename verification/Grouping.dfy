/**
  How expressions group, against an order of the operators that is written down here once more, token by
  token and level by level, and not taken from the parser's rule table.
*/
module Grouping {
  import opened Values
  import opened Pratt
  import opened Grammar
  import opened Parsing
  import opened Reading

  /** From the loosest level to the tightest. */
  function Level(op: Op): nat
  {
    match op
    case Or => 1
    case And => 2
    case Eq => 3
    case Neq => 3
    case Lt => 3
    case Gt => 3
    case Le => 3
    case Ge => 3
    case Is => 3
    case IsNot => 3
    case In => 3
    case NotIn => 3
    case BitOr => 4
    case BitXor => 5
    case BitAnd => 6
    case Shl => 7
    case Shr => 7
    case Add => 8
    case Sub => 8
    case Mul => 9
    case Div => 9
    case Mod => 9
    case Pow => 10
  }

  function Written(op: Op): Tokens
  {
    match op
    case Or => [TOr]
    case And => [TAnd]
    case Eq => [TEq]
    case Neq => [TNeq]
    case Lt => [TLt]
    case Gt => [TGt]
    case Le => [TLe]
    case Ge => [TGe]
    case Is => [TIs]
    case IsNot => [TIs, TNot]
    case In => [TIn]
    case NotIn => [TNot, TIn]
    case BitOr => [TPipe]
    case BitXor => [TCaret]
    case BitAnd => [TAmp]
    case Shl => [TShl]
    case Shr => [TShr]
    case Add => [TPlus]
    case Sub => [TMinus]
    case Mul => [TStar]
    case Div => [TSlash]
    case Mod => [TPercent]
    case Pow => [TStarStar]
  }

  function Sign(op: UnOp): Token
  {
    match op
    case Neg => TMinus
    case Pos => TPlus
    case Inv => TTilde
    case Not => TNot
  }

  /** A leaf or something in brackets, with any number of postfix forms behind it. */
  predicate Tight(c: Tree)
  {
    match c
    case Leaf(t) => IsLeaf(t)
    case Group(g) => Fits(g, PREC_IF_EXPR)
    case Brackets(_, _) => Fits(c, PREC_IF_EXPR)
    case Parens(_, _) => Fits(c, PREC_IF_EXPR)
    case SetBraces(_, _) => Fits(c, PREC_IF_EXPR)
    case MapBraces(_, _) => Fits(c, PREC_IF_EXPR)
    case MakeChan(_) => Fits(c, PREC_IF_EXPR)
    case Dot(o, _) => Tight(o)
    case Subscript(o, k) => Tight(o) && Fits(k, PREC_IF_EXPR)
    case Slicing(o, p) => Tight(o) && FitsSlice(p)
    case Apply(f, args, trailing) => Tight(f) && FitsArgs(args) && (args.NoArgs? ==> !trailing)
    case Bump(e, _) => Tight(e)
    case _ => false
  }

  /** What ends an expression. */
  predicate Ends(rest: Tokens)
  {
    rest == [] || rest[0] == TEof || rest[0].TOther? || rest[0] == TRParen || rest[0] == TRBracket || rest[0] == TRBrace
    || rest[0] == TComma || rest[0] == TColon || rest[0] == TElse || rest[0] == TAssign || rest[0] == TLBrace
  }

  /** An expression is read as `n`, up to `rest`. */
  ghost predicate ReadAs(ts: Tokens, n: Node, rest: Tokens)
  {
    ParsePrecedence(ts, PREC_IF_EXPR, Fine) == Out(n, rest, Fine)
  }

  // ---------------------------------------------------------------------
  // The table against the order
  // ---------------------------------------------------------------------

  lemma LevelsAgree(op1: Op, op2: Op)
    ensures Level(op1) < Level(op2) <==> PrecOfOp(op1) < PrecOfOp(op2)
    ensures PREC_IF_EXPR < PrecOfOp(op1) <= PREC_POWER && (op1 == Pow <==> PrecOfOp(op1) == PREC_POWER)
    ensures PREC_NOT < PrecOfOp(op1) <==> Level(op1) >= 3
    ensures RightPrec(op1) <= PrecOfOp(op2) <==> Level(op1) < Level(op2) || op1 == op2 == Pow
    ensures op1 != Pow ==> PrecOfOp(op1) < PREC_UNARY
  {
  }

  lemma WrittenIs(op: Op, rest: Tokens)
    ensures FlatOp(op, rest) == Written(op) + rest
  {
  }

  lemma SignIs(op: UnOp, c: Tree, rest: Tokens)
    ensures Flat(PrefixOp(op, c), rest) == [Sign(op)] + Flat(c, rest) && Strip(PrefixOp(op, c)) == Unary(op, Strip(c))
  {
  }

  lemma {:induction false} TightFits(c: Tree, min: nat)
    requires Tight(c) && min <= PREC_CALL
    ensures Fits(c, min) && Edge(c) == PREC_COUNT && First(c) != TNot
  {
    hide FitsSlice, FitsArgs, FitsList, FitsPairs, FitsPart;
    match c
    case Dot(o, _) => TightFits(o, min);
    case Subscript(o, _) => TightFits(o, min);
    case Slicing(o, _) => TightFits(o, min);
    case Apply(f, _, _) => TightFits(f, min);
    case Bump(e, _) => TightFits(e, min);
    case _ =>
  }

  lemma EndsBinds(rest: Tokens)
    requires Ends(rest)
    ensures Prec(Cur(rest)) == PREC_NONE
  {
  }

  /** What fits is read. */
  lemma {:induction false} Whole(c: Tree, rest: Tokens)
    requires Fits(c, PREC_IF_EXPR) && Ends(rest)
    ensures ReadAs(Flat(c, rest), Strip(c), rest)
  {
    hide ParsePrecedence, Fits, Flat, Strip, Edge, Prec, Ends;
    EndsBinds(rest);
    EdgePositive(c);
    ParsesWhole(c, PREC_IF_EXPR, rest);
  }

  /** An operator between two trees. */
  lemma Joined(op: Op, l: Tree, r: Tree, min: nat, rest: Tokens)
    requires Fits(l, min) && min <= PrecOfOp(op) < Edge(l) && Fits(r, RightPrec(op)) && (op == Is ==> First(r) != TNot)
    ensures var d := InfixOp(op, l, r);
      && Fits(d, min) && Edge(d) == Min(RightPrec(op), Edge(r)) && First(d) == First(l)
      && Flat(d, rest) == Flat(l, Written(op) + Flat(r, rest)) && Strip(d) == Binary(op, Strip(l), Strip(r))
  {
    hide PrecOfOp, RightPrec, Written;
    InfixTree(l, op, r, min, rest);
    WrittenIs(op, Flat(r, rest));
  }

  // ---------------------------------------------------------------------
  // Two binary operators
  // ---------------------------------------------------------------------

  /** `x op y`. */
  lemma OneOperator(op: Op, x: Tree, y: Tree, rest: Tokens)
    requires Tight(x) && Tight(y) && Ends(rest)
    ensures ReadAs(Flat(x, Written(op) + Flat(y, rest)), Binary(op, Strip(x), Strip(y)), rest)
  {
    hide Fits, Flat, Strip, Edge, First, Written, PrecOfOp, RightPrec, ReadAs, Tight, Ends;
    LevelsAgree(op, op);
    RightIsHigh(op);
    TightFits(x, PREC_IF_EXPR);
    TightFits(y, RightPrec(op));
    Joined(op, x, y, PREC_IF_EXPR, rest);
    Whole(InfixOp(op, x, y), rest);
  }

  lemma RightIsHigh(op: Op)
    ensures PREC_IF_EXPR < RightPrec(op) <= PREC_POWER && (op != Pow ==> RightPrec(op) == PrecOfOp(op) + 1)
  {
  }

  /** With a looser operator first, the tighter one takes the middle operand; so does the second of two powers. */
  lemma SecondBindsTighter(op1: Op, op2: Op, x: Tree, y: Tree, z: Tree, rest: Tokens)
    requires Tight(x) && Tight(y) && Tight(z) && Ends(rest)
    requires Level(op1) < Level(op2) || op1 == op2 == Pow
    ensures ReadAs(Flat(x, Written(op1) + Flat(y, Written(op2) + Flat(z, rest))),
                   Binary(op1, Strip(x), Binary(op2, Strip(y), Strip(z))), rest)
  {
    hide Fits, Flat, Strip, Edge, First, Written, PrecOfOp, RightPrec, ReadAs, Tight, Ends, Level;
    LevelsAgree(op1, op2);
    LevelsAgree(op2, op1);
    RightIsHigh(op1);
    RightIsHigh(op2);
    TightFits(x, PREC_IF_EXPR);
    TightFits(y, RightPrec(op1));
    TightFits(z, RightPrec(op2));
    Joined(op2, y, z, RightPrec(op1), rest);
    Joined(op1, x, InfixOp(op2, y, z), PREC_IF_EXPR, rest);
    Whole(InfixOp(op1, x, InfixOp(op2, y, z)), rest);
  }

  /** With a tighter operator first, or one of the same level other than the power, the first takes the middle operand. */
  lemma FirstBindsTighter(op1: Op, op2: Op, x: Tree, y: Tree, z: Tree, rest: Tokens)
    requires Tight(x) && Tight(y) && Tight(z) && Ends(rest)
    requires Level(op1) > Level(op2) || (Level(op1) == Level(op2) && op1 != Pow)
    ensures ReadAs(Flat(x, Written(op1) + Flat(y, Written(op2) + Flat(z, rest))),
                   Binary(op2, Binary(op1, Strip(x), Strip(y)), Strip(z)), rest)
  {
    hide Fits, Flat, Strip, Edge, First, Written, PrecOfOp, RightPrec, ReadAs, Tight, Ends, Level;
    LevelsAgree(op1, op2);
    LevelsAgree(op2, op1);
    RightIsHigh(op1);
    RightIsHigh(op2);
    TightFits(x, PREC_IF_EXPR);
    TightFits(y, RightPrec(op1));
    TightFits(z, RightPrec(op2));
    Joined(op1, x, y, PREC_IF_EXPR, Written(op2) + Flat(z, rest));
    Joined(op2, InfixOp(op1, x, y), z, PREC_IF_EXPR, rest);
    Whole(InfixOp(op2, InfixOp(op1, x, y), z), rest);
  }

  // ---------------------------------------------------------------------
  // Signs, `not` and receiving
  // ---------------------------------------------------------------------

  /** Does a prefix operator take `x op y` as its operand? A sign only a power, `not` everything from comparisons on. */
  predicate Covers(u: UnOp, op: Op)
  {
    if u == Not then Level(op) >= 3 else op == Pow
  }

  lemma Covering(u: UnOp, op: Op)
    ensures Covers(u, op) <==> OperandPrec(u) <= PrecOfOp(op)
    ensures !Covers(u, op) <==> PrecOfOp(op) < OperandPrec(u)
    ensures PREC_IF_EXPR < OperandPrec(u) <= PREC_POWER
  {
  }

  /** `u x op y`. */
  lemma SignFirst(u: UnOp, op: Op, x: Tree, y: Tree, rest: Tokens)
    requires Tight(x) && Tight(y) && Ends(rest)
    ensures ReadAs([Sign(u)] + Flat(x, Written(op) + Flat(y, rest)),
                   if Covers(u, op) then Unary(u, Binary(op, Strip(x), Strip(y)))
                   else Binary(op, Unary(u, Strip(x)), Strip(y)), rest)
  {
    hide Fits, Flat, Strip, Edge, First, Written, PrecOfOp, RightPrec, OperandPrec, ReadAs, Tight, Ends, Covers, Sign;
    LevelsAgree(op, op);
    RightIsHigh(op);
    Covering(u, op);
    TightFits(x, OperandPrec(u));
    TightFits(y, RightPrec(op));
    if Covers(u, op) {
      Joined(op, x, y, OperandPrec(u), rest);
      SignIs(u, InfixOp(op, x, y), rest);
      SignFits(u, InfixOp(op, x, y), PREC_IF_EXPR);
      Whole(PrefixOp(u, InfixOp(op, x, y)), rest);
    } else {
      SignIs(u, x, Written(op) + Flat(y, rest));
      SignFits(u, x, PREC_IF_EXPR);
      Joined(op, PrefixOp(u, x), y, PREC_IF_EXPR, rest);
      Whole(InfixOp(op, PrefixOp(u, x), y), rest);
    }
  }

  /** `u x`: a prefix operator takes every postfix form of its operand in. */
  lemma SignOverPostfix(u: UnOp, x: Tree, rest: Tokens)
    requires Tight(x) && Ends(rest)
    ensures ReadAs([Sign(u)] + Flat(x, rest), Unary(u, Strip(x)), rest)
  {
    hide Fits, Flat, Strip, Edge, First, OperandPrec, ReadAs, Tight, Ends, Sign;
    Covering(u, Pow);
    TightFits(x, OperandPrec(u));
    SignIs(u, x, rest);
    SignFits(u, x, PREC_IF_EXPR);
    Whole(PrefixOp(u, x), rest);
  }

  lemma {:induction false} SignFits(u: UnOp, c: Tree, min: nat)
    requires Fits(c, OperandPrec(u))
    ensures Fits(PrefixOp(u, c), min) && Edge(PrefixOp(u, c)) == Min(OperandPrec(u), Edge(c))
    ensures First(PrefixOp(u, c)) == TNot <==> u == Not
  {
    hide OperandPrec;
  }

  /** `x op u y`: after an operator a prefix operator belongs to the operand, but `is not` is an operator itself. */
  lemma SignSecond(op: Op, u: UnOp, x: Tree, y: Tree, rest: Tokens)
    requires Tight(x) && Tight(y) && Ends(rest) && !(op == Is && u == Not)
    ensures ReadAs(Flat(x, Written(op) + ([Sign(u)] + Flat(y, rest))), Binary(op, Strip(x), Unary(u, Strip(y))), rest)
  {
    hide Fits, Flat, Strip, Edge, First, Written, PrecOfOp, RightPrec, OperandPrec, ReadAs, Tight, Ends, Sign;
    LevelsAgree(op, op);
    RightIsHigh(op);
    Covering(u, op);
    TightFits(x, PREC_IF_EXPR);
    TightFits(y, OperandPrec(u));
    SignIs(u, y, rest);
    SignFits(u, y, RightPrec(op));
    Joined(op, x, PrefixOp(u, y), PREC_IF_EXPR, rest);
    Whole(InfixOp(op, x, PrefixOp(u, y)), rest);
  }

  /** `x op1 u y op2 z` where the prefix operator takes the second operator in, however tight the first one is. */
  lemma SignBetween(op1: Op, u: UnOp, op2: Op, x: Tree, y: Tree, z: Tree, rest: Tokens)
    requires Tight(x) && Tight(y) && Tight(z) && Ends(rest) && !(op1 == Is && u == Not) && Covers(u, op2)
    ensures ReadAs(Flat(x, Written(op1) + ([Sign(u)] + Flat(y, Written(op2) + Flat(z, rest)))),
                   Binary(op1, Strip(x), Unary(u, Binary(op2, Strip(y), Strip(z)))), rest)
  {
    hide Fits, Flat, Strip, Edge, First, Written, PrecOfOp, RightPrec, OperandPrec, ReadAs, Tight, Ends, Covers, Sign;
    LevelsAgree(op1, op2);
    LevelsAgree(op2, op1);
    RightIsHigh(op1);
    RightIsHigh(op2);
    Covering(u, op2);
    TightFits(x, PREC_IF_EXPR);
    TightFits(y, OperandPrec(u));
    TightFits(z, RightPrec(op2));
    Joined(op2, y, z, OperandPrec(u), rest);
    SignIs(u, InfixOp(op2, y, z), rest);
    SignFits(u, InfixOp(op2, y, z), RightPrec(op1));
    Joined(op1, x, PrefixOp(u, InfixOp(op2, y, z)), PREC_IF_EXPR, rest);
    Whole(InfixOp(op1, x, PrefixOp(u, InfixOp(op2, y, z))), rest);
  }

  /** `<-x op y`: receiving takes a power in and nothing looser. */
  lemma ReceiveFirst(op: Op, x: Tree, y: Tree, rest: Tokens)
    requires Tight(x) && Tight(y) && Ends(rest)
    ensures ReadAs([TArrowLeft] + Flat(x, Written(op) + Flat(y, rest)),
                   if op == Pow then Recv(Binary(Pow, Strip(x), Strip(y))) else Binary(op, Recv(Strip(x)), Strip(y)), rest)
  {
    hide Fits, Flat, Strip, Edge, First, Written, PrecOfOp, RightPrec, ReadAs, Tight, Ends;
    LevelsAgree(op, op);
    RightIsHigh(op);
    TightFits(x, PREC_UNARY);
    TightFits(y, RightPrec(op));
    if op == Pow {
      Joined(op, x, y, PREC_UNARY, rest);
      ReceiveIs(InfixOp(op, x, y), PREC_IF_EXPR, rest);
      Whole(ReceiveOp(InfixOp(op, x, y)), rest);
    } else {
      ReceiveIs(x, PREC_IF_EXPR, Written(op) + Flat(y, rest));
      Joined(op, ReceiveOp(x), y, PREC_IF_EXPR, rest);
      Whole(InfixOp(op, ReceiveOp(x), y), rest);
    }
  }

  lemma {:induction false} ReceiveIs(e: Tree, min: nat, rest: Tokens)
    requires Fits(e, PREC_UNARY)
    ensures var d := ReceiveOp(e);
      && Fits(d, min) && Edge(d) == Min(PREC_UNARY, Edge(e)) && Strip(d) == Recv(Strip(e))
      && Flat(d, rest) == [TArrowLeft] + Flat(e, rest)
  {
  }

  // ---------------------------------------------------------------------
  // Conditionals
  // ---------------------------------------------------------------------

  /** `x op y if k else z`: every operator binds tighter than a conditional. */
  lemma ConditionalOfOperator(op: Op, x: Tree, y: Tree, k: Tree, z: Tree, rest: Tokens)
    requires Tight(x) && Tight(y) && Tight(k) && Tight(z) && Ends(rest)
    ensures ReadAs(Flat(x, Written(op) + Flat(y, [TIf] + Flat(k, [TElse] + Flat(z, rest)))),
                   IfElse(Binary(op, Strip(x), Strip(y)), Strip(k), Strip(z)), rest)
  {
    hide Fits, Flat, Strip, Edge, First, Written, PrecOfOp, RightPrec, ReadAs, Tight, Ends;
    LevelsAgree(op, op);
    RightIsHigh(op);
    TightFits(x, PREC_IF_EXPR);
    TightFits(y, RightPrec(op));
    TightFits(k, PREC_IF_EXPR);
    TightFits(z, PREC_IF_EXPR);
    Joined(op, x, y, PREC_IF_EXPR, [TIf] + Flat(k, [TElse] + Flat(z, rest)));
    Chosen(InfixOp(op, x, y), k, z, rest);
  }

  /** `x if k op y else z`. */
  lemma OperatorInTest(op: Op, x: Tree, k: Tree, y: Tree, z: Tree, rest: Tokens)
    requires Tight(x) && Tight(k) && Tight(y) && Tight(z) && Ends(rest)
    ensures ReadAs(Flat(x, [TIf] + Flat(k, Written(op) + Flat(y, [TElse] + Flat(z, rest)))),
                   IfElse(Strip(x), Binary(op, Strip(k), Strip(y)), Strip(z)), rest)
  {
    hide Fits, Flat, Strip, Edge, First, Written, PrecOfOp, RightPrec, ReadAs, Tight, Ends;
    LevelsAgree(op, op);
    RightIsHigh(op);
    TightFits(x, PREC_IF_EXPR);
    TightFits(k, PREC_IF_EXPR);
    TightFits(y, RightPrec(op));
    TightFits(z, PREC_IF_EXPR);
    Joined(op, k, y, PREC_IF_EXPR, [TElse] + Flat(z, rest));
    Chosen(x, InfixOp(op, k, y), z, rest);
  }

  /** `x if k else y op z`. */
  lemma OperatorInAlternative(op: Op, x: Tree, k: Tree, y: Tree, z: Tree, rest: Tokens)
    requires Tight(x) && Tight(k) && Tight(y) && Tight(z) && Ends(rest)
    ensures ReadAs(Flat(x, [TIf] + Flat(k, [TElse] + Flat(y, Written(op) + Flat(z, rest)))),
                   IfElse(Strip(x), Strip(k), Binary(op, Strip(y), Strip(z))), rest)
  {
    hide Fits, Flat, Strip, Edge, First, Written, PrecOfOp, RightPrec, ReadAs, Tight, Ends;
    LevelsAgree(op, op);
    RightIsHigh(op);
    TightFits(x, PREC_IF_EXPR);
    TightFits(k, PREC_IF_EXPR);
    TightFits(y, PREC_IF_EXPR);
    TightFits(z, RightPrec(op));
    Joined(op, y, z, PREC_IF_EXPR, rest);
    Chosen(x, k, InfixOp(op, y, z), rest);
  }

  lemma Chosen(v: Tree, k: Tree, a: Tree, rest: Tokens)
    requires Fits(v, PREC_IF_EXPR) && PREC_IF_EXPR < Edge(v) && Fits(k, PREC_IF_EXPR) && Fits(a, PREC_IF_EXPR) && Ends(rest)
    ensures ReadAs(Flat(v, [TIf] + Flat(k, [TElse] + Flat(a, rest))), IfElse(Strip(v), Strip(k), Strip(a)), rest)
  {
    hide Fits, Flat, Strip, Edge, ReadAs, Ends;
    CondTree(v, k, a, PREC_IF_EXPR, rest);
    Whole(Cond(v, k, a), rest);
  }

  // ---------------------------------------------------------------------
  // Postfix forms and brackets
  // ---------------------------------------------------------------------

  /** A tree of any kind, as it stands between brackets. */
  predicate Any(c: Tree)
  {
    Fits(c, PREC_IF_EXPR)
  }

  /** `x.name`, `x++`, `x--` and `x[y]`. */
  lemma Postfix(x: Tree, name: Text, y: Tree, rest: Tokens)
    requires Tight(x) && Any(y) && Ends(rest)
    ensures ReadAs(Flat(x, [TDot, TIdent(name)] + rest), Attr(Strip(x), name), rest)
    ensures ReadAs(Flat(x, [TInc] + rest), IncDec(Strip(x), true), rest)
    ensures ReadAs(Flat(x, [TDec] + rest), IncDec(Strip(x), false), rest)
    ensures ReadAs(Flat(x, [TLBracket] + Flat(y, [TRBracket] + rest)), Index(Strip(x), Strip(y)), rest)
  {
    hide ReadAs, Ends, Fits, Flat, Strip, Edge, First, Tight;
    assert [TDot, TIdent(name)] + rest == [TDot] + ([TIdent(name)] + rest);
    TightFits(x, PREC_IF_EXPR);
    PostfixIs(x, name, y, rest);
    BumpIs(x, true, rest);
    BumpIs(x, false, rest);
    Whole(Dot(x, name), rest);
    Whole(Bump(x, true), rest);
    Whole(Bump(x, false), rest);
    Whole(Subscript(x, y), rest);
  }

  lemma {:induction false} PostfixIs(x: Tree, name: Text, y: Tree, rest: Tokens)
    requires Fits(x, PREC_IF_EXPR) && Edge(x) == PREC_COUNT && Any(y)
    ensures Fits(Dot(x, name), PREC_IF_EXPR) && Strip(Dot(x, name)) == Attr(Strip(x), name)
    ensures Flat(Dot(x, name), rest) == Flat(x, [TDot] + ([TIdent(name)] + rest))
    ensures Fits(Subscript(x, y), PREC_IF_EXPR) && Strip(Subscript(x, y)) == Index(Strip(x), Strip(y))
    ensures Flat(Subscript(x, y), rest) == Flat(x, [TLBracket] + Flat(y, [TRBracket] + rest))
  {
  }

  lemma {:induction false} BumpIs(x: Tree, up: bool, rest: Tokens)
    requires Fits(x, PREC_IF_EXPR) && Edge(x) == PREC_COUNT
    ensures Fits(Bump(x, up), PREC_IF_EXPR) && Strip(Bump(x, up)) == IncDec(Strip(x), up)
    ensures Flat(Bump(x, up), rest) == Flat(x, [if up then TInc else TDec] + rest)
  {
  }

  /** `x()` and `x(y)`. */
  lemma Called(x: Tree, y: Tree, rest: Tokens)
    requires Tight(x) && Any(y) && Ends(rest)
    ensures ReadAs(Flat(x, [TLParen, TRParen] + rest), Call(Strip(x), NoNodes, NoNodes), rest)
    ensures ReadAs(Flat(x, [TLParen] + Flat(y, [TRParen] + rest)), Call(Strip(x), Item(Strip(y), NoNodes), NoNodes), rest)
  {
    hide ReadAs, Ends, Fits, Flat, Strip, Edge, First, Tight, FitsArgs, FlatArgs, Positional, Keywords;
    ArgIs(NoName, y, [TRParen] + rest);
    assert [TLParen, TRParen] + rest == [TLParen] + ([TRParen] + rest);
    Applied(x, NoArgs, rest);
    Applied(x, Args(Plain, y, NoArgs), rest);
  }

  /** `x(name = y)`, `x(*y)` and `x(**y)`. */
  lemma CalledMarked(x: Tree, name: Text, y: Tree, rest: Tokens)
    requires Tight(x) && Any(y) && Ends(rest)
    ensures ReadAs(Flat(x, [TLParen, TIdent(name), TAssign] + Flat(y, [TRParen] + rest)),
                   Call(Strip(x), NoNodes, Item(Keyword(name, Strip(y)), NoNodes)), rest)
    ensures ReadAs(Flat(x, [TLParen, TStar] + Flat(y, [TRParen] + rest)),
                   Call(Strip(x), Item(Star(Strip(y)), NoNodes), NoNodes), rest)
    ensures ReadAs(Flat(x, [TLParen, TStarStar] + Flat(y, [TRParen] + rest)),
                   Call(Strip(x), NoNodes, Item(DoubleStar(Strip(y)), NoNodes)), rest)
  {
    hide ReadAs, Ends, Fits, Flat, Strip, Edge, First, Tight, FitsArgs, FlatArgs, Positional, Keywords;
    ArgIs(name, y, [TRParen] + rest);
    var last := Flat(y, [TRParen] + rest);
    assert [TLParen, TIdent(name), TAssign] + last == [TLParen] + ([TIdent(name)] + ([TAssign] + last));
    assert [TLParen, TStar] + last == [TLParen] + ([TStar] + last);
    assert [TLParen, TStarStar] + last == [TLParen] + ([TStarStar] + last);
    Applied(x, Args(Named(name), y, NoArgs), rest);
    Applied(x, Args(Starred, y, NoArgs), rest);
    Applied(x, Args(DoubleStarred, y, NoArgs), rest);
  }

  lemma Applied(x: Tree, args: ArgList, rest: Tokens)
    requires Tight(x) && FitsArgs(args) && Ends(rest)
    ensures ReadAs(Flat(x, [TLParen] + FlatArgs(args, false, [TRParen] + rest)),
                   Call(Strip(x), Positional(args), Keywords(args)), rest)
  {
    hide ReadAs, Ends, Fits, Flat, Strip, Edge, First, Tight, FitsArgs, FlatArgs, Positional, Keywords;
    TightFits(x, PREC_IF_EXPR);
    ApplyIs(x, args, rest);
    Whole(Apply(x, args, false), rest);
  }

  lemma {:induction false} ApplyIs(x: Tree, args: ArgList, rest: Tokens)
    requires Fits(x, PREC_IF_EXPR) && Edge(x) == PREC_COUNT && FitsArgs(args)
    ensures var d := Apply(x, args, false);
      && Fits(d, PREC_IF_EXPR) && Strip(d) == Call(Strip(x), Positional(args), Keywords(args))
      && Flat(d, rest) == Flat(x, [TLParen] + FlatArgs(args, false, [TRParen] + rest))
  {
    hide FitsArgs, FlatArgs, Positional, Keywords;
  }

  lemma {:induction false} ArgIs(name: Text, y: Tree, rest: Tokens)
    requires Any(y)
    ensures FitsArgs(NoArgs) && Positional(NoArgs) == Keywords(NoArgs) == NoNodes && FlatArgs(NoArgs, false, rest) == rest
    ensures forall m :: FitsArgs(Args(m, y, NoArgs))
    ensures forall m :: FlatArgs(Args(m, y, NoArgs), false, rest) == FlatMark(m, Flat(y, rest))
    ensures var n := Item(Strip(y), NoNodes); Positional(Args(Plain, y, NoArgs)) == n && Keywords(Args(Plain, y, NoArgs)) == NoNodes
    ensures Positional(Args(Starred, y, NoArgs)) == Item(Star(Strip(y)), NoNodes) && Keywords(Args(Starred, y, NoArgs)) == NoNodes
    ensures Positional(Args(DoubleStarred, y, NoArgs)) == NoNodes && Positional(Args(Named(name), y, NoArgs)) == NoNodes
    ensures Keywords(Args(DoubleStarred, y, NoArgs)) == Item(DoubleStar(Strip(y)), NoNodes)
    ensures Keywords(Args(Named(name), y, NoArgs)) == Item(Keyword(name, Strip(y)), NoNodes)
  {
    hide Fits, Flat, Strip;
  }

  /** `x[:]`, `x[y:z]`, `x[y:]` and `x[::z]`. */
  lemma Sliced(x: Tree, y: Tree, z: Tree, rest: Tokens)
    requires Tight(x) && Any(y) && Any(z) && Ends(rest)
    ensures ReadAs(Flat(x, [TLBracket, TColon, TRBracket] + rest), Slice(Strip(x), Missing, Missing, Missing), rest)
    ensures ReadAs(Flat(x, [TLBracket] + Flat(y, [TColon] + Flat(z, [TRBracket] + rest))),
                   Slice(Strip(x), Strip(y), Strip(z), Missing), rest)
    ensures ReadAs(Flat(x, [TLBracket] + Flat(y, [TColon, TRBracket] + rest)), Slice(Strip(x), Strip(y), Missing, Missing), rest)
    ensures ReadAs(Flat(x, [TLBracket, TColon, TColon] + Flat(z, [TRBracket] + rest)),
                   Slice(Strip(x), Missing, Missing, Strip(z)), rest)
  {
    hide ReadAs, Ends, Fits, Flat, Strip, Edge, First, Tight;
    hide FitsSlice, FlatSlice;
    TightFits(x, PREC_IF_EXPR);
    SliceIs(x, Parts(Absent, Absent, Absent, false), rest);
    SliceIs(x, Parts(Present(y), Present(z), Absent, false), rest);
    SliceIs(x, Parts(Present(y), Absent, Absent, false), rest);
    SliceIs(x, Parts(Absent, Absent, Present(z), true), rest);
    var last := [TRBracket] + rest;
    assert [TLBracket, TColon, TRBracket] + rest == [TLBracket] + ([TColon] + last);
    assert [TColon, TRBracket] + rest == [TColon] + last;
    assert [TLBracket, TColon, TColon] + Flat(z, last) == [TLBracket] + ([TColon] + ([TColon] + Flat(z, last)));
    Whole(Slicing(x, Parts(Absent, Absent, Absent, false)), rest);
    Whole(Slicing(x, Parts(Present(y), Present(z), Absent, false)), rest);
    Whole(Slicing(x, Parts(Present(y), Absent, Absent, false)), rest);
    Whole(Slicing(x, Parts(Absent, Absent, Present(z), true)), rest);
  }

  lemma {:induction false} SliceIs(x: Tree, p: Parts, rest: Tokens)
    requires Fits(x, PREC_IF_EXPR) && Edge(x) == PREC_COUNT && (p.lo.Present? ==> Any(p.lo.tree))
    requires (p.hi.Present? ==> Any(p.hi.tree)) && (p.step.Present? ==> p.twoColons && Any(p.step.tree))
    ensures var d, last := Slicing(x, p), [TRBracket] + rest;
      && Fits(d, PREC_IF_EXPR)
      && Strip(d) == Slice(Strip(x), StripPart(p.lo), StripPart(p.hi), StripPart(p.step))
      && Flat(d, rest) == Flat(x, [TLBracket] + FlatPart(p.lo, [TColon] + FlatPart(p.hi,
           if p.twoColons then [TColon] + FlatPart(p.step, last) else last)))
  {
    assert FitsPart(p.lo) && FitsPart(p.hi) && FitsPart(p.step);
    assert FlatSlice(p, rest) == FlatPart(p.lo, [TColon] + FlatPart(p.hi,
      if p.twoColons then [TColon] + FlatPart(p.step, [TRBracket] + rest) else [TRBracket] + rest)) by {
      hide Fits, Strip, Flat;
    }
  }

  /** `(y)`, `(y,)`, `[y, z]`, `{y}` and `{y: z}`. */
  lemma Bracketed(y: Tree, z: Tree, rest: Tokens)
    requires Any(y) && Any(z) && Ends(rest)
    ensures ReadAs([TLParen] + Flat(y, [TRParen] + rest), Strip(y), rest)
    ensures ReadAs([TLParen] + Flat(y, [TComma, TRParen] + rest), Tuple(Item(Strip(y), NoNodes)), rest)
    ensures ReadAs([TLBracket] + Flat(y, [TComma] + Flat(z, [TRBracket] + rest)),
                   List(Item(Strip(y), Item(Strip(z), NoNodes))), rest)
    ensures ReadAs([TLBrace] + Flat(y, [TRBrace] + rest), SetLit(Item(Strip(y), NoNodes)), rest)
    ensures ReadAs([TLBrace] + Flat(y, [TColon] + Flat(z, [TRBrace] + rest)),
                   MapLit(Item(Pair(Strip(y), Strip(z)), NoNodes)), rest)
  {
    hide ReadAs, Ends, Fits, Flat, Strip, Edge, First, Tight;
    hide FitsList, StripList, FlatList, FitsPairs, StripPairs, FlatPairs;
    var one, two := Trees(y, NoTrees), Trees(y, Trees(z, NoTrees));
    GroupIs(y, rest);
    PairIs(y, z, [TRBrace] + rest);
    MapIs(Pairs(y, z, NoPairs), rest);
    ListsAre(y, z, true, [TRParen] + rest);
    ListsAre(y, z, false, [TRBracket] + rest);
    ListsAre(y, z, false, [TRBrace] + rest);
    ParensIs(one, true, rest);
    BracketsIs(two, false, rest);
    BracesIs(one, false, rest);
    assert [TComma, TRParen] + rest == [TComma] + ([TRParen] + rest);
    Whole(Group(y), rest);
    Whole(Parens(Trees(y, NoTrees), true), rest);
    Whole(Brackets(Trees(y, Trees(z, NoTrees)), false), rest);
    Whole(SetBraces(Trees(y, NoTrees), false), rest);
    Whole(MapBraces(Pairs(y, z, NoPairs), false), rest);
  }

  lemma {:induction false} GroupIs(y: Tree, rest: Tokens)
    requires Any(y)
    ensures Fits(Group(y), PREC_IF_EXPR) && Strip(Group(y)) == Strip(y)
    ensures Flat(Group(y), rest) == [TLParen] + Flat(y, [TRParen] + rest)
  {
  }

  lemma {:induction false} MapIs(l: PairList, rest: Tokens)
    requires FitsPairs(l) && l.Pairs?
    ensures var d := MapBraces(l, false);
      && Fits(d, PREC_IF_EXPR) && Strip(d) == MapLit(StripPairs(l))
      && Flat(d, rest) == [TLBrace] + FlatPairs(l, false, [TRBrace] + rest)
  {
    hide FitsList, StripList, FlatList, FitsPairs, FlatPairs, StripPairs, FitsArgs, FlatArgs, FitsSlice, FlatSlice,
         FitsPart, FlatCapacity, FlatOp, PrecOfOp, RightPrec, OperandPrec, Edge, First, IsLeaf, Positional, Keywords;
  }

  lemma {:induction false} PairIs(y: Tree, z: Tree, rest: Tokens)
    requires Any(y) && Any(z)
    ensures var ps := Pairs(y, z, NoPairs);
      FitsPairs(ps) && StripPairs(ps) == Item(Pair(Strip(y), Strip(z)), NoNodes)
      && FlatPairs(ps, false, rest) == Flat(y, [TColon] + Flat(z, rest))
  {
    hide Fits, Strip, Flat;
  }

  /** Lists of one and of two trees. */
  lemma {:induction false} ListsAre(y: Tree, z: Tree, trailing: bool, rest: Tokens)
    requires Any(y) && Any(z)
    ensures var one := Trees(y, NoTrees);
      FitsList(one) && StripList(one) == Item(Strip(y), NoNodes)
      && FlatList(one, trailing, rest) == Flat(y, if trailing then [TComma] + rest else rest)
    ensures var two := Trees(y, Trees(z, NoTrees));
      FitsList(two) && StripList(two) == Item(Strip(y), Item(Strip(z), NoNodes))
      && FlatList(two, false, rest) == Flat(y, [TComma] + Flat(z, rest))
  {
    hide Fits, Strip, Flat;
  }

  lemma {:induction false} BracketsIs(l: TreeList, trailing: bool, rest: Tokens)
    requires FitsList(l) && l.Trees?
    ensures var d := Brackets(l, trailing);
      && Fits(d, PREC_IF_EXPR) && Strip(d) == List(StripList(l))
      && Flat(d, rest) == [TLBracket] + FlatList(l, trailing, [TRBracket] + rest)
  {
    hide FitsList, StripList, FlatList, FitsPairs, FlatPairs, StripPairs, FitsArgs, FlatArgs, FitsSlice, FlatSlice,
         FitsPart, FlatCapacity, FlatOp, PrecOfOp, RightPrec, OperandPrec, Edge, First, IsLeaf, Positional, Keywords;
  }

  lemma {:induction false} BracesIs(l: TreeList, trailing: bool, rest: Tokens)
    requires FitsList(l) && l.Trees?
    ensures var d := SetBraces(l, trailing);
      && Fits(d, PREC_IF_EXPR) && Strip(d) == SetLit(StripList(l))
      && Flat(d, rest) == [TLBrace] + FlatList(l, trailing, [TRBrace] + rest)
  {
    hide FitsList, StripList, FlatList, FitsPairs, FlatPairs, StripPairs, FitsArgs, FlatArgs, FitsSlice, FlatSlice,
         FitsPart, FlatCapacity, FlatOp, PrecOfOp, RightPrec, OperandPrec, Edge, First, IsLeaf, Positional, Keywords;
  }

  lemma {:induction false} ParensIs(l: TreeList, trailing: bool, rest: Tokens)
    requires FitsList(l) && l.Trees? && trailing
    ensures var d := Parens(l, trailing);
      && Fits(d, PREC_IF_EXPR) && Strip(d) == Tuple(StripList(l))
      && Flat(d, rest) == [TLParen] + FlatList(l, trailing, [TRParen] + rest)
  {
    hide FitsList, StripList, FlatList, FitsPairs, FlatPairs, StripPairs, FitsArgs, FlatArgs, FitsSlice, FlatSlice,
         FitsPart, FlatCapacity, FlatOp, PrecOfOp, RightPrec, OperandPrec, Edge, First, IsLeaf, Positional, Keywords;
  }

  // ---------------------------------------------------------------------
  // Leaves
  // ---------------------------------------------------------------------

  /** What each literal and each name means. */
  lemma Leaves(t: Token, rest: Tokens)
    requires Ends(rest)
    ensures t.TInt? ==> ReadAs([t] + rest, IntLit(t.i), rest)
    ensures t.TFloat? ==> ReadAs([t] + rest, FloatLit(t.f), rest)
    ensures t.TStr? ==> ReadAs([t] + rest, StrLit(t.s), rest)
    ensures t.TBytes? ==> ReadAs([t] + rest, BytesLit(t.s), rest)
    ensures t.TIdent? ==> ReadAs([t] + rest, Name(t.x), rest)
    ensures t == TTrue ==> ReadAs([t] + rest, BoolLit(true), rest)
    ensures t == TFalse ==> ReadAs([t] + rest, BoolLit(false), rest)
    ensures t == TNil ==> ReadAs([t] + rest, NilLit, rest)
  {
    hide ReadAs, Ends;
    if IsLeaf(t) {
      Whole(Leaf(t), rest);
    }
  }

  /** `1 + 2 * 3`. */
  lemma ProductFirst()
    ensures ReadAs([TInt(1), TPlus, TInt(2), TStar, TInt(3)], Binary(Add, IntLit(1), Binary(Mul, IntLit(2), IntLit(3))), [])
  {
    hide ReadAs;
    SecondBindsTighter(Add, Mul, Leaf(TInt(1)), Leaf(TInt(2)), Leaf(TInt(3)), []);
    assert [TInt(1)] + ([TPlus] + ([TInt(2)] + ([TStar] + ([TInt(3)] + [])))) == [TInt(1), TPlus, TInt(2), TStar, TInt(3)];
  }
}
