/** The grammar of the expressions that the parser accepts, as derivation trees down to their tokens,
    and the syntax tree each derivation stands for.

    It orders operators by the precedences of the parser.  That these are the rows of the standard, and
    that only `EmptyParens` and the empty subscript go beyond it, is proved in `ExprStandard`. */
module ExprGrammar {
  import opened Tokens
  import opened ExprAst

  datatype Cst =
    | Atom(tok: Token)
    | Parens(open: Token, inner: Cst, close: Token)
    | EmptyParens(open: Token, close: Token)
    | Call(name: Token, args: CallArgs)
    | Construct(typeName: Token, dims: seq<Bracket>, args: CallArgs)
    | Subscript(base: Cst, bracket: Bracket)
    | Member(base: Cst, dot: Token, name: Token)
    | LengthCall(base: Cst, dot: Token, name: Token, open: Token, close: Token)
    | PostfixOp(base: Cst, op: Token)
    | Prefix(op: Token, arg: Cst)
    | Infix(lhs: Cst, op: Token, rhs: Cst)
    | Ternary(cond: Cst, question: Token, whenTrue: Cst, colon: Token, whenFalse: Cst)
    | Assignment(lhs: Cst, op: Token, rhs: Cst)
    | Sequence(lhs: Cst, comma: Token, rhs: Cst)

  datatype Bracket = EmptyBracket(open: Token, close: Token) | FullBracket(open: Token, inner: Cst, close: Token)

  datatype CallArgs =
    | NoArgs(open: Token, close: Token)
    | VoidArgs(open: Token, void: Token, close: Token)
    | SomeArgs(open: Token, items: ArgList, close: Token)

  /** One or more arguments with their commas, the last one outermost. */
  datatype ArgList = Single(arg: Cst) | Snoc(init: ArgList, comma: Token, arg: Cst)

  /** How tightly a derivation binds: 12 for postfix expressions, 11 for prefix operators, 10 to
      0 for the binary operators, then `?:`, assignment and the comma operator. */
  function Level(c: Cst): int {
    match c
    case Prefix(_, _) => 11
    case Infix(_, op, _) =>
      var desc := TryParseBinaryOp(op.klass);
      if desc.Some? then desc.value.precedence else 0
    case Ternary(_, _, _, _, _) => -1
    case Assignment(_, _, _) => -2
    case Sequence(_, _, _) => -3
    case _ => 12
  }

  predicate IsLiteral(klass: TokenKlass) { klass.NumberLiteral? || klass.K_true? || klass.K_false? }

  predicate IsTypeNameToken(structNames: set<string>, tok: Token) {
    IsBuiltinType(tok.klass) || (tok.klass.Identifier? && tok.text in structNames)
  }

  predicate IsValueName(structNames: set<string>, tok: Token) {
    tok.klass.Identifier? && tok.text !in structNames
  }

  predicate Derives(structNames: set<string>, c: Cst)
    decreases c
  {
    match c
    case Atom(tok) => IsValueName(structNames, tok) || IsLiteral(tok.klass)
    case Parens(open, inner, close) =>
      open.klass.LParen? && close.klass.RParen? && Derives(structNames, inner)
    case EmptyParens(open, close) => open.klass.LParen? && close.klass.RParen?
    case Call(name, args) => IsValueName(structNames, name) && DerivesArgs(structNames, args)
    case Construct(typeName, dims, args) =>
      && IsTypeNameToken(structNames, typeName)
      && (forall d | d in dims :: DerivesBracket(structNames, d))
      && DerivesArgs(structNames, args)
    case Subscript(base, bracket) =>
      Derives(structNames, base) && Level(base) == 12 && DerivesBracket(structNames, bracket)
    case Member(base, dot, name) =>
      Derives(structNames, base) && Level(base) == 12 && dot.klass.Dot? && name.klass.Identifier?
    case LengthCall(base, dot, name, open, close) =>
      && Derives(structNames, base) && Level(base) == 12
      && dot.klass.Dot? && name.klass.Identifier? && name.text == "length"
      && open.klass.LParen? && close.klass.RParen?
    case PostfixOp(base, op) =>
      Derives(structNames, base) && Level(base) == 12 && (op.klass.Increment? || op.klass.Decrement?)
    case Prefix(op, arg) =>
      TryParsePrefixUnaryOp(op.klass).Some? && Derives(structNames, arg) && Level(arg) >= 11
    case Infix(l, op, r) =>
      && TryParseBinaryOp(op.klass).Some?
      && Derives(structNames, l) && Derives(structNames, r)
      && Level(l) >= Level(c) && Level(r) > Level(c)
    case Ternary(cond, question, t, colon, f) =>
      && question.klass.Question? && colon.klass.Colon?
      && Derives(structNames, cond) && Derives(structNames, t) && Derives(structNames, f)
      && Level(cond) >= 0 && Level(f) >= -2
    case Assignment(l, op, r) =>
      && TryParseAssignmentOp(op.klass).Some?
      && Derives(structNames, l) && Derives(structNames, r) && Level(l) >= 11 && Level(r) >= -2
    case Sequence(l, comma, r) =>
      comma.klass.Comma? && Derives(structNames, l) && Derives(structNames, r) && Level(r) >= -2
  }

  predicate DerivesBracket(structNames: set<string>, b: Bracket)
    decreases b
  {
    && b.open.klass.LBracket? && b.close.klass.RBracket?
    && match b case EmptyBracket(_, _) => true case FullBracket(_, inner, _) => Derives(structNames, inner)
  }

  predicate DerivesArgs(structNames: set<string>, a: CallArgs)
    decreases a
  {
    && a.open.klass.LParen? && a.close.klass.RParen?
    && match a
       case NoArgs(_, _) => true
       case VoidArgs(_, void, _) => void.klass.K_void?
       case SomeArgs(_, items, _) => DerivesList(structNames, items)
  }

  predicate DerivesList(structNames: set<string>, l: ArgList)
    decreases l
  {
    match l
    case Single(arg) => Derives(structNames, arg) && Level(arg) >= -2
    case Snoc(init, comma, arg) =>
      && DerivesList(structNames, init) && comma.klass.Comma?
      && Derives(structNames, arg) && Level(arg) >= -2
  }

  // ---------------------------------------------------------------------------------------
  // The tokens of a derivation
  // ---------------------------------------------------------------------------------------

  function Yield(c: Cst): seq<Token>
    decreases c
  {
    match c
    case Atom(tok) => [tok]
    case Parens(open, inner, close) => [open] + Yield(inner) + [close]
    case EmptyParens(open, close) => [open, close]
    case Call(name, args) => [name] + YieldArgs(args)
    case Construct(typeName, dims, args) => [typeName] + YieldDims(dims) + YieldArgs(args)
    case Subscript(base, bracket) => Yield(base) + YieldBracket(bracket)
    case Member(base, dot, name) => Yield(base) + [dot, name]
    case LengthCall(base, dot, name, open, close) => Yield(base) + [dot, name, open, close]
    case PostfixOp(base, op) => Yield(base) + [op]
    case Prefix(op, arg) => [op] + Yield(arg)
    case Infix(l, op, r) => Yield(l) + [op] + Yield(r)
    case Ternary(cond, question, t, colon, f) => Yield(cond) + [question] + Yield(t) + [colon] + Yield(f)
    case Assignment(l, op, r) => Yield(l) + [op] + Yield(r)
    case Sequence(l, comma, r) => Yield(l) + [comma] + Yield(r)
  }

  function YieldBracket(b: Bracket): seq<Token>
    decreases b
  {
    match b
    case EmptyBracket(open, close) => [open, close]
    case FullBracket(open, inner, close) => [open] + Yield(inner) + [close]
  }

  function YieldDims(dims: seq<Bracket>): seq<Token>
    decreases dims
  {
    if dims == [] then [] else YieldBracket(dims[0]) + YieldDims(dims[1..])
  }

  function YieldArgs(a: CallArgs): seq<Token>
    decreases a
  {
    match a
    case NoArgs(open, close) => [open, close]
    case VoidArgs(open, void, close) => [open, void, close]
    case SomeArgs(open, items, close) => [open] + YieldList(items) + [close]
  }

  function YieldList(l: ArgList): seq<Token>
    decreases l
  {
    match l
    case Single(arg) => Yield(arg)
    case Snoc(init, comma, arg) => YieldList(init) + [comma] + Yield(arg)
  }

  /** What a postfix expression adds to its base. */
  function PostfixTail(c: Cst): seq<Token>
    requires c.Subscript? || c.Member? || c.LengthCall? || c.PostfixOp?
  {
    match c
    case Subscript(_, bracket) => YieldBracket(bracket)
    case Member(_, dot, name) => [dot, name]
    case LengthCall(_, dot, name, open, close) => [dot, name, open, close]
    case PostfixOp(_, op) => [op]
  }

  // ---------------------------------------------------------------------------------------
  // The syntax tree of a derivation
  // ---------------------------------------------------------------------------------------

  /** The token of a binary operator, of an assignment and of the comma operator. */
  predicate SpellsBinary(op: BinaryOp, klass: TokenKlass) {
    match op
    case PlusOp => klass.Plus?
    case MinusOp => klass.Dash?
    case MulOp => klass.Star?
    case DivOp => klass.Slash?
    case ModuloOp => klass.Percent?
    case EqualOp => klass.Equal?
    case NotEqualOp => klass.NotEqual?
    case LessOp => klass.LAngle?
    case LessEqOp => klass.LessEq?
    case GreaterOp => klass.RAngle?
    case GreaterEqOp => klass.GreaterEq?
    case BitwiseAndOp => klass.Ampersand?
    case BitwiseOrOp => klass.VerticalBar?
    case BitwiseXorOp => klass.Caret?
    case LogicalAndOp => klass.And?
    case LogicalOrOp => klass.Or?
    case LogicalXorOp => klass.Xor?
    case ShiftLeftOp => klass.LShift?
    case ShiftRightOp => klass.RShift?
    case CommaOp => klass.Comma?
    case AssignOp => klass.Assign?
    case MulAssignOp => klass.MulAssign?
    case DivAssignOp => klass.DivAssign?
    case ModAssignOp => klass.ModAssign?
    case AddAssignOp => klass.AddAssign?
    case SubAssignOp => klass.SubAssign?
    case LShiftAssignOp => klass.LShiftAssign?
    case RShiftAssignOp => klass.RShiftAssign?
    case AndAssignOp => klass.AndAssign?
    case XorAssignOp => klass.XorAssign?
    case OrAssignOp => klass.OrAssign?
  }

  predicate SpellsPrefix(op: UnaryOp, klass: TokenKlass) {
    match op
    case Identity => klass.Plus?
    case Negate => klass.Dash?
    case BitwiseNot => klass.Tilde?
    case LogicalNot => klass.Bang?
    case PrefixInc => klass.Increment?
    case PrefixDec => klass.Decrement?
    case _ => false
  }

  /** `e` is the syntax tree of the derivation `c`, whatever its ranges; parentheses leave no
      node of their own. */
  predicate Represents(e: Expr, c: Cst)
    decreases c
  {
    match c
    case Atom(tok) => e.node == if tok.klass.Identifier? then NameAccess(tok) else Literal(tok)
    case Parens(_, inner, _) => Represents(e, inner)
    case EmptyParens(_, _) => e.node.ErrorExpr?
    case Call(name, args) => e.node.FunctionCall? && e.node.callee == name && RepresentsArgs(e.node.args, args)
    case Construct(typeName, dims, args) =>
      && e.node.ConstructorCall? && e.node.typeSpec.typeName == typeName
      && RepresentsDims(e.node.typeSpec.dims, dims)
      && RepresentsArgs(e.node.args, args)
    case Subscript(base, bracket) =>
      e.node.IndexAccess? && Represents(e.node.base, base) && RepresentsIndex(e.node.index, bracket)
    case Member(base, _, name) =>
      e.node.DotAccess? && Represents(e.node.base, base) && e.node.member == Some(name)
    case LengthCall(base, _, _, _, _) =>
      e.node.Unary? && e.node.unaryOp == Length && Represents(e.node.operand, base)
    case PostfixOp(base, op) =>
      && e.node.Unary? && Represents(e.node.operand, base)
      && e.node.unaryOp == if op.klass.Increment? then PostfixInc else PostfixDec
    case Prefix(op, arg) =>
      e.node.Unary? && SpellsPrefix(e.node.unaryOp, op.klass) && Represents(e.node.operand, arg)
    case Infix(l, op, r) =>
      && e.node.Binary? && Represents(e.node.lhs, l) && Represents(e.node.rhs, r)
      && SpellsBinary(e.node.binaryOp, op.klass)
    case Ternary(cond, _, t, _, f) =>
      && e.node.Select? && Represents(e.node.cond, cond)
      && Represents(e.node.whenTrue, t) && Represents(e.node.whenFalse, f)
    case Assignment(l, op, r) =>
      && e.node.Binary? && Represents(e.node.lhs, l) && Represents(e.node.rhs, r)
      && SpellsBinary(e.node.binaryOp, op.klass)
    case Sequence(l, _, r) =>
      e.node.Binary? && e.node.binaryOp == CommaOp && Represents(e.node.lhs, l) && Represents(e.node.rhs, r)
  }

  predicate RepresentsIndex(e: Expr, b: Bracket)
    decreases b
  {
    match b case EmptyBracket(_, _) => e.node.ErrorExpr? case FullBracket(_, inner, _) => Represents(e, inner)
  }

  predicate RepresentsDim(d: Dim, b: Bracket)
    decreases b
  {
    match b case EmptyBracket(_, _) => d.Unsized? case FullBracket(_, inner, _) => d.Sized? && Represents(d.size, inner)
  }

  predicate RepresentsDims(ds: seq<Dim>, bs: seq<Bracket>)
    decreases bs
  {
    |ds| == |bs| && forall i | 0 <= i < |bs| :: RepresentsDim(ds[i], bs[i])
  }

  predicate RepresentsArgs(es: seq<Expr>, a: CallArgs)
    decreases a
  {
    match a
    case NoArgs(_, _) => es == []
    case VoidArgs(_, _, _) => es == []
    case SomeArgs(_, items, _) => RepresentsList(es, items)
  }

  predicate RepresentsList(es: seq<Expr>, l: ArgList)
    decreases l
  {
    match l
    case Single(arg) => |es| == 1 && Represents(es[0], arg)
    case Snoc(init, _, arg) => |es| > 1 && RepresentsList(es[..|es| - 1], init) && Represents(es[|es| - 1], arg)
  }
}
