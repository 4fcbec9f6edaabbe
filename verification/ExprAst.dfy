/** Expression syntax trees as the parser builds them.  A node's range runs from the index of
    its first token to the index just past the last token read when the node was built. */
module ExprAst {
  import opened Tokens

  datatype UnaryOp =
    | Identity | Negate | BitwiseNot | LogicalNot
    | PrefixInc | PrefixDec | PostfixInc | PostfixDec | Length

  datatype BinaryOp =
    | PlusOp | MinusOp | MulOp | DivOp | ModuloOp
    | EqualOp | NotEqualOp | LessOp | LessEqOp | GreaterOp | GreaterEqOp
    | BitwiseAndOp | BitwiseOrOp | BitwiseXorOp
    | LogicalAndOp | LogicalOrOp | LogicalXorOp
    | ShiftLeftOp | ShiftRightOp
    | CommaOp
    | AssignOp | MulAssignOp | DivAssignOp | ModAssignOp | AddAssignOp | SubAssignOp
    | LShiftAssignOp | RShiftAssignOp | AndAssignOp | XorAssignOp | OrAssignOp

  datatype Range = Range(begin: nat, end: nat)

  datatype Expr = Expr(range: Range, node: Node)

  datatype Node =
    | ErrorExpr
    | NameAccess(name: Token)
    | Literal(literal: Token)
    | FunctionCall(callee: Token, args: seq<Expr>)
    | ConstructorCall(typeSpec: TypeSpec, args: seq<Expr>)
    | IndexAccess(base: Expr, index: Expr)
    | DotAccess(base: Expr, member: Option<Token>)
    | Unary(unaryOp: UnaryOp, operand: Expr)
    | Binary(binaryOp: BinaryOp, lhs: Expr, rhs: Expr)
    | Select(cond: Expr, whenTrue: Expr, whenFalse: Expr)

  /** An array dimension; an absent size is written `[]`. */
  datatype Dim = Unsized | Sized(size: Expr)

  /** A type name with array dimensions. */
  datatype TypeSpec = TypeSpec(range: Range, typeName: Token, dims: seq<Dim>)

  function TryParseAssignmentOp(klass: TokenKlass): Option<BinaryOp> {
    match klass
    case Assign => Some(AssignOp)
    case MulAssign => Some(MulAssignOp)
    case DivAssign => Some(DivAssignOp)
    case ModAssign => Some(ModAssignOp)
    case AddAssign => Some(AddAssignOp)
    case SubAssign => Some(SubAssignOp)
    case LShiftAssign => Some(LShiftAssignOp)
    case RShiftAssign => Some(RShiftAssignOp)
    case AndAssign => Some(AndAssignOp)
    case XorAssign => Some(XorAssignOp)
    case OrAssign => Some(OrAssignOp)
    case _ => None
  }

  datatype BinaryOpDesc = BinaryOpDesc(opcode: BinaryOp, precedence: nat)

  /** The left-associative binary operators; a larger precedence binds tighter. */
  function TryParseBinaryOp(klass: TokenKlass): (r: Option<BinaryOpDesc>)
    ensures r.Some? ==> r.value.precedence <= 10
  {
    match klass
    case Or => Some(BinaryOpDesc(LogicalOrOp, 0))
    case Xor => Some(BinaryOpDesc(LogicalXorOp, 1))
    case And => Some(BinaryOpDesc(LogicalAndOp, 2))
    case VerticalBar => Some(BinaryOpDesc(BitwiseOrOp, 3))
    case Caret => Some(BinaryOpDesc(BitwiseXorOp, 4))
    case Ampersand => Some(BinaryOpDesc(BitwiseAndOp, 5))
    case Equal => Some(BinaryOpDesc(EqualOp, 6))
    case NotEqual => Some(BinaryOpDesc(NotEqualOp, 6))
    case LAngle => Some(BinaryOpDesc(LessOp, 7))
    case RAngle => Some(BinaryOpDesc(GreaterOp, 7))
    case LessEq => Some(BinaryOpDesc(LessEqOp, 7))
    case GreaterEq => Some(BinaryOpDesc(GreaterEqOp, 7))
    case LShift => Some(BinaryOpDesc(ShiftLeftOp, 8))
    case RShift => Some(BinaryOpDesc(ShiftRightOp, 8))
    case Plus => Some(BinaryOpDesc(PlusOp, 9))
    case Dash => Some(BinaryOpDesc(MinusOp, 9))
    case Star => Some(BinaryOpDesc(MulOp, 10))
    case Slash => Some(BinaryOpDesc(DivOp, 10))
    case Percent => Some(BinaryOpDesc(ModuloOp, 10))
    case _ => None
  }

  function TryParsePrefixUnaryOp(klass: TokenKlass): Option<UnaryOp> {
    match klass
    case Plus => Some(Identity)
    case Dash => Some(Negate)
    case Tilde => Some(BitwiseNot)
    case Bang => Some(LogicalNot)
    case Increment => Some(PrefixInc)
    case Decrement => Some(PrefixDec)
    case _ => None
  }

  predicate IsBuiltinType(klass: TokenKlass) { klass.K_void? || klass.K_builtinType? }

  // ---------------------------------------------------------------------------------------
  // Ranges
  // ---------------------------------------------------------------------------------------

  /** The ranges of `e` and of everything below it form a tree inside `lo .. hi`: each range
      contains the ranges of the children, which are in order and do not overlap. */
  ghost predicate Within(e: Expr, lo: nat, hi: nat)
    decreases e
  {
    && lo <= e.range.begin <= e.range.end <= hi
    && Nested(e.node, e.range)
  }

  ghost predicate Nested(n: Node, r: Range)
    decreases n
  {
    match n
    case ErrorExpr => true
    case NameAccess(_) => true
    case Literal(_) => true
    case FunctionCall(_, args) => ListWithin(args, r.begin, r.end)
    case ConstructorCall(spec, args) =>
      SpecWithin(spec, r.begin, r.end) && ListWithin(args, spec.range.end, r.end)
    case IndexAccess(base, index) =>
      Within(base, r.begin, r.end) && Within(index, base.range.end, r.end)
    case DotAccess(base, _) => Within(base, r.begin, r.end)
    case Unary(_, operand) => Within(operand, r.begin, r.end)
    case Binary(_, lhs, rhs) => Within(lhs, r.begin, r.end) && Within(rhs, lhs.range.end, r.end)
    case Select(c, t, f) =>
      Within(c, r.begin, r.end) && Within(t, c.range.end, r.end) && Within(f, t.range.end, r.end)
  }

  ghost predicate ListWithin(es: seq<Expr>, lo: nat, hi: nat)
    decreases es
  {
    && (forall i | 0 <= i < |es| :: Within(es[i], lo, hi))
    && forall i, j | 0 <= i < j < |es| :: es[i].range.end <= es[j].range.begin
  }

  ghost predicate SpecWithin(spec: TypeSpec, lo: nat, hi: nat)
    decreases spec
  {
    lo <= spec.range.begin <= spec.range.end <= hi && DimsWithin(spec.dims, spec.range.begin, spec.range.end)
  }

  ghost predicate DimWithin(d: Dim, lo: nat, hi: nat)
    decreases d
  {
    match d
    case Unsized => true
    case Sized(size) => Within(size, lo, hi)
  }

  ghost predicate DimsWithin(dims: seq<Dim>, lo: nat, hi: nat)
    decreases dims
  {
    && (forall i | 0 <= i < |dims| :: DimWithin(dims[i], lo, hi))
    && forall i, j | 0 <= i < j < |dims| && dims[i].Sized? && dims[j].Sized? ::
         dims[i].size.range.end <= dims[j].size.range.begin
  }
}
