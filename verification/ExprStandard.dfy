/** The expressions of the OpenGL Shading Language 4.60 specification: the operators of section 5.1 with
    one production for each row of its table, over the postfix and primary expressions of section 9.

    A production says of a derivation down to its tokens whether it is one of its own.  Where `gaps` is
    true the two forms are added that the parser accepts beyond the language: `()` and an empty subscript. */
module ExprStandard {
  import opened Tokens
  import opened ExprAst
  import opened ExprGrammar

  // ---------------------------------------------------------------------------------------
  // Primary and postfix expressions
  // ---------------------------------------------------------------------------------------

  predicate IsVariable(names: set<string>, tok: Token) { tok.klass.Identifier? && !(tok.text in names) }

  predicate IsPrimary(names: set<string>, gaps: bool, c: Cst)
    decreases c, 0
  {
    || (&& c.Atom?
        && (IsVariable(names, c.tok) || c.tok.klass.NumberLiteral? || c.tok.klass.K_true? || c.tok.klass.K_false?))
    || (c.Parens? && c.open.klass.LParen? && IsExpression(names, gaps, c.inner) && c.close.klass.RParen?)
    || (gaps && c.EmptyParens? && c.open.klass.LParen? && c.close.klass.RParen?)
  }

  /** `name(...)`, and `type(...)` for a builtin type or a struct, with array dimensions or without. */
  predicate IsCall(names: set<string>, gaps: bool, c: Cst)
    decreases c, 0
  {
    || (c.Call? && IsVariable(names, c.name) && IsArguments(names, gaps, c.args))
    || (&& c.Construct?
        && (|| c.typeName.klass.K_void? || c.typeName.klass.K_builtinType?
            || (c.typeName.klass.Identifier? && c.typeName.text in names))
        && (forall d | d in c.dims :: IsDimension(names, gaps, d))
        && IsArguments(names, gaps, c.args))
  }

  predicate IsDimension(names: set<string>, gaps: bool, b: Bracket)
    decreases b
  {
    && b.open.klass.LBracket? && b.close.klass.RBracket?
    && (b.FullBracket? ==> IsExpression(names, gaps, b.inner))
  }

  predicate IsArguments(names: set<string>, gaps: bool, a: CallArgs)
    decreases a
  {
    && a.open.klass.LParen? && a.close.klass.RParen?
    && match a
       case NoArgs(_, _) => true
       case VoidArgs(_, void, _) => void.klass.K_void?
       case SomeArgs(_, items, _) => IsArgumentList(names, gaps, items)
  }

  predicate IsArgumentList(names: set<string>, gaps: bool, l: ArgList)
    decreases l
  {
    match l
    case Single(arg) => IsAssignment(names, gaps, arg)
    case Snoc(init, comma, arg) =>
      IsArgumentList(names, gaps, init) && comma.klass.Comma? && IsAssignment(names, gaps, arg)
  }

  predicate IsPostfix(names: set<string>, gaps: bool, c: Cst)
    decreases c, 1
  {
    match c
    case Subscript(base, bracket) =>
      && IsPostfix(names, gaps, base)
      && IsDimension(names, gaps, bracket) && (gaps || bracket.FullBracket?)
    case Member(base, dot, name) => IsPostfix(names, gaps, base) && dot.klass.Dot? && name.klass.Identifier?
    case LengthCall(base, dot, name, open, close) =>
      && IsPostfix(names, gaps, base) && dot.klass.Dot? && name.klass.Identifier? && name.text == "length"
      && open.klass.LParen? && close.klass.RParen?
    case PostfixOp(base, op) => IsPostfix(names, gaps, base) && (op.klass.Increment? || op.klass.Decrement?)
    case _ => IsPrimary(names, gaps, c) || IsCall(names, gaps, c)
  }

  // ---------------------------------------------------------------------------------------
  // The operators, from the tightest to the loosest
  // ---------------------------------------------------------------------------------------

  predicate IsUnary(names: set<string>, gaps: bool, c: Cst)
    decreases c, 2
  {
    || IsPostfix(names, gaps, c)
    || (&& c.Prefix?
        && (|| c.op.klass.Increment? || c.op.klass.Decrement?
            || c.op.klass.Plus? || c.op.klass.Dash? || c.op.klass.Bang? || c.op.klass.Tilde?)
        && IsUnary(names, gaps, c.arg))
  }

  predicate IsMultiplicative(names: set<string>, gaps: bool, c: Cst)
    decreases c, 3
  {
    || IsUnary(names, gaps, c)
    || (&& c.Infix? && (c.op.klass.Star? || c.op.klass.Slash? || c.op.klass.Percent?)
        && IsMultiplicative(names, gaps, c.lhs) && IsUnary(names, gaps, c.rhs))
  }

  predicate IsAdditive(names: set<string>, gaps: bool, c: Cst)
    decreases c, 4
  {
    || IsMultiplicative(names, gaps, c)
    || (&& c.Infix? && (c.op.klass.Plus? || c.op.klass.Dash?)
        && IsAdditive(names, gaps, c.lhs) && IsMultiplicative(names, gaps, c.rhs))
  }

  predicate IsShift(names: set<string>, gaps: bool, c: Cst)
    decreases c, 5
  {
    || IsAdditive(names, gaps, c)
    || (&& c.Infix? && (c.op.klass.LShift? || c.op.klass.RShift?)
        && IsShift(names, gaps, c.lhs) && IsAdditive(names, gaps, c.rhs))
  }

  predicate IsRelational(names: set<string>, gaps: bool, c: Cst)
    decreases c, 6
  {
    || IsShift(names, gaps, c)
    || (&& c.Infix? && (c.op.klass.LAngle? || c.op.klass.RAngle? || c.op.klass.LessEq? || c.op.klass.GreaterEq?)
        && IsRelational(names, gaps, c.lhs) && IsShift(names, gaps, c.rhs))
  }

  predicate IsEquality(names: set<string>, gaps: bool, c: Cst)
    decreases c, 7
  {
    || IsRelational(names, gaps, c)
    || (&& c.Infix? && (c.op.klass.Equal? || c.op.klass.NotEqual?)
        && IsEquality(names, gaps, c.lhs) && IsRelational(names, gaps, c.rhs))
  }

  predicate IsBitwiseAnd(names: set<string>, gaps: bool, c: Cst)
    decreases c, 8
  {
    || IsEquality(names, gaps, c)
    || (&& c.Infix? && c.op.klass.Ampersand?
        && IsBitwiseAnd(names, gaps, c.lhs) && IsEquality(names, gaps, c.rhs))
  }

  predicate IsBitwiseXor(names: set<string>, gaps: bool, c: Cst)
    decreases c, 9
  {
    || IsBitwiseAnd(names, gaps, c)
    || (&& c.Infix? && c.op.klass.Caret?
        && IsBitwiseXor(names, gaps, c.lhs) && IsBitwiseAnd(names, gaps, c.rhs))
  }

  predicate IsBitwiseOr(names: set<string>, gaps: bool, c: Cst)
    decreases c, 10
  {
    || IsBitwiseXor(names, gaps, c)
    || (&& c.Infix? && c.op.klass.VerticalBar?
        && IsBitwiseOr(names, gaps, c.lhs) && IsBitwiseXor(names, gaps, c.rhs))
  }

  predicate IsLogicalAnd(names: set<string>, gaps: bool, c: Cst)
    decreases c, 11
  {
    || IsBitwiseOr(names, gaps, c)
    || (&& c.Infix? && c.op.klass.And?
        && IsLogicalAnd(names, gaps, c.lhs) && IsBitwiseOr(names, gaps, c.rhs))
  }

  predicate IsLogicalXor(names: set<string>, gaps: bool, c: Cst)
    decreases c, 12
  {
    || IsLogicalAnd(names, gaps, c)
    || (&& c.Infix? && c.op.klass.Xor?
        && IsLogicalXor(names, gaps, c.lhs) && IsLogicalAnd(names, gaps, c.rhs))
  }

  predicate IsLogicalOr(names: set<string>, gaps: bool, c: Cst)
    decreases c, 13
  {
    || IsLogicalXor(names, gaps, c)
    || (&& c.Infix? && c.op.klass.Or?
        && IsLogicalOr(names, gaps, c.lhs) && IsLogicalXor(names, gaps, c.rhs))
  }

  predicate IsConditional(names: set<string>, gaps: bool, c: Cst)
    decreases c, 14
  {
    || IsLogicalOr(names, gaps, c)
    || (&& c.Ternary? && c.question.klass.Question? && c.colon.klass.Colon?
        && IsLogicalOr(names, gaps, c.cond) && IsExpression(names, gaps, c.whenTrue)
        && IsAssignment(names, gaps, c.whenFalse))
  }

  predicate IsAssignment(names: set<string>, gaps: bool, c: Cst)
    decreases c, 15
  {
    || IsConditional(names, gaps, c)
    || (&& c.Assignment?
        && (|| c.op.klass.Assign? || c.op.klass.MulAssign? || c.op.klass.DivAssign? || c.op.klass.ModAssign?
            || c.op.klass.AddAssign? || c.op.klass.SubAssign? || c.op.klass.LShiftAssign?
            || c.op.klass.RShiftAssign? || c.op.klass.AndAssign? || c.op.klass.XorAssign? || c.op.klass.OrAssign?)
        && IsUnary(names, gaps, c.lhs) && IsAssignment(names, gaps, c.rhs))
  }

  predicate IsExpression(names: set<string>, gaps: bool, c: Cst)
    decreases c, 16
  {
    || IsAssignment(names, gaps, c)
    || (c.Sequence? && c.comma.klass.Comma? && IsExpression(names, gaps, c.lhs) && IsAssignment(names, gaps, c.rhs))
  }

  // ---------------------------------------------------------------------------------------
  // The parser's grammar is this one
  // ---------------------------------------------------------------------------------------

  /** Somewhere an expression is missing: in `()`, or in the `[]` of a subscript. */
  predicate HasGap(c: Cst)
    decreases c
  {
    match c
    case Atom(_) => false
    case Parens(_, inner, _) => HasGap(inner)
    case EmptyParens(_, _) => true
    case Call(_, args) => HasGapInArgs(args)
    case Construct(_, dims, args) => (exists d | d in dims :: HasGapInDim(d)) || HasGapInArgs(args)
    case Subscript(base, bracket) => HasGap(base) || bracket.EmptyBracket? || HasGapInDim(bracket)
    case Member(base, _, _) => HasGap(base)
    case LengthCall(base, _, _, _, _) => HasGap(base)
    case PostfixOp(base, _) => HasGap(base)
    case Prefix(_, arg) => HasGap(arg)
    case Infix(l, _, r) => HasGap(l) || HasGap(r)
    case Ternary(cond, _, t, _, f) => HasGap(cond) || HasGap(t) || HasGap(f)
    case Assignment(l, _, r) => HasGap(l) || HasGap(r)
    case Sequence(l, _, r) => HasGap(l) || HasGap(r)
  }

  /** An array type may leave its size open: there `[]` is no gap. */
  predicate HasGapInDim(b: Bracket)
    decreases b
  {
    b.FullBracket? && HasGap(b.inner)
  }

  predicate HasGapInArgs(a: CallArgs)
    decreases a
  {
    a.SomeArgs? && HasGapInList(a.items)
  }

  predicate HasGapInList(l: ArgList)
    decreases l
  {
    match l case Single(arg) => HasGap(arg) case Snoc(init, _, arg) => HasGapInList(init) || HasGap(arg)
  }

  /** A derivation of the parser's grammar, without a gap unless gaps are allowed. */
  ghost predicate Grammatical(names: set<string>, gaps: bool, c: Cst) {
    Derives(names, c) && (gaps || !HasGap(c))
  }

  ghost predicate BindsLike(names: set<string>, gaps: bool, c: Cst, level: int) {
    Grammatical(names, gaps, c) && Level(c) >= level
  }

  /** The rows of the table are the precedences of the parser. */
  lemma BinaryRows(k: TokenKlass)
    ensures var desc := TryParseBinaryOp(k);
            && (k.Star? || k.Slash? || k.Percent? <==> desc.Some? && desc.value.precedence == 10)
            && (k.Plus? || k.Dash? <==> desc.Some? && desc.value.precedence == 9)
            && (k.LShift? || k.RShift? <==> desc.Some? && desc.value.precedence == 8)
            && (k.LAngle? || k.RAngle? || k.LessEq? || k.GreaterEq? <==> desc.Some? && desc.value.precedence == 7)
            && (k.Equal? || k.NotEqual? <==> desc.Some? && desc.value.precedence == 6)
            && (k.Ampersand? <==> desc.Some? && desc.value.precedence == 5)
            && (k.Caret? <==> desc.Some? && desc.value.precedence == 4)
            && (k.VerticalBar? <==> desc.Some? && desc.value.precedence == 3)
            && (k.And? <==> desc.Some? && desc.value.precedence == 2)
            && (k.Xor? <==> desc.Some? && desc.value.precedence == 1)
            && (k.Or? <==> desc.Some? && desc.value.precedence == 0)
  {
  }

  lemma PrefixRow(k: TokenKlass)
    ensures TryParsePrefixUnaryOp(k).Some?
            <==> k.Increment? || k.Decrement? || k.Plus? || k.Dash? || k.Bang? || k.Tilde?
  {
  }

  lemma AssignmentRow(k: TokenKlass)
    ensures TryParseAssignmentOp(k).Some?
            <==> || k.Assign? || k.MulAssign? || k.DivAssign? || k.ModAssign? || k.AddAssign? || k.SubAssign?
                 || k.LShiftAssign? || k.RShiftAssign? || k.AndAssign? || k.XorAssign? || k.OrAssign?
  {
  }

  ghost predicate Layered(names: set<string>, gaps: bool, c: Cst) {
    && (IsPostfix(names, gaps, c) <==> BindsLike(names, gaps, c, 12))
    && (IsUnary(names, gaps, c) <==> BindsLike(names, gaps, c, 11))
    && (IsMultiplicative(names, gaps, c) <==> BindsLike(names, gaps, c, 10))
    && (IsAdditive(names, gaps, c) <==> BindsLike(names, gaps, c, 9))
    && (IsShift(names, gaps, c) <==> BindsLike(names, gaps, c, 8))
    && (IsRelational(names, gaps, c) <==> BindsLike(names, gaps, c, 7))
    && (IsEquality(names, gaps, c) <==> BindsLike(names, gaps, c, 6))
    && (IsBitwiseAnd(names, gaps, c) <==> BindsLike(names, gaps, c, 5))
    && (IsBitwiseXor(names, gaps, c) <==> BindsLike(names, gaps, c, 4))
    && (IsBitwiseOr(names, gaps, c) <==> BindsLike(names, gaps, c, 3))
    && (IsLogicalAnd(names, gaps, c) <==> BindsLike(names, gaps, c, 2))
    && (IsLogicalXor(names, gaps, c) <==> BindsLike(names, gaps, c, 1))
    && (IsLogicalOr(names, gaps, c) <==> BindsLike(names, gaps, c, 0))
    && (IsConditional(names, gaps, c) <==> BindsLike(names, gaps, c, -1))
    && (IsAssignment(names, gaps, c) <==> BindsLike(names, gaps, c, -2))
    && (IsExpression(names, gaps, c) <==> BindsLike(names, gaps, c, -3))
  }

  lemma UnaryLayers(names: set<string>, gaps: bool, c: Cst)
    requires !c.Infix? && !c.Ternary? && !c.Assignment? && !c.Sequence?
    requires IsPostfix(names, gaps, c) <==> BindsLike(names, gaps, c, 12)
    requires IsUnary(names, gaps, c) <==> Grammatical(names, gaps, c)
    ensures Layered(names, gaps, c)
  {
    hide IsPostfix, IsUnary, Grammatical, TryParseBinaryOp;
    assert Level(c) >= 11;
    assert IsMultiplicative(names, gaps, c) <==> IsUnary(names, gaps, c);
    assert IsAdditive(names, gaps, c) <==> IsMultiplicative(names, gaps, c);
    assert IsShift(names, gaps, c) <==> IsAdditive(names, gaps, c);
    assert IsRelational(names, gaps, c) <==> IsShift(names, gaps, c);
    assert IsEquality(names, gaps, c) <==> IsRelational(names, gaps, c);
    assert IsBitwiseAnd(names, gaps, c) <==> IsEquality(names, gaps, c);
    assert IsBitwiseXor(names, gaps, c) <==> IsBitwiseAnd(names, gaps, c);
    assert IsBitwiseOr(names, gaps, c) <==> IsBitwiseXor(names, gaps, c);
    assert IsLogicalAnd(names, gaps, c) <==> IsBitwiseOr(names, gaps, c);
    assert IsLogicalXor(names, gaps, c) <==> IsLogicalAnd(names, gaps, c);
    assert IsLogicalOr(names, gaps, c) <==> IsLogicalXor(names, gaps, c);
    assert IsConditional(names, gaps, c) <==> IsLogicalOr(names, gaps, c);
    assert IsAssignment(names, gaps, c) <==> IsConditional(names, gaps, c);
    assert IsExpression(names, gaps, c) <==> IsAssignment(names, gaps, c);
  }

  lemma InfixParts(names: set<string>, gaps: bool, c: Cst)
    requires c.Infix?
    ensures var desc := TryParseBinaryOp(c.op.klass);
            && (desc.Some? ==> Level(c) == desc.value.precedence)
            && (Grammatical(names, gaps, c)
                <==> && desc.Some? && BindsLike(names, gaps, c.lhs, desc.value.precedence)
                     && BindsLike(names, gaps, c.rhs, desc.value.precedence + 1))
    ensures !IsPostfix(names, gaps, c) && !IsUnary(names, gaps, c)
  {
    hide TryParseBinaryOp;
    assert !IsPrimary(names, gaps, c) && !IsCall(names, gaps, c);
    assert !IsPostfix(names, gaps, c);
  }

  lemma InfixLayers(names: set<string>, gaps: bool, c: Cst)
    requires c.Infix? && Layered(names, gaps, c.lhs) && Layered(names, gaps, c.rhs)
    ensures Layered(names, gaps, c)
  {
    hide TryParseBinaryOp, Grammatical, Level, IsUnary, IsPostfix;
    BinaryRows(c.op.klass);
    InfixParts(names, gaps, c);
    assert !BindsLike(names, gaps, c, 11) && !BindsLike(names, gaps, c, 12);
    assert IsMultiplicative(names, gaps, c) <==> BindsLike(names, gaps, c, 10);
    assert IsAdditive(names, gaps, c) <==> BindsLike(names, gaps, c, 9);
    assert IsShift(names, gaps, c) <==> BindsLike(names, gaps, c, 8);
    assert IsRelational(names, gaps, c) <==> BindsLike(names, gaps, c, 7);
    assert IsEquality(names, gaps, c) <==> BindsLike(names, gaps, c, 6);
    assert IsBitwiseAnd(names, gaps, c) <==> BindsLike(names, gaps, c, 5);
    assert IsBitwiseXor(names, gaps, c) <==> BindsLike(names, gaps, c, 4);
    assert IsBitwiseOr(names, gaps, c) <==> BindsLike(names, gaps, c, 3);
    assert IsLogicalAnd(names, gaps, c) <==> BindsLike(names, gaps, c, 2);
    assert IsLogicalXor(names, gaps, c) <==> BindsLike(names, gaps, c, 1);
    assert IsLogicalOr(names, gaps, c) <==> BindsLike(names, gaps, c, 0);
    assert IsConditional(names, gaps, c) <==> IsLogicalOr(names, gaps, c);
    assert IsAssignment(names, gaps, c) <==> IsConditional(names, gaps, c);
    assert IsExpression(names, gaps, c) <==> IsAssignment(names, gaps, c);
  }

  /** No production above the conditional operator. */
  ghost predicate IsLoose(names: set<string>, gaps: bool, c: Cst) {
    && !IsPostfix(names, gaps, c) && !IsUnary(names, gaps, c) && !IsMultiplicative(names, gaps, c)
    && !IsAdditive(names, gaps, c) && !IsShift(names, gaps, c) && !IsRelational(names, gaps, c)
    && !IsEquality(names, gaps, c) && !IsBitwiseAnd(names, gaps, c) && !IsBitwiseXor(names, gaps, c)
    && !IsBitwiseOr(names, gaps, c) && !IsLogicalAnd(names, gaps, c) && !IsLogicalXor(names, gaps, c)
    && !IsLogicalOr(names, gaps, c)
  }

  lemma LooseOperators(names: set<string>, gaps: bool, c: Cst)
    requires c.Ternary? || c.Assignment? || c.Sequence?
    ensures IsLoose(names, gaps, c)
  {
    assert !IsPrimary(names, gaps, c) && !IsCall(names, gaps, c);
    assert !IsPostfix(names, gaps, c);
  }

  lemma TernaryLayers(names: set<string>, gaps: bool, c: Cst)
    requires c.Ternary?
    requires Layered(names, gaps, c.cond) && Layered(names, gaps, c.whenTrue) && Layered(names, gaps, c.whenFalse)
    ensures Layered(names, gaps, c)
  {
    hide TryParseBinaryOp, IsPostfix, IsUnary, IsLogicalOr;
    LooseOperators(names, gaps, c);
    assert IsConditional(names, gaps, c) <==> BindsLike(names, gaps, c, -1);
    assert IsAssignment(names, gaps, c) <==> BindsLike(names, gaps, c, -2);
    assert IsExpression(names, gaps, c) <==> BindsLike(names, gaps, c, -3);
  }

  lemma AssignmentLayers(names: set<string>, gaps: bool, c: Cst)
    requires c.Assignment? && Layered(names, gaps, c.lhs) && Layered(names, gaps, c.rhs)
    ensures Layered(names, gaps, c)
  {
    hide TryParseBinaryOp, TryParseAssignmentOp, IsPostfix, IsUnary, IsLogicalOr;
    LooseOperators(names, gaps, c);
    AssignmentRow(c.op.klass);
    assert !IsConditional(names, gaps, c);
    assert IsAssignment(names, gaps, c) <==> BindsLike(names, gaps, c, -2);
    assert IsExpression(names, gaps, c) <==> BindsLike(names, gaps, c, -3);
  }

  lemma SequenceLayers(names: set<string>, gaps: bool, c: Cst)
    requires c.Sequence? && Layered(names, gaps, c.lhs) && Layered(names, gaps, c.rhs)
    ensures Layered(names, gaps, c)
  {
    hide TryParseBinaryOp, IsPostfix, IsUnary, IsLogicalOr;
    LooseOperators(names, gaps, c);
    assert !IsConditional(names, gaps, c);
    assert !IsAssignment(names, gaps, c);
    assert Level(c) == -3;
    assert IsExpression(names, gaps, c) <==> BindsLike(names, gaps, c, -3);
  }

  /** The derivations of the parser's grammar are those of the standard, production by production. */
  lemma {:induction false} StandardLevels(names: set<string>, gaps: bool, c: Cst)
    ensures Layered(names, gaps, c)
    decreases c
  {
    hide Layered, IsUnary, TryParseBinaryOp, TryParsePrefixUnaryOp;
    match c
    case Atom(_) => UnaryLayersOf(names, gaps, c);
    case Parens(_, inner, _) => StandardLevels(names, gaps, inner); UnaryLayersOf(names, gaps, c);
    case EmptyParens(_, _) => UnaryLayersOf(names, gaps, c);
    case Call(_, args) => StandardArguments(names, gaps, args); UnaryLayersOf(names, gaps, c);
    case Construct(_, dims, args) =>
      StandardArguments(names, gaps, args);
      StandardDimensions(names, gaps, dims);
      UnaryLayersOf(names, gaps, c);
    case Subscript(base, bracket) =>
      StandardLevels(names, gaps, base);
      StandardDimension(names, gaps, bracket);
      UnaryLayersOf(names, gaps, c);
    case Member(base, _, _) => StandardLevels(names, gaps, base); UnaryLayersOf(names, gaps, c);
    case LengthCall(base, _, _, _, _) => StandardLevels(names, gaps, base); UnaryLayersOf(names, gaps, c);
    case PostfixOp(base, _) => StandardLevels(names, gaps, base); UnaryLayersOf(names, gaps, c);
    case Prefix(op, arg) =>
      StandardLevels(names, gaps, arg);
      UnaryLayersOf(names, gaps, c);
    case Infix(l, _, r) =>
      StandardLevels(names, gaps, l);
      StandardLevels(names, gaps, r);
      InfixLayers(names, gaps, c);
    case Ternary(cond, _, t, _, f) =>
      StandardLevels(names, gaps, cond);
      StandardLevels(names, gaps, t);
      StandardLevels(names, gaps, f);
      TernaryLayers(names, gaps, c);
    case Assignment(l, _, r) =>
      StandardLevels(names, gaps, l);
      StandardLevels(names, gaps, r);
      AssignmentLayers(names, gaps, c);
    case Sequence(l, _, r) =>
      StandardLevels(names, gaps, l);
      StandardLevels(names, gaps, r);
      SequenceLayers(names, gaps, c);
  }

  /** The parts of a postfix or prefix expression are in the standard exactly if they are in the grammar. */
  ghost predicate PartsLayered(names: set<string>, gaps: bool, c: Cst) {
    match c
    case Parens(_, inner, _) => Layered(names, gaps, inner)
    case Call(_, args) => ArgumentsAgree(names, gaps, args)
    case Construct(_, dims, args) =>
      ArgumentsAgree(names, gaps, args) && forall d | d in dims :: DimensionAgrees(names, gaps, d)
    case Subscript(base, bracket) => Layered(names, gaps, base) && DimensionAgrees(names, gaps, bracket)
    case Member(base, _, _) => Layered(names, gaps, base)
    case LengthCall(base, _, _, _, _) => Layered(names, gaps, base)
    case PostfixOp(base, _) => Layered(names, gaps, base)
    case Prefix(_, arg) => Layered(names, gaps, arg)
    case _ => true
  }

  ghost predicate ArgumentsAgree(names: set<string>, gaps: bool, a: CallArgs) {
    IsArguments(names, gaps, a) <==> DerivesArgs(names, a) && (gaps || !HasGapInArgs(a))
  }

  ghost predicate DimensionAgrees(names: set<string>, gaps: bool, b: Bracket) {
    IsDimension(names, gaps, b) <==> DerivesBracket(names, b) && (gaps || !HasGapInDim(b))
  }

  lemma UnaryLayersOf(names: set<string>, gaps: bool, c: Cst)
    requires !c.Infix? && !c.Ternary? && !c.Assignment? && !c.Sequence? && PartsLayered(names, gaps, c)
    ensures Layered(names, gaps, c)
  {
    hide TryParseBinaryOp, TryParsePrefixUnaryOp;
    if c.Prefix? {
      PrefixRow(c.op.klass);
      assert !IsPrimary(names, gaps, c) && !IsCall(names, gaps, c);
    } else {
      PostfixLayer(names, gaps, c);
    }
    UnaryLayers(names, gaps, c);
  }

  lemma PostfixLayer(names: set<string>, gaps: bool, c: Cst)
    requires !c.Infix? && !c.Ternary? && !c.Assignment? && !c.Sequence? && !c.Prefix? && PartsLayered(names, gaps, c)
    ensures IsPostfix(names, gaps, c) <==> Grammatical(names, gaps, c)
  {
    hide TryParseBinaryOp, TryParsePrefixUnaryOp;
  }

  lemma {:induction false} StandardArguments(names: set<string>, gaps: bool, a: CallArgs)
    ensures ArgumentsAgree(names, gaps, a)
    decreases a
  {
    if a.SomeArgs? { StandardList(names, gaps, a.items); }
  }

  lemma {:induction false} StandardList(names: set<string>, gaps: bool, l: ArgList)
    ensures IsArgumentList(names, gaps, l) <==> DerivesList(names, l) && (gaps || !HasGapInList(l))
    decreases l
  {
    hide TryParseBinaryOp;
    StandardLevels(names, gaps, l.arg);
    if l.Snoc? { StandardList(names, gaps, l.init); }
  }

  lemma {:induction false} StandardDimension(names: set<string>, gaps: bool, b: Bracket)
    ensures DimensionAgrees(names, gaps, b)
    decreases b
  {
    hide TryParseBinaryOp;
    if b.FullBracket? { StandardLevels(names, gaps, b.inner); }
  }

  lemma {:induction false} StandardDimensions(names: set<string>, gaps: bool, dims: seq<Bracket>)
    ensures forall d | d in dims :: DimensionAgrees(names, gaps, d)
    decreases dims
  {
    forall d | d in dims ensures DimensionAgrees(names, gaps, d) { StandardDimension(names, gaps, d); }
  }

  /** The parser accepts the derivations of the standard with the two gaps added, and no others. */
  lemma GrammarIsStandard(names: set<string>, c: Cst)
    ensures IsExpression(names, true, c) <==> Derives(names, c)
    ensures IsExpression(names, false, c) <==> Derives(names, c) && !HasGap(c)
  {
    hide IsExpression, Derives, HasGap, TryParseBinaryOp;
    StandardLevels(names, true, c);
    StandardLevels(names, false, c);
    assert Level(c) >= -3;
  }
}
