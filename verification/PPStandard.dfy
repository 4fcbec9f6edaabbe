/** The conditions of `#if` as section 3.3 of the OpenGL Shading Language 4.60 specification lays them
    out: one production for each row of its operator table, and what each operator and operand stands
    for.  The evaluator is proved to return the value of exactly these. */
module PPStandard {
  import opened Tokens
  import opened PPEval

  // ---------------------------------------------------------------------------------------
  // Operands and operators, from the tightest to the loosest
  // ---------------------------------------------------------------------------------------

  /** A number that has a value, the answer to a `defined`, or an identifier. */
  predicate IsPrimary(sem: Semantics, t: Tree)
    decreases t, 0
  {
    match t
    case Operand(tok) =>
      || (tok.klass.NumberLiteral? && sem.literal(tok.text).Some?)
      || tok.klass.DefinedYes? || tok.klass.DefinedNo? || tok.klass.Identifier?
    case Paren(open, inner, close) => open.klass.LParen? && IsCondition(sem, inner) && close.klass.RParen?
    case _ => false
  }

  predicate IsUnary(sem: Semantics, t: Tree)
    decreases t, 1
  {
    || IsPrimary(sem, t)
    || (&& t.Prefix? && (t.opTok.klass.Plus? || t.opTok.klass.Dash? || t.opTok.klass.Tilde? || t.opTok.klass.Bang?)
        && IsUnary(sem, t.arg))
  }

  predicate IsMultiplicative(sem: Semantics, t: Tree)
    decreases t, 2
  {
    || IsUnary(sem, t)
    || (&& t.Infix? && (t.opTok.klass.Star? || t.opTok.klass.Slash? || t.opTok.klass.Percent?)
        && IsMultiplicative(sem, t.lhs) && IsUnary(sem, t.rhs))
  }

  predicate IsAdditive(sem: Semantics, t: Tree)
    decreases t, 3
  {
    || IsMultiplicative(sem, t)
    || (&& t.Infix? && (t.opTok.klass.Plus? || t.opTok.klass.Dash?)
        && IsAdditive(sem, t.lhs) && IsMultiplicative(sem, t.rhs))
  }

  predicate IsShift(sem: Semantics, t: Tree)
    decreases t, 4
  {
    || IsAdditive(sem, t)
    || (&& t.Infix? && (t.opTok.klass.LShift? || t.opTok.klass.RShift?)
        && IsShift(sem, t.lhs) && IsAdditive(sem, t.rhs))
  }

  predicate IsRelational(sem: Semantics, t: Tree)
    decreases t, 5
  {
    || IsShift(sem, t)
    || (&& t.Infix?
        && (|| t.opTok.klass.LAngle? || t.opTok.klass.RAngle? || t.opTok.klass.LessEq? || t.opTok.klass.GreaterEq?)
        && IsRelational(sem, t.lhs) && IsShift(sem, t.rhs))
  }

  predicate IsEquality(sem: Semantics, t: Tree)
    decreases t, 6
  {
    || IsRelational(sem, t)
    || (&& t.Infix? && (t.opTok.klass.Equal? || t.opTok.klass.NotEqual?)
        && IsEquality(sem, t.lhs) && IsRelational(sem, t.rhs))
  }

  predicate IsBitwiseAnd(sem: Semantics, t: Tree)
    decreases t, 7
  {
    || IsEquality(sem, t)
    || (t.Infix? && t.opTok.klass.Ampersand? && IsBitwiseAnd(sem, t.lhs) && IsEquality(sem, t.rhs))
  }

  predicate IsBitwiseXor(sem: Semantics, t: Tree)
    decreases t, 8
  {
    || IsBitwiseAnd(sem, t)
    || (t.Infix? && t.opTok.klass.Caret? && IsBitwiseXor(sem, t.lhs) && IsBitwiseAnd(sem, t.rhs))
  }

  predicate IsBitwiseOr(sem: Semantics, t: Tree)
    decreases t, 9
  {
    || IsBitwiseXor(sem, t)
    || (t.Infix? && t.opTok.klass.VerticalBar? && IsBitwiseOr(sem, t.lhs) && IsBitwiseXor(sem, t.rhs))
  }

  predicate IsLogicalAnd(sem: Semantics, t: Tree)
    decreases t, 10
  {
    || IsBitwiseOr(sem, t)
    || (t.Infix? && t.opTok.klass.And? && IsLogicalAnd(sem, t.lhs) && IsBitwiseOr(sem, t.rhs))
  }

  predicate IsCondition(sem: Semantics, t: Tree)
    decreases t, 11
  {
    || IsLogicalAnd(sem, t)
    || (t.Infix? && t.opTok.klass.Or? && IsCondition(sem, t.lhs) && IsLogicalAnd(sem, t.rhs))
  }

  // ---------------------------------------------------------------------------------------
  // Values
  // ---------------------------------------------------------------------------------------

  /** `defined` has answered 1 or 0; identifiers count as 0. */
  function OperandMeaning(sem: Semantics, tok: Token): int {
    if tok.klass.NumberLiteral? then
      var n := sem.literal(tok.text);
      if n.Some? then n.value else 0
    else if tok.klass.DefinedYes? then 1
    else 0
  }

  function PrefixMeaning(sem: Semantics, klass: TokenKlass, v: int): int {
    if klass.Plus? then sem.apply(Identity, v, 0)
    else if klass.Dash? then sem.apply(Negate, v, 0)
    else if klass.Tilde? then sem.apply(BitNot, v, 0)
    else sem.apply(LogicalNot, v, 0)
  }

  function InfixMeaning(sem: Semantics, klass: TokenKlass, l: int, r: int): int {
    match klass
    case Star => sem.apply(Multiply, l, r)
    case Slash => sem.apply(Divide, l, r)
    case Percent => sem.apply(Modulo, l, r)
    case Plus => sem.apply(Add, l, r)
    case Dash => sem.apply(Subtract, l, r)
    case LShift => sem.apply(ShiftLeft, l, r)
    case RShift => sem.apply(ShiftRight, l, r)
    case LAngle => sem.apply(Less, l, r)
    case RAngle => sem.apply(Greater, l, r)
    case LessEq => sem.apply(LessOrEqual, l, r)
    case GreaterEq => sem.apply(GreaterOrEqual, l, r)
    case Equal => sem.apply(EqualTo, l, r)
    case NotEqual => sem.apply(NotEqualTo, l, r)
    case Ampersand => sem.apply(BitAnd, l, r)
    case Caret => sem.apply(BitXor, l, r)
    case VerticalBar => sem.apply(BitOr, l, r)
    case And => sem.apply(LogicalAnd, l, r)
    case _ => sem.apply(LogicalOr, l, r)
  }

  function Meaning(sem: Semantics, t: Tree): int {
    match t
    case Operand(tok) => OperandMeaning(sem, tok)
    case Paren(_, inner, _) => Meaning(sem, inner)
    case Prefix(op, arg) => PrefixMeaning(sem, op.klass, Meaning(sem, arg))
    case Infix(l, op, r) => InfixMeaning(sem, op.klass, Meaning(sem, l), Meaning(sem, r))
  }

  /** `tokens` is a condition with the value `v`. */
  ghost predicate IsConditionOf(sem: Semantics, tokens: seq<Token>, v: int) {
    exists t :: IsCondition(sem, t) && Yield(t) == tokens && Meaning(sem, t) == v
  }

  // ---------------------------------------------------------------------------------------
  // The evaluator's grammar is this one
  // ---------------------------------------------------------------------------------------

  ghost predicate BindsLike(sem: Semantics, t: Tree, layer: int) { Derives(sem, t) && Layer(t) <= layer }

  lemma BinaryRows(k: TokenKlass)
    ensures var info := ParseBinaryPPOperator(k);
            && (k.Star? || k.Slash? || k.Percent? <==> info.Some? && info.value.precedence == 3)
            && (k.Plus? || k.Dash? <==> info.Some? && info.value.precedence == 4)
            && (k.LShift? || k.RShift? <==> info.Some? && info.value.precedence == 5)
            && (k.LAngle? || k.RAngle? || k.LessEq? || k.GreaterEq? <==> info.Some? && info.value.precedence == 6)
            && (k.Equal? || k.NotEqual? <==> info.Some? && info.value.precedence == 7)
            && (k.Ampersand? <==> info.Some? && info.value.precedence == 8)
            && (k.Caret? <==> info.Some? && info.value.precedence == 9)
            && (k.VerticalBar? <==> info.Some? && info.value.precedence == 10)
            && (k.And? <==> info.Some? && info.value.precedence == 11)
            && (k.Or? <==> info.Some? && info.value.precedence == 12)
  {
  }

  lemma PrefixRow(k: TokenKlass)
    ensures ParseUnaryPPOperator(k).Some? <==> k.Plus? || k.Dash? || k.Tilde? || k.Bang?
  {
  }

  ghost predicate Layered(sem: Semantics, t: Tree) {
    && (IsPrimary(sem, t) <==> BindsLike(sem, t, 1))
    && (IsUnary(sem, t) <==> BindsLike(sem, t, 2))
    && (IsMultiplicative(sem, t) <==> BindsLike(sem, t, 3))
    && (IsAdditive(sem, t) <==> BindsLike(sem, t, 4))
    && (IsShift(sem, t) <==> BindsLike(sem, t, 5))
    && (IsRelational(sem, t) <==> BindsLike(sem, t, 6))
    && (IsEquality(sem, t) <==> BindsLike(sem, t, 7))
    && (IsBitwiseAnd(sem, t) <==> BindsLike(sem, t, 8))
    && (IsBitwiseXor(sem, t) <==> BindsLike(sem, t, 9))
    && (IsBitwiseOr(sem, t) <==> BindsLike(sem, t, 10))
    && (IsLogicalAnd(sem, t) <==> BindsLike(sem, t, 11))
    && (IsCondition(sem, t) <==> Derives(sem, t))
  }

  lemma UnaryLayers(sem: Semantics, t: Tree)
    requires !t.Infix? && (IsPrimary(sem, t) <==> BindsLike(sem, t, 1)) && (IsUnary(sem, t) <==> Derives(sem, t))
    ensures Layered(sem, t)
  {
    hide IsPrimary, IsUnary, Derives, ParseBinaryPPOperator;
    assert Layer(t) <= 2;
    assert IsMultiplicative(sem, t) <==> IsUnary(sem, t);
    assert IsAdditive(sem, t) <==> IsMultiplicative(sem, t);
    assert IsShift(sem, t) <==> IsAdditive(sem, t);
    assert IsRelational(sem, t) <==> IsShift(sem, t);
    assert IsEquality(sem, t) <==> IsRelational(sem, t);
    assert IsBitwiseAnd(sem, t) <==> IsEquality(sem, t);
    assert IsBitwiseXor(sem, t) <==> IsBitwiseAnd(sem, t);
    assert IsBitwiseOr(sem, t) <==> IsBitwiseXor(sem, t);
    assert IsLogicalAnd(sem, t) <==> IsBitwiseOr(sem, t);
    assert IsCondition(sem, t) <==> IsLogicalAnd(sem, t);
  }

  lemma InfixParts(sem: Semantics, t: Tree)
    requires t.Infix?
    ensures var info := ParseBinaryPPOperator(t.opTok.klass);
            && (info.Some? ==> Layer(t) == info.value.precedence)
            && (Derives(sem, t)
                <==> && info.Some? && BindsLike(sem, t.lhs, info.value.precedence)
                     && BindsLike(sem, t.rhs, info.value.precedence - 1))
    ensures !IsPrimary(sem, t) && !IsUnary(sem, t)
  {
    hide ParseBinaryPPOperator, ParseUnaryPPOperator;
    assert !IsPrimary(sem, t);
  }

  lemma LayerBound(t: Tree)
    ensures Layer(t) <= 12
  {
    hide ParseBinaryPPOperator;
  }

  lemma InfixLayers(sem: Semantics, t: Tree)
    requires t.Infix? && Layered(sem, t.lhs) && Layered(sem, t.rhs)
    ensures Layered(sem, t)
  {
    hide ParseBinaryPPOperator, Derives, Layer, IsUnary, IsPrimary;
    BinaryRows(t.opTok.klass);
    InfixParts(sem, t);
    LayerBound(t.lhs);
    LayerBound(t);
    assert !BindsLike(sem, t, 1) && !BindsLike(sem, t, 2);
    assert IsMultiplicative(sem, t) <==> BindsLike(sem, t, 3);
    assert IsAdditive(sem, t) <==> BindsLike(sem, t, 4);
    assert IsShift(sem, t) <==> BindsLike(sem, t, 5);
    assert IsRelational(sem, t) <==> BindsLike(sem, t, 6);
    assert IsEquality(sem, t) <==> BindsLike(sem, t, 7);
    assert IsBitwiseAnd(sem, t) <==> BindsLike(sem, t, 8);
    assert IsBitwiseXor(sem, t) <==> BindsLike(sem, t, 9);
    assert IsBitwiseOr(sem, t) <==> BindsLike(sem, t, 10);
    assert IsLogicalAnd(sem, t) <==> BindsLike(sem, t, 11);
    assert IsCondition(sem, t) <==> BindsLike(sem, t, 12);
  }

  /** The evaluator's grammar is that of the standard, production by production. */
  lemma {:induction false} StandardLayers(sem: Semantics, t: Tree)
    ensures Layered(sem, t)
    decreases t
  {
    hide ParseBinaryPPOperator, ParseUnaryPPOperator;
    match t
    case Operand(_) => OperandLayer(sem, t); UnaryLayers(sem, t);
    case Paren(_, inner, _) => StandardLayers(sem, inner); UnaryLayers(sem, t);
    case Prefix(op, arg) => StandardLayers(sem, arg); PrefixRow(op.klass); UnaryLayers(sem, t);
    case Infix(l, _, r) => StandardLayers(sem, l); StandardLayers(sem, r); InfixLayers(sem, t);
  }

  lemma OperandLayer(sem: Semantics, t: Tree)
    requires t.Operand?
    ensures IsPrimary(sem, t) <==> Derives(sem, t)
    ensures Derives(sem, t) ==> Value(sem, t) == OperandMeaning(sem, t.tok)
  {
  }

  lemma PrefixValue(sem: Semantics, k: TokenKlass, v: int)
    requires ParseUnaryPPOperator(k).Some?
    ensures PrefixMeaning(sem, k, v) == sem.apply(ParseUnaryPPOperator(k).value.op, v, 0)
  {
  }

  lemma InfixValue(sem: Semantics, k: TokenKlass, l: int, r: int)
    requires ParseBinaryPPOperator(k).Some?
    ensures InfixMeaning(sem, k, l, r) == sem.apply(ParseBinaryPPOperator(k).value.op, l, r)
  {
  }

  lemma {:induction false} ValueIsMeaning(sem: Semantics, t: Tree)
    requires Derives(sem, t)
    ensures Value(sem, t) == Meaning(sem, t)
    decreases t
  {
    hide ParseBinaryPPOperator, ParseUnaryPPOperator, InfixMeaning, PrefixMeaning, OperandMeaning, OperandValue;
    match t
    case Operand(_) => OperandLayer(sem, t);
    case Paren(_, inner, _) => ValueIsMeaning(sem, inner);
    case Prefix(op, arg) => ValueIsMeaning(sem, arg); PrefixValue(sem, op.klass, Meaning(sem, arg));
    case Infix(l, op, r) =>
      ValueIsMeaning(sem, l);
      ValueIsMeaning(sem, r);
      InfixValue(sem, op.klass, Meaning(sem, l), Meaning(sem, r));
  }

  /** The evaluator returns a value exactly for the conditions of the standard, and it is theirs. */
  lemma {:induction false} EvaluateIsStandard(sem: Semantics, tokens: seq<Token>, v: int)
    ensures Evaluate(sem, tokens) == Some(v) <==> IsConditionOf(sem, tokens, v)
  {
    hide Evaluate, Derives, Value, IsCondition, Meaning, Yield;
    EvaluateCorrect(sem, tokens);
    if Denotes(sem, tokens, v) {
      var t :| Derives(sem, t) && Yield(t) == tokens && Value(sem, t) == v;
      StandardLayers(sem, t);
      ValueIsMeaning(sem, t);
      assert IsConditionOf(sem, tokens, v);
    }
    if IsConditionOf(sem, tokens, v) {
      var t :| IsCondition(sem, t) && Yield(t) == tokens && Meaning(sem, t) == v;
      StandardLayers(sem, t);
      ValueIsMeaning(sem, t);
      assert Denotes(sem, tokens, v);
    }
  }

  /** A primary expression alone. */
  lemma {:induction false} OperandAlone(sem: Semantics, tok: Token)
    requires IsPrimary(sem, Operand(tok))
    ensures Evaluate(sem, [tok]) == Some(OperandMeaning(sem, tok))
  {
    OperandIsCondition(sem, tok);
    hide Evaluate, IsCondition, Meaning, Yield, OperandMeaning;
    EvaluateIsStandard(sem, [tok], OperandMeaning(sem, tok));
  }

  lemma OperandIsCondition(sem: Semantics, tok: Token)
    requires IsPrimary(sem, Operand(tok))
    ensures IsConditionOf(sem, [tok], OperandMeaning(sem, tok))
  {
    var t := Operand(tok);
    assert Yield(t) == [tok] && Meaning(sem, t) == OperandMeaning(sem, tok);
    StandardLayers(sem, t);
    assert Layer(t) == 1;
  }

  /** A prefix operator in front of a primary expression. */
  lemma {:induction false} PrefixAlone(sem: Semantics, op: Token, tok: Token)
    requires IsPrimary(sem, Operand(tok)) && (op.klass.Plus? || op.klass.Dash? || op.klass.Tilde? || op.klass.Bang?)
    ensures Evaluate(sem, [op, tok]) == Some(PrefixMeaning(sem, op.klass, OperandMeaning(sem, tok)))
  {
    PrefixIsCondition(sem, op, tok);
    hide Evaluate, IsCondition, Meaning, Yield, OperandMeaning, PrefixMeaning;
    EvaluateIsStandard(sem, [op, tok], PrefixMeaning(sem, op.klass, OperandMeaning(sem, tok)));
  }

  lemma PrefixIsCondition(sem: Semantics, op: Token, tok: Token)
    requires IsPrimary(sem, Operand(tok)) && (op.klass.Plus? || op.klass.Dash? || op.klass.Tilde? || op.klass.Bang?)
    ensures IsConditionOf(sem, [op, tok], PrefixMeaning(sem, op.klass, OperandMeaning(sem, tok)))
  {
    hide PrefixMeaning, OperandMeaning;
    var t := Operand(tok);
    var whole := Prefix(op, t);
    assert Yield(t) == [tok] && Meaning(sem, t) == OperandMeaning(sem, tok);
    assert Yield(whole) == [op] + [tok] == [op, tok];
    assert Meaning(sem, whole) == PrefixMeaning(sem, op.klass, OperandMeaning(sem, tok));
    assert IsUnary(sem, t);
    assert IsUnary(sem, whole);
    StandardLayers(sem, whole);
  }
}
