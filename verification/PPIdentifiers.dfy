/** Identifiers in preprocessor conditions: section 3.3 of the standard makes it an error if one is
    left that is no operand of `defined`, where the evaluator takes it as 0. */
module PPIdentifiers {
  import opened Tokens
  import opened PPEval

  predicate HasNoIdentifier(tokens: seq<Token>) { forall t <- tokens :: !t.klass.Identifier? }

  /** No operand of the tree is an identifier. */
  predicate IsStrict(t: Tree) {
    match t
    case Operand(tok) => !tok.klass.Identifier?
    case Paren(_, inner, _) => IsStrict(inner)
    case Prefix(_, arg) => IsStrict(arg)
    case Infix(l, _, r) => IsStrict(l) && IsStrict(r)
  }

  /** `tokens` is a sentence without identifiers, and `v` its value. */
  ghost predicate IsPrescribed(sem: Semantics, tokens: seq<Token>, v: int) {
    exists t :: Derives(sem, t) && IsStrict(t) && Yield(t) == tokens && Value(sem, t) == v
  }

  lemma NoIdentifierParts(a: seq<Token>, b: seq<Token>)
    ensures HasNoIdentifier(a + b) <==> HasNoIdentifier(a) && HasNoIdentifier(b)
  {
    assert forall t <- a :: t in a + b;
    assert forall t <- b :: t in a + b;
  }

  lemma NoIdentifierAlone(tok: Token)
    ensures HasNoIdentifier([tok]) <==> !tok.klass.Identifier?
  {
    assert tok in [tok];
  }

  lemma {:induction false} StrictIff(sem: Semantics, t: Tree)
    requires Derives(sem, t)
    ensures IsStrict(t) <==> HasNoIdentifier(Yield(t))
    decreases t
  {
    hide HasNoIdentifier;
    match t
    case Operand(tok) => NoIdentifierAlone(tok);
    case Paren(open, inner, close) =>
      StrictIff(sem, inner);
      NoIdentifierAlone(open);
      NoIdentifierAlone(close);
      NoIdentifierParts([open], Yield(inner));
      NoIdentifierParts([open] + Yield(inner), [close]);
    case Prefix(op, arg) =>
      StrictIff(sem, arg);
      NoIdentifierAlone(op);
      NoIdentifierParts([op], Yield(arg));
    case Infix(l, op, r) =>
      StrictIff(sem, l);
      StrictIff(sem, r);
      NoIdentifierAlone(op);
      NoIdentifierParts(Yield(l), [op]);
      NoIdentifierParts(Yield(l) + [op], Yield(r));
  }

  /** What the evaluator returns is prescribed exactly if the condition has no identifier left. */
  lemma {:induction false} EvaluationIsPrescribedIff(sem: Semantics, tokens: seq<Token>, v: int)
    ensures IsPrescribed(sem, tokens, v) <==> Evaluate(sem, tokens) == Some(v) && HasNoIdentifier(tokens)
  {
    hide Evaluate, HasNoIdentifier;
    EvaluateCorrect(sem, tokens);
    if Denotes(sem, tokens, v) {
      var t :| Derives(sem, t) && Yield(t) == tokens && Value(sem, t) == v;
      StrictIff(sem, t);
    }
    if IsPrescribed(sem, tokens, v) {
      var t :| Derives(sem, t) && IsStrict(t) && Yield(t) == tokens && Value(sem, t) == v;
      StrictIff(sem, t);
      assert Denotes(sem, tokens, v);
    }
  }

  /** `#if x` where `x` is no macro evaluates to 0, where no value is prescribed. */
  lemma {:induction false} UnknownNameIsZero(sem: Semantics, x: Token)
    requires x.klass.Identifier?
    ensures Evaluate(sem, [x]) == Some(0) && forall v :: !IsPrescribed(sem, [x], v)
  {
    assert Yield(Operand(x)) == [x];
    EvaluateCorrect(sem, [x]);
    assert Denotes(sem, [x], 0);
    NoIdentifierAlone(x);
    forall v ensures !IsPrescribed(sem, [x], v) { EvaluationIsPrescribedIff(sem, [x], v); }
  }
}
