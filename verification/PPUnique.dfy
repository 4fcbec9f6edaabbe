/** The layered grammar of preprocessor conditions is unambiguous. */
module PPUnique {
  import opened Tokens
  import opened Parentheses
  import opened PPEval

  lemma OpsAreNoParens(klass: TokenKlass)
    ensures ParseBinaryPPOperator(klass).Some? || ParseUnaryPPOperator(klass).Some? ==>
      !klass.LParen? && !klass.RParen?
    ensures ParseBinaryPPOperator(klass).Some? ==> ParseBinaryPPOperator(klass).value.precedence >= 3
  {
  }

  lemma OperandsAreNoParens(sem: Semantics, tok: Token)
    requires OperandValue(sem, tok).Some?
    ensures !tok.klass.LParen? && !tok.klass.RParen? && Balance([tok]) == 0
  {
    BalanceOne([tok]);
    assert [tok][..1] == [tok];
  }

  /** The tokens of a tree are balanced, and no prefix closes more than it opens. */
  lemma {:induction false} YieldIsBalanced(sem: Semantics, t: Tree, k: nat)
    requires Derives(sem, t) && k <= |Yield(t)|
    ensures Balance(Yield(t)) == 0 && Balance(Yield(t)[..k]) >= 0
    ensures t.Paren? && 0 < k < |Yield(t)| ==> Balance(Yield(t)[..k]) >= 1
    decreases t
  {
    hide ParseBinaryPPOperator, ParseUnaryPPOperator, OperandValue, Balance;
    match t
    case Operand(tok) =>
      OperandsAreNoParens(sem, tok);
      BalanceOfToken(tok);
    case Paren(open, inner, close) =>
      var n := |Yield(inner)|;
      YieldIsBalanced(sem, inner, if 0 < k <= n then k - 1 else n);
      assert Yield(inner)[..n] == Yield(inner);
      InParens(open, Yield(inner), close, k);
    case Prefix(op, arg) =>
      OpsAreNoParens(op.klass);
      BalanceOfToken(op);
      YieldIsBalanced(sem, arg, if k > 0 then k - 1 else 0);
      BalanceOfPrefix([op], Yield(arg), k);
    case Infix(l, op, r) =>
      OpsAreNoParens(op.klass);
      var n := |Yield(l)| + 1;
      YieldIsBalanced(sem, l, if k < n then k else 0);
      YieldIsBalanced(sem, r, if k >= n then k - n else 0);
      AroundOperator(Yield(l), op, Yield(r), k);
  }

  lemma InParens(open: Token, ts: seq<Token>, close: Token, k: nat)
    requires open.klass.LParen? && close.klass.RParen? && k <= |ts| + 2
    requires Balance(ts) == 0 && (0 < k <= |ts| ==> Balance(ts[..k - 1]) >= 0)
    ensures var all := [open] + ts + [close];
            && Balance(all) == 0 && Balance(all[..k]) >= (if 0 < k < |all| then 1 else 0)
  {
    BalanceOfToken(open);
    BalanceOfToken(close);
    BalanceOfPrefix([open] + ts, [close], k);
    BalanceOfPrefix([open], ts, if k <= |ts| then k else |ts| + 1);
    assert ts[..|ts|] == ts && ([open] + ts)[..|ts| + 1] == [open] + ts;
    if k == 0 { assert ([open] + ts)[..0] == []; }
  }

  lemma AroundOperator(l: seq<Token>, op: Token, r: seq<Token>, k: nat)
    requires !op.klass.LParen? && !op.klass.RParen? && k <= |l| + 1 + |r|
    ensures Balance(l + [op] + r) == Balance(l) + Balance(r)
    ensures Balance((l + [op] + r)[..k])
         == if k <= |l| then Balance(l[..k]) else Balance(l) + Balance(r[..k - |l| - 1])
  {
    BalanceOfToken(op);
    assert Balance(r[..0]) == 0;
    hide Balance;
    BalanceOfPrefix(l + [op], r, k);
    BalanceOfPrefix(l, [op], if k <= |l| then k else |l| + 1);
    assert (l + [op])[..|l| + 1] == l + [op];
  }

  /** A token that can end an operand. */
  predicate EndsOperand(sem: Semantics, tok: Token) { tok.klass.RParen? || OperandValue(sem, tok).Some? }

  lemma OpsEndNothing(sem: Semantics, tok: Token)
    requires ParseBinaryPPOperator(tok.klass).Some? || ParseUnaryPPOperator(tok.klass).Some?
    ensures !EndsOperand(sem, tok)
  {
  }

  lemma {:induction false} LastEndsOperand(sem: Semantics, t: Tree)
    requires Derives(sem, t)
    ensures |Yield(t)| > 0 && EndsOperand(sem, Yield(t)[|Yield(t)| - 1])
    decreases t
  {
    match t
    case Operand(_) =>
    case Paren(_, inner, _) => LastEndsOperand(sem, inner);
    case Prefix(_, arg) => LastEndsOperand(sem, arg);
    case Infix(l, _, r) => LastEndsOperand(sem, r);
  }

  /** Token `i` is a binary operator outside all parentheses. */
  predicate IsPivot(sem: Semantics, ts: seq<Token>, i: nat) {
    && 0 < i < |ts| && Balance(ts[..i]) == 0
    && EndsOperand(sem, ts[i - 1]) && ParseBinaryPPOperator(ts[i].klass).Some?
  }

  function LayerAt(ts: seq<Token>, i: nat): int
    requires i < |ts| && ParseBinaryPPOperator(ts[i].klass).Some?
  {
    ParseBinaryPPOperator(ts[i].klass).value.precedence
  }

  /** Every binary operator outside parentheses binds at least as tightly as the tree. */
  lemma {:induction false} PivotsAreTight(sem: Semantics, t: Tree, i: nat)
    requires Derives(sem, t) && IsPivot(sem, Yield(t), i)
    ensures LayerAt(Yield(t), i) <= Layer(t)
    decreases t
  {
    hide ParseBinaryPPOperator, ParseUnaryPPOperator, OperandValue, EndsOperand, Balance;
    match t
    case Operand(_) =>
    case Paren(_, _, _) => YieldIsBalanced(sem, t, i);
    case Prefix(op, arg) =>
      OpsEndNothing(sem, op);
      OpsAreNoParens(op.klass);
      BalanceOfToken(op);
      BalanceOfPrefix([op], Yield(arg), i);
      PivotsAreTight(sem, arg, i - 1);
    case Infix(l, op, r) =>
      OpsEndNothing(sem, op);
      OpsAreNoParens(op.klass);
      var n := |Yield(l)| + 1;
      AroundOperator(Yield(l), op, Yield(r), i);
      if i < n - 1 {
        PivotsAreTight(sem, l, i);
      } else if i >= n {
        YieldIsBalanced(sem, l, 0);
        PivotsAreTight(sem, r, i - n);
      }
  }

  /** The operator of an infix tree is a pivot. */
  lemma OperatorIsPivot(sem: Semantics, t: Tree)
    requires Derives(sem, t) && t.Infix?
    ensures IsPivot(sem, Yield(t), |Yield(t.lhs)|) && Yield(t)[|Yield(t.lhs)|] == t.opTok
    ensures LayerAt(Yield(t), |Yield(t.lhs)|) == Layer(t) >= 3
  {
    hide ParseBinaryPPOperator, OperandValue, EndsOperand;
    var l := Yield(t.lhs);
    LastEndsOperand(sem, t.lhs);
    YieldIsBalanced(sem, t.lhs, 0);
    OpsAreNoParens(t.opTok.klass);
    assert Yield(t)[..|l|] == l;
  }

  /** A pivot inside the right operand binds tighter than the operator. */
  lemma PivotInRhs(sem: Semantics, t: Tree, i: nat)
    requires Derives(sem, t) && t.Infix? && IsPivot(sem, Yield(t), i) && i > |Yield(t.lhs)|
    ensures LayerAt(Yield(t), i) < Layer(t)
  {
    hide ParseBinaryPPOperator, ParseUnaryPPOperator, OperandValue, EndsOperand;
    var l, op, n := Yield(t.lhs), t.opTok, |Yield(t.lhs)| + 1;
    OpsEndNothing(sem, op);
    OpsAreNoParens(op.klass);
    AroundOperator(l, op, Yield(t.rhs), i);
    YieldIsBalanced(sem, t.lhs, 0);
    PivotsAreTight(sem, t.rhs, i - n);
  }

  lemma InfixSplitsAlike(sem: Semantics, t: Tree, u: Tree)
    requires Derives(sem, t) && Derives(sem, u) && t.Infix? && u.Infix? && Yield(t) == Yield(u)
    ensures |Yield(t.lhs)| >= |Yield(u.lhs)|
  {
    hide Derives, Yield, IsPivot, LayerAt, Layer;
    OperatorIsPivot(sem, t);
    OperatorIsPivot(sem, u);
    if |Yield(t.lhs)| < |Yield(u.lhs)| {
      PivotInRhs(sem, t, |Yield(u.lhs)|);
      PivotsAreTight(sem, u, |Yield(t.lhs)|);
      assert false;
    }
  }

  /** A sentence has one parse tree. */
  lemma {:induction false} TreeIsUnique(sem: Semantics, t: Tree, u: Tree)
    requires Derives(sem, t) && Derives(sem, u) && Yield(t) == Yield(u)
    ensures t == u
    decreases t
  {
    hide ParseBinaryPPOperator, ParseUnaryPPOperator, OperandValue;
    LastEndsOperand(sem, t);
    LastEndsOperand(sem, u);
    if t.Infix? && u.Infix? {
      InfixSplitsAlike(sem, t, u);
      InfixSplitsAlike(sem, u, t);
      var n := |Yield(t.lhs)|;
      assert Yield(t)[..n] == Yield(t.lhs) && Yield(u)[..n] == Yield(u.lhs);
      assert Yield(t)[n + 1..] == Yield(t.rhs) && Yield(u)[n + 1..] == Yield(u.rhs);
      assert Yield(t)[n] == t.opTok && Yield(u)[n] == u.opTok;
      TreeIsUnique(sem, t.lhs, u.lhs);
      TreeIsUnique(sem, t.rhs, u.rhs);
    } else if t.Infix? || u.Infix? {
      NotBothKinds(sem, if t.Infix? then t else u, if t.Infix? then u else t);
    } else {
      SameHead(sem, t, u);
      if t.Paren? {
        var n := |Yield(t)| - 1;
        assert Yield(t)[1..n] == Yield(t.inner) && Yield(u)[1..n] == Yield(u.inner);
        assert Yield(t)[n] == t.close && Yield(u)[n] == u.close;
        assert Yield(t)[0] == t.open && Yield(u)[0] == u.open;
        TreeIsUnique(sem, t.inner, u.inner);
      } else if t.Prefix? {
        assert Yield(t)[1..] == Yield(t.arg) && Yield(u)[1..] == Yield(u.arg);
        assert Yield(t)[0] == t.opTok && Yield(u)[0] == u.opTok;
        TreeIsUnique(sem, t.arg, u.arg);
      }
    }
  }

  lemma NotBothKinds(sem: Semantics, t: Tree, u: Tree)
    requires Derives(sem, t) && Derives(sem, u) && t.Infix? && !u.Infix?
    ensures Yield(t) != Yield(u)
  {
    hide Derives, Yield, IsPivot, LayerAt;
    OperatorIsPivot(sem, t);
    if Yield(t) == Yield(u) {
      PivotsAreTight(sem, u, |Yield(t.lhs)|);
    }
  }

  /** The first token tells operands, parentheses and prefix operators apart. */
  lemma SameHead(sem: Semantics, t: Tree, u: Tree)
    requires Derives(sem, t) && Derives(sem, u) && !t.Infix? && !u.Infix? && Yield(t) == Yield(u)
    ensures t.Operand? == u.Operand? && t.Paren? == u.Paren? && t.Prefix? == u.Prefix?
    ensures t.Operand? ==> t == u
  {
    assert Yield(t)[0] == Yield(u)[0];
  }
}
