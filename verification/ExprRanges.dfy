/** The ranges of every expression built form a tree, whatever errors were recovered from. */
module ExprRanges {
  import opened Tokens
  import opened ParserState
  import opened ExprAst
  import opened ExprParser

  lemma Loosen(e: Expr, lo: nat, hi: nat, lo1: nat, hi1: nat)
    requires Within(e, lo, hi) && lo1 <= lo && hi <= hi1
    ensures Within(e, lo1, hi1) && Within(e, e.range.begin, e.range.end)
  {
  }

  lemma {:induction false} RangesExpr(inp: Input, st: State)
    requires Ready(inp, st)
    ensures var p := ParseExpr(inp, st); Within(p.expr, st.cur, p.st.cur)
    decreases Left(inp, st), 10
  {
    RangesComma(inp, st);
  }

  lemma {:induction false} RangesComma(inp: Input, st: State)
    requires Ready(inp, st)
    ensures var p := ParseCommaExpr(inp, st); Within(p.expr, st.cur, p.st.cur)
    decreases Left(inp, st), 9
  {
    RangesAssignment(inp, st);
    var p := ParseAssignmentExpr(inp, st);
    RangesCommaLoop(inp, p.st, st.cur, p.expr);
  }

  lemma {:induction false} RangesCommaLoop(inp: Input, st: State, begin: nat, lhs: Expr)
    requires Calm(inp, st) && begin <= st.cur && Within(lhs, begin, st.cur)
    ensures var p := CommaLoop(inp, st, begin, lhs); Within(p.expr, begin, p.st.cur)
    decreases Left(inp, st), 2
  {
    if Peek(inp, st).Comma? {
      RangesAssignment(inp, Consume(inp, st));
      var rhs := ParseAssignmentExpr(inp, Consume(inp, st));
      RangesCommaLoop(inp, rhs.st, begin, MakeExpr(begin, rhs.st, Binary(CommaOp, lhs, rhs.expr)));
    }
  }

  lemma {:induction false} RangesAssignment(inp: Input, st: State)
    requires Ready(inp, st)
    ensures var p := ParseAssignmentExpr(inp, st); Within(p.expr, st.cur, p.st.cur)
    decreases Left(inp, st), 8
  {
    RangesUnary(inp, st);
    var p := ParseUnaryExpr(inp, st);
    RangesAssignmentWithLhs(inp, p.st, st.cur, p.expr);
  }

  lemma {:induction false} RangesAssignmentWithLhs(inp: Input, st: State, lo: nat, lhs: Expr)
    requires Calm(inp, st) && Within(lhs, lo, st.cur)
    ensures var p := ParseAssignmentExprWithLhs(inp, st, lhs); Within(p.expr, lo, p.st.cur)
    decreases Left(inp, st), 3
  {
    if TryParseAssignmentOp(Peek(inp, st)).Some? {
      RangesAssignment(inp, Consume(inp, st));
    } else {
      RangesConditional(inp, st, lhs.range.begin, lhs);
    }
  }

  lemma {:induction false} RangesConditional(inp: Input, st: State, begin: nat, firstTerm: Expr)
    requires Calm(inp, st) && Within(firstTerm, begin, st.cur)
    ensures var p := ParseConditionalExpr(inp, st, begin, firstTerm); Within(p.expr, begin, p.st.cur)
    decreases Left(inp, st), 2
  {
    RangesBinary(inp, st, begin, firstTerm, 0);
    var cond := ParseBinaryExpr(inp, st, begin, firstTerm, 0);
    if Peek(inp, cond.st).Question? {
      Loosen(cond.expr, begin, cond.st.cur, begin, cond.st.cur + 1);
      RangesBranches(inp, Consume(inp, cond.st), begin, cond.expr);
    }
  }

  lemma {:induction false} RangesBranches(inp: Input, st: State, begin: nat, cond: Expr)
    requires Ready(inp, st) && Within(cond, begin, st.cur)
    ensures var p := ParseBranches(inp, st, begin, cond); Within(p.expr, begin, p.st.cur)
    decreases Left(inp, st), 10
  {
    hide ParseCommaExpr, ParseFalseBranch, Consume;
    RangesComma(inp, st);
    var whenTrue := ParseCommaExpr(inp, st);
    Loosen(cond, begin, st.cur, begin, whenTrue.st.cur);
    Loosen(whenTrue.expr, st.cur, whenTrue.st.cur, cond.range.end, whenTrue.st.cur);
    if Peek(inp, whenTrue.st).Colon? {
      var st1 := Consume(inp, whenTrue.st);
      Loosen(cond, begin, st.cur, begin, st1.cur);
      Loosen(whenTrue.expr, st.cur, whenTrue.st.cur, cond.range.end, st1.cur);
      RangesFalseBranch(inp, st1, begin, cond, whenTrue.expr);
    } else if whenTrue.st.recovering {
      assert Within(ErrorAt(whenTrue.st), whenTrue.expr.range.end, whenTrue.st.cur);
    } else {
      RangesFalseBranch(inp, Report(whenTrue.st), begin, cond, whenTrue.expr);
    }
  }

  lemma {:induction false} RangesFalseBranch(inp: Input, st: State, begin: nat, cond: Expr, whenTrue: Expr)
    requires Ready(inp, st) && Within(cond, begin, st.cur) && Within(whenTrue, cond.range.end, st.cur)
    ensures var p := ParseFalseBranch(inp, st, begin, cond, whenTrue); Within(p.expr, begin, p.st.cur)
    decreases Left(inp, st), 9
  {
    RangesAssignment(inp, st);
  }

  lemma {:induction false} RangesBinary(inp: Input, st: State, begin: nat, lhs: Expr, minPrecedence: nat)
    requires Calm(inp, st) && Within(lhs, begin, st.cur)
    ensures var p := ParseBinaryExpr(inp, st, begin, lhs, minPrecedence); Within(p.expr, begin, p.st.cur)
    decreases Left(inp, st), 1
  {
    var op := BinaryOpAt(inp, st, minPrecedence);
    if !st.recovering && op.Some? {
      var st1 := Consume(inp, st);
      RangesUnary(inp, st1);
      var term := ParseUnaryExpr(inp, st1);
      RangesRhs(inp, term.st, st1.cur, term.expr, op.value.precedence);
      var rhs := ParseRhs(inp, term.st, st1.cur, term.expr, op.value.precedence);
      RangesBinary(inp, rhs.st, begin, MakeExpr(begin, rhs.st, Binary(op.value.opcode, lhs, rhs.expr)), minPrecedence);
    }
  }

  lemma {:induction false} RangesRhs(inp: Input, st: State, begin: nat, rhs: Expr, precedence: nat)
    requires Calm(inp, st) && Within(rhs, begin, st.cur)
    ensures var p := ParseRhs(inp, st, begin, rhs, precedence); Within(p.expr, begin, p.st.cur)
    decreases Left(inp, st), 2
  {
    if BinaryOpAt(inp, st, precedence + 1).Some? {
      RangesBinary(inp, st, begin, rhs, precedence + 1);
      var p := ParseBinaryExpr(inp, st, begin, rhs, precedence + 1);
      RangesRhs(inp, p.st, begin, p.expr, precedence);
    }
  }

  lemma {:induction false} RangesUnary(inp: Input, st: State)
    requires Ready(inp, st)
    ensures var p := ParseUnaryExpr(inp, st); Within(p.expr, st.cur, p.st.cur)
    decreases Left(inp, st), 7
  {
    if TryParsePrefixUnaryOp(Peek(inp, st)).Some? {
      RangesUnary(inp, Consume(inp, st));
    } else {
      RangesPostfix(inp, st);
    }
  }

  lemma {:induction false} RangesPostfix(inp: Input, st: State)
    requires Ready(inp, st)
    ensures var p := ParsePostfixExpr(inp, st); Within(p.expr, st.cur, p.st.cur)
    decreases Left(inp, st), 6
  {
    RangesPostfixHead(inp, st);
    var head := ParsePostfixHead(inp, st);
    RangesPostfixLoop(inp, head.st, st.cur, head.expr);
  }

  lemma {:induction false} RangesPostfixHead(inp: Input, st: State)
    requires Ready(inp, st)
    ensures var p := ParsePostfixHead(inp, st); Within(p.expr, st.cur, p.st.cur)
    decreases Left(inp, st), 5
  {
    hide ParseTypeSpec, ParseFunctionArgumentList, ParseParenWrappedExpr, ParseConstructorCall;
    if IsTypeName(inp, st) {
      RangesTypeSpec(inp, st);
      var spec := ParseTypeSpec(inp, st);
      RangesConstructorCall(inp, spec.0, st.cur, spec.1);
    } else if Peek(inp, st).Identifier? && LookAhead(inp, st, 1).LParen? {
      var st1 := Consume(inp, st);
      RangesArguments(inp, st1);
      var args := ParseFunctionArgumentList(inp, st1);
      ListRaise(args.1, st1.cur, st.cur, args.0.cur);
    } else if Peek(inp, st).LParen? {
      RangesParenWrapped(inp, st);
    }
  }

  lemma {:induction false} RangesConstructorCall(inp: Input, st: State, lo: nat, spec: TypeSpec)
    requires Calm(inp, st) && lo <= st.cur && SpecWithin(spec, lo, st.cur)
    ensures var p := ParseConstructorCall(inp, st, spec); Within(p.expr, lo, p.st.cur)
    decreases Left(inp, st), 4
  {
    hide ParseFunctionArgumentList;
    if Peek(inp, st).LParen? {
      RangesArguments(inp, st);
      var args := ParseFunctionArgumentList(inp, st);
      ListRaise(args.1, st.cur, spec.range.end, args.0.cur);
      assert SpecWithin(spec, spec.range.begin, args.0.cur);
    } else {
      assert SpecWithin(spec, spec.range.begin, st.cur);
      assert ListWithin([], spec.range.end, st.cur);
    }
  }

  lemma {:induction false} RangesPostfixLoop(inp: Input, st: State, begin: nat, base: Expr)
    requires Calm(inp, st) && Within(base, begin, st.cur)
    ensures var p := PostfixLoop(inp, st, begin, base); Within(p.expr, begin, p.st.cur)
    decreases Left(inp, st), 5
  {
    if !st.recovering && StartsPostfix(Peek(inp, st)) {
      RangesPostfixOp(inp, st, begin, base);
      var p := ParsePostfixOp(inp, st, begin, base);
      RangesPostfixLoop(inp, p.st, begin, p.expr);
    }
  }

  lemma {:induction false} RangesPostfixOp(inp: Input, st: State, begin: nat, base: Expr)
    requires Ready(inp, st) && StartsPostfix(Peek(inp, st)) && Within(base, begin, st.cur)
    ensures var p := ParsePostfixOp(inp, st, begin, base); Within(p.expr, begin, p.st.cur)
    decreases Left(inp, st), 4
  {
    var p := ParsePostfixOp(inp, st, begin, base);
    Loosen(base, begin, st.cur, begin, p.st.cur);
    if Peek(inp, st).LBracket? {
      RangesBracketWrapped(inp, st);
      var index := ParseBracketWrapped(inp, st);
      var indexExpr := if index.1.Sized? then index.1.size else Expr(index.2, ErrorExpr);
      assert Within(indexExpr, st.cur, index.0.cur);
      Loosen(indexExpr, st.cur, index.0.cur, base.range.end, index.0.cur);
    } else if Peek(inp, st).Dot? {
      var st1 := Consume(inp, st);
      Loosen(base, begin, st.cur, begin, st1.cur);
      RangesMember(inp, st1, begin, base);
    }
  }

  lemma RangesMember(inp: Input, st: State, begin: nat, base: Expr)
    requires Ready(inp, st) && Within(base, begin, st.cur)
    ensures var p := ParseMember(inp, st, begin, base); Within(p.expr, begin, p.st.cur)
  {
    Loosen(base, begin, st.cur, begin, ParseMember(inp, st, begin, base).st.cur);
  }

  lemma {:induction false} RangesTypeSpec(inp: Input, st: State)
    requires Ready(inp, st) && IsTypeName(inp, st)
    ensures var r := ParseTypeSpec(inp, st); SpecWithin(r.1, st.cur, r.0.cur)
    decreases Left(inp, st), 4
  {
    RangesArraySpecLoop(inp, Consume(inp, st), st.cur, []);
  }

  lemma {:induction false} RangesArraySpecLoop(inp: Input, st: State, lo: nat, dims: seq<Dim>)
    requires Calm(inp, st) && lo <= st.cur && DimsWithin(dims, lo, st.cur)
    ensures var r := ArraySpecLoop(inp, st, dims); DimsWithin(r.1, lo, r.0.cur)
    decreases Left(inp, st), 4
  {
    if Peek(inp, st).LBracket? {
      RangesBracketWrapped(inp, st);
      var d := ParseBracketWrapped(inp, st);
      DimsAppend(dims, lo, st.cur, d.1, d.0.cur);
      RangesArraySpecLoop(inp, d.0, lo, dims + [d.1]);
    }
  }

  lemma DimWiden(d: Dim, lo: nat, mid: nat, hi: nat)
    requires mid <= hi && DimWithin(d, lo, mid)
    ensures DimWithin(d, lo, hi) && (d.Sized? ==> d.size.range.end <= mid)
  {
    match d case Unsized => case Sized(size) => assert Within(size, lo, mid);
  }

  lemma DimsAppend(dims: seq<Dim>, lo: nat, mid: nat, d: Dim, hi: nat)
    requires lo <= mid <= hi && DimsWithin(dims, lo, mid) && DimWithin(d, mid, hi)
    ensures DimsWithin(dims + [d], lo, hi)
  {
    assert DimWithin(d, lo, hi) by {
      match d case Unsized => case Sized(size) => Loosen(size, mid, hi, lo, hi);
    }
    forall i | 0 <= i < |dims|
      ensures DimWithin(dims[i], lo, hi) && (dims[i].Sized? ==> dims[i].size.range.end <= mid)
    {
      DimWiden(dims[i], lo, mid, hi);
    }
  }

  lemma ListAppend(es: seq<Expr>, lo: nat, mid: nat, e: Expr, hi: nat)
    requires lo <= mid <= hi && ListWithin(es, lo, mid) && Within(e, mid, hi)
    ensures ListWithin(es + [e], lo, hi)
  {
    forall i | 0 <= i < |es + [e]| ensures Within((es + [e])[i], lo, hi) {
      if i < |es| { assert Within(es[i], lo, mid); }
    }
    forall i | 0 <= i < |es| ensures es[i].range.end <= mid { assert Within(es[i], lo, mid); }
  }

  lemma ListRaise(es: seq<Expr>, from: nat, lo: nat, hi: nat)
    requires lo <= from && ListWithin(es, from, hi)
    ensures ListWithin(es, lo, hi)
  {
    forall i | 0 <= i < |es| ensures Within(es[i], lo, hi) { assert Within(es[i], from, hi); }
  }

  lemma ListWiden(es: seq<Expr>, lo: nat, mid: nat, hi: nat)
    requires mid <= hi && ListWithin(es, lo, mid)
    ensures ListWithin(es, lo, hi)
  {
    forall i | 0 <= i < |es| ensures Within(es[i], lo, hi) { assert Within(es[i], lo, mid); }
  }

  lemma {:induction false} RangesParenWrapped(inp: Input, st: State)
    requires Ready(inp, st) && Peek(inp, st).LParen?
    ensures var p := ParseParenWrappedExpr(inp, st); Within(p.expr, st.cur, p.st.cur)
    decreases Left(inp, st), 3
  {
    if !Peek(inp, Consume(inp, st)).RParen? { RangesExpr(inp, Consume(inp, st)); }
  }

  lemma {:induction false} RangesBracketWrapped(inp: Input, st: State)
    requires Ready(inp, st) && Peek(inp, st).LBracket?
    ensures var r := ParseBracketWrapped(inp, st); DimWithin(r.1, st.cur, r.0.cur)
    decreases Left(inp, st), 3
  {
    if !Peek(inp, Consume(inp, st)).RBracket? { RangesExpr(inp, Consume(inp, st)); }
  }

  lemma {:induction false} RangesArguments(inp: Input, st: State)
    requires Ready(inp, st) && Peek(inp, st).LParen?
    ensures var r := ParseFunctionArgumentList(inp, st); ListWithin(r.1, st.cur, r.0.cur)
    decreases Left(inp, st), 3
  {
    var st1 := Consume(inp, st);
    if !Peek(inp, st1).RParen? && !(Peek(inp, st1).K_void? && LookAhead(inp, st1, 1).RParen?) {
      RangesArgumentLoop(inp, st1, st.cur, st1.parens, []);
      var args := ArgumentLoop(inp, st1, st1.parens, []);
      ListWiden(args.1, st.cur, args.0.cur, ParseFunctionArgumentList(inp, st).0.cur);
    }
  }

  lemma {:induction false} RangesArgumentLoop(inp: Input, st: State, lo: nat, leftParens: nat, args: seq<Expr>)
    requires Ready(inp, st) && leftParens > 0 && lo <= st.cur && ListWithin(args, lo, st.cur)
    ensures var r := ArgumentLoop(inp, st, leftParens, args); ListWithin(r.1, lo, r.0.cur)
    decreases Left(inp, st), 9
  {
    if !Peek(inp, st).Eof? {
      RangesAssignment(inp, st);
      var arg := ParseAssignmentExpr(inp, st);
      var comma := ParseCommaInParen(inp, arg.st, leftParens);
      ListAppend(args, lo, st.cur, arg.expr, comma.0.cur);
      if comma.1 { RangesArgumentLoop(inp, comma.0, lo, leftParens, args + [arg.expr]); }
    }
  }
}
