/** How the grammar that the parser accepts differs from the expression grammar of section 5.1 of the
    OpenGL Shading Language 4.60 specification: by empty parentheses and empty subscripts, which the
    parser reads without an error. */
module ExprLanguage {
  import opened Tokens
  import opened ParserState
  import opened ExprAst
  import opened ExprParser
  import opened ExprGrammar
  import opened ExprStandard
  import opened ExprComplete
  import opened ExprSound

  /** The syntax tree has an error node. */
  predicate HasError(e: Expr)
    decreases e
  {
    match e.node
    case ErrorExpr => true
    case NameAccess(_) => false
    case Literal(_) => false
    case FunctionCall(_, args) => exists a | a in args :: HasError(a)
    case ConstructorCall(spec, args) =>
      (exists d | d in spec.dims :: d.Sized? && HasError(d.size)) || exists a | a in args :: HasError(a)
    case IndexAccess(base, index) => HasError(base) || HasError(index)
    case DotAccess(base, _) => HasError(base)
    case Unary(_, operand) => HasError(operand)
    case Binary(_, l, r) => HasError(l) || HasError(r)
    case Select(c, t, f) => HasError(c) || HasError(t) || HasError(f)
  }

  /** Gaps are what the error nodes of a silently built tree stand for. */
  lemma {:induction false} GapsAreErrorNodes(e: Expr, c: Cst)
    requires Represents(e, c)
    ensures HasError(e) <==> HasGap(c)
    decreases c
  {
    hide SpellsBinary, SpellsPrefix, RepresentsArgs, RepresentsDims;
    match c
    case Atom(_) =>
    case Parens(_, inner, _) => GapsAreErrorNodes(e, inner);
    case EmptyParens(_, _) =>
    case Call(_, args) => ArgGaps(e.node.args, args);
    case Construct(_, dims, args) =>
      ArgGaps(e.node.args, args);
      DimGaps(e.node.typeSpec.dims, dims);
    case Subscript(base, bracket) =>
      GapsAreErrorNodes(e.node.base, base);
      if bracket.FullBracket? { GapsAreErrorNodes(e.node.index, bracket.inner); }
    case Member(base, _, _) => GapsAreErrorNodes(e.node.base, base);
    case LengthCall(base, _, _, _, _) => GapsAreErrorNodes(e.node.operand, base);
    case PostfixOp(base, _) => GapsAreErrorNodes(e.node.operand, base);
    case Prefix(_, arg) => GapsAreErrorNodes(e.node.operand, arg);
    case Infix(l, _, r) => GapsAreErrorNodes(e.node.lhs, l); GapsAreErrorNodes(e.node.rhs, r);
    case Ternary(cond, _, t, _, f) =>
      GapsAreErrorNodes(e.node.cond, cond);
      GapsAreErrorNodes(e.node.whenTrue, t);
      GapsAreErrorNodes(e.node.whenFalse, f);
    case Assignment(l, _, r) => GapsAreErrorNodes(e.node.lhs, l); GapsAreErrorNodes(e.node.rhs, r);
    case Sequence(l, _, r) => GapsAreErrorNodes(e.node.lhs, l); GapsAreErrorNodes(e.node.rhs, r);
  }

  lemma {:induction false} DimGaps(ds: seq<Dim>, bs: seq<Bracket>)
    requires RepresentsDims(ds, bs)
    ensures (exists d | d in ds :: d.Sized? && HasError(d.size)) <==> exists b | b in bs :: HasGapInDim(b)
    decreases bs
  {
    forall i | 0 <= i < |bs| ensures (ds[i].Sized? && HasError(ds[i].size)) <==> HasGapInDim(bs[i]) {
      DimGap(ds[i], bs[i]);
    }
    if d :| d in ds && d.Sized? && HasError(d.size) {
      var i :| 0 <= i < |ds| && ds[i] == d;
      assert bs[i] in bs;
    }
    if b :| b in bs && HasGapInDim(b) {
      var i :| 0 <= i < |bs| && bs[i] == b;
      assert ds[i] in ds;
    }
  }

  lemma {:induction false} DimGap(d: Dim, b: Bracket)
    requires RepresentsDim(d, b)
    ensures (d.Sized? && HasError(d.size)) <==> HasGapInDim(b)
    decreases b
  {
    if b.FullBracket? { GapsAreErrorNodes(d.size, b.inner); }
  }

  lemma {:induction false} ArgGaps(es: seq<Expr>, a: CallArgs)
    requires RepresentsArgs(es, a)
    ensures (exists e | e in es :: HasError(e)) <==> HasGapInArgs(a)
    decreases a
  {
    if a.SomeArgs? { ListGaps(es, a.items); }
  }

  lemma {:induction false} ListGaps(es: seq<Expr>, l: ArgList)
    requires RepresentsList(es, l)
    ensures (exists e | e in es :: HasError(e)) <==> HasGapInList(l)
    decreases l
  {
    var last := es[|es| - 1];
    assert last in es;
    GapsAreErrorNodes(last, l.arg);
    if l.Snoc? {
      ListGaps(es[..|es| - 1], l.init);
      assert es == es[..|es| - 1] + [last];
    } else {
      assert es == [last];
    }
  }

  /** A sentence of the standard. */
  ghost predicate IsSentence(structNames: set<string>, tokens: seq<Token>) {
    exists c :: IsExpression(structNames, false, c) && Yield(c) == tokens
  }

  ghost predicate IsAccepted(inp: Input, st: State, tokens: seq<Token>)
    requires Ready(inp, st)
  {
    ParseExpr(inp, st).st == Adv(st, |tokens|)
  }

  /** Tokens read without an error are a sentence of the language exactly if the syntax tree has no
      error node, and then it is the tree of each of their derivations; what is accepted in excess are
      exactly the lists with an empty `()` or an empty subscript. */
  lemma {:induction false} AcceptedIsSentenceIff(inp: Input, st: State, tokens: seq<Token>)
    requires Ready(inp, st) && At(inp, st, tokens) && EndsExpr(Next(inp, st, tokens))
    ensures IsSentence(inp.structNames, tokens)
            <==> IsAccepted(inp, st, tokens) && !HasError(ParseExpr(inp, st).expr)
    ensures forall c :: IsExpression(inp.structNames, true, c) && Yield(c) == tokens ==>
              && (HasGap(c) <==> HasError(ParseExpr(inp, st).expr))
              && Represents(ParseExpr(inp, st).expr, c)
  {
    hide ParseExpr, IsExpression, Derives, Yield, Represents, HasError, HasGap;
    ParsesExactlyTheGrammar(inp, st, tokens);
    var e := ParseExpr(inp, st).expr;
    forall c | IsExpression(inp.structNames, true, c) && Yield(c) == tokens ensures HasGap(c) <==> HasError(e) {
      GapsAreErrorNodes(e, c);
    }
    if IsAccepted(inp, st, tokens) {
      var c :| IsExpression(inp.structNames, true, c) && Yield(c) == tokens;
      GrammarIsStandard(inp.structNames, c);
      assert !HasError(e) ==> IsExpression(inp.structNames, false, c);
    }
    if IsSentence(inp.structNames, tokens) {
      var c :| IsExpression(inp.structNames, false, c) && Yield(c) == tokens;
      GrammarIsStandard(inp.structNames, c);
      assert IsExpression(inp.structNames, true, c);
    }
  }

  /** An expression with a gap is accepted, and no sentence. */
  lemma {:induction false} GapIsAccepted(inp: Input, st: State, tokens: seq<Token>, c: Cst)
    requires Ready(inp, st) && At(inp, st, tokens) && EndsExpr(Next(inp, st, tokens))
    requires IsExpression(inp.structNames, true, c) && Yield(c) == tokens && HasGap(c)
    ensures IsAccepted(inp, st, tokens) && !IsSentence(inp.structNames, tokens)
  {
    hide ParseExpr, IsExpression, Derives, Yield, HasGap;
    AcceptedIsSentenceIff(inp, st, tokens);
    ParsesExactlyTheGrammar(inp, st, tokens);
  }

  /** `()` is accepted. */
  lemma {:induction false} EmptyParensAreAccepted(inp: Input, st: State, open: Token, close: Token)
    requires Ready(inp, st) && At(inp, st, [open, close]) && EndsExpr(Next(inp, st, [open, close]))
    requires open.klass.LParen? && close.klass.RParen?
    ensures IsAccepted(inp, st, [open, close]) && !IsSentence(inp.structNames, [open, close])
  {
    var c := EmptyParens(open, close);
    GrammarIsStandard(inp.structNames, c);
    GapIsAccepted(inp, st, [open, close], c);
  }

  /** `a[]` is accepted. */
  lemma {:induction false} EmptySubscriptIsAccepted(inp: Input, st: State, a: Token, open: Token, close: Token)
    requires Ready(inp, st) && At(inp, st, [a, open, close]) && EndsExpr(Next(inp, st, [a, open, close]))
    requires IsVariable(inp.structNames, a) && open.klass.LBracket? && close.klass.RBracket?
    ensures IsAccepted(inp, st, [a, open, close]) && !IsSentence(inp.structNames, [a, open, close])
  {
    var base, bracket := Atom(a), EmptyBracket(open, close);
    var c := Subscript(base, bracket);
    assert Derives(inp.structNames, base) && DerivesBracket(inp.structNames, bracket);
    assert Yield(base) + YieldBracket(bracket) == [a, open, close];
    GrammarIsStandard(inp.structNames, c);
    GapIsAccepted(inp, st, [a, open, close], c);
  }
}
