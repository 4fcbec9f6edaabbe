/** The two expression parsers agree: on every sentence the `#if` evaluator accepts, the parser
    builds, without an error, a tree with the same value. */
module ParserAgreement {
  import opened Tokens
  import opened ParserState
  import opened ExprAst
  import opened ExprParser
  import G = ExprGrammar
  import C = ExprComplete
  import PP = PPEval

  /** Tokens that mean the same to both parsers: the evaluator's `defined` results are not
      expressions of the language, and a struct name starts a constructor call. */
  predicate Shared(structNames: set<string>, tok: Token) {
    !tok.klass.DefinedYes? && !tok.klass.DefinedNo? && (tok.klass.Identifier? ==> tok.text !in structNames)
  }

  ghost predicate AllShared(structNames: set<string>, tokens: seq<Token>) {
    forall i | 0 <= i < |tokens| :: Shared(structNames, tokens[i])
  }

  // ---------------------------------------------------------------------------------------
  // The operator tables
  // ---------------------------------------------------------------------------------------

  function UnaryMeaning(op: UnaryOp): Option<PP.PPOperator> {
    match op
    case Identity => Some(PP.Identity)
    case Negate => Some(PP.Negate)
    case BitwiseNot => Some(PP.BitNot)
    case LogicalNot => Some(PP.PPOperator.LogicalNot)
    case _ => None
  }

  function BinaryMeaning(op: BinaryOp): Option<PP.PPOperator> {
    match op
    case MulOp => Some(PP.Multiply)
    case DivOp => Some(PP.Divide)
    case ModuloOp => Some(PP.Modulo)
    case PlusOp => Some(PP.Add)
    case MinusOp => Some(PP.Subtract)
    case ShiftLeftOp => Some(PP.ShiftLeft)
    case ShiftRightOp => Some(PP.ShiftRight)
    case LessOp => Some(PP.Less)
    case LessEqOp => Some(PP.LessOrEqual)
    case GreaterOp => Some(PP.Greater)
    case GreaterEqOp => Some(PP.GreaterOrEqual)
    case EqualOp => Some(PP.EqualTo)
    case NotEqualOp => Some(PP.NotEqualTo)
    case BitwiseAndOp => Some(PP.BitAnd)
    case BitwiseXorOp => Some(PP.BitXor)
    case BitwiseOrOp => Some(PP.BitOr)
    case LogicalAndOp => Some(PP.LogicalAnd)
    case LogicalOrOp => Some(PP.LogicalOr)
    case _ => None
  }

  lemma SameOperation(a: TokenKlass)
    requires PP.ParseBinaryPPOperator(a).Some?
    ensures TryParseBinaryOp(a).Some?
    ensures BinaryMeaning(TryParseBinaryOp(a).value.opcode) == Some(PP.ParseBinaryPPOperator(a).value.op)
  {
  }

  lemma MirroredPrecedence(a: TokenKlass)
    requires PP.ParseBinaryPPOperator(a).Some?
    ensures TryParseBinaryOp(a).Some?
    ensures TryParseBinaryOp(a).value.precedence ==
            var p := PP.ParseBinaryPPOperator(a).value.precedence; if p == 12 then 0 else 13 - p
  {
  }

  /** The evaluator's binary operators are binary operators of the parser with the same meaning;
      smaller precedence numbers of the one are larger numbers of the other. */
  lemma BinaryTables(a: TokenKlass)
    requires PP.ParseBinaryPPOperator(a).Some?
    ensures TryParseBinaryOp(a).Some?
    ensures BinaryMeaning(TryParseBinaryOp(a).value.opcode) == Some(PP.ParseBinaryPPOperator(a).value.op)
    ensures TryParseBinaryOp(a).value.precedence ==
            var p := PP.ParseBinaryPPOperator(a).value.precedence; if p == 12 then 0 else 13 - p
  {
    hide TryParseBinaryOp, PP.ParseBinaryPPOperator, BinaryMeaning;
    SameOperation(a);
    MirroredPrecedence(a);
  }

  lemma UnaryTables(a: TokenKlass)
    requires PP.ParseUnaryPPOperator(a).Some?
    ensures TryParsePrefixUnaryOp(a).Some?
    ensures UnaryMeaning(TryParsePrefixUnaryOp(a).value) == Some(PP.ParseUnaryPPOperator(a).value.op)
  {
  }

  /** What the token of a binary operator means to the evaluator. */
  lemma SpelledMeaning(op: BinaryOp, a: TokenKlass)
    requires PP.ParseBinaryPPOperator(a).Some? && G.SpellsBinary(op, a)
    ensures BinaryMeaning(op) == Some(PP.ParseBinaryPPOperator(a).value.op)
  {
  }

  lemma SpelledUnaryMeaning(op: UnaryOp, a: TokenKlass)
    requires PP.ParseUnaryPPOperator(a).Some? && G.SpellsPrefix(op, a)
    ensures UnaryMeaning(op) == Some(PP.ParseUnaryPPOperator(a).value.op)
  {
  }

  /** The precedence tables of the two parsers are order-reversing on the operators they share. */
  lemma TablesReverseOrder(a: TokenKlass, b: TokenKlass)
    requires PP.ParseBinaryPPOperator(a).Some? && PP.ParseBinaryPPOperator(b).Some?
    ensures PP.ParseBinaryPPOperator(a).value.precedence <= PP.ParseBinaryPPOperator(b).value.precedence <==>
            TryParseBinaryOp(a).value.precedence >= TryParseBinaryOp(b).value.precedence
  {
    hide TryParseBinaryOp, PP.ParseBinaryPPOperator;
    BinaryTables(a);
    BinaryTables(b);
  }

  // ---------------------------------------------------------------------------------------
  // Trees
  // ---------------------------------------------------------------------------------------

  function ToCst(t: PP.Tree): G.Cst {
    match t
    case Operand(tok) => G.Atom(tok)
    case Paren(open, inner, close) => G.Parens(open, ToCst(inner), close)
    case Prefix(op, arg) => G.Prefix(op, ToCst(arg))
    case Infix(l, op, r) => G.Infix(ToCst(l), op, ToCst(r))
  }

  lemma {:induction false} SameYield(t: PP.Tree)
    ensures G.Yield(ToCst(t)) == PP.Yield(t)
  {
    match t
    case Operand(tok) =>
    case Paren(open, inner, close) => SameYield(inner);
    case Prefix(op, arg) => SameYield(arg);
    case Infix(l, op, r) => SameYield(l); SameYield(r);
  }

  lemma LevelOfLayer(sem: PP.Semantics, t: PP.Tree)
    requires PP.Derives(sem, t)
    ensures var p := PP.Layer(t);
            G.Level(ToCst(t)) == if p == 1 then 12 else if p == 2 then 11 else if p == 12 then 0 else 13 - p
    ensures 1 <= PP.Layer(t) <= 12
  {
    hide TryParseBinaryOp, PP.ParseBinaryPPOperator, PP.ParseUnaryPPOperator, TryParsePrefixUnaryOp;
    if t.Infix? { BinaryTables(t.opTok.klass); }
  }

  lemma {:induction false} DerivesBoth(sem: PP.Semantics, structNames: set<string>, t: PP.Tree)
    requires PP.Derives(sem, t) && AllShared(structNames, PP.Yield(t))
    ensures G.Derives(structNames, ToCst(t))
    decreases t
  {
    hide TryParseBinaryOp, PP.ParseBinaryPPOperator, PP.ParseUnaryPPOperator, TryParsePrefixUnaryOp;
    match t
    case Operand(tok) => assert PP.Yield(t)[0] == tok;
    case Paren(open, inner, close) =>
      SharedParts(structNames, [open], PP.Yield(inner) + [close]);
      SharedParts(structNames, PP.Yield(inner), [close]);
      assert PP.Yield(t) == [open] + (PP.Yield(inner) + [close]);
      DerivesBoth(sem, structNames, inner);
    case Prefix(op, arg) =>
      SharedParts(structNames, [op], PP.Yield(arg));
      DerivesBoth(sem, structNames, arg);
      LevelOfLayer(sem, arg);
      UnaryTables(op.klass);
    case Infix(l, op, r) =>
      assert PP.Yield(t) == PP.Yield(l) + ([op] + PP.Yield(r));
      SharedParts(structNames, PP.Yield(l), [op] + PP.Yield(r));
      SharedParts(structNames, [op], PP.Yield(r));
      DerivesBoth(sem, structNames, l);
      DerivesBoth(sem, structNames, r);
      LevelOfLayer(sem, l); LevelOfLayer(sem, r); LevelOfLayer(sem, t);
      BinaryTables(op.klass);
  }

  lemma SharedParts(structNames: set<string>, a: seq<Token>, b: seq<Token>)
    ensures AllShared(structNames, a + b) ==> AllShared(structNames, a) && AllShared(structNames, b)
  {
    if AllShared(structNames, a + b) {
      forall i | 0 <= i < |a| ensures Shared(structNames, a[i]) { assert (a + b)[i] == a[i]; }
      forall i | 0 <= i < |b| ensures Shared(structNames, b[i]) { assert (a + b)[|a| + i] == b[i]; }
    }
  }

  // ---------------------------------------------------------------------------------------
  // Values
  // ---------------------------------------------------------------------------------------

  /** The value of a syntax tree under the evaluator's operator semantics. */
  function EvalExpr(sem: PP.Semantics, e: Expr): Option<int>
    decreases e
  {
    match e.node
    case NameAccess(_) => Some(0)
    case Literal(tok) => sem.literal(tok.text)
    case Unary(op, operand) =>
      var v := EvalExpr(sem, operand);
      if v.Some? && UnaryMeaning(op).Some? then Some(sem.apply(UnaryMeaning(op).value, v.value, 0)) else None
    case Binary(op, lhs, rhs) =>
      var l, r := EvalExpr(sem, lhs), EvalExpr(sem, rhs);
      if l.Some? && r.Some? && BinaryMeaning(op).Some? then Some(sem.apply(BinaryMeaning(op).value, l.value, r.value))
      else None
    case _ => None
  }

  lemma {:induction false} SameValue(sem: PP.Semantics, structNames: set<string>, t: PP.Tree, e: Expr)
    requires PP.Derives(sem, t) && G.Derives(structNames, ToCst(t)) && G.Represents(e, ToCst(t))
    ensures EvalExpr(sem, e) == Some(PP.Value(sem, t))
    decreases t
  {
    hide G.SpellsBinary, G.SpellsPrefix, TryParseBinaryOp, PP.ParseBinaryPPOperator, PP.ParseUnaryPPOperator,
      TryParsePrefixUnaryOp;
    match t
    case Operand(tok) =>
    case Paren(open, inner, close) => SameValue(sem, structNames, inner, e);
    case Prefix(op, arg) =>
      SpelledUnaryMeaning(e.node.unaryOp, op.klass);
      SameValue(sem, structNames, arg, e.node.operand);
    case Infix(l, op, r) =>
      SpelledMeaning(e.node.binaryOp, op.klass);
      SameValue(sem, structNames, l, e.node.lhs);
      SameValue(sem, structNames, r, e.node.rhs);
  }

  /** Whatever the evaluator accepts, the parser reads to its end without an error, and both
      arrive at the same value. */
  lemma {:induction false} ParsersAgree(sem: PP.Semantics, inp: Input, st: State, tokens: seq<Token>, v: int)
    requires PP.Evaluate(sem, tokens) == Some(v) && AllShared(inp.structNames, tokens)
    requires Ready(inp, st) && C.At(inp, st, tokens) && C.EndsExpr(C.Next(inp, st, tokens))
    ensures var p := ParseExpr(inp, st);
            p.st == st.(cur := st.cur + |tokens|) && EvalExpr(sem, p.expr) == Some(v)
  {
    PP.EvaluateCorrect(sem, tokens);
    var t :| PP.Derives(sem, t) && PP.Yield(t) == tokens && PP.Value(sem, t) == v;
    SameYield(t);
    DerivesBoth(sem, inp.structNames, t);
    C.CompleteExpr(inp, st, ToCst(t));
    SameValue(sem, inp.structNames, t, ParseExpr(inp, st).expr);
  }
}
