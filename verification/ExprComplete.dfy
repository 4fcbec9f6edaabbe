/** Completeness of the expression parser: the tokens of a derivation are parsed without an
    error, to their end, into the syntax tree of the derivation. */
module ExprComplete {
  import opened Tokens
  import opened ParserState
  import opened ExprAst
  import opened ExprParser
  import opened ExprGrammar

  function Adv(st: State, n: nat): State { st.(cur := st.cur + n) }

  /** The tokens `ts` lie at the cursor, with at least one more token behind them. */
  ghost predicate At(inp: Input, st: State, ts: seq<Token>) {
    st.cur + |ts| < |inp.tokens| && forall k | 0 <= k < |ts| :: inp.tokens[st.cur + k] == ts[k]
  }

  function Next(inp: Input, st: State, ts: seq<Token>): TokenKlass
    requires At(inp, st, ts)
  {
    inp.tokens[st.cur + |ts|].klass
  }

  lemma AtSplit(inp: Input, st: State, a: seq<Token>, b: seq<Token>)
    requires At(inp, st, a + b)
    ensures At(inp, st, a) && At(inp, Adv(st, |a|), b)
    ensures b != [] ==> inp.tokens[st.cur + |a|] == b[0]
    ensures a != [] ==> inp.tokens[st.cur] == a[0]
  {
    forall k | 0 <= k < |a| ensures inp.tokens[st.cur + k] == a[k] { assert (a + b)[k] == a[k]; }
    forall k | 0 <= k < |b| ensures inp.tokens[st.cur + |a| + k] == b[k] { assert (a + b)[|a| + k] == b[k]; }
    assert b != [] ==> inp.tokens[st.cur + |a| + 0] == b[0];
    assert a != [] ==> inp.tokens[st.cur + 0] == a[0];
  }

  lemma AtSplitOf(inp: Input, st: State, whole: seq<Token>, a: seq<Token>, b: seq<Token>)
    requires At(inp, st, whole) && whole == a + b && b != []
    ensures |whole| == |a| + |b| && At(inp, st, a) && At(inp, Adv(st, |a|), b)
    ensures Next(inp, st, a) == b[0].klass == Peek(inp, Adv(st, |a|))
    ensures Next(inp, Adv(st, |a|), b) == Next(inp, st, whole)
  {
    AtSplit(inp, st, a, b);
  }

  /** Tokens that do not continue a postfix expression. */
  predicate EndsPostfix(klass: TokenKlass) { !klass.LParen? && !StartsPostfix(klass) }

  /** Tokens that do not continue an expression without a top-level comma. */
  predicate EndsAssignment(klass: TokenKlass) {
    && EndsPostfix(klass) && !klass.Question?
    && TryParseBinaryOp(klass).None? && TryParseAssignmentOp(klass).None?
  }

  /** Tokens that end an expression. */
  predicate EndsExpr(klass: TokenKlass) { EndsAssignment(klass) && !klass.Comma? }

  lemma ClosingFacts(k: TokenKlass)
    requires k.RParen? || k.RBracket? || k.Colon? || k.Comma?
    ensures EndsAssignment(k) && (!k.Comma? ==> EndsExpr(k))
  {
  }

  lemma QuestionFacts(k: TokenKlass)
    requires k.Question?
    ensures EndsPostfix(k) && TryParseBinaryOp(k).None? && TryParseAssignmentOp(k).None?
  {
  }

  lemma BinaryOpFacts(k: TokenKlass)
    requires TryParseBinaryOp(k).Some?
    ensures EndsPostfix(k) && !k.Question? && IsPlain(k) && TryParseAssignmentOp(k).None?
    ensures SpellsBinary(TryParseBinaryOp(k).value.opcode, k)
  {
  }

  lemma AssignmentOpFacts(k: TokenKlass)
    requires TryParseAssignmentOp(k).Some?
    ensures EndsPostfix(k) && !k.Question? && IsPlain(k) && TryParseBinaryOp(k).None?
    ensures SpellsBinary(TryParseAssignmentOp(k).value, k)
  {
  }

  lemma PrefixOpFacts(k: TokenKlass)
    requires TryParsePrefixUnaryOp(k).Some?
    ensures IsPlain(k) && SpellsPrefix(TryParsePrefixUnaryOp(k).value, k)
  {
  }

  /** `c` lies at the cursor of a parser that is not recovering. */
  ghost predicate Offers(inp: Input, st: State, c: Cst) {
    Ready(inp, st) && Derives(inp.structNames, c) && At(inp, st, Yield(c))
  }

  /** The parse `p` read exactly `c`, reported nothing and built the tree of `c`. */
  ghost predicate Reads(st: State, p: Parsed, c: Cst) {
    p.st == Adv(st, |Yield(c)|) && Represents(p.expr, c)
  }

  lemma {:induction false} YieldNonEmpty(c: Cst)
    ensures |Yield(c)| > 0
    decreases c
  {
    match c
    case Subscript(base, _) => YieldNonEmpty(base);
    case _ =>
  }

  /** Two lists with a token between them. */
  lemma SplitAtToken(inp: Input, st: State, a: seq<Token>, op: Token, b: seq<Token>)
    requires At(inp, st, a + [op] + b)
    ensures At(inp, st, a) && Next(inp, st, a) == op.klass
    ensures Valid(inp, Adv(st, |a|)) && inp.tokens[st.cur + |a|] == op
    ensures At(inp, Adv(st, |a| + 1), b)
    ensures Next(inp, Adv(st, |a| + 1), b) == Next(inp, st, a + [op] + b)
  {
    assert a + [op] + b == a + ([op] + b);
    AtSplit(inp, st, a, [op] + b);
    AtSplit(inp, Adv(st, |a|), [op], b);
  }

  /** Two derivations with a token between them. */
  lemma SplitAround(inp: Input, st: State, l: Cst, op: Token, r: Cst)
    requires Ready(inp, st) && At(inp, st, Yield(l) + [op] + Yield(r))
    requires Derives(inp.structNames, l) && Derives(inp.structNames, r)
    ensures Offers(inp, st, l) && Next(inp, st, Yield(l)) == op.klass
    ensures Valid(inp, Adv(st, |Yield(l)|)) && inp.tokens[st.cur + |Yield(l)|] == op
    ensures Offers(inp, Adv(st, |Yield(l)| + 1), r)
    ensures Next(inp, Adv(st, |Yield(l)| + 1), Yield(r)) == Next(inp, st, Yield(l) + [op] + Yield(r))
  {
    hide Derives, Yield, At;
    SplitAtToken(inp, st, Yield(l), op, Yield(r));
  }

  // ---------------------------------------------------------------------------------------
  // Sequences and assignments
  // ---------------------------------------------------------------------------------------

  lemma {:induction false} CompleteExpr(inp: Input, st: State, c: Cst)
    requires Offers(inp, st, c) && EndsExpr(Next(inp, st, Yield(c)))
    ensures Reads(st, ParseCommaExpr(inp, st), c) && Reads(st, ParseExpr(inp, st), c)
    decreases c, 9
  {
    hide Consume, TryParseBinaryOp, TryParseAssignmentOp, ParseAssignmentExpr, Derives, Yield, Represents;
    YieldNonEmpty(c);
    var e := AbsorbComma(inp, st, c);
  }

  /** Reading the first assignment expression of a sequence and then looping reaches the end of
      the whole sequence. */
  lemma {:induction false} AbsorbComma(inp: Input, st: State, c: Cst) returns (e: Expr)
    requires Offers(inp, st, c) && EndsAssignment(Next(inp, st, Yield(c)))
    ensures Represents(e, c)
    ensures var p := ParseAssignmentExpr(inp, st);
            CommaLoop(inp, p.st, st.cur, p.expr) == CommaLoop(inp, Adv(st, |Yield(c)|), st.cur, e)
    decreases c, 8
  {
    hide TryParseBinaryOp, TryParseAssignmentOp, CommaLoop, ParseAssignmentExpr, Derives, Yield, Represents;
    if c.Sequence? {
      e := AbsorbSequence(inp, st, c);
    } else {
      CompleteAssignment(inp, st, c);
      e := ParseAssignmentExpr(inp, st).expr;
    }
  }

  lemma {:induction false} AbsorbSequence(inp: Input, st: State, c: Cst) returns (e: Expr)
    requires c.Sequence? && Offers(inp, st, c) && EndsAssignment(Next(inp, st, Yield(c)))
    ensures Represents(e, c)
    ensures var p := ParseAssignmentExpr(inp, st);
            CommaLoop(inp, p.st, st.cur, p.expr) == CommaLoop(inp, Adv(st, |Yield(c)|), st.cur, e)
    decreases c, 7
  {
    hide TryParseBinaryOp, TryParseAssignmentOp, TryParsePrefixUnaryOp, CommaLoop, ParseAssignmentExpr;
    ClosingFacts(c.comma.klass);
    SplitAround(inp, st, c.lhs, c.comma, c.rhs);
    var el := AbsorbComma(inp, st, c.lhs);
    var st1 := Adv(st, |Yield(c.lhs)|);
    CompleteAssignment(inp, Adv(st, |Yield(c.lhs)| + 1), c.rhs);
    var rhs := ParseAssignmentExpr(inp, Adv(st, |Yield(c.lhs)| + 1));
    e := MakeExpr(st.cur, rhs.st, Binary(CommaOp, el, rhs.expr));
    CommaLoopStep(inp, st1, st.cur, el);
  }

  lemma CommaLoopStep(inp: Input, st: State, begin: nat, lhs: Expr)
    requires Calm(inp, st) && Peek(inp, st).Comma?
    ensures Ready(inp, Adv(st, 1))
    ensures var rhs := ParseAssignmentExpr(inp, Adv(st, 1));
            CommaLoop(inp, st, begin, lhs) ==
            CommaLoop(inp, rhs.st, begin, MakeExpr(begin, rhs.st, Binary(CommaOp, lhs, rhs.expr)))
  {
    hide Consume, TryParseBinaryOp, TryParseAssignmentOp, TryParsePrefixUnaryOp, ParseAssignmentExpr;
    assert Consume(inp, st) == Adv(st, 1);
  }

  lemma {:induction false} CompleteAssignment(inp: Input, st: State, c: Cst)
    requires Offers(inp, st, c) && Level(c) >= -2 && EndsAssignment(Next(inp, st, Yield(c)))
    ensures Reads(st, ParseAssignmentExpr(inp, st), c)
    decreases c, 7
  {
    hide TryParseBinaryOp, TryParseAssignmentOp, ParseAssignmentExpr, ParseConditionalTail, Derives, Yield,
      Represents;
    if c.Assignment? {
      CompleteAssignOp(inp, st, c);
    } else if c.Ternary? {
      CompleteTernary(inp, st, c);
    } else {
      var e, begin := CompleteBinary(inp, st, c);
    }
  }

  lemma {:induction false} CompleteAssignOp(inp: Input, st: State, c: Cst)
    requires c.Assignment? && Offers(inp, st, c) && EndsAssignment(Next(inp, st, Yield(c)))
    ensures Reads(st, ParseAssignmentExpr(inp, st), c)
    decreases c, 6
  {
    hide SpellsBinary, SpellsPrefix, Consume, TryParseBinaryOp, TryParseAssignmentOp, TryParsePrefixUnaryOp,
      ParseConditionalExpr, ParseUnaryExpr;
    AssignmentOpFacts(c.op.klass);
    SplitAround(inp, st, c.lhs, c.op, c.rhs);
    CompleteUnary(inp, st, c.lhs);
    CompleteAssignment(inp, Adv(st, |Yield(c.lhs)| + 1), c.rhs);
  }

  lemma {:induction false} CompleteTernary(inp: Input, st: State, c: Cst)
    requires c.Ternary? && Offers(inp, st, c) && EndsAssignment(Next(inp, st, Yield(c)))
    ensures Reads(st, ParseAssignmentExpr(inp, st), c)
    decreases c, 6
  {
    hide TryParseBinaryOp, TryParseAssignmentOp, TryParsePrefixUnaryOp, ParseAssignmentExpr, ParseConditionalTail,
      DerivesArgs, DerivesList, DerivesBracket, RepresentsArgs, RepresentsDims;
    QuestionFacts(c.question.klass);
    var tail := Yield(c.whenTrue) + [c.colon] + Yield(c.whenFalse);
    assert Yield(c) == Yield(c.cond) + [c.question] + tail;
    assert Derives(inp.structNames, c.cond) && Level(c.cond) >= 0 && c.question.klass.Question?;
    hide At, Derives, Yield;
    SplitAtToken(inp, st, Yield(c.cond), c.question, tail);
    var e, begin := CompleteBinary(inp, st, c.cond);
    CompleteBranches(inp, Adv(st, |Yield(c.cond)|), begin, e, c);
  }

  lemma {:induction false} CompleteBranches(inp: Input, st: State, begin: nat, cond: Expr, c: Cst)
    requires c.Ternary? && Ready(inp, st) && Derives(inp.structNames, c) && Represents(cond, c.cond)
    requires Peek(inp, st).Question?
    requires At(inp, Adv(st, 1), Yield(c.whenTrue) + [c.colon] + Yield(c.whenFalse))
    requires EndsAssignment(Next(inp, Adv(st, 1), Yield(c.whenTrue) + [c.colon] + Yield(c.whenFalse)))
    ensures var p := ParseConditionalTail(inp, begin, Parsed(st, cond));
            p.st == Adv(st, |Yield(c.whenTrue)| + |Yield(c.whenFalse)| + 2) && Represents(p.expr, c)
    decreases c, 5
  {
    hide Consume, TryParseBinaryOp, TryParseAssignmentOp, TryParsePrefixUnaryOp, ParseExpr, ParseCommaExpr,
      ParseAssignmentExpr;
    ClosingFacts(c.colon.klass);
    var st1 := Adv(st, 1);
    assert Consume(inp, st) == st1;
    SplitAround(inp, st1, c.whenTrue, c.colon, c.whenFalse);
    CompleteExpr(inp, st1, c.whenTrue);
    var st2 := Adv(st1, |Yield(c.whenTrue)|);
    assert Consume(inp, st2) == Adv(st1, |Yield(c.whenTrue)| + 1);
    CompleteAssignment(inp, Adv(st1, |Yield(c.whenTrue)| + 1), c.whenFalse);
    assert ParseConditionalTail(inp, begin, Parsed(st, cond)) == ParseBranches(inp, st1, begin, cond);
    var whenTrue := ParseCommaExpr(inp, st1).expr;
    assert ParseBranches(inp, st1, begin, cond) == ParseFalseBranch(inp, Consume(inp, st2), begin, cond, whenTrue);
  }

  // ---------------------------------------------------------------------------------------
  // Binary operators
  // ---------------------------------------------------------------------------------------

  /** A binary expression is read to its end; what follows decides whether branches come next. */
  lemma {:induction false} CompleteBinary(inp: Input, st: State, c: Cst) returns (e: Expr, begin: nat)
    requires Offers(inp, st, c) && Level(c) >= 0 && EndsPostfix(Next(inp, st, Yield(c)))
    requires TryParseBinaryOp(Next(inp, st, Yield(c))).None? && TryParseAssignmentOp(Next(inp, st, Yield(c))).None?
    ensures Represents(e, c)
    ensures ParseAssignmentExpr(inp, st) == ParseConditionalTail(inp, begin, Parsed(Adv(st, |Yield(c)|), e))
    ensures !Next(inp, st, Yield(c)).Question? ==> ParseAssignmentExpr(inp, st) == Parsed(Adv(st, |Yield(c)|), e)
    decreases c, 6
  {
    hide Consume, TryParseBinaryOp, TryParseAssignmentOp, ParseAssignmentExpr, ParseBranches, ParseBinaryExpr,
      ParseUnaryExpr, Derives, Yield, Represents;
    var p := ParseUnaryExpr(inp, st);
    begin := p.expr.range.begin;
    e := AbsorbBinary(inp, st, c, 0, begin);
    FirstTermNotAssigned(inp, st, c);
    AssignmentStep(inp, st);
    BinaryStop(inp, Adv(st, |Yield(c)|), begin, e, 0);
  }

  lemma AssignmentStep(inp: Input, st: State)
    requires Ready(inp, st) && TryParseAssignmentOp(Peek(inp, ParseUnaryExpr(inp, st).st)).None?
    ensures var p := ParseUnaryExpr(inp, st);
            var begin := p.expr.range.begin;
            ParseAssignmentExpr(inp, st) ==
            ParseConditionalTail(inp, begin, ParseBinaryExpr(inp, p.st, begin, p.expr, 0))
  {
    hide Consume, TryParseBinaryOp, TryParseAssignmentOp, TryParsePrefixUnaryOp, ParseConditionalTail, BinaryOpAt,
      ParseBinaryExpr, ParseUnaryExpr;
    var p := ParseUnaryExpr(inp, st);
    assert ParseAssignmentExpr(inp, st) == ParseAssignmentExprWithLhs(inp, p.st, p.expr);
    assert ParseAssignmentExpr(inp, st) == ParseConditionalExpr(inp, p.st, p.expr.range.begin, p.expr);
  }

  lemma BinaryStop(inp: Input, st: State, begin: nat, lhs: Expr, minPrecedence: nat)
    requires Calm(inp, st) && BinaryOpAt(inp, st, minPrecedence).None?
    ensures ParseBinaryExpr(inp, st, begin, lhs, minPrecedence) == Parsed(st, lhs)
  {
    hide Consume, TryParseBinaryOp, TryParseAssignmentOp, TryParsePrefixUnaryOp, BinaryOpAt, ParseRhs, ParseUnaryExpr;
  }

  /** Parsing the first unary expression and climbing from it reaches the end of the whole binary
      expression with one tree, whatever looser operator follows. */
  lemma {:induction false} AbsorbBinary(inp: Input, st: State, c: Cst, minPrecedence: nat, begin: nat) returns (e: Expr)
    requires Offers(inp, st, c) && Level(c) >= minPrecedence && EndsPostfix(Next(inp, st, Yield(c)))
    requires var desc := TryParseBinaryOp(Next(inp, st, Yield(c))); desc.Some? ==> desc.value.precedence <= Level(c)
    ensures Represents(e, c)
    ensures var p := ParseUnaryExpr(inp, st);
            ParseBinaryExpr(inp, p.st, begin, p.expr, minPrecedence) ==
            ParseBinaryExpr(inp, Adv(st, |Yield(c)|), begin, e, minPrecedence)
    decreases c, 5
  {
    hide TryParseBinaryOp, BinaryOpAt, ParseBinaryExpr, ParseUnaryExpr, Derives, Yield, Represents;
    if c.Infix? {
      e := AbsorbInfix(inp, st, c, minPrecedence, begin);
    } else {
      CompleteUnary(inp, st, c);
      e := ParseUnaryExpr(inp, st).expr;
    }
  }

  lemma InfixFits(structNames: set<string>, c: Cst)
    requires c.Infix? && Derives(structNames, c)
    ensures TryParseBinaryOp(c.op.klass).Some? && Derives(structNames, c.lhs) && Derives(structNames, c.rhs)
    ensures Level(c) == TryParseBinaryOp(c.op.klass).value.precedence
    ensures Level(c.lhs) >= Level(c) && Level(c.rhs) > Level(c)
    ensures Yield(c) == Yield(c.lhs) + [c.op] + Yield(c.rhs)
  {
    hide TryParseBinaryOp;
  }

  lemma InfixRepresents(e: Expr, c: Cst)
    requires c.Infix? && e.node.Binary? && SpellsBinary(e.node.binaryOp, c.op.klass)
    requires Represents(e.node.lhs, c.lhs) && Represents(e.node.rhs, c.rhs)
    ensures Represents(e, c)
  {
    hide SpellsBinary;
  }

  lemma {:induction false} AbsorbInfix(inp: Input, st: State, c: Cst, minPrecedence: nat, begin: nat) returns (e: Expr)
    requires c.Infix? && Offers(inp, st, c) && Level(c) >= minPrecedence && EndsPostfix(Next(inp, st, Yield(c)))
    requires var desc := TryParseBinaryOp(Next(inp, st, Yield(c))); desc.Some? ==> desc.value.precedence <= Level(c)
    ensures Represents(e, c)
    ensures var p := ParseUnaryExpr(inp, st);
            ParseBinaryExpr(inp, p.st, begin, p.expr, minPrecedence) ==
            ParseBinaryExpr(inp, Adv(st, |Yield(c)|), begin, e, minPrecedence)
    decreases c, 4
  {
    hide SpellsBinary, TryParseBinaryOp, BinaryOpAt, ParseBinaryExpr, ParseRhs, ParseUnaryExpr, Derives, Represents,
      Yield, Level;
    InfixFits(inp.structNames, c);
    var op := TryParseBinaryOp(c.op.klass).value;
    BinaryOpFacts(c.op.klass);
    SplitAround(inp, st, c.lhs, c.op, c.rhs);
    var el := AbsorbBinary(inp, st, c.lhs, minPrecedence, begin);
    var st1 := Adv(st, |Yield(c.lhs)|);
    var st2 := Adv(st, |Yield(c.lhs)| + 1);
    var er := AbsorbRhs(inp, st2, c.rhs, op.precedence);
    BinaryStep(inp, st1, begin, el, minPrecedence, er);
    e := MakeExpr(begin, Adv(st2, |Yield(c.rhs)|), Binary(op.opcode, el, er.expr));
    InfixRepresents(e, c);
  }

  /** One round of the climbing loop, given its right operand. */
  lemma BinaryStep(inp: Input, st: State, begin: nat, lhs: Expr, minPrecedence: nat, rhs: Parsed)
    requires Ready(inp, st) && TryParseBinaryOp(Peek(inp, st)).Some? && IsPlain(Peek(inp, st))
    requires var op := TryParseBinaryOp(Peek(inp, st)).value;
             var term := ParseUnaryExpr(inp, Adv(st, 1));
             op.precedence >= minPrecedence && rhs == ParseRhs(inp, term.st, st.cur + 1, term.expr, op.precedence)
    ensures var op := TryParseBinaryOp(Peek(inp, st)).value;
            ParseBinaryExpr(inp, st, begin, lhs, minPrecedence) ==
            ParseBinaryExpr(inp, rhs.st, begin, MakeExpr(begin, rhs.st, Binary(op.opcode, lhs, rhs.expr)),
              minPrecedence)
  {
    hide Consume, TryParseBinaryOp, TryParseAssignmentOp, TryParsePrefixUnaryOp, ParseRhs, ParseUnaryExpr;
    assert Consume(inp, st) == Adv(st, 1);
  }

  /** The right operand of an operator is read to its end before the operator is applied. */
  lemma {:induction false} AbsorbRhs(inp: Input, st: State, c: Cst, precedence: nat) returns (rhs: Parsed)
    requires Offers(inp, st, c) && Level(c) > precedence && EndsPostfix(Next(inp, st, Yield(c)))
    requires var desc := TryParseBinaryOp(Next(inp, st, Yield(c))); desc.Some? ==> desc.value.precedence <= precedence
    ensures Reads(st, rhs, c)
    ensures var term := ParseUnaryExpr(inp, st);
            ParseRhs(inp, term.st, st.cur, term.expr, precedence) == rhs
    decreases c, 6
  {
    hide TryParseBinaryOp, ParseBinaryExpr, ParseRhs, ParseUnaryExpr, Derives, Yield, Represents;
    var e := AbsorbBinary(inp, st, c, precedence + 1, st.cur);
    var whole := Adv(st, |Yield(c)|);
    rhs := Parsed(whole, e);
    BinaryStop(inp, whole, st.cur, e, precedence + 1);
    var term := ParseUnaryExpr(inp, st);
    if c.Infix? {
      FirstOperator(inp, st, c);
      RhsStep(inp, term.st, st.cur, term.expr, precedence, rhs);
    } else {
      CompleteUnary(inp, st, c);
      BinaryStop(inp, term.st, st.cur, term.expr, precedence + 1);
      RhsStop(inp, term.st, st.cur, term.expr, precedence);
    }
  }

  lemma RhsStop(inp: Input, st: State, begin: nat, rhs: Expr, precedence: nat)
    requires Calm(inp, st) && BinaryOpAt(inp, st, precedence + 1).None?
    ensures ParseRhs(inp, st, begin, rhs, precedence) == Parsed(st, rhs)
  {
    hide TryParseBinaryOp, TryParseAssignmentOp, TryParsePrefixUnaryOp, BinaryOpAt, ParseBinaryExpr;
  }

  lemma RhsStep(inp: Input, st: State, begin: nat, rhs: Expr, precedence: nat, p: Parsed)
    requires Calm(inp, st) && BinaryOpAt(inp, st, precedence + 1).Some?
    requires ParseBinaryExpr(inp, st, begin, rhs, precedence + 1) == p && BinaryOpAt(inp, p.st, precedence + 1).None?
    ensures ParseRhs(inp, st, begin, rhs, precedence) == p
  {
    hide TryParseBinaryOp, TryParseAssignmentOp, TryParsePrefixUnaryOp, BinaryOpAt, ParseBinaryExpr;
    RhsStop(inp, p.st, begin, p.expr, precedence);
  }

  /** A binary expression continues after its first unary expression with one of its operators. */
  lemma {:induction false} FirstOperator(inp: Input, st: State, c: Cst)
    requires c.Infix? && Offers(inp, st, c)
    ensures var desc := TryParseBinaryOp(Peek(inp, ParseUnaryExpr(inp, st).st));
            desc.Some? && desc.value.precedence >= Level(c)
    decreases c, 4
  {
    hide TryParseBinaryOp, TryParseAssignmentOp, TryParsePrefixUnaryOp, ParseUnaryExpr;
    SplitAround(inp, st, c.lhs, c.op, c.rhs);
    BinaryOpFacts(c.op.klass);
    if c.lhs.Infix? {
      FirstOperator(inp, st, c.lhs);
    } else {
      CompleteUnary(inp, st, c.lhs);
    }
  }

  /** The unary expression that starts a binary one is not followed by an assignment operator. */
  lemma {:induction false} FirstTermNotAssigned(inp: Input, st: State, c: Cst)
    requires Offers(inp, st, c) && Level(c) >= 0 && EndsPostfix(Next(inp, st, Yield(c)))
    requires TryParseAssignmentOp(Next(inp, st, Yield(c))).None?
    ensures TryParseAssignmentOp(Peek(inp, ParseUnaryExpr(inp, st).st)).None?
    decreases c, 5
  {
    hide TryParseBinaryOp, TryParseAssignmentOp, ParseUnaryExpr, Derives, Yield, Represents;
    if c.Infix? {
      FirstOperator(inp, st, c);
      BinaryOpFacts(Peek(inp, ParseUnaryExpr(inp, st).st));
    } else {
      CompleteUnary(inp, st, c);
    }
  }

  // ---------------------------------------------------------------------------------------
  // Unary and postfix expressions
  // ---------------------------------------------------------------------------------------

  lemma {:induction false} CompleteUnary(inp: Input, st: State, c: Cst)
    requires Offers(inp, st, c) && Level(c) >= 11 && EndsPostfix(Next(inp, st, Yield(c)))
    ensures Reads(st, ParseUnaryExpr(inp, st), c)
    decreases c, 3
  {
    hide TryParseBinaryOp, TryParsePrefixUnaryOp, ParseUnaryExpr, ParsePostfixHead, PostfixLoop, Derives, Yield,
      Represents;
    if c.Prefix? {
      CompletePrefix(inp, st, c);
    } else {
      FirstToken(inp, st, c);
      var e := AbsorbPostfix(inp, st, c);
      PostfixStop(inp, st, Adv(st, |Yield(c)|), e);
    }
  }

  lemma {:induction false} CompletePrefix(inp: Input, st: State, c: Cst)
    requires c.Prefix? && Offers(inp, st, c) && EndsPostfix(Next(inp, st, Yield(c)))
    ensures Reads(st, ParseUnaryExpr(inp, st), c)
    decreases c, 2
  {
    hide SpellsBinary, SpellsPrefix, Consume, TryParseBinaryOp, TryParseAssignmentOp, TryParsePrefixUnaryOp,
      ParsePostfixExpr;
    PrefixOpFacts(c.op.klass);
    AtSplit(inp, st, [c.op], Yield(c.arg));
    assert Consume(inp, st) == Adv(st, 1);
    CompleteUnary(inp, Adv(st, 1), c.arg);
  }

  lemma PostfixStop(inp: Input, st: State, end: State, e: Expr)
    requires Ready(inp, st) && TryParsePrefixUnaryOp(Peek(inp, st)).None?
    requires Calm(inp, end) && EndsPostfix(Peek(inp, end))
    requires var head := ParsePostfixHead(inp, st);
             PostfixLoop(inp, head.st, st.cur, head.expr) == PostfixLoop(inp, end, st.cur, e)
    ensures ParseUnaryExpr(inp, st) == Parsed(end, e)
  {
    hide Consume, TryParseBinaryOp, TryParseAssignmentOp, TryParsePrefixUnaryOp, ParsePostfixHead, ParsePostfixOp;
  }

  /** The first token of a postfix expression, or of any derivation. */
  lemma {:induction false} FirstToken(inp: Input, st: State, c: Cst)
    requires Offers(inp, st, c)
    ensures Level(c) == 12 ==> TryParsePrefixUnaryOp(Peek(inp, st)).None?
    ensures !Peek(inp, st).RParen? && !Peek(inp, st).RBracket? && !Peek(inp, st).Eof?
    ensures Peek(inp, st).K_void? ==> !LookAhead(inp, st, 1).RParen?
    decreases c
  {
    hide TryParseBinaryOp, TryParseAssignmentOp;
    match c
    case Subscript(l, b) => AtSplit(inp, st, Yield(l), YieldBracket(b)); FirstToken(inp, st, l);
    case Member(l, d, n) => AtSplit(inp, st, Yield(l), [d, n]); FirstToken(inp, st, l);
    case LengthCall(l, d, n, o, cl) => AtSplit(inp, st, Yield(l), [d, n, o, cl]); FirstToken(inp, st, l);
    case PostfixOp(l, op) => AtSplit(inp, st, Yield(l), [op]); FirstToken(inp, st, l);
    case Infix(l, op, r) => SplitAround(inp, st, l, op, r); FirstToken(inp, st, l);
    case Assignment(l, op, r) => SplitAround(inp, st, l, op, r); FirstToken(inp, st, l);
    case Sequence(l, op, r) => SplitAround(inp, st, l, op, r); FirstToken(inp, st, l);
    case Ternary(l, q, t, col, f) =>
      assert Yield(c) == Yield(l) + ([q] + Yield(t) + [col] + Yield(f));
      AtSplit(inp, st, Yield(l), [q] + Yield(t) + [col] + Yield(f)); FirstToken(inp, st, l);
    case _ => FirstTokenOfHead(inp, st, c);
  }

  lemma {:induction false} FirstTokenOfHead(inp: Input, st: State, c: Cst)
    requires Offers(inp, st, c)
    requires c.Atom? || c.Parens? || c.EmptyParens? || c.Call? || c.Construct? || c.Prefix?
    ensures !c.Prefix? ==> TryParsePrefixUnaryOp(Peek(inp, st)).None?
    ensures !Peek(inp, st).RParen? && !Peek(inp, st).RBracket? && !Peek(inp, st).Eof?
    ensures Peek(inp, st).K_void? ==> !LookAhead(inp, st, 1).RParen?
  {
    hide TryParseBinaryOp, TryParseAssignmentOp;
    if c.Construct? {
      var tail := YieldDims(c.dims) + YieldArgs(c.args);
      assert Yield(c) == [c.typeName] + tail;
      AtSplit(inp, st, [c.typeName], tail);
      if c.dims != [] {
        assert c.dims[0] in c.dims && DerivesBracket(inp.structNames, c.dims[0]);
        assert tail[0] == YieldBracket(c.dims[0])[0] == c.dims[0].open;
      } else {
        assert DerivesArgs(inp.structNames, c.args) && tail[0] == YieldArgs(c.args)[0] == c.args.open;
      }
    } else {
      AtSplit(inp, st, Yield(c)[..1], Yield(c)[1..]);
    }
  }

  /** Reading the head of a postfix expression and then looping reaches its end. */
  lemma {:induction false} AbsorbPostfix(inp: Input, st: State, c: Cst) returns (e: Expr)
    requires Offers(inp, st, c) && Level(c) == 12 && !Next(inp, st, Yield(c)).LParen?
    ensures Represents(e, c)
    ensures var head := ParsePostfixHead(inp, st);
            PostfixLoop(inp, head.st, st.cur, head.expr) == PostfixLoop(inp, Adv(st, |Yield(c)|), st.cur, e)
    decreases c, 2
  {
    hide TryParseBinaryOp, ParsePostfixHead, PostfixLoop, Derives, Yield, Represents;
    if c.Subscript? || c.Member? || c.LengthCall? || c.PostfixOp? {
      e := AbsorbPostfixOp(inp, st, c);
    } else {
      CompleteHead(inp, st, c);
      e := ParsePostfixHead(inp, st).expr;
    }
  }

  lemma PostfixParts(structNames: set<string>, c: Cst)
    requires c.Subscript? || c.Member? || c.LengthCall? || c.PostfixOp?
    requires Derives(structNames, c)
    ensures Derives(structNames, c.base) && Level(c.base) == 12 && Yield(c) == Yield(c.base) + PostfixTail(c)
    ensures PostfixTail(c) != [] && StartsPostfix(PostfixTail(c)[0].klass) && !PostfixTail(c)[0].klass.LParen?
  {
    hide TryParseBinaryOp, TryParseAssignmentOp, TryParsePrefixUnaryOp;
  }

  /** A postfix operator lies behind its base. */
  lemma SplitPostfix(inp: Input, st: State, c: Cst)
    requires c.Subscript? || c.Member? || c.LengthCall? || c.PostfixOp?
    requires Offers(inp, st, c)
    ensures Offers(inp, st, c.base) && Level(c.base) == 12 && !Next(inp, st, Yield(c.base)).LParen?
    ensures |Yield(c)| == |Yield(c.base)| + |PostfixTail(c)| && PostfixTail(c) != []
    ensures var st1 := Adv(st, |Yield(c.base)|);
            && Ready(inp, st1) && At(inp, st1, PostfixTail(c))
            && Next(inp, st1, PostfixTail(c)) == Next(inp, st, Yield(c))
            && Peek(inp, st1) == PostfixTail(c)[0].klass && StartsPostfix(Peek(inp, st1))
  {
    hide TryParseBinaryOp, Derives, Yield, PostfixTail;
    PostfixParts(inp.structNames, c);
    AtSplitOf(inp, st, Yield(c), Yield(c.base), PostfixTail(c));
  }

  lemma {:induction false} AbsorbPostfixOp(inp: Input, st: State, c: Cst) returns (e: Expr)
    requires c.Subscript? || c.Member? || c.LengthCall? || c.PostfixOp?
    requires Offers(inp, st, c) && !Next(inp, st, Yield(c)).LParen?
    ensures Represents(e, c)
    ensures var head := ParsePostfixHead(inp, st);
            PostfixLoop(inp, head.st, st.cur, head.expr) == PostfixLoop(inp, Adv(st, |Yield(c)|), st.cur, e)
    decreases c, 1
  {
    hide TryParseBinaryOp, ParsePostfixHead, PostfixLoop, ParsePostfixOp, Derives, Yield, Represents, PostfixTail;
    SplitPostfix(inp, st, c);
    var eb := AbsorbPostfix(inp, st, c.base);
    var st1 := Adv(st, |Yield(c.base)|);
    CompletePostfixOp(inp, st1, c, st.cur, eb);
    PostfixStep(inp, st1, st.cur, eb);
    e := ParsePostfixOp(inp, st1, st.cur, eb).expr;
  }

  lemma PostfixStep(inp: Input, st: State, begin: nat, base: Expr)
    requires Ready(inp, st) && StartsPostfix(Peek(inp, st))
    ensures var p := ParsePostfixOp(inp, st, begin, base);
            PostfixLoop(inp, st, begin, base) == PostfixLoop(inp, p.st, begin, p.expr)
  {
    hide TryParseBinaryOp, TryParseAssignmentOp, TryParsePrefixUnaryOp, ParsePostfixOp;
  }

  /** One postfix operator applied to a base already read. */
  lemma {:induction false} CompletePostfixOp(inp: Input, st: State, c: Cst, begin: nat, base: Expr)
    requires c.Subscript? || c.Member? || c.LengthCall? || c.PostfixOp?
    requires Ready(inp, st) && Derives(inp.structNames, c) && Represents(base, c.base)
    requires At(inp, st, PostfixTail(c)) && !Next(inp, st, PostfixTail(c)).LParen?
    requires PostfixTail(c) != [] && StartsPostfix(Peek(inp, st)) && Peek(inp, st) == PostfixTail(c)[0].klass
    ensures var p := ParsePostfixOp(inp, st, begin, base);
            p.st == Adv(st, |PostfixTail(c)|) && Represents(p.expr, c)
    decreases c, 0
  {
    hide ParsePostfixOp, Represents, Yield, At;
    if c.Subscript? {
      assert DerivesBracket(inp.structNames, c.bracket);
      hide Derives;
      CompleteBracket(inp, st, c.bracket);
      SubscriptStep(inp, st, begin, base, c);
    } else if c.PostfixOp? {
      IncrementStep(inp, st, begin, base, c);
    } else {
      CompleteDot(inp, st, c, begin, base);
    }
  }

  lemma SubscriptStep(inp: Input, st: State, begin: nat, base: Expr, c: Cst)
    requires Ready(inp, st) && Peek(inp, st).LBracket? && c.Subscript? && Represents(base, c.base)
    requires RepresentsDim(ParseBracketWrapped(inp, st).1, c.bracket)
    ensures var p := ParsePostfixOp(inp, st, begin, base);
            p.st == ParseBracketWrapped(inp, st).0 && Represents(p.expr, c)
  {
    hide ParseBracketWrapped, Consume;
  }

  lemma IncrementStep(inp: Input, st: State, begin: nat, base: Expr, c: Cst)
    requires Ready(inp, st) && c.PostfixOp? && Represents(base, c.base) && Peek(inp, st) == c.op.klass
    requires c.op.klass.Increment? || c.op.klass.Decrement?
    ensures var p := ParsePostfixOp(inp, st, begin, base); p.st == Adv(st, 1) && Represents(p.expr, c)
  {
    hide ParseBracketWrapped, ParseMember;
  }

  lemma DotStep(inp: Input, st: State, begin: nat, base: Expr)
    requires Ready(inp, st) && Peek(inp, st).Dot?
    ensures Ready(inp, Adv(st, 1)) && ParsePostfixOp(inp, st, begin, base) == ParseMember(inp, Adv(st, 1), begin, base)
  {
    hide ParseMember, ParseBracketWrapped;
    assert Consume(inp, st) == Adv(st, 1);
  }

  lemma DotIsDerived(structNames: set<string>, c: Cst)
    requires (c.Member? || c.LengthCall?) && Derives(structNames, c)
    ensures c.dot.klass.Dot?
  {
  }

  lemma CompleteDot(inp: Input, st: State, c: Cst, begin: nat, base: Expr)
    requires (c.Member? || c.LengthCall?) && Ready(inp, st)
    requires Derives(inp.structNames, c) && Represents(base, c.base)
    requires At(inp, st, PostfixTail(c)) && !Next(inp, st, PostfixTail(c)).LParen?
    ensures StartsPostfix(Peek(inp, st))
    ensures var p := ParsePostfixOp(inp, st, begin, base);
            p.st == Adv(st, |PostfixTail(c)|) && Represents(p.expr, c)
  {
    hide Consume, ParsePostfixOp, ParseMember, ParseBracketWrapped, Derives, Represents, Yield, TryParseBinaryOp,
      TryParseAssignmentOp, TryParsePrefixUnaryOp;
    DotIsDerived(inp.structNames, c);
    var tail := PostfixTail(c)[1..];
    assert PostfixTail(c) == [c.dot] + tail;
    AtSplit(inp, st, [c.dot], tail);
    DotStep(inp, st, begin, base);
    CompleteMember(inp, Adv(st, 1), c, begin, base, tail);
  }

  lemma CompleteMember(inp: Input, st: State, c: Cst, begin: nat, base: Expr, tail: seq<Token>)
    requires (c.Member? || c.LengthCall?) && Ready(inp, st)
    requires Derives(inp.structNames, c) && Represents(base, c.base)
    requires tail == PostfixTail(c)[1..] && At(inp, st, tail) && !Next(inp, st, tail).LParen?
    ensures var p := ParseMember(inp, st, begin, base);
            p.st == Adv(st, |tail|) && Represents(p.expr, c)
  {
    hide Consume, TryParseBinaryOp, TryParseAssignmentOp, TryParsePrefixUnaryOp;
    assert inp.tokens[st.cur + 0] == tail[0] && tail[0] == c.name;
    assert Consume(inp, st) == Adv(st, 1);
    if c.LengthCall? {
      assert inp.tokens[st.cur + 1] == tail[1] && inp.tokens[st.cur + 2] == tail[2];
      var st1 := Consume(inp, Adv(st, 1));
      assert Consume(inp, st1) == Adv(st, 3);
    }
  }

  // ---------------------------------------------------------------------------------------
  // Atoms, parentheses, brackets and calls
  // ---------------------------------------------------------------------------------------

  lemma {:induction false} CompleteHead(inp: Input, st: State, c: Cst)
    requires c.Atom? || c.Parens? || c.EmptyParens? || c.Call? || c.Construct?
    requires Offers(inp, st, c) && !Next(inp, st, Yield(c)).LParen?
    ensures Reads(st, ParsePostfixHead(inp, st), c)
    decreases c, 1
  {
    hide ParsePostfixHead, Derives, Yield, Represents;
    match c
    case Atom(_) => CompleteAtom(inp, st, c);
    case Call(_, _) => CompleteCall(inp, st, c);
    case Construct(_, _, _) => CompleteConstruct(inp, st, c);
    case _ => CompleteParens(inp, st, c);
  }

  lemma CompleteAtom(inp: Input, st: State, c: Cst)
    requires c.Atom? && Offers(inp, st, c) && !Next(inp, st, Yield(c)).LParen?
    ensures Reads(st, ParsePostfixHead(inp, st), c)
  {
    hide Consume, TryParseBinaryOp, TryParseAssignmentOp, TryParsePrefixUnaryOp, ParseTypeSpec, ParseConstructorCall,
      ParseParenWrappedExpr, ParseFunctionArgumentList;
    assert inp.tokens[st.cur + 0] == Yield(c)[0];
    assert Consume(inp, st) == Adv(st, 1);
    assert ParsePostfixHead(inp, st) == ParsePrimaryExpr(inp, st);
  }

  /** `open`, `inside` and `close` lie at the cursor. */
  lemma SplitDelimited(inp: Input, st: State, open: Token, inside: seq<Token>, close: Token)
    requires At(inp, st, [open] + inside + [close])
    ensures inp.tokens[st.cur] == open && At(inp, Adv(st, 1), inside) && inp.tokens[st.cur + 1 + |inside|] == close
  {
    assert [open] + inside + [close] == [open] + (inside + [close]);
    AtSplit(inp, st, [open], inside + [close]);
    AtSplit(inp, Adv(st, 1), inside, [close]);
  }

  lemma HeadInParens(inp: Input, st: State)
    requires Ready(inp, st) && Peek(inp, st).LParen?
    ensures ParsePostfixHead(inp, st) == ParseParenWrappedExpr(inp, st)
  {
    hide Consume, ParseExpr, ParseTypeSpec, ParseConstructorCall, ParseParenWrappedExpr, ParseFunctionArgumentList;
    assert ParsePostfixHead(inp, st) == ParsePrimaryExpr(inp, st);
  }

  lemma {:induction false} CompleteParens(inp: Input, st: State, c: Cst)
    requires (c.Parens? || c.EmptyParens?) && Offers(inp, st, c)
    ensures Reads(st, ParsePostfixHead(inp, st), c)
    decreases c, 0
  {
    hide ParseExpr, ParseParenWrappedExpr, ParsePostfixHead;
    if c.Parens? {
      SplitDelimited(inp, st, c.open, Yield(c.inner), c.close);
      HeadInParens(inp, st);
      ReadInside(inp, Adv(st, 1).(parens := st.parens + 1), c.inner, c.close);
      ParenStep(inp, st, |Yield(c.inner)|);
    } else {
      assert [c.open] + [] + [c.close] == [c.open, c.close];
      SplitDelimited(inp, st, c.open, [], c.close);
      HeadInParens(inp, st);
      ParenStep(inp, st, 0);
    }
  }

  /** What is in parentheses or brackets is read to the closing token. */
  lemma {:induction false} ReadInside(inp: Input, st: State, c: Cst, close: Token)
    requires Ready(inp, st) && Derives(inp.structNames, c) && At(inp, st, Yield(c))
    requires Next(inp, st, Yield(c)) == close.klass && (close.klass.RParen? || close.klass.RBracket?)
    ensures Reads(st, ParseExpr(inp, st), c) && |Yield(c)| > 0
    ensures !Peek(inp, st).RParen? && !Peek(inp, st).RBracket?
    decreases c, 10
  {
    hide ParseExpr, ParseCommaExpr, Derives, Yield, Represents;
    ClosingFacts(close.klass);
    CompleteExpr(inp, st, c);
    FirstToken(inp, st, c);
    YieldNonEmpty(c);
  }

  /** Parentheses around `n` tokens that are read without a change of depth. */
  lemma ParenStep(inp: Input, st: State, n: nat)
    requires Ready(inp, st) && Peek(inp, st).LParen? && st.cur + n + 2 < |inp.tokens|
    requires inp.tokens[st.cur + n + 1].klass.RParen?
    requires var st1 := Adv(st, 1).(parens := st.parens + 1);
             n == 0 || (!Peek(inp, st1).RParen? && ParseExpr(inp, st1).st == Adv(st1, n))
    ensures var st1 := Adv(st, 1).(parens := st.parens + 1);
            ParseParenWrappedExpr(inp, st) ==
            Parsed(Adv(st, n + 2), if n == 0 then ErrorAt(st1) else ParseExpr(inp, st1).expr)
  {
    hide Consume, TryParseBinaryOp, TryParseAssignmentOp, TryParsePrefixUnaryOp, ParseExpr;
    var st1 := Adv(st, 1).(parens := st.parens + 1);
    assert Consume(inp, st) == st1;
    assert Consume(inp, Adv(st1, n)) == Adv(st, n + 2);
  }

  lemma {:induction false} CompleteBracket(inp: Input, st: State, b: Bracket)
    requires Ready(inp, st) && DerivesBracket(inp.structNames, b) && At(inp, st, YieldBracket(b))
    requires Peek(inp, st).LBracket?
    ensures var r := ParseBracketWrapped(inp, st); r.0 == Adv(st, |YieldBracket(b)|) && RepresentsDim(r.1, b)
    decreases b, 0
  {
    hide TryParseBinaryOp, TryParseAssignmentOp, TryParsePrefixUnaryOp, ParseExpr, ParseCommaExpr,
      ParseBracketWrapped;
    if b.FullBracket? {
      SplitDelimited(inp, st, b.open, Yield(b.inner), b.close);
      ReadInside(inp, Adv(st, 1).(brackets := st.brackets + 1), b.inner, b.close);
      BracketStep(inp, st, |Yield(b.inner)|);
    } else {
      assert [b.open] + [] + [b.close] == [b.open, b.close];
      SplitDelimited(inp, st, b.open, [], b.close);
      BracketStep(inp, st, 0);
    }
  }

  /** Brackets around `n` tokens that are read without a change of depth. */
  lemma BracketStep(inp: Input, st: State, n: nat)
    requires Ready(inp, st) && Peek(inp, st).LBracket? && st.cur + n + 2 < |inp.tokens|
    requires inp.tokens[st.cur + n + 1].klass.RBracket?
    requires var st1 := Adv(st, 1).(brackets := st.brackets + 1);
             n == 0 || (!Peek(inp, st1).RBracket? && ParseExpr(inp, st1).st == Adv(st1, n))
    ensures var st1 := Adv(st, 1).(brackets := st.brackets + 1);
            var r := ParseBracketWrapped(inp, st);
            r.0 == Adv(st, n + 2) && r.1 == if n == 0 then Unsized else Sized(ParseExpr(inp, st1).expr)
  {
    hide Consume, TryParseBinaryOp, TryParseAssignmentOp, TryParsePrefixUnaryOp, ParseExpr;
    var st1 := Adv(st, 1).(brackets := st.brackets + 1);
    assert Consume(inp, st) == st1;
    assert Consume(inp, Adv(st1, n)) == Adv(st, n + 2);
  }

  lemma {:induction false} CompleteCall(inp: Input, st: State, c: Cst)
    requires c.Call? && Offers(inp, st, c)
    ensures Reads(st, ParsePostfixHead(inp, st), c)
    decreases c, 0
  {
    hide Consume, TryParseBinaryOp, TryParseAssignmentOp, TryParsePrefixUnaryOp, ParseTypeSpec, ParseConstructorCall,
      ParsePrimaryExpr, ParseFunctionArgumentList;
    AtSplit(inp, st, [c.name], YieldArgs(c.args));
    assert DerivesArgs(inp.structNames, c.args) && YieldArgs(c.args)[0] == c.args.open;
    assert Consume(inp, st) == Adv(st, 1);
    CompleteArgs(inp, Adv(st, 1), c.args);
  }

  /** A type name, its dimensions and its arguments. */
  lemma ConstructParts(inp: Input, st: State, c: Cst)
    requires c.Construct? && Offers(inp, st, c)
    ensures var ds := YieldDims(c.dims);
            && |Yield(c)| == 1 + |ds| + |YieldArgs(c.args)|
            && Peek(inp, st) == c.typeName.klass && inp.tokens[st.cur] == c.typeName
            && At(inp, Adv(st, 1), ds) && At(inp, Adv(st, 1 + |ds|), YieldArgs(c.args))
            && Next(inp, Adv(st, 1), ds) == c.args.open.klass
            && Next(inp, Adv(st, 1 + |ds|), YieldArgs(c.args)) == Next(inp, st, Yield(c))
    ensures DerivesArgs(inp.structNames, c.args) && c.args.open.klass.LParen?
    ensures IsTypeNameToken(inp.structNames, c.typeName)
    ensures forall d | d in c.dims :: DerivesBracket(inp.structNames, d)
  {
    hide TryParseBinaryOp, TryParseAssignmentOp, TryParsePrefixUnaryOp, DerivesBracket, YieldDims;
    var ds, args := YieldDims(c.dims), YieldArgs(c.args);
    assert Yield(c) == [c.typeName] + (ds + args);
    assert args[0] == c.args.open;
    AtSplit(inp, st, [c.typeName], ds + args);
    AtSplit(inp, Adv(st, 1), ds, args);
  }

  lemma {:induction false} CompleteConstruct(inp: Input, st: State, c: Cst)
    requires c.Construct? && Offers(inp, st, c)
    ensures Reads(st, ParsePostfixHead(inp, st), c)
    decreases c, 0
  {
    hide TryParseBinaryOp, TryParseAssignmentOp, TryParsePrefixUnaryOp, ArraySpecLoop, ParsePrimaryExpr,
      ParseFunctionArgumentList, ParsePostfixHead, ParseConstructorCall, ParseTypeSpec, Consume, At, Yield, YieldArgs,
      YieldDims, Derives, DerivesArgs, DerivesBracket, Represents, RepresentsArgs, RepresentsDims;
    ConstructParts(inp, st, c);
    var ds := YieldDims(c.dims);
    assert Consume(inp, st) == Adv(st, 1);
    ConstructStep(inp, st);
    var dims := CompleteDims(inp, Adv(st, 1), c.dims, []);
    CompleteArgs(inp, Adv(st, 1 + |ds|), c.args);
    assert [] + dims == dims;
    ConstructRepresents(ParsePostfixHead(inp, st).expr, c);
  }

  lemma ConstructRepresents(e: Expr, c: Cst)
    requires c.Construct? && e.node.ConstructorCall? && e.node.typeSpec.typeName == c.typeName
    requires RepresentsDims(e.node.typeSpec.dims, c.dims) && RepresentsArgs(e.node.args, c.args)
    ensures Represents(e, c)
  {
    hide RepresentsDims, RepresentsArgs;
  }

  lemma ConstructStep(inp: Input, st: State)
    requires Ready(inp, st) && IsTypeName(inp, st)
    ensures
      var dims := ArraySpecLoop(inp, Consume(inp, st), []);
      var spec := TypeSpec(Range(st.cur, dims.0.cur), inp.tokens[st.cur], dims.1);
      && ParsePostfixHead(inp, st) == ParseConstructorCall(inp, dims.0, spec)
      && (Peek(inp, dims.0).LParen? ==>
            var args := ParseFunctionArgumentList(inp, dims.0);
            ParseConstructorCall(inp, dims.0, spec)
            == Parsed(args.0, MakeExpr(st.cur, args.0, ConstructorCall(spec, args.1))))
  {
    hide Consume, ArraySpecLoop, ParseFunctionArgumentList, ParsePrimaryExpr;
  }

  lemma {:induction false} CompleteDims(inp: Input, st: State, bs: seq<Bracket>, acc: seq<Dim>) returns (ds: seq<Dim>)
    requires Ready(inp, st) && (forall b | b in bs :: DerivesBracket(inp.structNames, b))
    requires At(inp, st, YieldDims(bs)) && Next(inp, st, YieldDims(bs)).LParen?
    ensures RepresentsDims(ds, bs) && ArraySpecLoop(inp, st, acc) == (Adv(st, |YieldDims(bs)|), acc + ds)
    decreases bs, 0
  {
    hide TryParseBinaryOp, TryParseAssignmentOp, TryParsePrefixUnaryOp, ParseBracketWrapped;
    if bs == [] {
      ds := [];
      assert acc + ds == acc;
    } else {
      AtSplit(inp, st, YieldBracket(bs[0]), YieldDims(bs[1..]));
      assert bs[0] in bs && YieldBracket(bs[0])[0] == bs[0].open;
      CompleteBracket(inp, st, bs[0]);
      var r := ParseBracketWrapped(inp, st);
      var rest := CompleteDims(inp, r.0, bs[1..], acc + [r.1]);
      ds := [r.1] + rest;
      assert acc + [r.1] + rest == acc + ds;
    }
  }

  lemma {:induction false} CompleteArgs(inp: Input, st: State, a: CallArgs)
    requires Ready(inp, st) && DerivesArgs(inp.structNames, a) && At(inp, st, YieldArgs(a)) && Peek(inp, st).LParen?
    ensures var r := ParseFunctionArgumentList(inp, st);
            r.0 == Adv(st, |YieldArgs(a)|) && RepresentsArgs(r.1, a)
    decreases a, 1
  {
    hide Consume, TryParseBinaryOp, TryParseAssignmentOp, TryParsePrefixUnaryOp, ArgumentLoop;
    var st1 := Adv(st, 1).(parens := st.parens + 1);
    assert Consume(inp, st) == st1;
    if a.SomeArgs? {
      CompleteSomeArgs(inp, st, a);
    } else if a.VoidArgs? {
      assert inp.tokens[st.cur + 1] == YieldArgs(a)[1] && inp.tokens[st.cur + 2] == YieldArgs(a)[2];
      assert Consume(inp, Consume(inp, st1)) == Adv(st, 3);
    } else {
      assert inp.tokens[st.cur + 1] == YieldArgs(a)[1];
      assert Consume(inp, st1) == Adv(st, 2);
    }
  }

  lemma {:induction false} CompleteSomeArgs(inp: Input, st: State, a: CallArgs)
    requires a.SomeArgs?
    requires Ready(inp, st) && DerivesArgs(inp.structNames, a) && At(inp, st, YieldArgs(a)) && Peek(inp, st).LParen?
    ensures var r := ParseFunctionArgumentList(inp, st);
            r.0 == Adv(st, |YieldArgs(a)|) && RepresentsArgs(r.1, a)
    decreases a, 0
  {
    hide Consume, TryParseBinaryOp, TryParseAssignmentOp, TryParsePrefixUnaryOp, ArgumentLoop;
    var st1 := Adv(st, 1).(parens := st.parens + 1);
    var inside := YieldList(a.items);
    assert YieldArgs(a) == [a.open] + (inside + [a.close]);
    AtSplit(inp, st, [a.open], inside + [a.close]);
    AtSplit(inp, Adv(st, 1), inside, [a.close]);
    assert At(inp, st1, inside);
    assert Consume(inp, st) == st1;
    var es := CompleteList(inp, st1, a.items, st1.parens);
    FirstArgument(inp, st1, a.items);
    assert Consume(inp, Adv(st1, |inside|)) == Adv(st, |inside| + 2);
  }

  lemma ListParts(structNames: set<string>, l: ArgList)
    requires l.Snoc? && DerivesList(structNames, l)
    ensures Derives(structNames, l.arg) && YieldList(l) == YieldList(l.init) + [l.comma] + Yield(l.arg)
  {
    hide Derives, Yield;
  }

  lemma SplitList(inp: Input, st: State, l: ArgList)
    requires l.Snoc? && Ready(inp, st) && DerivesList(inp.structNames, l) && At(inp, st, YieldList(l))
    ensures At(inp, st, YieldList(l.init)) && Next(inp, st, YieldList(l.init)) == l.comma.klass
    ensures Offers(inp, Adv(st, |YieldList(l.init)| + 1), l.arg)
    ensures Next(inp, Adv(st, |YieldList(l.init)| + 1), Yield(l.arg)) == Next(inp, st, YieldList(l))
  {
    ListParts(inp.structNames, l);
    hide Derives, DerivesList, Yield, YieldList, At;
    SplitAtToken(inp, st, YieldList(l.init), l.comma, Yield(l.arg));
  }

  lemma {:induction false} FirstArgument(inp: Input, st: State, l: ArgList)
    requires Ready(inp, st) && DerivesList(inp.structNames, l) && At(inp, st, YieldList(l))
    ensures !Peek(inp, st).RParen? && !Peek(inp, st).Eof?
    ensures Peek(inp, st).K_void? ==> !LookAhead(inp, st, 1).RParen?
    decreases l
  {
    hide TryParseBinaryOp, TryParseAssignmentOp, TryParsePrefixUnaryOp;
    if l.Single? {
      FirstToken(inp, st, l.arg);
    } else {
      SplitList(inp, st, l);
      FirstArgument(inp, st, l.init);
    }
  }

  /** The argument loop reads a whole list, whether `)` or a further argument follows. */
  lemma {:induction false} CompleteList(inp: Input, st: State, l: ArgList, leftParens: nat) returns (es: seq<Expr>)
    requires Ready(inp, st) && DerivesList(inp.structNames, l) && At(inp, st, YieldList(l))
    requires 0 < leftParens == st.parens
    requires Next(inp, st, YieldList(l)).RParen? || Next(inp, st, YieldList(l)).Comma?
    ensures RepresentsList(es, l)
    ensures ArgumentLoop(inp, st, leftParens, []) ==
            if Next(inp, st, YieldList(l)).RParen? then (Adv(st, |YieldList(l)|), es)
            else ArgumentLoop(inp, Adv(st, |YieldList(l)| + 1), leftParens, es)
    decreases l, 1
  {
    hide TryParseBinaryOp, TryParseAssignmentOp, TryParsePrefixUnaryOp, ParseAssignmentExpr, ArgumentLoop;
    ClosingFacts(Next(inp, st, YieldList(l)));
    if l.Single? {
      CompleteArgument(inp, st, l.arg, leftParens, []);
      es := [ParseAssignmentExpr(inp, st).expr];
      assert [] + es == es;
    } else {
      SplitList(inp, st, l);
      var st1 := Adv(st, |YieldList(l.init)| + 1);
      var es0 := CompleteList(inp, st, l.init, leftParens);
      CompleteArgument(inp, st1, l.arg, leftParens, es0);
      es := es0 + [ParseAssignmentExpr(inp, st1).expr];
      assert es[..|es| - 1] == es0;
      assert |YieldList(l)| == |YieldList(l.init)| + 1 + |Yield(l.arg)|;
    }
  }

  /** One round of the argument loop. */
  lemma {:induction false} CompleteArgument(inp: Input, st: State, c: Cst, leftParens: nat, acc: seq<Expr>)
    requires Offers(inp, st, c) && Level(c) >= -2 && 0 < leftParens == st.parens
    requires Next(inp, st, Yield(c)).RParen? || Next(inp, st, Yield(c)).Comma?
    ensures var arg := ParseAssignmentExpr(inp, st);
            && Reads(st, arg, c)
            && ArgumentLoop(inp, st, leftParens, acc) ==
               if Next(inp, st, Yield(c)).RParen? then (Adv(st, |Yield(c)|), acc + [arg.expr])
               else ArgumentLoop(inp, Adv(st, |Yield(c)| + 1), leftParens, acc + [arg.expr])
    decreases c, 8
  {
    hide Consume, TryParseBinaryOp, TryParseAssignmentOp, TryParsePrefixUnaryOp, ParseAssignmentExpr, Derives, Yield,
      Represents;
    ClosingFacts(Next(inp, st, Yield(c)));
    CompleteAssignment(inp, st, c);
    FirstToken(inp, st, c);
    var st1 := Adv(st, |Yield(c)|);
    assert Peek(inp, st1).Comma? ==> Consume(inp, st1) == Adv(st, |Yield(c)| + 1);
  }
}
