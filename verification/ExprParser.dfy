/** The expression parser as functions of its state: precedence climbing with error recovery.

    Every function states what holds on every token stream: the cursor never moves back, and
    recovery mode is only left standing in front of a token that can end the enclosing statement.
    With that, all of them terminate, and the assertion of the source behind an assignment operator
    never fails. */
module ExprParser {
  import opened Tokens
  import opened ParserState
  import opened ExprAst

  datatype Parsed = Parsed(st: State, expr: Expr)

  /** In recovery mode the lookahead is `;`, the `}` of an open scope, or the end of the input. */
  ghost predicate Sync(inp: Input, st: State)
    requires Valid(inp, st)
  {
    st.recovering ==> Peek(inp, st).Eof? || Peek(inp, st).Semicolon? || (Peek(inp, st).RBrace? && st.braces > 0)
  }

  ghost predicate Calm(inp: Input, st: State) { Valid(inp, st) && Sync(inp, st) }

  ghost predicate Ready(inp: Input, st: State) { Valid(inp, st) && !st.recovering }

  /** `st1` is reached from `st` by moving forward and reporting further errors. */
  ghost predicate Forward(inp: Input, st: State, st1: State) {
    Valid(inp, st1) && st1.cur >= st.cur && st.errors <= st1.errors
  }

  /** Moreover nothing but the list of errors changes unless a token is read. */
  ghost predicate After(inp: Input, st: State, st1: State) {
    Forward(inp, st, st1) && (st1.cur == st.cur ==> st1.(errors := st.errors) == st)
  }

  ghost predicate Steps(inp: Input, st: State, st1: State) {
    After(inp, st, st1) && Sync(inp, st1)
  }

  function MakeExpr(begin: nat, st: State, node: Node): Expr { Expr(Range(begin, st.cur), node) }

  function ErrorAt(st: State): Expr { MakeExpr(st.cur, st, ErrorExpr) }

  // ---------------------------------------------------------------------------------------
  // Closing delimiters and commas
  // ---------------------------------------------------------------------------------------

  function ParseClosingParen(inp: Input, st: State, leftParens: nat): (st1: State)
    requires Valid(inp, st) && leftParens > 0 && (st.parens < leftParens ==> Sync(inp, st))
    ensures Forward(inp, st, st1) && Sync(inp, st1)
  {
    if st.parens < leftParens then st
    else if Peek(inp, st).RParen? then Consume(inp, st).(recovering := false)
    else
      var st1 := RecoverFromError(inp, ParenMode, Report(st));
      if Peek(inp, st1).RParen? then Consume(inp, st1).(recovering := false)
      else st1.(recovering := true)
  }

  function ParseClosingBracket(inp: Input, st: State, leftBrackets: nat): (st1: State)
    requires Valid(inp, st) && leftBrackets > 0 && (st.brackets < leftBrackets ==> Sync(inp, st))
    ensures Forward(inp, st, st1) && Sync(inp, st1)
  {
    if st.brackets < leftBrackets then st
    else if Peek(inp, st).RBracket? then Consume(inp, st).(recovering := false)
    else
      var st1 := RecoverFromError(inp, BracketMode, Report(st));
      if Peek(inp, st1).RBracket? then Consume(inp, st1).(recovering := false)
      else st1.(recovering := true)
  }

  /** The state after an optional `,` of an argument list, and whether another argument follows. */
  function ParseCommaInParen(inp: Input, st: State, leftParens: nat): (r: (State, bool))
    requires Calm(inp, st) && leftParens > 0
    ensures Steps(inp, st, r.0)
    ensures r.1 ==> r.0.cur > st.cur && !r.0.recovering
  {
    if st.parens < leftParens || Peek(inp, st).RParen? then (st, false)
    else if Peek(inp, st).Comma? then (Consume(inp, st), true)
    else
      var st1 := RecoverFromError(inp, CommaMode, Report(st));
      if Peek(inp, st1).Comma? then (Consume(inp, st1), true) else (st1, false)
  }

  // ---------------------------------------------------------------------------------------
  // The grammar productions
  // ---------------------------------------------------------------------------------------

  /** A full expression.  When it reads no token it forces recovery mode, wherever it stands. */
  function ParseExpr(inp: Input, st: State): (p: Parsed)
    requires Ready(inp, st)
    ensures Forward(inp, st, p.st)
    ensures Sync(inp, p.st) || (p.st.cur == st.cur && p.st.parens == st.parens && p.st.brackets == st.brackets)
    decreases Left(inp, st), 10
  {
    var p := ParseCommaExpr(inp, st);
    if p.st.cur == st.cur then Parsed(p.st.(recovering := true), p.expr) else p
  }

  function ParseCommaExpr(inp: Input, st: State): (p: Parsed)
    requires Ready(inp, st)
    ensures Steps(inp, st, p.st)
    decreases Left(inp, st), 9
  {
    var p := ParseAssignmentExpr(inp, st);
    CommaLoop(inp, p.st, st.cur, p.expr)
  }

  function CommaLoop(inp: Input, st: State, begin: nat, lhs: Expr): (p: Parsed)
    requires Calm(inp, st)
    ensures Steps(inp, st, p.st)
    decreases Left(inp, st), 2
  {
    if !Peek(inp, st).Comma? then Parsed(st, lhs)
    else
      var rhs := ParseAssignmentExpr(inp, Consume(inp, st));
      CommaLoop(inp, rhs.st, begin, MakeExpr(begin, rhs.st, Binary(CommaOp, lhs, rhs.expr)))
  }

  function ParseAssignmentExpr(inp: Input, st: State): (p: Parsed)
    requires Ready(inp, st)
    ensures Steps(inp, st, p.st)
    decreases Left(inp, st), 8
  {
    var p := ParseUnaryExpr(inp, st);
    ParseAssignmentExprWithLhs(inp, p.st, p.expr)
  }

  function ParseAssignmentExprWithLhs(inp: Input, st: State, lhs: Expr): (p: Parsed)
    requires Calm(inp, st)
    ensures Steps(inp, st, p.st)
    decreases Left(inp, st), 3
  {
    var op := TryParseAssignmentOp(Peek(inp, st));
    var begin := lhs.range.begin;
    if op.Some? then
      // The source asserts here that the parser is not in recovery mode.
      assert !st.recovering;
      var rhs := ParseAssignmentExpr(inp, Consume(inp, st));
      Parsed(rhs.st, MakeExpr(begin, rhs.st, Binary(op.value, lhs, rhs.expr)))
    else
      ParseConditionalExpr(inp, st, begin, lhs)
  }

  function ParseConditionalExpr(inp: Input, st: State, begin: nat, firstTerm: Expr): (p: Parsed)
    requires Calm(inp, st)
    ensures Steps(inp, st, p.st)
    decreases Left(inp, st), 2
  {
    ParseConditionalTail(inp, begin, ParseBinaryExpr(inp, st, begin, firstTerm, 0))
  }

  function ParseConditionalTail(inp: Input, begin: nat, cond: Parsed): (p: Parsed)
    requires Calm(inp, cond.st)
    ensures Steps(inp, cond.st, p.st)
    decreases Left(inp, cond.st), 1
  {
    if !Peek(inp, cond.st).Question? then cond
    else ParseBranches(inp, Consume(inp, cond.st), begin, cond.expr)
  }

  /** What follows the `?` of a conditional expression; a missing `:` is reported but inferred. */
  function ParseBranches(inp: Input, st: State, begin: nat, cond: Expr): (p: Parsed)
    requires Ready(inp, st)
    ensures Steps(inp, st, p.st)
    decreases Left(inp, st), 10
  {
    var whenTrue := ParseCommaExpr(inp, st);
    if Peek(inp, whenTrue.st).Colon? then
      ParseFalseBranch(inp, Consume(inp, whenTrue.st), begin, cond, whenTrue.expr)
    else if whenTrue.st.recovering then
      Parsed(whenTrue.st, MakeExpr(begin, whenTrue.st, Select(cond, whenTrue.expr, ErrorAt(whenTrue.st))))
    else
      ParseFalseBranch(inp, Report(whenTrue.st), begin, cond, whenTrue.expr)
  }

  function ParseFalseBranch(inp: Input, st: State, begin: nat, cond: Expr, whenTrue: Expr): (p: Parsed)
    requires Ready(inp, st)
    ensures Steps(inp, st, p.st)
    decreases Left(inp, st), 9
  {
    var whenFalse := ParseAssignmentExpr(inp, st);
    Parsed(whenFalse.st, MakeExpr(begin, whenFalse.st, Select(cond, whenTrue, whenFalse.expr)))
  }

  /** The operator at the cursor, when it binds at least as tightly as `minPrecedence`. */
  function BinaryOpAt(inp: Input, st: State, minPrecedence: nat): Option<BinaryOpDesc>
    requires Valid(inp, st)
  {
    var op := TryParseBinaryOp(Peek(inp, st));
    if op.Some? && op.value.precedence >= minPrecedence then op else None
  }

  function ParseBinaryExpr(inp: Input, st: State, begin: nat, lhs: Expr, minPrecedence: nat): (p: Parsed)
    requires Calm(inp, st)
    ensures Steps(inp, st, p.st)
    ensures BinaryOpAt(inp, st, minPrecedence).Some? ==> p.st.cur > st.cur
    decreases Left(inp, st), 1
  {
    var op := BinaryOpAt(inp, st, minPrecedence);
    if st.recovering || op.None? then Parsed(st, lhs)
    else
      var st1 := Consume(inp, st);
      var term := ParseUnaryExpr(inp, st1);
      var rhs := ParseRhs(inp, term.st, st1.cur, term.expr, op.value.precedence);
      var node := MakeExpr(begin, rhs.st, Binary(op.value.opcode, lhs, rhs.expr));
      ParseBinaryExpr(inp, rhs.st, begin, node, minPrecedence)
  }

  /** The inner loop of `ParseBinaryExpr`: operators tighter than `precedence` take the right
      operand first. */
  function ParseRhs(inp: Input, st: State, begin: nat, rhs: Expr, precedence: nat): (p: Parsed)
    requires Calm(inp, st)
    ensures Steps(inp, st, p.st)
    decreases Left(inp, st), 2
  {
    if BinaryOpAt(inp, st, precedence + 1).None? then Parsed(st, rhs)
    else
      var p := ParseBinaryExpr(inp, st, begin, rhs, precedence + 1);
      ParseRhs(inp, p.st, begin, p.expr, precedence)
  }

  function ParseUnaryExpr(inp: Input, st: State): (p: Parsed)
    requires Ready(inp, st)
    ensures Steps(inp, st, p.st)
    decreases Left(inp, st), 7
  {
    var op := TryParsePrefixUnaryOp(Peek(inp, st));
    if op.None? then ParsePostfixExpr(inp, st)
    else
      var operand := ParseUnaryExpr(inp, Consume(inp, st));
      Parsed(operand.st, MakeExpr(st.cur, operand.st, Unary(op.value, operand.expr)))
  }

  function ParsePostfixExpr(inp: Input, st: State): (p: Parsed)
    requires Ready(inp, st)
    ensures Steps(inp, st, p.st)
    decreases Left(inp, st), 6
  {
    var head := ParsePostfixHead(inp, st);
    PostfixLoop(inp, head.st, st.cur, head.expr)
  }

  predicate IsTypeName(inp: Input, st: State)
    requires Valid(inp, st)
  {
    || IsBuiltinType(Peek(inp, st))
    || (Peek(inp, st).Identifier? && inp.tokens[st.cur].text in inp.structNames)
  }

  function ParsePostfixHead(inp: Input, st: State): (p: Parsed)
    requires Ready(inp, st)
    ensures Steps(inp, st, p.st)
    decreases Left(inp, st), 5
  {
    if IsTypeName(inp, st) then
      var spec := ParseTypeSpec(inp, st);
      ParseConstructorCall(inp, spec.0, spec.1)
    else if Peek(inp, st).Identifier? && LookAhead(inp, st, 1).LParen? then
      var args := ParseFunctionArgumentList(inp, Consume(inp, st));
      Parsed(args.0, MakeExpr(st.cur, args.0, FunctionCall(inp.tokens[st.cur], args.1)))
    else
      ParsePrimaryExpr(inp, st)
  }

  function PostfixLoop(inp: Input, st: State, begin: nat, base: Expr): (p: Parsed)
    requires Calm(inp, st)
    ensures Steps(inp, st, p.st)
    decreases Left(inp, st), 5
  {
    if st.recovering || !StartsPostfix(Peek(inp, st)) then Parsed(st, base)
    else
      var p := ParsePostfixOp(inp, st, begin, base);
      PostfixLoop(inp, p.st, begin, p.expr)
  }

  predicate StartsPostfix(klass: TokenKlass) { klass.LBracket? || klass.Dot? || klass.Increment? || klass.Decrement? }

  function ParsePostfixOp(inp: Input, st: State, begin: nat, base: Expr): (p: Parsed)
    requires Ready(inp, st) && StartsPostfix(Peek(inp, st))
    ensures Steps(inp, st, p.st) && p.st.cur > st.cur
    decreases Left(inp, st), 4
  {
    match Peek(inp, st)
    case LBracket =>
      var index := ParseBracketWrapped(inp, st);
      var indexExpr := if index.1.Sized? then index.1.size else Expr(index.2, ErrorExpr);
      Parsed(index.0, MakeExpr(begin, index.0, IndexAccess(base, indexExpr)))
    case Dot => ParseMember(inp, Consume(inp, st), begin, base)
    case Increment =>
      var st1 := Consume(inp, st);
      Parsed(st1, MakeExpr(begin, st1, Unary(PostfixInc, base)))
    case _ =>
      var st1 := Consume(inp, st);
      Parsed(st1, MakeExpr(begin, st1, Unary(PostfixDec, base)))
  }

  /** What follows a `.`: a member name, or `length()`. */
  function ParseMember(inp: Input, st: State, begin: nat, base: Expr): (p: Parsed)
    requires Ready(inp, st)
    ensures Steps(inp, st, p.st)
    decreases Left(inp, st), 2
  {
    if !Peek(inp, st).Identifier? then
      Parsed(Report(st), MakeExpr(begin, st, DotAccess(base, None)))
    else
      var name := inp.tokens[st.cur];
      var st1 := Consume(inp, st);
      if name.text == "length" && Peek(inp, st1).LParen? && LookAhead(inp, st1, 1).RParen? then
        var st2 := Consume(inp, Consume(inp, st1));
        Parsed(st2, MakeExpr(begin, st2, Unary(Length, base)))
      else
        Parsed(st1, MakeExpr(begin, st1, DotAccess(base, Some(name))))
  }

  /** A type name and its array dimensions. */
  function ParseTypeSpec(inp: Input, st: State): (r: (State, TypeSpec))
    requires Ready(inp, st) && IsTypeName(inp, st)
    ensures Steps(inp, st, r.0) && r.0.cur > st.cur
    ensures r.1.range.begin == st.cur && r.1.range.end == r.0.cur
    decreases Left(inp, st), 4
  {
    var dims := ArraySpecLoop(inp, Consume(inp, st), []);
    (dims.0, TypeSpec(Range(st.cur, dims.0.cur), inp.tokens[st.cur], dims.1))
  }

  function ArraySpecLoop(inp: Input, st: State, dims: seq<Dim>): (r: (State, seq<Dim>))
    requires Calm(inp, st)
    ensures Steps(inp, st, r.0)
    decreases Left(inp, st), 4
  {
    if !Peek(inp, st).LBracket? then (st, dims)
    else
      var d := ParseBracketWrapped(inp, st);
      ArraySpecLoop(inp, d.0, dims + [d.1])
  }

  function ParseConstructorCall(inp: Input, st: State, spec: TypeSpec): (p: Parsed)
    requires Calm(inp, st)
    ensures Steps(inp, st, p.st)
    decreases Left(inp, st), 4
  {
    if Peek(inp, st).LParen? then
      var args := ParseFunctionArgumentList(inp, st);
      Parsed(args.0, MakeExpr(spec.range.begin, args.0, ConstructorCall(spec, args.1)))
    else
      Parsed(Report(st), MakeExpr(spec.range.begin, st, ConstructorCall(spec, [])))
  }

  function ParsePrimaryExpr(inp: Input, st: State): (p: Parsed)
    requires Ready(inp, st)
    ensures Steps(inp, st, p.st)
    decreases Left(inp, st), 4
  {
    match Peek(inp, st)
    case Identifier =>
      var st1 := Consume(inp, st);
      Parsed(st1, MakeExpr(st.cur, st1, NameAccess(inp.tokens[st.cur])))
    case NumberLiteral =>
      var st1 := Consume(inp, st);
      Parsed(st1, MakeExpr(st.cur, st1, Literal(inp.tokens[st.cur])))
    case K_true =>
      var st1 := Consume(inp, st);
      Parsed(st1, MakeExpr(st.cur, st1, Literal(inp.tokens[st.cur])))
    case K_false =>
      var st1 := Consume(inp, st);
      Parsed(st1, MakeExpr(st.cur, st1, Literal(inp.tokens[st.cur])))
    case LParen => ParseParenWrappedExpr(inp, st)
    case _ => Parsed(Report(st), ErrorAt(st))
  }

  function ParseParenWrappedExpr(inp: Input, st: State): (p: Parsed)
    requires Ready(inp, st) && Peek(inp, st).LParen?
    ensures Steps(inp, st, p.st) && p.st.cur > st.cur
    decreases Left(inp, st), 3
  {
    var st1 := Consume(inp, st);
    var inner := if Peek(inp, st1).RParen? then Parsed(st1, ErrorAt(st1)) else ParseExpr(inp, st1);
    Parsed(ParseClosingParen(inp, inner.st, st1.parens), inner.expr)
  }

  /** `[` expression `]`, or `[]`.  The third component is where the brackets' contents start. */
  function ParseBracketWrapped(inp: Input, st: State): (r: (State, Dim, Range))
    requires Ready(inp, st) && Peek(inp, st).LBracket?
    ensures Steps(inp, st, r.0) && r.0.cur > st.cur
    ensures r.2 == Range(st.cur + 1, st.cur + 1)
    decreases Left(inp, st), 3
  {
    var st1 := Consume(inp, st);
    var here := Range(st1.cur, st1.cur);
    if Peek(inp, st1).RBracket? then (ParseClosingBracket(inp, st1, st1.brackets), Unsized, here)
    else
      var inner := ParseExpr(inp, st1);
      (ParseClosingBracket(inp, inner.st, st1.brackets), Sized(inner.expr), here)
  }

  function ParseFunctionArgumentList(inp: Input, st: State): (r: (State, seq<Expr>))
    requires Ready(inp, st) && Peek(inp, st).LParen?
    ensures Steps(inp, st, r.0) && r.0.cur > st.cur
    decreases Left(inp, st), 3
  {
    var st1 := Consume(inp, st);
    if Peek(inp, st1).RParen? then (ParseClosingParen(inp, st1, st1.parens), [])
    else if Peek(inp, st1).K_void? && LookAhead(inp, st1, 1).RParen? then
      (ParseClosingParen(inp, Consume(inp, st1), st1.parens), [])
    else
      var args := ArgumentLoop(inp, st1, st1.parens, []);
      (ParseClosingParen(inp, args.0, st1.parens), args.1)
  }

  function ArgumentLoop(inp: Input, st: State, leftParens: nat, args: seq<Expr>): (r: (State, seq<Expr>))
    requires Ready(inp, st) && leftParens > 0
    ensures Steps(inp, st, r.0)
    decreases Left(inp, st), 9
  {
    if Peek(inp, st).Eof? then (st, args)
    else
      var arg := ParseAssignmentExpr(inp, st);
      var comma := ParseCommaInParen(inp, arg.st, leftParens);
      if comma.1 then ArgumentLoop(inp, comma.0, leftParens, args + [arg.expr])
      else (comma.0, args + [arg.expr])
  }
}
