/** The parser as the object it is: a cursor, a mode and three depth counters that its methods change
    as they go.  Every method is proved against the function of the same name in `ExprParser`, so what
    is proved of those functions holds of the object's runs. */
module Parsers {
  import opened Tokens
  import opened ParserState
  import opened ExprAst
  import P = ExprParser
  import G = ExprGrammar
  import D = ExprStandard
  import C = ExprComplete
  import S = ExprSound

  lemma EofContinuesNothing(k: TokenKlass)
    requires k.Eof?
    ensures TryParseBinaryOp(k).None?
  {
  }

  lemma AssignmentContinues(k: TokenKlass)
    requires TryParseAssignmentOp(k).Some?
    ensures IsPlain(k) && !k.Semicolon?
  {
  }

  class Parser {
    const inp: Input
    var currentTok: nat
    var inRecoveryMode: bool
    var parenDepth: nat
    var bracketDepth: nat
    var braceDepth: nat
    var errors: seq<nat>

    function Value(): State
      reads this
    {
      State(currentTok, inRecoveryMode, parenDepth, bracketDepth, braceDepth, errors)
    }

    constructor (inp: Input)
      ensures this.inp == inp && Value() == State(0, false, 0, 0, 0, [])
    {
      this.inp := inp;
      currentTok, inRecoveryMode, parenDepth, bracketDepth, braceDepth, errors := 0, false, 0, 0, 0, [];
    }

    function PeekKlass(): TokenKlass
      requires Valid(inp, Value())
      reads this
    {
      inp.tokens[currentTok].klass
    }

    function Node(begin: nat, node: ExprAst.Node): Expr
      reads this
    {
      Expr(Range(begin, currentTok), node)
    }

    // ---------------------------------------------------------------------------------------
    // Tokens and recovery
    // ---------------------------------------------------------------------------------------

    method ConsumeToken()
      requires Valid(inp, Value())
      modifies this
      ensures Value() == Consume(inp, old(Value()))
    {
      match PeekKlass() {
        case Eof => return;
        case LParen => parenDepth := parenDepth + 1;
        case LBracket => bracketDepth := bracketDepth + 1;
        case LBrace => braceDepth := braceDepth + 1;
        case RParen => if parenDepth > 0 { parenDepth := parenDepth - 1; }
        case RBracket => if bracketDepth > 0 { bracketDepth := bracketDepth - 1; }
        case RBrace => if braceDepth > 0 { braceDepth := braceDepth - 1; }
        case _ =>
      }
      currentTok := currentTok + 1;
    }

    method ReportError()
      modifies this`errors
      ensures Value() == Report(old(Value()))
    {
      errors := errors + [currentTok];
    }

    /** Skip to the first token that the mode can stop at, then close what is left open. */
    method RecoverFromError(mode: RecoveryMode, ilistBraceDepth: nat)
      requires Valid(inp, Value()) && MayRecover(mode, Value())
      modifies this
      ensures Value() == ParserState.RecoverFromError(inp, mode, old(Value()), ilistBraceDepth)
    {
      hide Stops, Consume;
      ghost var init := Value();
      var initParenDepth, initBracketDepth, initBraceDepth := parenDepth, bracketDepth, braceDepth;
      while !PeekKlass().Eof?
        invariant Valid(inp, Value())
        invariant SkipFrom(inp, mode, init, Value(), ilistBraceDepth)
               == SkipFrom(inp, mode, init, init, ilistBraceDepth)
        decreases Left(inp, Value())
      {
        var stop := StopsHere(mode, initParenDepth, initBracketDepth, initBraceDepth, init);
        if stop {
          SettleDepths(mode, ilistBraceDepth);
          return;
        }
        ConsumeToken();
      }
    }

    method StopsHere(mode: RecoveryMode, initParenDepth: nat, initBracketDepth: nat, initBraceDepth: nat,
      ghost init: State) returns (stop: bool)
      requires Valid(inp, Value())
      requires init.parens == initParenDepth && init.brackets == initBracketDepth && init.braces == initBraceDepth
      ensures stop == Stops(mode, init, Value(), Peek(inp, Value()))
    {
      var klass := PeekKlass();
      if klass.RParen? { return parenDepth != 0 && InParens(mode) && parenDepth == initParenDepth; }
      if klass.RBracket? { return bracketDepth != 0 && mode.BracketMode? && bracketDepth == initBracketDepth; }
      if klass.RBrace? { return braceDepth != 0 && braceDepth == initBraceDepth; }
      if klass.Comma? {
        return mode.CommaMode? && parenDepth == initParenDepth && bracketDepth == initBracketDepth
          && braceDepth == initBraceDepth;
      }
      if klass.Semicolon? {
        return ((InParens(mode) || mode.BracketMode? || mode.SemiMode?) && braceDepth == initBraceDepth)
          || mode.IListBraceMode?;
      }
      return false;
    }

    method SettleDepths(mode: RecoveryMode, ilistBraceDepth: nat)
      requires Valid(inp, Value())
      modifies this
      ensures Value() == Settle(mode, old(Value()), Peek(inp, old(Value())), ilistBraceDepth)
    {
      if PeekKlass().Semicolon? && mode.IListBraceMode? {
        braceDepth := ilistBraceDepth;
      } else if PeekKlass().Semicolon? || PeekKlass().RBrace? {
        RemoveDepthIfUnclosed(mode);
      }
    }

    /** A pair of delimiters is closed without its closing delimiter. */
    method RemoveDepthIfUnclosed(mode: RecoveryMode)
      requires Valid(inp, Value())
      modifies this
      ensures Value() == CloseUnclosed(mode, old(Value()), Peek(inp, old(Value())))
    {
      match mode {
        case ParenMode => if !PeekKlass().RParen? { parenDepth := Pred(parenDepth); }
        case BracketMode => if !PeekKlass().RBracket? { bracketDepth := Pred(bracketDepth); }
        case BraceMode => if !PeekKlass().RBrace? { braceDepth := Pred(braceDepth); }
        case IListBraceMode => if !PeekKlass().RBrace? { braceDepth := Pred(braceDepth); }
        case _ =>
      }
    }

    method ParseClosingParenHelper(leftParenDepth: nat)
      requires Valid(inp, Value()) && leftParenDepth > 0 && (parenDepth < leftParenDepth ==> P.Sync(inp, Value()))
      modifies this
      ensures Value() == P.ParseClosingParen(inp, old(Value()), leftParenDepth)
    {
      hide Consume, ParserState.RecoverFromError;
      if parenDepth < leftParenDepth { return; }
      if !PeekKlass().RParen? {
        ReportError();
        RecoverFromError(ParenMode, 0);
      }
      if PeekKlass().RParen? {
        ConsumeToken();
        inRecoveryMode := false;
      } else {
        inRecoveryMode := true;
      }
    }

    method ParseClosingBracketHelper(leftBracketDepth: nat)
      requires Valid(inp, Value()) && leftBracketDepth > 0 && (bracketDepth < leftBracketDepth ==> P.Sync(inp, Value()))
      modifies this
      ensures Value() == P.ParseClosingBracket(inp, old(Value()), leftBracketDepth)
    {
      hide Consume, ParserState.RecoverFromError;
      if bracketDepth < leftBracketDepth { return; }
      if !PeekKlass().RBracket? {
        ReportError();
        RecoverFromError(BracketMode, 0);
      }
      if PeekKlass().RBracket? {
        ConsumeToken();
        inRecoveryMode := false;
      } else {
        inRecoveryMode := true;
      }
    }

    method ParseCommaInParenHelper(leftParenDepth: nat) returns (more: bool)
      requires P.Calm(inp, Value()) && leftParenDepth > 0
      modifies this
      ensures (Value(), more) == P.ParseCommaInParen(inp, old(Value()), leftParenDepth)
    {
      hide Consume, ParserState.RecoverFromError;
      if parenDepth < leftParenDepth || PeekKlass().RParen? { return false; }
      if !PeekKlass().Comma? {
        ReportError();
        RecoverFromError(CommaMode, 0);
        if !PeekKlass().Comma? { return false; }
      }
      ConsumeToken();
      return true;
    }

    // ---------------------------------------------------------------------------------------
    // The grammar productions
    // ---------------------------------------------------------------------------------------

    method ParseExpr() returns (e: Expr)
      requires P.Ready(inp, Value())
      modifies this
      ensures P.Parsed(Value(), e) == P.ParseExpr(inp, old(Value()))
      decreases Left(inp, Value()), 10, 1
    {
      hide P.ParseCommaExpr, TryParseBinaryOp, TryParseAssignmentOp, TryParsePrefixUnaryOp;
      var begin := currentTok;
      e := ParseCommaExpr();
      if currentTok == begin {
        inRecoveryMode := true;
      }
    }

    method ParseCommaExpr() returns (e: Expr)
      requires P.Ready(inp, Value())
      modifies this
      ensures P.Parsed(Value(), e) == P.ParseCommaExpr(inp, old(Value()))
      decreases Left(inp, Value()), 9, 1
    {
      hide P.ParseAssignmentExpr, TryParseBinaryOp, TryParseAssignmentOp, TryParsePrefixUnaryOp, Consume;
      var begin := currentTok;
      ghost var entry := Value();
      e := ParseAssignmentExpr();
      while PeekKlass().Comma?
        invariant P.Calm(inp, Value()) && P.Steps(inp, entry, Value())
        invariant P.CommaLoop(inp, Value(), begin, e) == P.ParseCommaExpr(inp, entry)
        decreases Left(inp, Value())
      {
        ConsumeToken();
        var rhs := ParseAssignmentExpr();
        e := Node(begin, Binary(CommaOp, e, rhs));
      }
    }

    method ParseAssignmentExpr() returns (e: Expr)
      requires P.Ready(inp, Value())
      modifies this
      ensures P.Parsed(Value(), e) == P.ParseAssignmentExpr(inp, old(Value()))
      decreases Left(inp, Value()), 8, 1
    {
      hide P.ParseAssignmentExprWithLhs, P.ParseUnaryExpr, TryParseBinaryOp, TryParseAssignmentOp,
        TryParsePrefixUnaryOp;
      var lhs := ParseUnaryExpr();
      e := ParseAssignmentExprWithLhs(lhs);
    }

    method ParseAssignmentExprWithLhs(lhs: Expr) returns (e: Expr)
      requires P.Calm(inp, Value())
      modifies this
      ensures P.Parsed(Value(), e) == P.ParseAssignmentExprWithLhs(inp, old(Value()), lhs)
      decreases Left(inp, Value()), 3, 1
    {
      hide P.ParseAssignmentExpr, P.ParseConditionalExpr, TryParseBinaryOp, TryParseAssignmentOp,
        TryParsePrefixUnaryOp, Consume;
      var begin := lhs.range.begin;
      var parsedOp := TryParseAssignmentOp(PeekKlass());
      if parsedOp.Some? {
        AssignmentContinues(PeekKlass());
        ConsumeToken();
        assert !inRecoveryMode;
        var rhs := ParseAssignmentExpr();
        e := Node(begin, Binary(parsedOp.value, lhs, rhs));
      } else {
        e := ParseConditionalExpr(begin, lhs);
      }
    }

    method ParseConditionalExpr(begin: nat, firstTerm: Expr) returns (e: Expr)
      requires P.Calm(inp, Value())
      modifies this
      ensures P.Parsed(Value(), e) == P.ParseConditionalExpr(inp, old(Value()), begin, firstTerm)
      decreases Left(inp, Value()), 2, 1
    {
      hide P.ParseCommaExpr, P.ParseAssignmentExpr, P.BinaryOpAt, P.ParseBinaryExpr, TryParseBinaryOp,
        TryParseAssignmentOp, TryParsePrefixUnaryOp, Consume;
      ghost var entry := Value();
      var cond := ParseBinaryExpr(begin, firstTerm, 0);
      if !PeekKlass().Question? { return cond; }
      ConsumeToken();
      ghost var branches := Value();
      assert P.ParseConditionalExpr(inp, entry, begin, firstTerm) == P.ParseBranches(inp, branches, begin, cond);
      var whenTrue := ParseCommaExpr();
      if PeekKlass().Colon? {
        ConsumeToken();
      } else {
        if inRecoveryMode {
          return Node(begin, Select(cond, whenTrue, Node(currentTok, ErrorExpr)));
        }
        ReportError();
      }
      ghost var last := Value();
      assert P.ParseBranches(inp, branches, begin, cond) == P.ParseFalseBranch(inp, last, begin, cond, whenTrue);
      var whenFalse := ParseAssignmentExpr();
      e := Node(begin, Select(cond, whenTrue, whenFalse));
    }

    /** Precedence climbing. */
    method ParseBinaryExpr(begin: nat, firstTerm: Expr, minPrecedence: nat) returns (lhs: Expr)
      requires P.Calm(inp, Value())
      modifies this
      ensures P.Parsed(Value(), lhs) == P.ParseBinaryExpr(inp, old(Value()), begin, firstTerm, minPrecedence)
      decreases Left(inp, Value()), 1, 1
    {
      hide P.ParseRhs, P.ParseUnaryExpr, TryParseBinaryOp, TryParseAssignmentOp, TryParsePrefixUnaryOp,
        Consume;
      lhs := firstTerm;
      ghost var entry := Value();
      while !PeekKlass().Eof?
        invariant P.Calm(inp, Value()) && P.Steps(inp, entry, Value())
        invariant P.ParseBinaryExpr(inp, Value(), begin, lhs, minPrecedence)
               == P.ParseBinaryExpr(inp, entry, begin, firstTerm, minPrecedence)
        decreases Left(inp, Value())
      {
        if inRecoveryMode { return; }
        var parsedOp := TryParseBinaryOp(PeekKlass());
        if !(parsedOp.Some? && parsedOp.value.precedence >= minPrecedence) { return; }
        C.BinaryOpFacts(PeekKlass());
        ConsumeToken();
        var rhs := ParseOperand(parsedOp.value.precedence);
        lhs := Node(begin, Binary(parsedOp.value.opcode, lhs, rhs));
      }
      EofContinuesNothing(PeekKlass());
    }

    /** The right operand of an operator: operators that bind tighter take theirs first. */
    method ParseOperand(precedence: nat) returns (rhs: Expr)
      requires P.Ready(inp, Value())
      modifies this
      ensures var term := P.ParseUnaryExpr(inp, old(Value()));
              P.Parsed(Value(), rhs) == P.ParseRhs(inp, term.st, old(Value()).cur, term.expr, precedence)
      decreases Left(inp, Value()), 8, 0
    {
      hide P.ParseBinaryExpr, P.ParseUnaryExpr, TryParseBinaryOp, TryParseAssignmentOp, TryParsePrefixUnaryOp;
      var begin := currentTok;
      ghost var entry := Value();
      rhs := ParseUnaryExpr();
      ghost var term := P.ParseUnaryExpr(inp, entry);
      while !PeekKlass().Eof?
        invariant P.Calm(inp, Value()) && P.Steps(inp, entry, Value())
        invariant P.ParseRhs(inp, Value(), begin, rhs, precedence)
               == P.ParseRhs(inp, term.st, begin, term.expr, precedence)
        decreases Left(inp, Value())
      {
        var parsedOpNext := TryParseBinaryOp(PeekKlass());
        if !(parsedOpNext.Some? && parsedOpNext.value.precedence > precedence) { return; }
        rhs := ParseBinaryExpr(begin, rhs, precedence + 1);
      }
      EofContinuesNothing(PeekKlass());
    }

    method ParseUnaryExpr() returns (e: Expr)
      requires P.Ready(inp, Value())
      modifies this
      ensures P.Parsed(Value(), e) == P.ParseUnaryExpr(inp, old(Value()))
      decreases Left(inp, Value()), 7, 1
    {
      hide P.ParsePostfixExpr, TryParseBinaryOp, TryParseAssignmentOp, TryParsePrefixUnaryOp, Consume;
      var parsedOp := TryParsePrefixUnaryOp(PeekKlass());
      if parsedOp.Some? {
        C.PrefixOpFacts(PeekKlass());
        var begin := currentTok;
        ConsumeToken();
        var operand := ParseUnaryExpr();
        e := Node(begin, Unary(parsedOp.value, operand));
      } else {
        e := ParsePostfixExpr();
      }
    }

    method ParsePostfixExpr() returns (e: Expr)
      requires P.Ready(inp, Value())
      modifies this
      ensures P.Parsed(Value(), e) == P.ParsePostfixExpr(inp, old(Value()))
      decreases Left(inp, Value()), 6, 1
    {
      hide P.ParsePostfixHead, P.ParsePostfixOp, TryParseBinaryOp, TryParseAssignmentOp,
        TryParsePrefixUnaryOp;
      var begin := currentTok;
      ghost var entry := Value();
      e := ParsePostfixHead();
      while !inRecoveryMode && P.StartsPostfix(PeekKlass())
        invariant P.Calm(inp, Value()) && P.Steps(inp, entry, Value())
        invariant P.PostfixLoop(inp, Value(), begin, e) == P.ParsePostfixExpr(inp, entry)
        decreases Left(inp, Value())
      {
        e := ParsePostfixOp(begin, e);
      }
    }

    method ParsePostfixHead() returns (e: Expr)
      requires P.Ready(inp, Value())
      modifies this
      ensures P.Parsed(Value(), e) == P.ParsePostfixHead(inp, old(Value()))
      decreases Left(inp, Value()), 5, 1
    {
      hide P.ParseTypeSpec, P.ParseConstructorCall, P.ParsePrimaryExpr, P.ParseFunctionArgumentList,
        TryParseBinaryOp, TryParseAssignmentOp, TryParsePrefixUnaryOp, Consume;
      var begin := currentTok;
      var tok := inp.tokens[currentTok];
      if P.IsTypeName(inp, Value()) {
        var typeSpec := ParseTypeSpec();
        e := ParseConstructorCallExpr(typeSpec);
      } else if tok.klass.Identifier? && LookAhead(inp, Value(), 1).LParen? {
        ConsumeToken();
        var args := ParseFunctionArgumentList();
        e := Node(begin, FunctionCall(tok, args));
      } else {
        e := ParsePrimaryExpr();
      }
    }

    method ParsePostfixOp(begin: nat, base: Expr) returns (e: Expr)
      requires P.Ready(inp, Value()) && P.StartsPostfix(PeekKlass())
      modifies this
      ensures P.Parsed(Value(), e) == P.ParsePostfixOp(inp, old(Value()), begin, base)
      decreases Left(inp, Value()), 4, 1
    {
      hide P.ParseBracketWrapped, TryParseBinaryOp, TryParseAssignmentOp, TryParsePrefixUnaryOp, Consume;
      var klass := PeekKlass();
      if klass.LBracket? {
        var here := currentTok + 1;
        var size := ParseBracketWrappedExpr();
        e := Node(begin, IndexAccess(base, if size.Sized? then size.size else Expr(Range(here, here), ErrorExpr)));
      } else if klass.Dot? {
        ConsumeToken();
        e := ParseMember(begin, base);
      } else {
        ConsumeToken();
        e := Node(begin, Unary(if klass.Increment? then PostfixInc else PostfixDec, base));
      }
    }

    method ParseMember(begin: nat, base: Expr) returns (e: Expr)
      requires P.Ready(inp, Value())
      modifies this
      ensures P.Parsed(Value(), e) == P.ParseMember(inp, old(Value()), begin, base)
    {
      hide TryParseBinaryOp, TryParseAssignmentOp, TryParsePrefixUnaryOp, Consume;
      if !PeekKlass().Identifier? {
        e := Node(begin, DotAccess(base, None));
        ReportError();
        return;
      }
      var name := inp.tokens[currentTok];
      ConsumeToken();
      if name.text == "length" && PeekKlass().LParen? && LookAhead(inp, Value(), 1).RParen? {
        ConsumeToken();
        ConsumeToken();
        e := Node(begin, Unary(Length, base));
      } else {
        e := Node(begin, DotAccess(base, Some(name)));
      }
    }

    method ParseTypeSpec() returns (spec: TypeSpec)
      requires P.Ready(inp, Value()) && P.IsTypeName(inp, Value())
      modifies this
      ensures (Value(), spec) == P.ParseTypeSpec(inp, old(Value()))
      decreases Left(inp, Value()), 4, 1
    {
      hide P.ParseBracketWrapped, TryParseBinaryOp, TryParseAssignmentOp, TryParsePrefixUnaryOp, Consume;
      var begin := currentTok;
      ghost var entry := Value();
      var typeName := inp.tokens[currentTok];
      ConsumeToken();
      var dims := [];
      while PeekKlass().LBracket?
        invariant P.Calm(inp, Value()) && P.Steps(inp, Consume(inp, entry), Value())
        invariant P.ArraySpecLoop(inp, Value(), dims) == P.ArraySpecLoop(inp, Consume(inp, entry), [])
        decreases Left(inp, Value())
      {
        var dim := ParseBracketWrappedExpr();
        dims := dims + [dim];
      }
      spec := TypeSpec(Range(begin, currentTok), typeName, dims);
    }

    method ParseConstructorCallExpr(spec: TypeSpec) returns (e: Expr)
      requires P.Calm(inp, Value())
      modifies this
      ensures P.Parsed(Value(), e) == P.ParseConstructorCall(inp, old(Value()), spec)
      decreases Left(inp, Value()), 4, 1
    {
      hide P.ParseFunctionArgumentList, TryParseBinaryOp, TryParseAssignmentOp, TryParsePrefixUnaryOp;
      if PeekKlass().LParen? {
        var args := ParseFunctionArgumentList();
        e := Node(spec.range.begin, ConstructorCall(spec, args));
      } else {
        e := Node(spec.range.begin, ConstructorCall(spec, []));
        ReportError();
      }
    }

    method ParsePrimaryExpr() returns (e: Expr)
      requires P.Ready(inp, Value())
      modifies this
      ensures P.Parsed(Value(), e) == P.ParsePrimaryExpr(inp, old(Value()))
      decreases Left(inp, Value()), 4, 1
    {
      hide P.ParseParenWrappedExpr, TryParseBinaryOp, TryParseAssignmentOp, TryParsePrefixUnaryOp, Consume;
      var begin := currentTok;
      var tok := inp.tokens[currentTok];
      if tok.klass.Identifier? {
        ConsumeToken();
        e := Node(begin, NameAccess(tok));
      } else if G.IsLiteral(tok.klass) {
        ConsumeToken();
        e := Node(begin, Literal(tok));
      } else if tok.klass.LParen? {
        e := ParseParenWrappedExpr();
      } else {
        ReportError();
        e := Node(currentTok, ErrorExpr);
      }
    }

    method ParseParenWrappedExpr() returns (e: Expr)
      requires P.Ready(inp, Value()) && PeekKlass().LParen?
      modifies this
      ensures P.Parsed(Value(), e) == P.ParseParenWrappedExpr(inp, old(Value()))
      decreases Left(inp, Value()), 3, 1
    {
      hide P.ParseExpr, P.ParseClosingParen, TryParseBinaryOp, TryParseAssignmentOp, TryParsePrefixUnaryOp,
        Consume;
      ConsumeToken();
      var leftParenDepth := parenDepth;
      if PeekKlass().RParen? {
        e := Node(currentTok, ErrorExpr);
      } else {
        e := ParseExpr();
      }
      ParseClosingParenHelper(leftParenDepth);
    }

    method ParseBracketWrappedExpr() returns (size: Dim)
      requires P.Ready(inp, Value()) && PeekKlass().LBracket?
      modifies this
      ensures (Value(), size, Range(old(currentTok) + 1, old(currentTok) + 1))
           == P.ParseBracketWrapped(inp, old(Value()))
      decreases Left(inp, Value()), 3, 1
    {
      hide P.ParseExpr, P.ParseClosingBracket, TryParseBinaryOp, TryParseAssignmentOp, TryParsePrefixUnaryOp,
        Consume;
      ConsumeToken();
      var leftBracketDepth := bracketDepth;
      if PeekKlass().RBracket? {
        size := Unsized;
      } else {
        var e := ParseExpr();
        size := Sized(e);
      }
      ParseClosingBracketHelper(leftBracketDepth);
    }

    method ParseFunctionArgumentList() returns (args: seq<Expr>)
      requires P.Ready(inp, Value()) && PeekKlass().LParen?
      modifies this
      ensures (Value(), args) == P.ParseFunctionArgumentList(inp, old(Value()))
      decreases Left(inp, Value()), 3, 1
    {
      hide P.ParseAssignmentExpr, P.ParseClosingParen, P.ParseCommaInParen, TryParseBinaryOp,
        TryParseAssignmentOp, TryParsePrefixUnaryOp, Consume;
      ConsumeToken();
      var leftParenDepth := parenDepth;
      ghost var entry := Value();
      args := [];
      if PeekKlass().RParen? {
      } else if PeekKlass().K_void? && LookAhead(inp, Value(), 1).RParen? {
        ConsumeToken();
      } else {
        var more := true;
        while more && !PeekKlass().Eof?
          invariant P.Calm(inp, Value()) && P.Steps(inp, entry, Value()) && (more ==> !inRecoveryMode)
          invariant (if more then P.ArgumentLoop(inp, Value(), leftParenDepth, args) else (Value(), args))
                 == P.ArgumentLoop(inp, entry, leftParenDepth, [])
          decreases Left(inp, Value()), more
        {
          var arg := ParseAssignmentExpr();
          more := ParseCommaInParenHelper(leftParenDepth);
          args := args + [arg];
        }
      }
      ParseClosingParenHelper(leftParenDepth);
    }
  }

  /** Parse an expression that makes up the whole input: without an error, and up to the end, exactly if
      it is an expression of the standard, empty parentheses and subscripts added, and then into the tree of
      its derivation. */
  method ParseWholeExpr(tokens: seq<Token>, structNames: set<string>, eof: Token) returns (accepted: bool, e: Expr)
    requires eof.klass.Eof? && forall t <- tokens :: !t.klass.Eof? && !t.klass.K_struct?
    ensures accepted <==> exists c :: D.IsExpression(structNames, true, c) && G.Yield(c) == tokens
    ensures forall c :: D.IsExpression(structNames, true, c) && G.Yield(c) == tokens ==> G.Represents(e, c)
  {
    hide P.ParseExpr, P.ParseCommaExpr, TryParseBinaryOp, TryParseAssignmentOp, G.Derives, G.Yield,
      G.Represents;
    var stream := TokenStream(tokens + [eof], structNames);
    assert forall i | 0 <= i < |tokens| :: stream.tokens[i] == tokens[i];
    var parser := new Parser(stream);
    ghost var st := parser.Value();
    assert C.At(stream, st, tokens);
    EndOfInput(eof.klass);
    e := parser.ParseExpr();
    accepted := !parser.inRecoveryMode && parser.errors == [] && parser.PeekKlass().Eof?;
    S.ParsesExactlyTheGrammar(stream, st, tokens);
    if accepted {
      var c := S.SoundExpr(stream, st);
      assert G.Yield(c) == tokens;
      D.GrammarIsStandard(structNames, c);
    }
  }

  lemma EndOfInput(k: TokenKlass)
    requires k.Eof?
    ensures C.EndsExpr(k)
  {
  }
}
