/** Soundness of the expression parser: when it reports no error, the tokens it has read are those of
    a derivation of the grammar, and it has built the syntax tree of that derivation. */
module ExprSound {
  import opened Tokens
  import opened ParserState
  import opened ExprAst
  import opened ExprParser
  import opened ExprGrammar
  import opened ExprComplete
  import opened ExprStandard

  /** `p` was parsed from `st`: it read exactly the tokens of `c`, left the depths as they were, and
      built the tree of `c`. */
  ghost predicate Built(inp: Input, st: State, p: Parsed, c: Cst) {
    && Derives(inp.structNames, c) && At(inp, st, Yield(c))
    && p.st == Adv(st, |Yield(c)|) && Represents(p.expr, c)
  }

  /** No error was reported between the two states. */
  predicate Silent(st: State, st1: State) { |st1.errors| == |st.errors| }

  lemma SilentParts(inp: Input, st: State, st1: State, st2: State)
    requires Forward(inp, st, st1) && Forward(inp, st1, st2) && Silent(st, st2)
    ensures Silent(st, st1) && Silent(st1, st2)
  {
  }

  lemma AtJoin(inp: Input, st: State, a: seq<Token>, b: seq<Token>)
    requires At(inp, st, a) && At(inp, Adv(st, |a|), b)
    ensures At(inp, st, a + b)
  {
    forall k | 0 <= k < |a + b| ensures inp.tokens[st.cur + k] == (a + b)[k] {
      if k >= |a| { assert inp.tokens[Adv(st, |a|).cur + (k - |a|)] == b[k - |a|]; }
    }
  }

  lemma AtOne(inp: Input, st: State, t: Token)
    requires st.cur + 1 < |inp.tokens| && inp.tokens[st.cur] == t
    ensures At(inp, st, [t])
  {
  }

  /** Two lists and the token between them. */
  lemma JoinAtToken(inp: Input, st: State, a: seq<Token>, op: Token, b: seq<Token>)
    requires At(inp, st, a) && inp.tokens[st.cur + |a|] == op && At(inp, Adv(st, |a| + 1), b)
    ensures At(inp, st, a + [op] + b)
  {
    AtOne(inp, Adv(st, |a|), op);
    AtJoin(inp, st, a, [op]);
    AtJoin(inp, st, a + [op], b);
  }

  /** Two derivations and the token between them. */
  lemma JoinAround(inp: Input, st: State, l: Cst, op: Token, r: Cst)
    requires At(inp, st, Yield(l)) && inp.tokens[st.cur + |Yield(l)|] == op
    requires At(inp, Adv(st, |Yield(l)| + 1), Yield(r))
    ensures At(inp, st, Yield(l) + [op] + Yield(r))
  {
    hide Yield;
    JoinAtToken(inp, st, Yield(l), op, Yield(r));
  }

  // ---------------------------------------------------------------------------------------
  // Sequences and assignments
  // ---------------------------------------------------------------------------------------

  lemma {:induction false} SoundExpr(inp: Input, st: State) returns (c: Cst)
    requires Ready(inp, st) && Silent(st, ParseExpr(inp, st).st)
    ensures Built(inp, st, ParseExpr(inp, st), c) && ParseExpr(inp, st) == ParseCommaExpr(inp, st)
    decreases Left(inp, st), 10
  {
    hide ParseCommaExpr, Derives, Yield, Represents;
    c := SoundCommaExpr(inp, st);
    YieldNonEmpty(c);
  }

  lemma {:induction false} SoundCommaExpr(inp: Input, st: State) returns (c: Cst)
    requires Ready(inp, st) && Silent(st, ParseCommaExpr(inp, st).st)
    ensures Built(inp, st, ParseCommaExpr(inp, st), c)
    decreases Left(inp, st), 9
  {
    hide TryParseBinaryOp, CommaLoop, ParseAssignmentExpr, Derives, Yield, Represents;
    var p := ParseAssignmentExpr(inp, st);
    SilentParts(inp, st, p.st, ParseCommaExpr(inp, st).st);
    c := SoundAssignment(inp, st);
    c := SoundCommaLoop(inp, st, p, st.cur, c);
  }

  lemma {:induction false} SoundCommaLoop(inp: Input, st0: State, lhs: Parsed, begin: nat, cl: Cst) returns (c: Cst)
    requires Ready(inp, st0) && Built(inp, st0, lhs, cl) && Calm(inp, lhs.st)
    requires Silent(lhs.st, CommaLoop(inp, lhs.st, begin, lhs.expr).st)
    ensures Built(inp, st0, CommaLoop(inp, lhs.st, begin, lhs.expr), c)
    decreases Left(inp, lhs.st), 2
  {
    hide Consume, TryParseBinaryOp, TryParseAssignmentOp, TryParsePrefixUnaryOp, ParseAssignmentExpr, At;
    if !Peek(inp, lhs.st).Comma? {
      c := cl;
    } else {
      var st1 := Consume(inp, lhs.st);
      var rhs := ParseAssignmentExpr(inp, st1);
      var node := MakeExpr(begin, rhs.st, Binary(CommaOp, lhs.expr, rhs.expr));
      SilentParts(inp, st1, rhs.st, CommaLoop(inp, rhs.st, begin, node).st);
      var cr := SoundAssignment(inp, st1);
      var comma := inp.tokens[lhs.st.cur];
      JoinAround(inp, st0, cl, comma, cr);
      c := SoundCommaLoop(inp, st0, Parsed(rhs.st, node), begin, Sequence(cl, comma, cr));
    }
  }

  lemma {:induction false} SoundAssignment(inp: Input, st: State) returns (c: Cst)
    requires Ready(inp, st) && Silent(st, ParseAssignmentExpr(inp, st).st)
    ensures Built(inp, st, ParseAssignmentExpr(inp, st), c) && Level(c) >= -2
    decreases Left(inp, st), 8
  {
    hide TryParseBinaryOp, ParseAssignmentExprWithLhs, ParseUnaryExpr, Derives, Yield, Represents;
    var p := ParseUnaryExpr(inp, st);
    SilentParts(inp, st, p.st, ParseAssignmentExpr(inp, st).st);
    var cl := SoundUnary(inp, st);
    c := SoundAssignmentWithLhs(inp, st, p, cl);
  }

  lemma {:induction false} SoundAssignmentWithLhs(inp: Input, st0: State, lhs: Parsed, cl: Cst) returns (c: Cst)
    requires Ready(inp, st0) && Built(inp, st0, lhs, cl) && Ready(inp, lhs.st) && Level(cl) >= 11
    requires Silent(lhs.st, ParseAssignmentExprWithLhs(inp, lhs.st, lhs.expr).st)
    ensures Built(inp, st0, ParseAssignmentExprWithLhs(inp, lhs.st, lhs.expr), c) && Level(c) >= -2
    decreases Left(inp, lhs.st), 3
  {
    hide SpellsBinary, SpellsPrefix, Consume, TryParseBinaryOp, TryParseAssignmentOp, TryParsePrefixUnaryOp,
      ParseAssignmentExpr, ParseConditionalExpr;
    var op := TryParseAssignmentOp(Peek(inp, lhs.st));
    if op.Some? {
      AssignmentOpFacts(Peek(inp, lhs.st));
      var st1 := Consume(inp, lhs.st);
      var rhs := ParseAssignmentExpr(inp, st1);
      var cr := SoundAssignment(inp, st1);
      var tok := inp.tokens[lhs.st.cur];
      JoinAround(inp, st0, cl, tok, cr);
      c := Assignment(cl, tok, cr);
    } else {
      c := SoundConditional(inp, st0, lhs, lhs.expr.range.begin, cl);
    }
  }

  // ---------------------------------------------------------------------------------------
  // Conditional expressions
  // ---------------------------------------------------------------------------------------

  lemma {:induction false} SoundConditional(inp: Input, st0: State, first: Parsed, begin: nat, cl: Cst) returns (c: Cst)
    requires Ready(inp, st0) && Built(inp, st0, first, cl) && Ready(inp, first.st) && Level(cl) >= 11
    requires Silent(first.st, ParseConditionalExpr(inp, first.st, begin, first.expr).st)
    ensures Built(inp, st0, ParseConditionalExpr(inp, first.st, begin, first.expr), c) && Level(c) >= -1
    decreases Left(inp, first.st), 2
  {
    hide TryParseBinaryOp, ParseConditionalTail, BinaryOpAt, ParseBinaryExpr, Derives, Yield, Represents;
    var p := ParseBinaryExpr(inp, first.st, begin, first.expr, 0);
    SilentParts(inp, first.st, p.st, ParseConditionalTail(inp, begin, p).st);
    TightFits(inp, first.st, cl);
    var cc := SoundBinary(inp, st0, first, begin, 0, cl);
    c := SoundConditionalTail(inp, st0, begin, p, cc);
  }

  lemma {:induction false} SoundConditionalTail(inp: Input, st0: State, begin: nat, cond: Parsed, cc: Cst)
    returns (c: Cst)
    requires Ready(inp, st0) && Built(inp, st0, cond, cc) && Ready(inp, cond.st) && Level(cc) >= 0
    requires Silent(cond.st, ParseConditionalTail(inp, begin, cond).st)
    ensures Built(inp, st0, ParseConditionalTail(inp, begin, cond), c) && Level(c) >= -1
    decreases Left(inp, cond.st), 1
  {
    hide Consume, TryParseBinaryOp, TryParseAssignmentOp, TryParsePrefixUnaryOp, ParseBranches, Derives, Represents,
      Yield, At, Level;
    if !Peek(inp, cond.st).Question? {
      c := cc;
    } else {
      var st1 := Consume(inp, cond.st);
      var question := inp.tokens[cond.st.cur];
      var ct, colon, cf := SoundBranches(inp, st1, begin, cond.expr);
      JoinTernary(inp, st0, cc, question, ct, colon, cf);
      c := Ternary(cc, question, ct, colon, cf);
      TernaryBuilt(inp.structNames, c, ParseBranches(inp, st1, begin, cond.expr).expr);
    }
  }

  lemma TernaryBuilt(structNames: set<string>, c: Cst, e: Expr)
    requires c.Ternary? && c.question.klass.Question? && c.colon.klass.Colon?
    requires Derives(structNames, c.cond) && Derives(structNames, c.whenTrue) && Derives(structNames, c.whenFalse)
    requires Level(c.cond) >= 0 && Level(c.whenFalse) >= -2 && e.node.Select?
    requires Represents(e.node.cond, c.cond) && Represents(e.node.whenTrue, c.whenTrue)
    requires Represents(e.node.whenFalse, c.whenFalse)
    ensures Derives(structNames, c) && Represents(e, c) && Level(c) == -1
    ensures Yield(c) == Yield(c.cond) + [c.question] + (Yield(c.whenTrue) + [c.colon] + Yield(c.whenFalse))
  {
    hide TryParseBinaryOp, TryParseAssignmentOp;
  }

  lemma JoinTernary(inp: Input, st: State, cc: Cst, question: Token, ct: Cst, colon: Token, cf: Cst)
    requires At(inp, st, Yield(cc)) && inp.tokens[st.cur + |Yield(cc)|] == question
    requires At(inp, Adv(st, |Yield(cc)| + 1), Yield(ct) + [colon] + Yield(cf))
    ensures At(inp, st, Yield(Ternary(cc, question, ct, colon, cf)))
  {
    TernaryYield(cc, question, ct, colon, cf);
    hide Yield, At;
    JoinAtToken(inp, st, Yield(cc), question, Yield(ct) + [colon] + Yield(cf));
  }

  lemma TernaryYield(cc: Cst, question: Token, ct: Cst, colon: Token, cf: Cst)
    ensures Yield(Ternary(cc, question, ct, colon, cf))
         == Yield(cc) + [question] + (Yield(ct) + [colon] + Yield(cf))
  {
  }

  /** The branches of a conditional expression, behind its `?`. */
  lemma {:induction false} SoundBranches(inp: Input, st: State, begin: nat, cond: Expr)
    returns (ct: Cst, colon: Token, cf: Cst)
    requires Ready(inp, st) && Silent(st, ParseBranches(inp, st, begin, cond).st)
    ensures Derives(inp.structNames, ct) && colon.klass.Colon? && Derives(inp.structNames, cf) && Level(cf) >= -2
    ensures At(inp, st, Yield(ct) + [colon] + Yield(cf))
    ensures var p := ParseBranches(inp, st, begin, cond);
            && p.st == Adv(st, |Yield(ct) + [colon] + Yield(cf)|)
            && p.expr.node.Select? && p.expr.node.cond == cond
            && Represents(p.expr.node.whenTrue, ct) && Represents(p.expr.node.whenFalse, cf)
    decreases Left(inp, st), 10
  {
    hide Consume, TryParseBinaryOp, ParseCommaExpr, ParseAssignmentExpr, Derives, Yield, Represents;
    var whenTrue := ParseCommaExpr(inp, st);
    SilentParts(inp, st, whenTrue.st, ParseBranches(inp, st, begin, cond).st);
    ct := SoundCommaExpr(inp, st);
    var st1 := Consume(inp, whenTrue.st);
    colon := inp.tokens[whenTrue.st.cur];
    cf := SoundAssignment(inp, st1);
    JoinAround(inp, st, ct, colon, cf);
  }

  // ---------------------------------------------------------------------------------------
  // Binary expressions: precedence climbing
  // ---------------------------------------------------------------------------------------

  /** The operator at the cursor, if any, binds no tighter than `level`. */
  ghost predicate NextFits(inp: Input, st: State, level: int)
    requires Valid(inp, st)
  {
    var op := TryParseBinaryOp(Peek(inp, st));
    op.Some? ==> op.value.precedence <= level
  }

  lemma TightFits(inp: Input, st: State, c: Cst)
    requires Valid(inp, st) && Level(c) >= 11
    ensures NextFits(inp, st, Level(c))
  {
    hide TryParseBinaryOp, Derives, Yield;
  }

  /** The result binds at least as tightly as `minPrecedence`, each left operand at least as tightly as
      its operator, each right operand strictly tighter; and reading goes on as far as it can. */
  lemma {:induction false} SoundBinary(inp: Input, st0: State, lhs: Parsed, begin: nat, minPrecedence: nat, cl: Cst)
    returns (c: Cst)
    requires Ready(inp, st0) && Built(inp, st0, lhs, cl) && Ready(inp, lhs.st)
    requires Level(cl) >= minPrecedence && NextFits(inp, lhs.st, Level(cl))
    requires Silent(lhs.st, ParseBinaryExpr(inp, lhs.st, begin, lhs.expr, minPrecedence).st)
    ensures var p := ParseBinaryExpr(inp, lhs.st, begin, lhs.expr, minPrecedence);
            && Built(inp, st0, p, c) && Level(c) >= minPrecedence
            && NextFits(inp, p.st, Level(c)) && BinaryOpAt(inp, p.st, minPrecedence).None?
    decreases Left(inp, lhs.st), 1
  {
    hide SpellsBinary, SpellsPrefix, Consume, TryParseBinaryOp, TryParseAssignmentOp, TryParsePrefixUnaryOp, ParseRhs,
      ParseUnaryExpr;
    var op := BinaryOpAt(inp, lhs.st, minPrecedence);
    if op.None? {
      c := cl;
    } else {
      BinaryOpFacts(Peek(inp, lhs.st));
      var st1 := Consume(inp, lhs.st);
      var term := ParseUnaryExpr(inp, st1);
      var rhs := ParseRhs(inp, term.st, st1.cur, term.expr, op.value.precedence);
      var node := MakeExpr(begin, rhs.st, Binary(op.value.opcode, lhs.expr, rhs.expr));
      var p := ParseBinaryExpr(inp, rhs.st, begin, node, minPrecedence);
      SilentParts(inp, st1, rhs.st, p.st);
      var cr := SoundOperand(inp, st1, op.value.precedence);
      var tok := inp.tokens[lhs.st.cur];
      JoinAround(inp, st0, cl, tok, cr);
      c := SoundBinary(inp, st0, Parsed(rhs.st, node), begin, minPrecedence, Infix(cl, tok, cr));
    }
  }

  /** The right operand of an operator. */
  lemma {:induction false} SoundOperand(inp: Input, st: State, precedence: nat) returns (c: Cst)
    requires Ready(inp, st) && precedence <= 10
    requires var term := ParseUnaryExpr(inp, st);
             Silent(st, ParseRhs(inp, term.st, st.cur, term.expr, precedence).st)
    ensures var term := ParseUnaryExpr(inp, st);
            var p := ParseRhs(inp, term.st, st.cur, term.expr, precedence);
            && Built(inp, st, p, c) && Level(c) > precedence
            && NextFits(inp, p.st, precedence)
    decreases Left(inp, st), 8
  {
    hide TryParseBinaryOp, ParseRhs, ParseUnaryExpr, Derives, Yield, Represents;
    var term := ParseUnaryExpr(inp, st);
    SilentParts(inp, st, term.st, ParseRhs(inp, term.st, st.cur, term.expr, precedence).st);
    c := SoundUnary(inp, st);
    TightFits(inp, term.st, c);
    c := SoundRhs(inp, st, term, st.cur, precedence, c);
  }

  lemma {:induction false} SoundRhs(inp: Input, st0: State, rhs: Parsed, begin: nat, precedence: nat, cl: Cst)
    returns (c: Cst)
    requires Ready(inp, st0) && Built(inp, st0, rhs, cl) && Ready(inp, rhs.st)
    requires Level(cl) > precedence && NextFits(inp, rhs.st, Level(cl))
    requires Silent(rhs.st, ParseRhs(inp, rhs.st, begin, rhs.expr, precedence).st)
    ensures var p := ParseRhs(inp, rhs.st, begin, rhs.expr, precedence);
            Built(inp, st0, p, c) && Level(c) > precedence && NextFits(inp, p.st, precedence)
    decreases Left(inp, rhs.st), 2
  {
    hide TryParseBinaryOp, ParseBinaryExpr, Derives, Yield, Represents;
    if BinaryOpAt(inp, rhs.st, precedence + 1).None? {
      c := cl;
    } else {
      var p := ParseBinaryExpr(inp, rhs.st, begin, rhs.expr, precedence + 1);
      SilentParts(inp, rhs.st, p.st, ParseRhs(inp, p.st, begin, p.expr, precedence).st);
      c := SoundBinary(inp, st0, rhs, begin, precedence + 1, cl);
      c := SoundRhs(inp, st0, p, begin, precedence, c);
    }
  }

  // ---------------------------------------------------------------------------------------
  // Unary and postfix expressions
  // ---------------------------------------------------------------------------------------

  lemma {:induction false} SoundUnary(inp: Input, st: State) returns (c: Cst)
    requires Ready(inp, st) && Silent(st, ParseUnaryExpr(inp, st).st)
    ensures Built(inp, st, ParseUnaryExpr(inp, st), c) && Level(c) >= 11
    decreases Left(inp, st), 7
  {
    hide SpellsBinary, SpellsPrefix, Consume, TryParseBinaryOp, TryParseAssignmentOp, TryParsePrefixUnaryOp,
      ParsePostfixExpr;
    var op := TryParsePrefixUnaryOp(Peek(inp, st));
    if op.None? {
      c := SoundPostfix(inp, st);
    } else {
      PrefixOpFacts(Peek(inp, st));
      var st1 := Consume(inp, st);
      var arg := SoundUnary(inp, st1);
      AtOne(inp, st, inp.tokens[st.cur]);
      AtJoin(inp, st, [inp.tokens[st.cur]], Yield(arg));
      c := Prefix(inp.tokens[st.cur], arg);
    }
  }

  lemma {:induction false} SoundPostfix(inp: Input, st: State) returns (c: Cst)
    requires Ready(inp, st) && Silent(st, ParsePostfixExpr(inp, st).st)
    ensures Built(inp, st, ParsePostfixExpr(inp, st), c) && Level(c) == 12
    decreases Left(inp, st), 6
  {
    hide TryParseBinaryOp, ParsePostfixHead, PostfixLoop, Derives, Yield, Represents;
    var head := ParsePostfixHead(inp, st);
    SilentParts(inp, st, head.st, ParsePostfixExpr(inp, st).st);
    c := SoundHead(inp, st);
    c := SoundPostfixLoop(inp, st, head, st.cur, c);
  }

  lemma {:induction false} SoundPostfixLoop(inp: Input, st0: State, base: Parsed, begin: nat, cb: Cst) returns (c: Cst)
    requires Ready(inp, st0) && Built(inp, st0, base, cb) && Level(cb) == 12 && Ready(inp, base.st)
    requires Silent(base.st, PostfixLoop(inp, base.st, begin, base.expr).st)
    ensures Built(inp, st0, PostfixLoop(inp, base.st, begin, base.expr), c) && Level(c) == 12
    decreases Left(inp, base.st), 5
  {
    hide TryParseBinaryOp, ParsePostfixOp, Derives, Yield, Represents;
    if !StartsPostfix(Peek(inp, base.st)) {
      c := cb;
    } else {
      var p := ParsePostfixOp(inp, base.st, begin, base.expr);
      SilentParts(inp, base.st, p.st, PostfixLoop(inp, p.st, begin, p.expr).st);
      c := SoundPostfixOp(inp, st0, base, begin, cb);
      c := SoundPostfixLoop(inp, st0, p, begin, c);
    }
  }

  lemma {:induction false} SoundPostfixOp(inp: Input, st0: State, base: Parsed, begin: nat, cb: Cst) returns (c: Cst)
    requires Ready(inp, st0) && Built(inp, st0, base, cb) && Level(cb) == 12
    requires Ready(inp, base.st) && StartsPostfix(Peek(inp, base.st))
    requires Silent(base.st, ParsePostfixOp(inp, base.st, begin, base.expr).st)
    ensures Built(inp, st0, ParsePostfixOp(inp, base.st, begin, base.expr), c) && Level(c) == 12
    decreases Left(inp, base.st), 4
  {
    hide Consume, ParseMember, ParsePostfixOp, ParseBracketWrapped, Derives, Represents, Yield, YieldBracket, At;
    var tok := inp.tokens[base.st.cur];
    var p := ParsePostfixOp(inp, base.st, begin, base.expr);
    PostfixStep(inp, base.st, begin, base.expr);
    if tok.klass.LBracket? {
      var b := SoundBracket(inp, base.st);
      AtJoin(inp, st0, Yield(cb), YieldBracket(b));
      var r := ParseBracketWrapped(inp, base.st);
      IndexOfDim(r.1, r.2, b);
      c := Subscript(cb, b);
      SubscriptBuilt(inp, base, cb, p, c);
    } else if tok.klass.Dot? {
      c := SoundMember(inp, st0, base, begin, cb);
    } else {
      AtOne(inp, base.st, tok);
      AtJoin(inp, st0, Yield(cb), [tok]);
      c := PostfixOp(cb, tok);
      SubscriptBuilt(inp, base, cb, p, c);
    }
  }

  lemma PostfixStep(inp: Input, st: State, begin: nat, base: Expr)
    requires Ready(inp, st) && StartsPostfix(Peek(inp, st))
    ensures var p := ParsePostfixOp(inp, st, begin, base);
            if Peek(inp, st).LBracket? then
              var r := ParseBracketWrapped(inp, st);
              && p.st == r.0
              && p.expr.node == IndexAccess(base, if r.1.Sized? then r.1.size else Expr(r.2, ErrorExpr))
            else if Peek(inp, st).Dot? then p == ParseMember(inp, Consume(inp, st), begin, base)
            else
              && p.st == Adv(st, 1)
              && p.expr.node == Unary(if Peek(inp, st).Increment? then PostfixInc else PostfixDec, base)
  {
    hide Consume, ParseMember, ParseBracketWrapped;
  }

  /** An index access or a postfix operator derives and represents what was read. */
  lemma SubscriptBuilt(inp: Input, base: Parsed, cb: Cst, p: Parsed, c: Cst)
    requires Derives(inp.structNames, cb) && Level(cb) == 12 && Represents(base.expr, cb)
    requires match c
             case Subscript(b, bracket) =>
               && b == cb && DerivesBracket(inp.structNames, bracket)
               && p.expr.node.IndexAccess? && p.expr.node.base == base.expr
               && RepresentsIndex(p.expr.node.index, bracket)
             case PostfixOp(b, op) =>
               && b == cb && (op.klass.Increment? || op.klass.Decrement?)
               && p.expr.node == Unary(if op.klass.Increment? then PostfixInc else PostfixDec, base.expr)
             case _ => false
    ensures Derives(inp.structNames, c) && Represents(p.expr, c)
    ensures Yield(c) == Yield(cb) + if c.Subscript? then YieldBracket(c.bracket) else [c.op]
  {
    hide DerivesBracket, YieldBracket, RepresentsIndex;
  }

  lemma IndexOfDim(d: Dim, here: Range, b: Bracket)
    requires RepresentsDim(d, b)
    ensures RepresentsIndex(if d.Sized? then d.size else Expr(here, ErrorExpr), b)
  {
    hide Represents;
  }

  lemma {:induction false} SoundMember(inp: Input, st0: State, base: Parsed, begin: nat, cb: Cst) returns (c: Cst)
    requires Ready(inp, st0) && Built(inp, st0, base, cb) && Level(cb) == 12
    requires Ready(inp, base.st) && Peek(inp, base.st).Dot?
    requires Silent(base.st, ParseMember(inp, Consume(inp, base.st), begin, base.expr).st)
    ensures Built(inp, st0, ParseMember(inp, Consume(inp, base.st), begin, base.expr), c) && Level(c) == 12
  {
    hide Derives, Represents, Yield;
    var dot := inp.tokens[base.st.cur];
    var st1 := Consume(inp, base.st);
    var p := ParseMember(inp, st1, begin, base.expr);
    MemberCases(inp, st1, begin, base.expr);
    var name := inp.tokens[st1.cur];
    if p.expr.node.Unary? {
      var open, close := inp.tokens[st1.cur + 1], inp.tokens[st1.cur + 2];
      assert At(inp, base.st, [dot, name, open, close]);
      AtJoin(inp, st0, Yield(cb), [dot, name, open, close]);
      c := LengthCall(cb, dot, name, open, close);
    } else {
      assert At(inp, base.st, [dot, name]);
      AtJoin(inp, st0, Yield(cb), [dot, name]);
      c := Member(cb, dot, name);
    }
    MemberBuilt(inp, base, cb, p, c);
  }

  /** What `ParseMember` reads without an error. */
  lemma MemberCases(inp: Input, st: State, begin: nat, base: Expr)
    requires Ready(inp, st) && Silent(st, ParseMember(inp, st, begin, base).st)
    ensures Peek(inp, st).Identifier?
    ensures var p := ParseMember(inp, st, begin, base);
            var name := inp.tokens[st.cur];
            if p.expr.node.Unary? then
              && p.st == Adv(st, 3) && name.text == "length" && inp.tokens[st.cur + 1].klass.LParen?
              && inp.tokens[st.cur + 2].klass.RParen? && p.expr.node == Unary(Length, base)
            else p.st == Adv(st, 1) && p.expr.node == DotAccess(base, Some(name))
  {
  }

  /** A member or length access derives and represents what was read. */
  lemma MemberBuilt(inp: Input, base: Parsed, cb: Cst, p: Parsed, c: Cst)
    requires Derives(inp.structNames, cb) && Level(cb) == 12 && Represents(base.expr, cb)
    requires match c
             case Member(b, dot, name) =>
               && b == cb && dot.klass.Dot? && name.klass.Identifier?
               && p.expr.node == DotAccess(base.expr, Some(name))
             case LengthCall(b, dot, name, open, close) =>
               && b == cb && dot.klass.Dot? && name.klass.Identifier? && name.text == "length"
               && open.klass.LParen? && close.klass.RParen? && p.expr.node == Unary(Length, base.expr)
             case _ => false
    ensures Derives(inp.structNames, c) && Represents(p.expr, c)
    ensures Yield(c) == Yield(cb) + if c.Member? then [c.dot, c.name] else [c.dot, c.name, c.open, c.close]
  {
  }

  lemma {:induction false} SoundHead(inp: Input, st: State) returns (c: Cst)
    requires Ready(inp, st) && Silent(st, ParsePostfixHead(inp, st).st)
    ensures Built(inp, st, ParsePostfixHead(inp, st), c) && Level(c) == 12
    decreases Left(inp, st), 5
  {
    hide Consume, TryParseBinaryOp, TryParseAssignmentOp, TryParsePrefixUnaryOp, ParseTypeSpec, ParseConstructorCall,
      ParsePrimaryExpr, ParseFunctionArgumentList;
    var tok := inp.tokens[st.cur];
    if IsTypeName(inp, st) {
      c := SoundConstruct(inp, st);
    } else if Peek(inp, st).Identifier? && LookAhead(inp, st, 1).LParen? {
      var st1 := Consume(inp, st);
      var args := SoundArguments(inp, st1);
      AtOne(inp, st, tok);
      AtJoin(inp, st, [tok], YieldArgs(args));
      c := Call(tok, args);
    } else {
      c := SoundPrimary(inp, st);
    }
  }

  /** A type name, its dimensions and its arguments. */
  lemma {:induction false} SoundConstruct(inp: Input, st: State) returns (c: Cst)
    requires Ready(inp, st) && IsTypeName(inp, st)
    requires var spec := ParseTypeSpec(inp, st); Silent(st, ParseConstructorCall(inp, spec.0, spec.1).st)
    ensures var spec := ParseTypeSpec(inp, st);
            Built(inp, st, ParseConstructorCall(inp, spec.0, spec.1), c) && Level(c) == 12
    decreases Left(inp, st), 4
  {
    hide Consume, TryParseBinaryOp, TryParseAssignmentOp, TryParsePrefixUnaryOp, ArraySpecLoop,
      ParseFunctionArgumentList, RepresentsArgs, RepresentsList;
    var tok := inp.tokens[st.cur];
    var st1 := Consume(inp, st);
    var spec := ParseTypeSpec(inp, st);
    SilentParts(inp, st, spec.0, ParseConstructorCall(inp, spec.0, spec.1).st);
    var bs := SoundDims(inp, st1, st1, [], []);
    var args := SoundArguments(inp, spec.0);
    AtOne(inp, st, tok);
    AtJoin(inp, st, [tok], YieldDims(bs));
    AtJoin(inp, st, [tok] + YieldDims(bs), YieldArgs(args));
    c := Construct(tok, bs, args);
  }

  lemma {:induction false} SoundDims(inp: Input, st0: State, st: State, dims: seq<Dim>, before: seq<Bracket>)
    returns (bs: seq<Bracket>)
    requires Ready(inp, st0) && Ready(inp, st)
    requires At(inp, st0, YieldDims(before)) && st == Adv(st0, |YieldDims(before)|)
    requires (forall b | b in before :: DerivesBracket(inp.structNames, b)) && RepresentsDims(dims, before)
    requires Silent(st, ArraySpecLoop(inp, st, dims).0)
    ensures var r := ArraySpecLoop(inp, st, dims);
            && At(inp, st0, YieldDims(bs)) && r.0 == Adv(st0, |YieldDims(bs)|)
            && (forall b | b in bs :: DerivesBracket(inp.structNames, b)) && RepresentsDims(r.1, bs)
    decreases Left(inp, st), 4
  {
    hide ParseBracketWrapped, DerivesBracket, Represents, Derives;
    if !Peek(inp, st).LBracket? {
      bs := before;
    } else {
      var d := ParseBracketWrapped(inp, st);
      SilentParts(inp, st, d.0, ArraySpecLoop(inp, d.0, dims + [d.1]).0);
      var b := SoundBracket(inp, st);
      YieldDimsSnoc(before, b);
      AtJoin(inp, st0, YieldDims(before), YieldBracket(b));
      bs := SoundDims(inp, st0, d.0, dims + [d.1], before + [b]);
    }
  }

  lemma {:induction false} YieldDimsSnoc(bs: seq<Bracket>, b: Bracket)
    ensures YieldDims(bs + [b]) == YieldDims(bs) + YieldBracket(b)
  {
    hide YieldBracket;
    if bs == [] {
      assert bs + [b] == [b] && [b][1..] == [];
      assert YieldDims([b]) == YieldBracket(b) + YieldDims([]);
    } else {
      YieldDimsSnoc(bs[1..], b);
      assert (bs + [b])[1..] == bs[1..] + [b];
      assert YieldBracket(bs[0]) + (YieldDims(bs[1..]) + YieldBracket(b))
          == YieldBracket(bs[0]) + YieldDims(bs[1..]) + YieldBracket(b);
    }
  }

  // ---------------------------------------------------------------------------------------
  // Primary expressions, brackets and argument lists
  // ---------------------------------------------------------------------------------------

  lemma {:induction false} SoundPrimary(inp: Input, st: State) returns (c: Cst)
    requires Ready(inp, st) && !IsTypeName(inp, st) && Silent(st, ParsePrimaryExpr(inp, st).st)
    ensures Built(inp, st, ParsePrimaryExpr(inp, st), c) && Level(c) == 12
    decreases Left(inp, st), 4
  {
    hide Consume, TryParseBinaryOp, TryParseAssignmentOp, TryParsePrefixUnaryOp, ParseParenWrappedExpr;
    var tok := inp.tokens[st.cur];
    if tok.klass.LParen? {
      c := SoundParen(inp, st);
    } else {
      AtOne(inp, st, tok);
      c := Atom(tok);
    }
  }

  lemma {:induction false} SoundParen(inp: Input, st: State) returns (c: Cst)
    requires Ready(inp, st) && Peek(inp, st).LParen? && Silent(st, ParseParenWrappedExpr(inp, st).st)
    ensures Built(inp, st, ParseParenWrappedExpr(inp, st), c) && Level(c) == 12
    decreases Left(inp, st), 3
  {
    hide Consume, TryParseBinaryOp, TryParseAssignmentOp, TryParsePrefixUnaryOp, ParseExpr, ParseCommaExpr;
    var open := inp.tokens[st.cur];
    var st1 := Consume(inp, st);
    if Peek(inp, st1).RParen? {
      var close := inp.tokens[st1.cur];
      assert At(inp, st, [open, close]);
      c := EmptyParens(open, close);
    } else {
      var inner := ParseExpr(inp, st1);
      SilentParts(inp, st1, inner.st, ParseClosingParen(inp, inner.st, st1.parens));
      var ci := SoundExpr(inp, st1);
      var close := inp.tokens[inner.st.cur];
      AtWrapped(inp, st, open, Yield(ci), close);
      c := Parens(open, ci, close);
    }
  }

  lemma AtWrapped(inp: Input, st: State, open: Token, inner: seq<Token>, close: Token)
    requires Valid(inp, st) && inp.tokens[st.cur] == open && At(inp, Adv(st, 1), inner)
    requires st.cur + 1 + |inner| + 1 < |inp.tokens| && inp.tokens[st.cur + 1 + |inner|] == close
    ensures At(inp, st, [open] + inner + [close])
  {
    AtOne(inp, st, open);
    AtJoin(inp, st, [open], inner);
    AtOne(inp, Adv(st, 1 + |inner|), close);
    AtJoin(inp, st, [open] + inner, [close]);
  }

  lemma {:induction false} SoundBracket(inp: Input, st: State) returns (b: Bracket)
    requires Ready(inp, st) && Peek(inp, st).LBracket? && Silent(st, ParseBracketWrapped(inp, st).0)
    ensures DerivesBracket(inp.structNames, b) && At(inp, st, YieldBracket(b))
    ensures var r := ParseBracketWrapped(inp, st);
            r.0 == Adv(st, |YieldBracket(b)|) && RepresentsDim(r.1, b)
    decreases Left(inp, st), 3
  {
    hide Consume, ParseExpr, ParseCommaExpr, Derives, Represents;
    var open := inp.tokens[st.cur];
    var st1 := Consume(inp, st);
    if Peek(inp, st1).RBracket? {
      var close := inp.tokens[st1.cur];
      assert At(inp, st, [open, close]);
      b := EmptyBracket(open, close);
    } else {
      var inner := ParseExpr(inp, st1);
      SilentParts(inp, st1, inner.st, ParseClosingBracket(inp, inner.st, st1.brackets));
      var ci := SoundExpr(inp, st1);
      var close := inp.tokens[inner.st.cur];
      AtWrapped(inp, st, open, Yield(ci), close);
      b := FullBracket(open, ci, close);
    }
  }

  lemma {:induction false} SoundArguments(inp: Input, st: State) returns (a: CallArgs)
    requires Ready(inp, st) && Peek(inp, st).LParen? && Silent(st, ParseFunctionArgumentList(inp, st).0)
    ensures DerivesArgs(inp.structNames, a) && At(inp, st, YieldArgs(a))
    ensures var r := ParseFunctionArgumentList(inp, st);
            r.0 == Adv(st, |YieldArgs(a)|) && RepresentsArgs(r.1, a)
    decreases Left(inp, st), 3
  {
    hide Consume, ArgumentLoop, Derives, DerivesList, RepresentsList, YieldList;
    var open := inp.tokens[st.cur];
    var st1 := Consume(inp, st);
    if Peek(inp, st1).RParen? {
      var close := inp.tokens[st1.cur];
      assert At(inp, st, [open, close]);
      a := NoArgs(open, close);
    } else if Peek(inp, st1).K_void? && LookAhead(inp, st1, 1).RParen? {
      var close := inp.tokens[st1.cur + 1];
      assert At(inp, st, [open, inp.tokens[st1.cur], close]);
      a := VoidArgs(open, inp.tokens[st1.cur], close);
    } else {
      var args := ArgumentLoop(inp, st1, st1.parens, []);
      SilentParts(inp, st1, args.0, ParseClosingParen(inp, args.0, st1.parens));
      ArgumentLoopKeepsDepth(inp, st1, st1.parens, []);
      var items := SoundArgumentLoop(inp, st1, st1, [], None);
      var close := inp.tokens[args.0.cur];
      AtWrapped(inp, st, open, YieldList(items), close);
      a := SomeArgs(open, items, close);
    }
  }

  /** Without an error, a list of arguments ends in the parentheses that it began in. */
  lemma {:induction false} ArgumentLoopKeepsDepth(inp: Input, st: State, leftParens: nat, args: seq<Expr>)
    requires Ready(inp, st) && st.parens == leftParens > 0
    requires Silent(st, ArgumentLoop(inp, st, leftParens, args).0)
    ensures ArgumentLoop(inp, st, leftParens, args).0.parens == leftParens
    decreases Left(inp, st), 9
  {
    hide Consume, TryParseBinaryOp, ParseAssignmentExpr, Derives, Yield, Represents;
    if !Peek(inp, st).Eof? {
      var arg := ParseAssignmentExpr(inp, st);
      var comma := ParseCommaInParen(inp, arg.st, leftParens);
      SilentParts(inp, st, arg.st, ArgumentLoop(inp, st, leftParens, args).0);
      var c := SoundAssignment(inp, st);
      if comma.1 { ArgumentLoopKeepsDepth(inp, comma.0, leftParens, args + [arg.expr]); }
    }
  }

  /** Some arguments and the comma behind them, or nothing yet. */
  ghost predicate Listed(inp: Input, st0: State, st: State, args: seq<Expr>, before: Option<(ArgList, Token)>) {
    match before
    case None => st == st0 && args == []
    case Some(b) =>
      && DerivesList(inp.structNames, b.0) && b.1.klass.Comma? && RepresentsList(args, b.0)
      && At(inp, st0, YieldList(b.0) + [b.1]) && st == Adv(st0, |YieldList(b.0)| + 1)
  }

  lemma {:induction false} SoundArgumentLoop(inp: Input, st0: State, st: State, args: seq<Expr>,
    before: Option<(ArgList, Token)>) returns (l: ArgList)
    requires Ready(inp, st0) && Ready(inp, st) && st0.parens > 0 && Listed(inp, st0, st, args, before)
    requires var r := ArgumentLoop(inp, st, st0.parens, args); Silent(st, r.0) && Peek(inp, r.0).RParen?
    ensures DerivesList(inp.structNames, l) && At(inp, st0, YieldList(l))
    ensures var r := ArgumentLoop(inp, st, st0.parens, args);
            r.0 == Adv(st0, |YieldList(l)|) && RepresentsList(r.1, l)
    decreases Left(inp, st), 9
  {
    hide Consume, TryParseBinaryOp, ParseAssignmentExpr, Derives, DerivesList, Yield, YieldList, Represents,
      RepresentsList;
    var arg := ParseAssignmentExpr(inp, st);
    var comma := ParseCommaInParen(inp, arg.st, st0.parens);
    SilentParts(inp, st, arg.st, ArgumentLoop(inp, st, st0.parens, args).0);
    var c := SoundAssignment(inp, st);
    l := AddArgument(inp, st0, st, args, before, arg, c);
    if comma.1 {
      var tok := inp.tokens[arg.st.cur];
      AtOne(inp, arg.st, tok);
      AtJoin(inp, st0, YieldList(l), [tok]);
      l := SoundArgumentLoop(inp, st0, comma.0, args + [arg.expr], Some((l, tok)));
    }
  }

  lemma AddArgument(inp: Input, st0: State, st: State, args: seq<Expr>, before: Option<(ArgList, Token)>,
    arg: Parsed, c: Cst) returns (l: ArgList)
    requires Ready(inp, st) && Listed(inp, st0, st, args, before) && Built(inp, st, arg, c) && Level(c) >= -2
    ensures DerivesList(inp.structNames, l) && At(inp, st0, YieldList(l))
    ensures arg.st == Adv(st0, |YieldList(l)|) && RepresentsList(args + [arg.expr], l)
  {
    hide TryParseBinaryOp, Derives, Represents;
    match before
    case None => l := Single(c);
    case Some(b) =>
      AtJoin(inp, st0, YieldList(b.0) + [b.1], Yield(c));
      l := Snoc(b.0, b.1, c);
      assert (args + [arg.expr])[..|args|] == args;
  }

  // ---------------------------------------------------------------------------------------
  // The language of the parser
  // ---------------------------------------------------------------------------------------

  /** The parser reads a list of tokens to its end without an error exactly if it is an expression of
      the standard or one with empty parentheses or an empty subscript, and it builds the tree that the
      derivation stands for. */
  lemma {:induction false} ParsesExactlyTheGrammar(inp: Input, st: State, tokens: seq<Token>)
    requires Ready(inp, st) && At(inp, st, tokens) && EndsExpr(Next(inp, st, tokens))
    ensures (ParseExpr(inp, st).st == Adv(st, |tokens|))
            <==> exists c :: IsExpression(inp.structNames, true, c) && Yield(c) == tokens
    ensures forall c :: IsExpression(inp.structNames, true, c) && Yield(c) == tokens ==>
              Represents(ParseExpr(inp, st).expr, c)
  {
    hide TryParseBinaryOp, TryParseAssignmentOp, ParseExpr, ParseCommaExpr, Derives, Yield, Represents, IsExpression;
    if ParseExpr(inp, st).st == Adv(st, |tokens|) {
      var c := SoundExpr(inp, st);
      assert |Yield(c)| == |tokens|;
      GrammarIsStandard(inp.structNames, c);
      assert IsExpression(inp.structNames, true, c) && Yield(c) == tokens;
    }
    forall c | IsExpression(inp.structNames, true, c) && Yield(c) == tokens
      ensures ParseExpr(inp, st).st == Adv(st, |tokens|) && Represents(ParseExpr(inp, st).expr, c)
    {
      GrammarIsStandard(inp.structNames, c);
      CompleteExpr(inp, st, c);
    }
  }
}
