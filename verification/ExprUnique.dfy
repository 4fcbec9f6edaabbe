/** The expression grammar is unambiguous: a list of tokens has at most one derivation. */
module ExprUnique {
  import opened Tokens
  import opened ExprAst
  import opened ExprGrammar

  // ---------------------------------------------------------------------------------------
  // Nesting: parentheses, brackets, and the `?` and `:` of a conditional expression
  // ---------------------------------------------------------------------------------------

  function Weight(klass: TokenKlass): int {
    if klass.LParen? || klass.LBracket? || klass.Question? then 1
    else if klass.RParen? || klass.RBracket? || klass.Colon? then -1
    else 0
  }

  function Nesting(ts: seq<Token>): int {
    if ts == [] then 0 else Nesting(ts[..|ts| - 1]) + Weight(ts[|ts| - 1].klass)
  }

  lemma {:induction false} NestingAppend(a: seq<Token>, b: seq<Token>)
    ensures Nesting(a + b) == Nesting(a) + Nesting(b)
    decreases |b|
  {
    if b == [] {
      assert a + b == a;
    } else {
      NestingAppend(a, b[..|b| - 1]);
      assert (a + b)[..|a + b| - 1] == a + b[..|b| - 1];
    }
  }

  lemma NestingOne(t: Token)
    ensures Nesting([t]) == Weight(t.klass)
  {
    assert [t][..0] == [];
  }

  lemma NestingOfPrefix(a: seq<Token>, b: seq<Token>, k: nat)
    requires k <= |a + b|
    ensures Nesting(a + b) == Nesting(a) + Nesting(b)
    ensures Nesting((a + b)[..k]) == if k <= |a| then Nesting(a[..k]) else Nesting(a) + Nesting(b[..k - |a|])
    ensures k >= |a| ==> Nesting((a + b)[..k]) == Nesting(a) + Nesting(b[..k - |a|])
  {
    NestingAppend(a, b);
    if k < |a| {
      assert (a + b)[..k] == a[..k];
    } else {
      assert (a + b)[..k] == a + b[..k - |a|];
      NestingAppend(a, b[..k - |a|]);
      if k == |a| { assert a[..k] == a && b[..0] == []; }
    }
  }

  /** Everything is closed, and nothing is closed before it is opened. */
  ghost predicate Balanced(ts: seq<Token>) {
    Nesting(ts) == 0 && forall k :: 0 <= k <= |ts| ==> Nesting(ts[..k]) >= 0
  }

  /** Moreover, what the first token opens is closed by the last. */
  ghost predicate Enclosed(ts: seq<Token>) {
    ts != [] && Nesting(ts) == 0 && forall k :: 0 < k < |ts| ==> Nesting(ts[..k]) >= 1
  }

  lemma NestingNothing()
    ensures Nesting([]) == 0 && Balanced([])
  {
  }

  lemma BalancedAppend(a: seq<Token>, b: seq<Token>)
    requires Balanced(a) && Balanced(b)
    ensures Balanced(a + b)
  {
    hide Nesting;
    NestingAppend(a, b);
    forall k | 0 <= k <= |a + b| ensures Nesting((a + b)[..k]) >= 0 { NestingOfPrefix(a, b, k); }
  }

  lemma BalancedToken(t: Token)
    requires Weight(t.klass) == 0
    ensures Balanced([t])
  {
    NestingOne(t);
    assert [t][..0] == [] && [t][..1] == [t];
  }

  lemma Enclose(open: Token, inner: seq<Token>, close: Token)
    requires Weight(open.klass) == 1 && Weight(close.klass) == -1 && Balanced(inner)
    ensures Enclosed([open] + inner + [close])
  {
    hide Nesting;
    var ts := [open] + inner + [close];
    NestingOne(open);
    NestingOne(close);
    NestingAppend([open], inner);
    NestingAppend([open] + inner, [close]);
    forall k | 0 < k < |ts| ensures Nesting(ts[..k]) >= 1 {
      NestingOfPrefix([open] + inner, [close], k);
      NestingOfPrefix([open], inner, k);
      assert ([open] + inner)[..k] == ts[..k];
    }
  }

  lemma EnclosedIsBalanced(ts: seq<Token>)
    requires Enclosed(ts)
    ensures Balanced(ts)
  {
    assert ts[..0] == [] && ts[..|ts|] == ts;
  }

  lemma {:induction false} YieldIsBalanced(names: set<string>, c: Cst)
    requires Derives(names, c)
    ensures Balanced(Yield(c))
    decreases c
  {
    hide Balanced, Enclosed, Level, TryParseBinaryOp, TryParseAssignmentOp, TryParsePrefixUnaryOp;
    match c
    case Atom(tok) => BalancedToken(tok);
    case Parens(open, inner, close) =>
      YieldIsBalanced(names, inner);
      Enclose(open, Yield(inner), close);
      EnclosedIsBalanced(Yield(c));
    case EmptyParens(open, close) =>
      NestingNothing();
      Enclose(open, [], close);
      assert [open] + [] + [close] == Yield(c);
      EnclosedIsBalanced(Yield(c));
    case Call(name, args) =>
      BalancedToken(name);
      ArgsAreEnclosed(names, args);
      EnclosedIsBalanced(YieldArgs(args));
      BalancedAppend([name], YieldArgs(args));
    case Construct(typeName, dims, args) =>
      BalancedToken(typeName);
      ArgsAreEnclosed(names, args);
      EnclosedIsBalanced(YieldArgs(args));
      DimsAreBalanced(names, dims);
      BalancedAppend([typeName], YieldDims(dims));
      BalancedAppend([typeName] + YieldDims(dims), YieldArgs(args));
    case Subscript(base, bracket) =>
      YieldIsBalanced(names, base);
      BracketIsEnclosed(names, bracket);
      EnclosedIsBalanced(YieldBracket(bracket));
      BalancedAppend(Yield(base), YieldBracket(bracket));
    case Member(base, dot, name) =>
      YieldIsBalanced(names, base);
      BalancedPair(dot, name);
      BalancedAppend(Yield(base), [dot, name]);
    case LengthCall(base, dot, name, open, close) =>
      YieldIsBalanced(names, base);
      BalancedCall(dot, name, open, close);
      BalancedAppend(Yield(base), [dot, name, open, close]);
    case PostfixOp(base, op) =>
      YieldIsBalanced(names, base);
      BalancedToken(op);
      BalancedAppend(Yield(base), [op]);
    case Prefix(op, arg) =>
      OperatorWeights(op.klass);
      BalancedToken(op);
      YieldIsBalanced(names, arg);
      BalancedAppend([op], Yield(arg));
    case Infix(l, op, r) =>
      YieldIsBalanced(names, l);
      YieldIsBalanced(names, r);
      BalancedAround(Yield(l), op, Yield(r));
    case Ternary(cond, question, t, colon, f) =>
      YieldIsBalanced(names, cond);
      YieldIsBalanced(names, t);
      YieldIsBalanced(names, f);
      BalancedBranches(Yield(cond), question, Yield(t), colon, Yield(f));
    case Assignment(l, op, r) =>
      YieldIsBalanced(names, l);
      YieldIsBalanced(names, r);
      BalancedAround(Yield(l), op, Yield(r));
    case Sequence(l, comma, r) =>
      YieldIsBalanced(names, l);
      YieldIsBalanced(names, r);
      BalancedAround(Yield(l), comma, Yield(r));
  }

  lemma BalancedPair(a: Token, b: Token)
    requires Weight(a.klass) == 0 && Weight(b.klass) == 0
    ensures Balanced([a, b])
  {
    hide Balanced;
    BalancedToken(a);
    BalancedToken(b);
    BalancedAppend([a], [b]);
    assert [a] + [b] == [a, b];
  }

  lemma BalancedCall(dot: Token, name: Token, open: Token, close: Token)
    requires dot.klass.Dot? && name.klass.Identifier? && open.klass.LParen? && close.klass.RParen?
    ensures Balanced([dot, name, open, close])
  {
    hide Balanced, Enclosed;
    BalancedPair(dot, name);
    NestingNothing();
    Enclose(open, [], close);
    assert [open] + [] + [close] == [open, close];
    EnclosedIsBalanced([open, close]);
    BalancedAppend([dot, name], [open, close]);
    assert [dot, name] + [open, close] == [dot, name, open, close];
  }

  lemma BalancedBranches(cond: seq<Token>, question: Token, t: seq<Token>, colon: Token, f: seq<Token>)
    requires Balanced(cond) && Balanced(t) && Balanced(f) && question.klass.Question? && colon.klass.Colon?
    ensures Balanced(cond + [question] + t + [colon] + f)
  {
    hide Balanced, Enclosed;
    var branch := [question] + t + [colon];
    Enclose(question, t, colon);
    EnclosedIsBalanced(branch);
    BalancedAppend(cond, branch);
    BalancedAppend(cond + branch, f);
    assert cond + branch + f == cond + [question] + t + [colon] + f;
  }

  predicate IsOperator(klass: TokenKlass) {
    || TryParseBinaryOp(klass).Some? || TryParseAssignmentOp(klass).Some?
    || TryParsePrefixUnaryOp(klass).Some? || klass.Comma?
  }

  lemma OperatorWeights(klass: TokenKlass)
    requires IsOperator(klass)
    ensures Weight(klass) == 0
  {
  }

  lemma BalancedAround(l: seq<Token>, op: Token, r: seq<Token>)
    requires Balanced(l) && Balanced(r) && IsOperator(op.klass)
    ensures Balanced(l + [op] + r)
  {
    hide Balanced;
    OperatorWeights(op.klass);
    BalancedToken(op);
    BalancedAppend(l, [op]);
    BalancedAppend(l + [op], r);
  }

  lemma {:induction false} BracketIsEnclosed(names: set<string>, b: Bracket)
    requires DerivesBracket(names, b)
    ensures Enclosed(YieldBracket(b))
    decreases b
  {
    hide Balanced, Enclosed, Derives, Yield;
    match b
    case EmptyBracket(open, close) =>
      NestingNothing();
      Enclose(open, [], close);
      assert [open] + [] + [close] == [open, close];
    case FullBracket(open, inner, close) =>
      YieldIsBalanced(names, inner);
      Enclose(open, Yield(inner), close);
  }

  lemma {:induction false} DimsAreBalanced(names: set<string>, dims: seq<Bracket>)
    requires forall d | d in dims :: DerivesBracket(names, d)
    ensures Balanced(YieldDims(dims))
    decreases dims
  {
    hide Balanced, Enclosed, DerivesBracket, YieldBracket;
    if dims == [] {
      NestingNothing();
    } else {
      BracketIsEnclosed(names, dims[0]);
      EnclosedIsBalanced(YieldBracket(dims[0]));
      DimsAreBalanced(names, dims[1..]);
      BalancedAppend(YieldBracket(dims[0]), YieldDims(dims[1..]));
    }
  }

  lemma {:induction false} ArgsAreEnclosed(names: set<string>, a: CallArgs)
    requires DerivesArgs(names, a)
    ensures Enclosed(YieldArgs(a))
    decreases a
  {
    hide Balanced, Enclosed, DerivesList, YieldList;
    match a
    case NoArgs(open, close) =>
      NestingNothing();
      Enclose(open, [], close);
      assert [open] + [] + [close] == [open, close];
    case VoidArgs(open, void, close) =>
      BalancedToken(void);
      Enclose(open, [void], close);
      assert [open] + [void] + [close] == [open, void, close];
    case SomeArgs(open, items, close) =>
      ListIsBalanced(names, items);
      Enclose(open, YieldList(items), close);
  }

  lemma {:induction false} ListIsBalanced(names: set<string>, l: ArgList)
    requires DerivesList(names, l)
    ensures Balanced(YieldList(l))
    decreases l
  {
    hide Balanced, Derives, Yield;
    match l
    case Single(arg) => YieldIsBalanced(names, arg);
    case Snoc(init, comma, arg) =>
      ListIsBalanced(names, init);
      YieldIsBalanced(names, arg);
      BalancedToken(comma);
      BalancedAppend(YieldList(init), [comma]);
      BalancedAppend(YieldList(init) + [comma], Yield(arg));
  }

  // ---------------------------------------------------------------------------------------
  // Operators outside all nesting
  // ---------------------------------------------------------------------------------------

  /** Token `i` ends an operand; `++` and `--` do behind the end of an operand. */
  predicate IsEnd(ts: seq<Token>, i: nat)
    requires i < |ts|
  {
    var klass := ts[i].klass;
    || klass.RParen? || klass.RBracket? || klass.Identifier? || IsLiteral(klass)
    || ((klass.Increment? || klass.Decrement?) && i > 0 && IsEnd(ts, i - 1))
  }

  predicate IsLoose(klass: TokenKlass) {
    || TryParseBinaryOp(klass).Some? || klass.Question? || TryParseAssignmentOp(klass).Some? || klass.Comma?
  }

  /** How tightly a binary operator, `?`, an assignment operator or a comma binds. */
  function LevelAt(klass: TokenKlass): int {
    var desc := TryParseBinaryOp(klass);
    if desc.Some? then desc.value.precedence
    else if klass.Question? then -1
    else if klass.Comma? then -3
    else -2
  }

  /** Token `i` is such an operator, outside all nesting. */
  ghost predicate IsPivot(ts: seq<Token>, i: nat) {
    0 < i < |ts| && Nesting(ts[..i]) == 0 && IsEnd(ts, i - 1) && IsLoose(ts[i].klass)
  }

  lemma {:induction false} EndInPrefix(a: seq<Token>, b: seq<Token>, i: nat)
    requires i < |a|
    ensures IsEnd(a + b, i) == IsEnd(a, i)
    decreases i
  {
    if i > 0 { EndInPrefix(a, b, i - 1); }
  }

  /** Behind a token that ends nothing, ends are what they are on their own. */
  lemma {:induction false} EndInSuffix(a: seq<Token>, b: seq<Token>, i: nat)
    requires i < |b| && (a != [] ==> !IsEnd(a, |a| - 1))
    ensures IsEnd(a + b, |a| + i) == IsEnd(b, i)
    decreases i
  {
    assert (a + b)[|a| + i] == b[i];
    if i > 0 {
      EndInSuffix(a, b, i - 1);
    } else if a != [] {
      EndInPrefix(a, b, |a| - 1);
    }
  }

  lemma PivotInPrefix(a: seq<Token>, b: seq<Token>, i: nat)
    requires IsPivot(a + b, i) && i < |a|
    ensures IsPivot(a, i)
  {
    hide IsLoose, Nesting;
    EndInPrefix(a, b, i - 1);
    assert (a + b)[..i] == a[..i];
  }

  lemma PivotInSuffix(a: seq<Token>, b: seq<Token>, i: nat)
    requires IsPivot(a + b, i) && i >= |a| && Nesting(a) == 0 && (a != [] ==> !IsEnd(a, |a| - 1))
    ensures i > |a| && IsPivot(b, i - |a|)
  {
    hide IsLoose;
    NestingOfPrefix(a, b, i);
    if i == |a| {
      EndInPrefix(a, b, i - 1);
    } else {
      EndInSuffix(a, b, i - |a| - 1);
    }
  }

  /** Inside what is enclosed there is no pivot, and where it starts there is none either. */
  lemma NoPivotInEnclosed(a: seq<Token>, b: seq<Token>, i: nat)
    requires Nesting(a) == 0 && Enclosed(b) && (b[0].klass.LParen? || b[0].klass.LBracket?)
    requires |a| <= i < |a + b|
    ensures !IsPivot(a + b, i)
  {
    NestingOfPrefix(a, b, i);
    assert (a + b)[i] == b[i - |a|];
  }

  lemma {:induction false} LastIsEnd(names: set<string>, c: Cst)
    requires Derives(names, c)
    ensures |Yield(c)| > 0 && IsEnd(Yield(c), |Yield(c)| - 1)
    decreases c, 0
  {
    hide TryParseBinaryOp, TryParseAssignmentOp, TryParsePrefixUnaryOp, IsEnd, IsLiteral;
    match c
    case PostfixOp(base, op) =>
      LastIsEnd(names, base);
      EndInPrefix(Yield(base), [op], |Yield(base)| - 1);
      PostfixEnds(Yield(c));
    case Prefix(op, arg) =>
      LastIsEnd(names, arg);
      PrefixEndsNothing(op);
      EndInSuffix([op], Yield(arg), |Yield(arg)| - 1);
    case Infix(l, op, r) => LastBehind(names, Yield(l), op, r);
    case Ternary(cond, question, t, colon, f) =>
      LastBehind(names, Yield(cond) + [question] + Yield(t), colon, f);
    case Assignment(l, op, r) => LastBehind(names, Yield(l), op, r);
    case Sequence(l, comma, r) => LastBehind(names, Yield(l), comma, r);
    case _ => LastOfOthers(names, c);
  }

  lemma LastOfOthers(names: set<string>, c: Cst)
    requires Derives(names, c) && Level(c) == 12 && !c.PostfixOp?
    ensures |Yield(c)| > 0 && IsEnd(Yield(c), |Yield(c)| - 1)
  {
    hide TryParseBinaryOp, TryParseAssignmentOp, TryParsePrefixUnaryOp;
  }

  lemma PostfixEnds(ts: seq<Token>)
    requires |ts| > 1 && (ts[|ts| - 1].klass.Increment? || ts[|ts| - 1].klass.Decrement?) && IsEnd(ts, |ts| - 2)
    ensures IsEnd(ts, |ts| - 1)
  {
  }

  lemma PrefixEndsNothing(op: Token)
    requires TryParsePrefixUnaryOp(op.klass).Some?
    ensures !IsEnd([op], 0)
  {
  }

  lemma {:induction false} LastBehind(names: set<string>, front: seq<Token>, op: Token, r: Cst)
    requires Derives(names, r) && (IsLoose(op.klass) || op.klass.Colon?)
    ensures |Yield(r)| > 0
    ensures var ts := front + [op] + Yield(r); IsEnd(ts, |ts| - 1)
    decreases r, 1
  {
    hide TryParseBinaryOp, TryParseAssignmentOp, IsEnd, Derives, Yield;
    LastIsEnd(names, r);
    LooseEndsNothing(front, op);
    EndInSuffix(front + [op], Yield(r), |Yield(r)| - 1);
  }

  lemma LooseEndsNothing(front: seq<Token>, op: Token)
    requires IsLoose(op.klass) || op.klass.Colon?
    ensures !IsEnd(front + [op], |front|)
  {
  }

  /** Around an operator: a pivot is in front of it, it, or a pivot behind it. */
  lemma PivotAround(a: seq<Token>, op: Token, b: seq<Token>, i: nat)
    requires IsPivot(a + [op] + b, i) && Nesting(a) == 0 && IsOperator(op.klass) && !IsEnd(a + [op], |a|)
    ensures i < |a| ==> IsPivot(a, i)
    ensures i == |a| ==> (a + [op] + b)[i] == op
    ensures i > |a| ==> i > |a| + 1 && IsPivot(b, i - |a| - 1) && (a + [op] + b)[i] == b[i - |a| - 1]
  {
    hide IsPivot, IsEnd, Nesting;
    if i < |a| {
      assert a + [op] + b == a + ([op] + b);
      PivotInPrefix(a, [op] + b, i);
    } else if i > |a| {
      OperatorWeights(op.klass);
      NestingOne(op);
      NestingAppend(a, [op]);
      PivotInSuffix(a + [op], b, i);
    }
  }

  /** Tokens behind a derivation that are no operators. */
  lemma PivotInFront(a: seq<Token>, b: seq<Token>, i: nat)
    requires IsPivot(a + b, i) && forall t <- b :: !IsLoose(t.klass)
    ensures i < |a| && IsPivot(a, i)
  {
    hide IsLoose, IsEnd, Nesting;
    NotLooseBehind(a, b, i);
    PivotInPrefix(a, b, i);
  }

  lemma NotLooseBehind(a: seq<Token>, b: seq<Token>, i: nat)
    requires i < |a + b| && forall t <- b :: !IsLoose(t.klass)
    ensures i >= |a| ==> !IsLoose((a + b)[i].klass)
  {
    hide IsLoose;
    if i >= |a| { assert (a + b)[i] == b[i - |a|] && b[i - |a|] in b; }
  }

  /** Outside all nesting, dimensions and arguments have opening delimiters only. */
  lemma OpensInDims(names: set<string>, front: seq<Token>, dims: seq<Bracket>, args: CallArgs, i: nat)
    requires Nesting(front) == 0 && (forall d | d in dims :: DerivesBracket(names, d)) && DerivesArgs(names, args)
    requires |front| <= i < |front + YieldDims(dims) + YieldArgs(args)|
    requires Nesting((front + YieldDims(dims) + YieldArgs(args))[..i]) == 0
    ensures var klass := (front + YieldDims(dims) + YieldArgs(args))[i].klass; klass.LBracket? || klass.LParen?
    decreases |dims|
  {
    hide Nesting, Enclosed, DerivesArgs, YieldArgs, DerivesBracket, YieldBracket;
    var tail := YieldArgs(args);
    ArgsAreEnclosed(names, args);
    ArgsStart(names, args);
    if dims == [] {
      assert front + [] + tail == front + tail == front + tail + [];
      OpensInEnclosed(front, tail, [], i);
    } else {
      var b, rest := YieldBracket(dims[0]), YieldDims(dims[1..]);
      BracketIsEnclosed(names, dims[0]);
      BracketStarts(names, dims[0]);
      NestingAppend(front, b);
      EnclosedIsClosed(b);
      assert front + YieldDims(dims) + tail == (front + b) + rest + tail;
      assert (front + b) + rest + tail == front + b + (rest + tail);
      if i < |front + b| {
        OpensInEnclosed(front, b, rest + tail, i);
      } else {
        OpensInDims(names, front + b, dims[1..], args, i);
      }
    }
  }

  lemma OpensInEnclosed(a: seq<Token>, b: seq<Token>, rest: seq<Token>, i: nat)
    requires Nesting(a) == 0 && Enclosed(b) && |a| <= i < |a + b| && Nesting((a + b + rest)[..i]) == 0
    ensures i == |a| && (a + b + rest)[i] == b[0]
  {
    hide Nesting;
    assert (a + b + rest)[..i] == (a + b)[..i];
    NestingOfPrefix(a, b, i);
  }

  lemma NoPivotInDims(names: set<string>, front: seq<Token>, dims: seq<Bracket>, args: CallArgs, i: nat)
    requires Nesting(front) == 0 && (forall d | d in dims :: DerivesBracket(names, d)) && DerivesArgs(names, args)
    requires |front| <= i < |front + YieldDims(dims) + YieldArgs(args)|
    ensures !IsPivot(front + YieldDims(dims) + YieldArgs(args), i)
  {
    hide Nesting, DerivesArgs, YieldArgs, DerivesBracket, YieldDims, IsEnd;
    if Nesting((front + YieldDims(dims) + YieldArgs(args))[..i]) == 0 {
      OpensInDims(names, front, dims, args, i);
    }
  }

  lemma EnclosedIsClosed(ts: seq<Token>)
    requires Enclosed(ts)
    ensures Nesting(ts) == 0
  {
  }

  lemma BracketStarts(names: set<string>, b: Bracket)
    requires DerivesBracket(names, b)
    ensures |YieldBracket(b)| >= 2 && YieldBracket(b)[0].klass.LBracket?
  {
    hide Derives, Yield;
  }

  lemma ArgsStart(names: set<string>, a: CallArgs)
    requires DerivesArgs(names, a)
    ensures |YieldArgs(a)| >= 2 && YieldArgs(a)[0].klass.LParen?
  {
    hide DerivesList, YieldList;
  }

  /** An expression of the levels of prefix and postfix operators has no operator outside nesting. */
  lemma {:induction false} NoPivot(names: set<string>, c: Cst, i: nat)
    requires Derives(names, c) && Level(c) >= 11 && i < |Yield(c)|
    ensures !IsPivot(Yield(c), i)
    decreases c, 1
  {
    hide IsPivot, IsEnd, IsLoose, TryParseBinaryOp, TryParseAssignmentOp, Nesting, Enclosed, Balanced;
    if i == 0 {
      FirstIsNoPivot(Yield(c));
    } else {
      match c
      case Atom(_) =>
      case Parens(open, inner, close) =>
        YieldIsBalanced(names, inner);
        Enclose(open, Yield(inner), close);
        NoPivotInside(Yield(c), i);
      case EmptyParens(open, close) =>
        NestingNothing();
        Enclose(open, [], close);
        assert [open] + [] + [close] == Yield(c);
        NoPivotInside(Yield(c), i);
      case Call(name, args) =>
        ArgsAreEnclosed(names, args);
        ArgsStart(names, args);
        NestingOne(name);
        NoPivotInEnclosed([name], YieldArgs(args), i);
      case Construct(typeName, dims, args) =>
        NestingOne(typeName);
        NoPivotInDims(names, [typeName], dims, args, i);
      case Prefix(op, arg) => NoPivotInPrefix(names, op, arg, i);
      case _ => NoPivotInPostfix(names, c, i);
    }
  }

  lemma FirstIsNoPivot(ts: seq<Token>)
    ensures !IsPivot(ts, 0)
  {
  }

  lemma NoPivotInside(ts: seq<Token>, i: nat)
    requires Enclosed(ts) && ts[0].klass.LParen? && i < |ts|
    ensures !IsPivot(ts, i)
  {
    hide IsPivot;
    assert [] + ts == ts;
    NoPivotInEnclosed([], ts, i);
  }

  lemma {:induction false} NoPivotInPrefix(names: set<string>, op: Token, arg: Cst, i: nat)
    requires TryParsePrefixUnaryOp(op.klass).Some? && Derives(names, arg) && Level(arg) >= 11
    requires 0 < i < 1 + |Yield(arg)|
    ensures !IsPivot([op] + Yield(arg), i)
    decreases arg, 2
  {
    hide IsPivot, IsEnd, Derives, Level, TryParsePrefixUnaryOp, Yield;
    PrefixEndsNothing(op);
    OperatorWeights(op.klass);
    NestingOne(op);
    NoPivot(names, arg, i - 1);
    if IsPivot([op] + Yield(arg), i) { PivotInSuffix([op], Yield(arg), i); }
  }

  /** A postfix expression: its base, and what is behind it. */
  lemma {:induction false} NoPivotInPostfix(names: set<string>, c: Cst, i: nat)
    requires Derives(names, c) && i < |Yield(c)|
    requires c.Subscript? || c.Member? || c.LengthCall? || c.PostfixOp?
    ensures !IsPivot(Yield(c), i)
    decreases c, 0
  {
    BaseAndTail(names, c);
    var base, tail := Yield(c.base), PostfixTail(c);
    hide IsPivot, IsEnd, Level, Nesting, IsLoose, Derives, Yield;
    if i < |base| { NoPivot(names, c.base, i); }
    if c.Subscript? {
      NoPivotInSubscript(names, c.base, c.bracket, i);
    } else if IsPivot(base + tail, i) {
      PivotInFront(base, tail, i);
    }
  }

  lemma BaseAndTail(names: set<string>, c: Cst)
    requires Derives(names, c) && (c.Subscript? || c.Member? || c.LengthCall? || c.PostfixOp?)
    ensures Derives(names, c.base) && Level(c.base) == 12 && Yield(c) == Yield(c.base) + PostfixTail(c)
    ensures c.Subscript? ==> DerivesBracket(names, c.bracket)
    ensures !c.Subscript? ==> forall t <- PostfixTail(c) :: !IsLoose(t.klass)
  {
    hide IsLoose, TryParseBinaryOp, TryParseAssignmentOp, TryParsePrefixUnaryOp;
    if !c.Subscript? {
      forall t <- PostfixTail(c) ensures !IsLoose(t.klass) { PostfixIsNotLoose(t.klass); }
    }
  }

  lemma PostfixIsNotLoose(klass: TokenKlass)
    requires klass.Dot? || klass.Identifier? || klass.LParen? || klass.RParen? || klass.Increment? || klass.Decrement?
    ensures !IsLoose(klass)
  {
  }

  lemma NoPivotInSubscript(names: set<string>, base: Cst, bracket: Bracket, i: nat)
    requires Derives(names, base) && DerivesBracket(names, bracket)
    requires i < |Yield(base) + YieldBracket(bracket)| && (i < |Yield(base)| ==> !IsPivot(Yield(base), i))
    ensures !IsPivot(Yield(base) + YieldBracket(bracket), i)
  {
    hide IsPivot, IsEnd, Nesting, Derives, Yield, DerivesBracket, YieldBracket, Enclosed;
    var a, b := Yield(base), YieldBracket(bracket);
    YieldIsBalanced(names, base);
    BracketIsEnclosed(names, bracket);
    BracketStarts(names, bracket);
    if i >= |a| {
      NoPivotInEnclosed(a, b, i);
    } else if IsPivot(a + b, i) {
      PivotInPrefix(a, b, i);
    }
  }

  // ---------------------------------------------------------------------------------------
  // Binary operators, `?:`, assignment and comma
  // ---------------------------------------------------------------------------------------

  predicate IsSplit(c: Cst) { c.Infix? || c.Ternary? || c.Assignment? || c.Sequence? }

  function LeftOf(c: Cst): Cst
    requires IsSplit(c)
  {
    if c.Ternary? then c.cond else c.lhs
  }

  function OpOf(c: Cst): Token
    requires IsSplit(c)
  {
    match c case Ternary(_, question, _, _, _) => question case Sequence(_, comma, _) => comma case _ => c.op
  }

  function RestOf(c: Cst): seq<Token>
    requires IsSplit(c)
  {
    if c.Ternary? then Yield(c.whenTrue) + [c.colon] + Yield(c.whenFalse) else Yield(c.rhs)
  }

  lemma SplitParts(names: set<string>, c: Cst)
    requires Derives(names, c)
    ensures IsSplit(c) <==> Level(c) <= 10
    ensures IsSplit(c) ==>
      && Derives(names, LeftOf(c)) && IsLoose(OpOf(c).klass) && LevelAt(OpOf(c).klass) == Level(c)
      && Yield(c) == Yield(LeftOf(c)) + [OpOf(c)] + RestOf(c)
    ensures c.Infix? ==> Level(c) >= 0
  {
    if c.Ternary? {
      assert Yield(c) == Yield(c.cond) + [c.question] + (Yield(c.whenTrue) + [c.colon] + Yield(c.whenFalse));
    } else if c.Assignment? {
      AssignmentIsNoBinary(c.op.klass);
    }
  }

  lemma AssignmentIsNoBinary(klass: TokenKlass)
    requires TryParseAssignmentOp(klass).Some?
    ensures TryParseBinaryOp(klass).None? && !klass.Question? && !klass.Comma?
  {
  }

  lemma OwnPivot(names: set<string>, c: Cst)
    requires Derives(names, c) && IsSplit(c)
    ensures var n := |Yield(LeftOf(c))|;
            && n < |Yield(c)| && IsPivot(Yield(c), n) && Yield(c)[n] == OpOf(c)
  {
    hide Level, IsLoose, LevelAt, IsEnd, Derives, Yield, Nesting, TryParseBinaryOp, TryParseAssignmentOp;
    SplitParts(names, c);
    var l := Yield(LeftOf(c));
    YieldIsBalanced(names, LeftOf(c));
    LastIsEnd(names, LeftOf(c));
    EndInPrefix(l, [OpOf(c)] + RestOf(c), |l| - 1);
    assert l + [OpOf(c)] + RestOf(c) == l + ([OpOf(c)] + RestOf(c));
    assert Yield(c)[..|l|] == l;
  }

  function Bound(level: int): int { if level >= 0 then level else if level >= -2 then -2 else -3 }

  function RightBound(c: Cst): int { if c.Infix? then Level(c) + 1 else -2 }

  /** The levels of the two sides. */
  lemma SplitLevels(names: set<string>, c: Cst)
    requires Derives(names, c) && IsSplit(c)
    ensures c.Infix? ==> Level(LeftOf(c)) >= Level(c) >= 0
    ensures c.Ternary? ==> Level(c) == -1 && Level(LeftOf(c)) >= 0
    ensures c.Assignment? ==> Level(c) == -2 && Level(LeftOf(c)) >= 11
    ensures c.Sequence? ==> Level(c) == -3
    ensures c.Ternary? ==> Derives(names, c.whenTrue) && Derives(names, c.whenFalse) && Level(c.whenFalse) >= -2
    ensures c.Ternary? ==> c.question.klass.Question? && c.colon.klass.Colon?
    ensures !c.Ternary? ==> Derives(names, c.rhs) && IsOperator(OpOf(c).klass)
    ensures !c.Ternary? ==> Bound(Level(c.rhs)) >= RightBound(c)
  {
    hide Yield, TryParsePrefixUnaryOp;
  }

  /** Behind its operator, a derivation has tighter operators only. */
  lemma {:induction false} PivotOnRight(names: set<string>, c: Cst, i: nat)
    requires Derives(names, c) && IsSplit(c) && i < |Yield(c)| && IsPivot(Yield(c), i) && i > |Yield(LeftOf(c))|
    ensures LevelAt(Yield(c)[i].klass) >= RightBound(c)
    decreases c, 0
  {
    hide IsPivot, IsEnd, LevelAt, Nesting, IsLoose, Yield, Derives, Level, IsOperator;
    var l := Yield(LeftOf(c));
    SplitParts(names, c);
    SplitLevels(names, c);
    LooseEndsNothing(l, OpOf(c));
    YieldIsBalanced(names, LeftOf(c));
    if c.Ternary? {
      var f := Yield(c.whenFalse);
      var j := PivotInTernary(names, c, i);
      PivotsAreTight(names, c.whenFalse, j);
    } else {
      PivotAround(l, OpOf(c), RestOf(c), i);
      PivotsAreTight(names, c.rhs, i - |l| - 1);
    }
  }

  /** Behind the `?` of a conditional expression, operators outside nesting are those of its last part. */
  lemma PivotInTernary(names: set<string>, c: Cst, i: nat) returns (j: nat)
    requires Derives(names, c) && c.Ternary? && IsPivot(Yield(c), i) && i > |Yield(c.cond)|
    ensures j < |Yield(c.whenFalse)| && IsPivot(Yield(c.whenFalse), j) && Yield(c)[i] == Yield(c.whenFalse)[j]
  {
    var l, t, f := Yield(c.cond), Yield(c.whenTrue), Yield(c.whenFalse);
    assert Yield(c) == l + ([c.question] + t + [c.colon]) + f;
    SplitParts(names, c);
    SplitLevels(names, c);
    hide IsPivot, Yield, Derives;
    YieldIsBalanced(names, c.cond);
    YieldIsBalanced(names, c.whenTrue);
    PivotBehindBranch(l, c.question, t, c.colon, f, i);
    j := i - |l| - |t| - 2;
  }

  lemma PivotBehindBranch(l: seq<Token>, question: Token, t: seq<Token>, colon: Token, f: seq<Token>, i: nat)
    requires Balanced(l) && Balanced(t) && question.klass.Question? && colon.klass.Colon?
    requires IsPivot(l + ([question] + t + [colon]) + f, i) && i > |l|
    ensures i > |l| + |t| + 2 && IsPivot(f, i - |l| - |t| - 2)
    ensures (l + ([question] + t + [colon]) + f)[i] == f[i - |l| - |t| - 2]
  {
    hide IsEnd, Nesting, IsLoose;
    var branch := [question] + t + [colon];
    Enclose(question, t, colon);
    NestingAppend(l, branch);
    LooseEndsNothing(l + [question] + t, colon);
    assert l + [question] + t + [colon] == l + branch;
    if i < |l + branch| {
      assert (l + branch + f)[..i] == (l + branch)[..i];
      NestingOfPrefix(l, branch, i);
      assert false;
    }
    hide IsPivot;
    PivotInSuffix(l + branch, f, i);
  }

  /** Every operator outside all nesting binds at least as tightly as the derivation, but for what a
      conditional expression or an assignment has on its right. */
  lemma {:induction false} PivotsAreTight(names: set<string>, c: Cst, i: nat)
    requires Derives(names, c) && i < |Yield(c)| && IsPivot(Yield(c), i)
    ensures IsSplit(c) && LevelAt(Yield(c)[i].klass) >= Bound(Level(c))
    decreases c, 1
  {
    hide IsPivot, LevelAt, Derives, Yield, Level;
    SplitParts(names, c);
    if !IsSplit(c) {
      NoPivot(names, c, i);
    } else if i > |Yield(LeftOf(c))| {
      SplitLevels(names, c);
      PivotOnRight(names, c, i);
    } else {
      SplitLevels(names, c);
      if i < |Yield(LeftOf(c))| { PivotOnLeft(names, c, i); }
    }
  }

  lemma {:induction false} PivotOnLeft(names: set<string>, c: Cst, i: nat)
    requires Derives(names, c) && IsSplit(c) && IsPivot(Yield(c), i) && i < |Yield(LeftOf(c))|
    ensures Level(LeftOf(c)) <= 10 && LevelAt(Yield(c)[i].klass) >= Bound(Level(LeftOf(c)))
    decreases c, 0
  {
    hide IsPivot, LevelAt, Derives, Yield, Level;
    var l, rest := LeftOf(c), [OpOf(c)] + RestOf(c);
    SplitParts(names, c);
    SplitParts(names, l);
    assert Yield(l) + [OpOf(c)] + RestOf(c) == Yield(l) + rest;
    PivotInPrefix(Yield(l), rest, i);
    PivotsAreTight(names, l, i);
  }

  /** Two derivations of the same tokens split at the same operator. */
  lemma SplitsNoEarlier(names: set<string>, c: Cst, d: Cst)
    requires Derives(names, c) && Derives(names, d) && IsSplit(c) && IsSplit(d) && Yield(c) == Yield(d)
    ensures |Yield(LeftOf(c))| >= |Yield(LeftOf(d))|
  {
    hide IsPivot, LevelAt, Derives, Yield, Level;
    SplitParts(names, c);
    SplitParts(names, d);
    SplitLevels(names, c);
    SplitLevels(names, d);
    OwnPivot(names, c);
    OwnPivot(names, d);
    var m, n := |Yield(LeftOf(c))|, |Yield(LeftOf(d))|;
    if m < n {
      PivotOnRight(names, c, n);
      PivotOnLeft(names, d, m);
      assert false;
    }
  }

  // ---------------------------------------------------------------------------------------
  // Uniqueness
  // ---------------------------------------------------------------------------------------

  lemma {:induction false} CstIsUnique(names: set<string>, c: Cst, d: Cst)
    requires Derives(names, c) && Derives(names, d) && Yield(c) == Yield(d)
    ensures c == d
    decreases c, 2
  {
    SplitParts(names, c);
    SplitParts(names, d);
    hide IsPivot, Derives, Yield, IsSplit, Level;
    if IsSplit(c) && IsSplit(d) {
      SplitIsUnique(names, c, d);
    } else if IsSplit(c) {
      OwnPivot(names, c);
      NoPivot(names, d, |Yield(LeftOf(c))|);
    } else if IsSplit(d) {
      OwnPivot(names, d);
      NoPivot(names, c, |Yield(LeftOf(d))|);
    } else if c.Prefix? || d.Prefix? {
      PrefixIsUnique(names, c, d);
    } else {
      PostfixIsUnique(names, c, d);
    }
  }

  lemma {:induction false} SplitIsUnique(names: set<string>, c: Cst, d: Cst)
    requires Derives(names, c) && Derives(names, d) && Yield(c) == Yield(d) && IsSplit(c) && IsSplit(d)
    ensures c == d
    decreases c, 1
  {
    SplitParts(names, c);
    SplitParts(names, d);
    SplitLevels(names, c);
    SplitLevels(names, d);
    SplitsNoEarlier(names, c, d);
    SplitsNoEarlier(names, d, c);
    hide Derives, Yield, Level, LevelAt, IsOperator, IsLoose;
    SameParts(Yield(LeftOf(c)), OpOf(c), RestOf(c), Yield(LeftOf(d)), OpOf(d), RestOf(d));
    CstIsUnique(names, LeftOf(c), LeftOf(d));
    if c.Ternary? {
      YieldIsBalanced(names, c.whenTrue);
      YieldIsBalanced(names, d.whenTrue);
      BranchNoShorter(Yield(c.whenTrue), c.colon, Yield(c.whenFalse), Yield(d.whenTrue), d.colon, Yield(d.whenFalse));
      BranchNoShorter(Yield(d.whenTrue), d.colon, Yield(d.whenFalse), Yield(c.whenTrue), c.colon, Yield(c.whenFalse));
      SameParts(Yield(c.whenTrue), c.colon, Yield(c.whenFalse), Yield(d.whenTrue), d.colon, Yield(d.whenFalse));
      CstIsUnique(names, c.whenTrue, d.whenTrue);
      CstIsUnique(names, c.whenFalse, d.whenFalse);
    } else {
      CstIsUnique(names, c.rhs, d.rhs);
    }
  }

  lemma SameParts(a: seq<Token>, x: Token, b: seq<Token>, a1: seq<Token>, x1: Token, b1: seq<Token>)
    requires a + [x] + b == a1 + [x1] + b1 && |a| == |a1|
    ensures a == a1 && x == x1 && b == b1
  {
    var n := |a|;
    assert (a + [x] + b)[..n] == a && (a1 + [x1] + b1)[..n] == a1;
    assert (a + [x] + b)[n] == x && (a1 + [x1] + b1)[n] == x1;
    assert (a + [x] + b)[n + 1..] == b && (a1 + [x1] + b1)[n + 1..] == b1;
  }

  /** The `:` of a branch is the first that closes more than the branch opens. */
  lemma BranchNoShorter(t: seq<Token>, colon: Token, f: seq<Token>, t1: seq<Token>, colon1: Token, f1: seq<Token>)
    requires Balanced(t) && Balanced(t1) && colon.klass.Colon? && t + [colon] + f == t1 + [colon1] + f1
    ensures |t| >= |t1|
  {
    hide Nesting;
    NestingOne(colon);
    NestingAppend(t, [colon]);
    assert t1 + [colon1] + f1 == t1 + ([colon1] + f1);
    assert (t + [colon])[..|t| + 1] == t + [colon];
    if |t| < |t1| {
      CommonPrefix(t + [colon], f, t1, [colon1] + f1, |t| + 1);
    }
  }

  lemma CommonPrefix(a: seq<Token>, x: seq<Token>, b: seq<Token>, y: seq<Token>, k: nat)
    requires a + x == b + y && k <= |a| && k <= |b|
    ensures a[..k] == b[..k]
  {
    assert (a + x)[..k] == a[..k] && (b + y)[..k] == b[..k];
  }

  lemma {:induction false} HeadIsNoPrefix(names: set<string>, c: Cst)
    requires Derives(names, c) && Level(c) == 12
    ensures |Yield(c)| > 0 && TryParsePrefixUnaryOp(Yield(c)[0].klass).None?
    decreases c
  {
    hide TryParseBinaryOp, TryParseAssignmentOp;
    match c
    case Subscript(base, _) => HeadIsNoPrefix(names, base);
    case Member(base, _, _) => HeadIsNoPrefix(names, base);
    case LengthCall(base, _, _, _, _) => HeadIsNoPrefix(names, base);
    case PostfixOp(base, _) => HeadIsNoPrefix(names, base);
    case _ =>
  }

  lemma {:induction false} PrefixIsUnique(names: set<string>, c: Cst, d: Cst)
    requires Derives(names, c) && Derives(names, d) && Yield(c) == Yield(d) && Level(c) >= 11 && Level(d) >= 11
    requires c.Prefix? || d.Prefix?
    ensures c == d
    decreases c, 1
  {
    if c.Prefix? && d.Prefix? {
      assert Yield(c)[0] == c.op && Yield(d)[0] == d.op;
      assert Yield(c)[1..] == Yield(c.arg) && Yield(d)[1..] == Yield(d.arg);
      CstIsUnique(names, c.arg, d.arg);
    } else {
      assert Yield(c)[0] == Yield(d)[0] by { LastIsEnd(names, c); }
      HeadIsNoPrefix(names, if c.Prefix? then d else c);
    }
  }

  predicate IsChained(c: Cst) { c.Subscript? || c.Member? || c.LengthCall? || c.PostfixOp? }

  /** The last token, and the size, tell most postfix expressions apart. */
  lemma PostfixKinds(names: set<string>, c: Cst)
    requires Derives(names, c) && Level(c) == 12
    ensures var ts := Yield(c);
            && |ts| > 0 && (c.Atom? <==> |ts| == 1)
            && (!c.Atom? ==>
                 var last := ts[|ts| - 1].klass;
                 && (c.PostfixOp? <==> last.Increment? || last.Decrement?)
                 && (c.Member? <==> last.Identifier?)
                 && (c.Subscript? <==> last.RBracket?)
                 && (c.Parens? || c.EmptyParens? || c.Call? || c.Construct? || c.LengthCall? <==> last.RParen?))
  {
    hide TryParseBinaryOp, TryParseAssignmentOp, TryParsePrefixUnaryOp;
    if IsChained(c) {
      BaseAndTail(names, c);
      LastIsEnd(names, c.base);
      if c.Subscript? { BracketEnds(names, c.bracket); }
    } else if c.Call? || c.Construct? {
      ArgsStart(names, c.args);
      ArgsEnd(names, c.args);
    } else if c.Parens? {
      LastIsEnd(names, c.inner);
    }
  }

  lemma BracketEnds(names: set<string>, b: Bracket)
    requires DerivesBracket(names, b)
    ensures |YieldBracket(b)| >= 2 && YieldBracket(b)[|YieldBracket(b)| - 1].klass.RBracket?
  {
    hide Derives, Yield;
  }

  lemma ArgsEnd(names: set<string>, a: CallArgs)
    requires DerivesArgs(names, a)
    ensures |YieldArgs(a)| >= 2 && YieldArgs(a)[|YieldArgs(a)| - 1].klass.RParen?
  {
    hide DerivesList, YieldList;
  }

  lemma {:induction false} PostfixIsUnique(names: set<string>, c: Cst, d: Cst)
    requires Derives(names, c) && Derives(names, d) && Yield(c) == Yield(d) && Level(c) == 12 && Level(d) == 12
    ensures c == d
    decreases c, 1
  {
    PostfixKinds(names, c);
    PostfixKinds(names, d);
    if c.Atom? {
      assert Yield(c)[0] == c.tok && Yield(d)[0] == d.tok;
    } else if c.Subscript? {
      SubscriptIsUnique(names, c, d);
    } else if c.Member? || c.PostfixOp? || (c.LengthCall? && d.LengthCall?) {
      ChainIsUnique(names, c, d);
    } else if c.LengthCall? {
      HasNoDot(names, d, c);
    } else if d.LengthCall? {
      HasNoDot(names, c, d);
    } else {
      HeadIsUnique(names, c, d);
    }
  }

  lemma {:induction false} ChainIsUnique(names: set<string>, c: Cst, d: Cst)
    requires Derives(names, c) && Derives(names, d) && Yield(c) == Yield(d)
    requires (c.Member? && d.Member?) || (c.PostfixOp? && d.PostfixOp?) || (c.LengthCall? && d.LengthCall?)
    ensures c == d
    decreases c, 0
  {
    BaseAndTail(names, c);
    BaseAndTail(names, d);
    var tail, tail1, n := PostfixTail(c), PostfixTail(d), |Yield(c.base)|;
    assert |tail| == |tail1|;
    hide Derives, Yield, Level, IsLoose;
    assert (Yield(c.base) + tail)[..n] == Yield(c.base) && (Yield(d.base) + tail1)[..n] == Yield(d.base);
    assert (Yield(c.base) + tail)[n..] == tail && (Yield(d.base) + tail1)[n..] == tail1;
    CstIsUnique(names, c.base, d.base);
    assert tail == tail1;
    assert forall i :: 0 <= i < |tail| ==> tail[i] == tail1[i];
  }

  lemma {:induction false} SubscriptIsUnique(names: set<string>, c: Cst, d: Cst)
    requires Derives(names, c) && Derives(names, d) && Yield(c) == Yield(d) && c.Subscript? && d.Subscript?
    ensures c == d
    decreases c, 0
  {
    BaseAndTail(names, c);
    BaseAndTail(names, d);
    var a, a1, b, b1 := Yield(c.base), Yield(d.base), YieldBracket(c.bracket), YieldBracket(d.bracket);
    hide Derives, Yield, Level, IsLoose, DerivesBracket, YieldBracket;
    YieldIsBalanced(names, c.base);
    YieldIsBalanced(names, d.base);
    BracketIsEnclosed(names, c.bracket);
    BracketIsEnclosed(names, d.bracket);
    BaseNoShorter(a, b, a1, b1);
    BaseNoShorter(a1, b1, a, b);
    assert (a + b)[..|a|] == a && (a1 + b1)[..|a1|] == a1 && (a + b)[|a|..] == b && (a1 + b1)[|a1|..] == b1;
    CstIsUnique(names, c.base, d.base);
    BracketIsUnique(names, c.bracket, d.bracket);
  }

  lemma BaseNoShorter(a: seq<Token>, b: seq<Token>, a1: seq<Token>, b1: seq<Token>)
    requires Balanced(a) && Balanced(a1) && Enclosed(b) && Enclosed(b1) && a + b == a1 + b1
    ensures |a| >= |a1|
  {
    hide Nesting;
    assert (a1 + b1)[..|a1|] == a1;
    if |a| < |a1| {
      NestingOfPrefix(a, b, |a1|);
    }
  }

  lemma EnclosedNoShorter(a: seq<Token>, x: seq<Token>, b: seq<Token>, y: seq<Token>)
    requires Enclosed(a) && Enclosed(b) && a + x == b + y
    ensures |a| >= |b|
  {
    hide Nesting;
    assert a[..|a|] == a;
    if |a| < |b| {
      CommonPrefix(a, x, b, y, |a|);
    }
  }

  lemma {:induction false} BracketIsUnique(names: set<string>, b: Bracket, b1: Bracket)
    requires DerivesBracket(names, b) && DerivesBracket(names, b1) && YieldBracket(b) == YieldBracket(b1)
    ensures b == b1
    decreases b
  {
    var ts, ts1 := YieldBracket(b), YieldBracket(b1);
    if b.FullBracket? { LastIsEnd(names, b.inner); }
    if b1.FullBracket? { LastIsEnd(names, b1.inner); }
    assert ts[0] == b.open && ts1[0] == b1.open && ts[|ts| - 1] == b.close && ts1[|ts1| - 1] == b1.close;
    if b.FullBracket? && b1.FullBracket? {
      assert ts[1..|ts| - 1] == Yield(b.inner) && ts1[1..|ts1| - 1] == Yield(b1.inner);
      CstIsUnique(names, b.inner, b1.inner);
    }
  }

  /** Outside all nesting, only a length call of these has a dot. */
  lemma HasNoDot(names: set<string>, c: Cst, d: Cst)
    requires Derives(names, c) && Derives(names, d) && d.LengthCall?
    requires c.Parens? || c.EmptyParens? || c.Call? || c.Construct?
    ensures Yield(c) != Yield(d)
  {
    BaseAndTail(names, d);
    var base := Yield(d.base);
    var n := |base|;
    LastIsEnd(names, d.base);
    YieldIsBalanced(names, d.base);
    assert d.dot.klass.Dot?;
    assert Yield(d)[..n] == base && Yield(d)[n] == d.dot;
    if Yield(c) == Yield(d) {
      HeadOpens(names, c, n);
      assert false;
    }
  }

  lemma HeadOpens(names: set<string>, c: Cst, i: nat)
    requires Derives(names, c) && (c.Parens? || c.EmptyParens? || c.Call? || c.Construct?)
    requires 0 < i < |Yield(c)| && Nesting(Yield(c)[..i]) == 0
    ensures Yield(c)[i].klass.LParen? || Yield(c)[i].klass.LBracket?
  {
    hide Nesting, Enclosed, Balanced;
    match c
    case Parens(open, inner, close) =>
      YieldIsBalanced(names, inner);
      Enclose(open, Yield(inner), close);
      OpensNowhere(Yield(c), i);
    case EmptyParens(open, close) =>
      NestingNothing();
      Enclose(open, [], close);
      assert [open] + [] + [close] == Yield(c);
      OpensNowhere(Yield(c), i);
    case Call(name, args) =>
      NestingOne(name);
      assert Yield(c) == [name] + YieldDims([]) + YieldArgs(args);
      OpensInDims(names, [name], [], args, i);
    case Construct(typeName, dims, args) =>
      NestingOne(typeName);
      OpensInDims(names, [typeName], dims, args, i);
  }

  lemma OpensNowhere(ts: seq<Token>, i: nat)
    requires Enclosed(ts) && 0 < i < |ts|
    ensures Nesting(ts[..i]) > 0
  {
  }

  lemma {:induction false} HeadIsUnique(names: set<string>, c: Cst, d: Cst)
    requires Derives(names, c) && Derives(names, d) && Yield(c) == Yield(d)
    requires c.Parens? || c.EmptyParens? || c.Call? || c.Construct?
    requires d.Parens? || d.EmptyParens? || d.Call? || d.Construct?
    ensures c == d
    decreases c, 0
  {
    HeadToken(names, c);
    HeadToken(names, d);
    hide IsValueName, IsTypeNameToken, DerivesArgs, DerivesBracket, YieldArgs, YieldDims;
    if c.Parens? {
      SameInside(c.open, Yield(c.inner), c.close, d.open, Yield(d.inner), d.close);
      CstIsUnique(names, c.inner, d.inner);
    } else if c.Call? {
      SameBehind(c.name, YieldArgs(c.args), d.name, YieldArgs(d.args));
      ArgsAreUnique(names, c.args, d.args);
    } else if c.Construct? {
      var a, a1 := YieldDims(c.dims) + YieldArgs(c.args), YieldDims(d.dims) + YieldArgs(d.args);
      assert Yield(c) == [c.typeName] + a && Yield(d) == [d.typeName] + a1;
      SameBehind(c.typeName, a, d.typeName, a1);
      DimsAreUnique(names, c.dims, c.args, d.dims, d.args);
      ArgsAreUnique(names, c.args, d.args);
    } else {
      SameBehind(c.open, [c.close], d.open, [d.close]);
      assert [c.close][0] == [d.close][0];
    }
  }

  lemma SameBehind(x: Token, a: seq<Token>, x1: Token, a1: seq<Token>)
    requires [x] + a == [x1] + a1
    ensures x == x1 && a == a1
  {
    assert ([x] + a)[0] == x && ([x1] + a1)[0] == x1;
    assert ([x] + a)[1..] == a && ([x1] + a1)[1..] == a1;
  }

  lemma SameInside(x: Token, a: seq<Token>, y: Token, x1: Token, a1: seq<Token>, y1: Token)
    requires [x] + a + [y] == [x1] + a1 + [y1]
    ensures x == x1 && a == a1 && y == y1
  {
    assert [x] + a + [y] == [x] + (a + [y]) && [x1] + a1 + [y1] == [x1] + (a1 + [y1]);
    SameBehind(x, a + [y], x1, a1 + [y1]);
    assert |a| == |a1|;
    assert (a + [y])[..|a|] == a && (a1 + [y1])[..|a|] == a1;
    assert (a + [y])[|a|] == y && (a1 + [y1])[|a|] == y1;
  }

  /** The first token, and the size, tell these apart. */
  lemma HeadToken(names: set<string>, c: Cst)
    requires Derives(names, c) && (c.Parens? || c.EmptyParens? || c.Call? || c.Construct?)
    ensures var ts := Yield(c);
            && |ts| >= 2 && (c.EmptyParens? || c.Parens? <==> ts[0].klass.LParen?)
            && (c.Parens? ==> |ts| > 2) && (c.EmptyParens? ==> |ts| == 2)
            && (c.Call? <==> IsValueName(names, ts[0])) && (c.Construct? <==> IsTypeNameToken(names, ts[0]))
  {
    if c.Parens? { LastIsEnd(names, c.inner); }
    if c.Call? || c.Construct? { ArgsStart(names, c.args); }
  }

  lemma {:induction false} DimsAreUnique(names: set<string>, dims: seq<Bracket>, args: CallArgs,
    dims1: seq<Bracket>, args1: CallArgs)
    requires forall d | d in dims :: DerivesBracket(names, d)
    requires forall d | d in dims1 :: DerivesBracket(names, d)
    requires DerivesArgs(names, args) && DerivesArgs(names, args1)
    requires YieldDims(dims) + YieldArgs(args) == YieldDims(dims1) + YieldArgs(args1)
    ensures dims == dims1 && YieldArgs(args) == YieldArgs(args1)
    decreases dims
  {
    hide DerivesBracket, YieldBracket, DerivesArgs, YieldArgs;
    ArgsStart(names, args);
    ArgsStart(names, args1);
    if dims != [] { BracketStarts(names, dims[0]); }
    if dims1 != [] { BracketStarts(names, dims1[0]); }
    var all, all1 := YieldDims(dims) + YieldArgs(args), YieldDims(dims1) + YieldArgs(args1);
    assert dims == [] <==> all[0].klass.LParen?;
    assert dims1 == [] <==> all1[0].klass.LParen?;
    if dims == [] {
      assert all == YieldArgs(args) && all1 == YieldArgs(args1);
    } else {
      var b, b1 := YieldBracket(dims[0]), YieldBracket(dims1[0]);
      var x, x1 := YieldDims(dims[1..]) + YieldArgs(args), YieldDims(dims1[1..]) + YieldArgs(args1);
      assert all == b + x && all1 == b1 + x1;
      BracketIsEnclosed(names, dims[0]);
      BracketIsEnclosed(names, dims1[0]);
      EnclosedNoShorter(b, x, b1, x1);
      EnclosedNoShorter(b1, x1, b, x);
      assert (b + x)[..|b|] == b && (b1 + x1)[..|b1|] == b1 && (b + x)[|b|..] == x && (b1 + x1)[|b1|..] == x1;
      BracketIsUnique(names, dims[0], dims1[0]);
      DimsAreUnique(names, dims[1..], args, dims1[1..], args1);
    }
  }

  lemma {:induction false} ArgsAreUnique(names: set<string>, a: CallArgs, a1: CallArgs)
    requires DerivesArgs(names, a) && DerivesArgs(names, a1) && YieldArgs(a) == YieldArgs(a1)
    ensures a == a1
    decreases a
  {
    var ts, ts1 := YieldArgs(a), YieldArgs(a1);
    if a.SomeArgs? { ListIsNoVoid(names, a.items); }
    if a1.SomeArgs? { ListIsNoVoid(names, a1.items); }
    assert ts[0] == a.open && ts1[0] == a1.open && ts[|ts| - 1] == a.close && ts1[|ts1| - 1] == a1.close;
    if a.VoidArgs? { assert ts[1..|ts| - 1] == [a.void]; }
    if a1.VoidArgs? { assert ts1[1..|ts1| - 1] == [a1.void]; }
    if a.SomeArgs? { assert ts[1..|ts| - 1] == YieldList(a.items); }
    if a1.SomeArgs? { assert ts1[1..|ts1| - 1] == YieldList(a1.items); }
    if a.SomeArgs? && a1.SomeArgs? { ListIsUnique(names, a.items, a1.items); }
  }

  /** A list of arguments is not empty, and not `void` alone. */
  lemma ListIsNoVoid(names: set<string>, l: ArgList)
    requires DerivesList(names, l)
    ensures YieldList(l) != [] && (|YieldList(l)| == 1 ==> !YieldList(l)[0].klass.K_void?)
  {
    LastIsEnd(names, l.arg);
    if l.Snoc? { ListEnds(names, l.init); }
  }

  lemma {:induction false} ListEnds(names: set<string>, l: ArgList)
    requires DerivesList(names, l)
    ensures |YieldList(l)| > 0 && IsEnd(YieldList(l), |YieldList(l)| - 1)
  {
    LastIsEnd(names, l.arg);
    if l.Snoc? { LastBehind(names, YieldList(l.init), l.comma, l.arg); }
  }

  lemma {:induction false} ListIsUnique(names: set<string>, l: ArgList, l1: ArgList)
    requires DerivesList(names, l) && DerivesList(names, l1) && YieldList(l) == YieldList(l1)
    ensures l == l1
    decreases l
  {
    if l.Single? && l1.Single? {
      CstIsUnique(names, l.arg, l1.arg);
    } else if l.Single? {
      InitNoShorter(names, l, l1);
    } else if l1.Single? {
      InitNoShorter(names, l1, l);
    } else {
      InitNoShorter(names, l, l1);
      InitNoShorter(names, l1, l);
      SameParts(YieldList(l.init), l.comma, Yield(l.arg), YieldList(l1.init), l1.comma, Yield(l1.arg));
      ListIsUnique(names, l.init, l1.init);
      CstIsUnique(names, l.arg, l1.arg);
    }
  }

  function InitSize(l: ArgList): int { if l.Single? then -1 else |YieldList(l.init)| }

  /** The last comma of a list outside nesting is the one in front of its last argument. */
  lemma InitNoShorter(names: set<string>, l: ArgList, l1: ArgList)
    requires DerivesList(names, l) && DerivesList(names, l1) && YieldList(l) == YieldList(l1) && l1.Snoc?
    ensures InitSize(l) >= InitSize(l1)
  {
    hide IsPivot, IsEnd, Nesting, Derives, Yield, LevelAt, Level, IsLoose;
    var n := InitSize(l1);
    if InitSize(l) < n {
      CommaIsPivot(names, l1);
      if l.Single? {
        PivotsAreTight(names, l.arg, n);
      } else {
        ListIsBalanced(names, l.init);
        CommaIsLoose(names, l);
        LooseEndsNothing(YieldList(l.init), l.comma);
        PivotAround(YieldList(l.init), l.comma, Yield(l.arg), n);
        PivotsAreTight(names, l.arg, n - InitSize(l) - 1);
      }
    }
  }

  lemma CommaIsLoose(names: set<string>, l: ArgList)
    requires DerivesList(names, l) && l.Snoc?
    ensures DerivesList(names, l.init) && IsLoose(l.comma.klass) && LevelAt(l.comma.klass) == -3
  {
    hide Derives;
  }

  lemma CommaIsPivot(names: set<string>, l: ArgList)
    requires DerivesList(names, l) && l.Snoc?
    ensures var n := |YieldList(l.init)|;
            n < |YieldList(l)| && IsPivot(YieldList(l), n) && YieldList(l)[n] == l.comma && LevelAt(l.comma.klass) == -3
  {
    hide Nesting, IsEnd, Derives, DerivesList, Yield, TryParseBinaryOp, TryParseAssignmentOp;
    var init := YieldList(l.init);
    CommaIsLoose(names, l);
    ListEnds(names, l.init);
    ListIsBalanced(names, l.init);
    EndInPrefix(init, [l.comma] + Yield(l.arg), |init| - 1);
    assert init + [l.comma] + Yield(l.arg) == init + ([l.comma] + Yield(l.arg));
    assert YieldList(l)[..|init|] == init;
  }
}
