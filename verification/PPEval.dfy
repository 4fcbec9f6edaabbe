/** The `#if` expression evaluator: an operator-precedence machine with a value stack and an
    operator stack, proved sound and complete for the layered expression grammar of section 3.3
    of the OpenGL Shading Language 4.60 specification. */
module PPEval {
  import opened Tokens

  // ---------------------------------------------------------------------------------------
  // Operators
  // ---------------------------------------------------------------------------------------

  datatype PPOperator =
    | ParenOp
    | Identity | Negate | BitNot | LogicalNot
    | Multiply | Divide | Modulo
    | Add | Subtract
    | ShiftLeft | ShiftRight
    | Less | LessOrEqual | Greater | GreaterOrEqual
    | EqualTo | NotEqualTo
    | BitAnd | BitXor | BitOr
    | LogicalAnd | LogicalOr

  datatype PPOperatorInfo = PPOperatorInfo(op: PPOperator, precedence: int, isUnary: bool) {
    predicate IsLeftAssociative() { !isUnary }

    predicate HasHigherPrecedenceThan(other: PPOperatorInfo) { precedence < other.precedence }
  }

  const PAREN_OPERATOR := PPOperatorInfo(ParenOp, 999, false)

  function ParseUnaryPPOperator(klass: TokenKlass): (r: Option<PPOperatorInfo>)
    ensures r.Some? ==> r.value.isUnary && r.value.precedence == 2 && r.value.op != ParenOp
  {
    match klass
    case Plus => Some(PPOperatorInfo(Identity, 2, true))
    case Dash => Some(PPOperatorInfo(Negate, 2, true))
    case Tilde => Some(PPOperatorInfo(BitNot, 2, true))
    case Bang => Some(PPOperatorInfo(LogicalNot, 2, true))
    case _ => None
  }

  function ParseBinaryPPOperator(klass: TokenKlass): (r: Option<PPOperatorInfo>)
    ensures r.Some? ==> !r.value.isUnary && 3 <= r.value.precedence <= 12 && r.value.op != ParenOp
    ensures klass.RParen? ==> r.None?
  {
    match klass
    case Star => Some(PPOperatorInfo(Multiply, 3, false))
    case Slash => Some(PPOperatorInfo(Divide, 3, false))
    case Percent => Some(PPOperatorInfo(Modulo, 3, false))
    case Plus => Some(PPOperatorInfo(Add, 4, false))
    case Dash => Some(PPOperatorInfo(Subtract, 4, false))
    case LShift => Some(PPOperatorInfo(ShiftLeft, 5, false))
    case RShift => Some(PPOperatorInfo(ShiftRight, 5, false))
    case LAngle => Some(PPOperatorInfo(Less, 6, false))
    case LessEq => Some(PPOperatorInfo(LessOrEqual, 6, false))
    case RAngle => Some(PPOperatorInfo(Greater, 6, false))
    case GreaterEq => Some(PPOperatorInfo(GreaterOrEqual, 6, false))
    case Equal => Some(PPOperatorInfo(EqualTo, 7, false))
    case NotEqual => Some(PPOperatorInfo(NotEqualTo, 7, false))
    case Ampersand => Some(PPOperatorInfo(BitAnd, 8, false))
    case Caret => Some(PPOperatorInfo(BitXor, 9, false))
    case VerticalBar => Some(PPOperatorInfo(BitOr, 10, false))
    case And => Some(PPOperatorInfo(LogicalAnd, 11, false))
    case Or => Some(PPOperatorInfo(LogicalOr, 12, false))
    case _ => None
  }

  /** What the evaluator takes from elsewhere: the value of a number literal (absent when it is
      neither a 32-bit `int` nor a 32-bit `uint`), and 64-bit arithmetic. */
  datatype Semantics = Semantics(
    literal: string -> Option<int>,
    apply: (PPOperator, int, int) -> int)

  /** The value of an operand token; absent when the token cannot start as an operand. */
  function OperandValue(sem: Semantics, tok: Token): Option<int> {
    match tok.klass
    case NumberLiteral => sem.literal(tok.text)
    case DefinedYes => Some(1)
    case DefinedNo => Some(0)
    case Identifier => Some(0)
    case _ => None
  }

  // ---------------------------------------------------------------------------------------
  // The layered grammar
  // ---------------------------------------------------------------------------------------

  /** A parse tree, down to its tokens. */
  datatype Tree =
    | Operand(tok: Token)
    | Paren(open: Token, inner: Tree, close: Token)
    | Prefix(opTok: Token, arg: Tree)
    | Infix(lhs: Tree, opTok: Token, rhs: Tree)

  /** The grammar layer of a tree: 1 for operands and parentheses, 2 for prefix operators,
      3 to 12 for the binary operators. */
  function Layer(t: Tree): int {
    match t
    case Operand(_) => 1
    case Paren(_, _, _) => 1
    case Prefix(_, _) => 2
    case Infix(_, op, _) =>
      var info := ParseBinaryPPOperator(op.klass);
      if info.Some? then info.value.precedence else 0
  }

  /** The tree follows the grammar: a prefix operator applies to layers 1 and 2, and a binary
      operator of layer `p` has a left operand of layer at most `p` and a right operand of a
      layer below `p`. */
  predicate Derives(sem: Semantics, t: Tree) {
    match t
    case Operand(tok) => OperandValue(sem, tok).Some?
    case Paren(open, inner, close) =>
      open.klass.LParen? && close.klass.RParen? && Derives(sem, inner)
    case Prefix(op, arg) =>
      ParseUnaryPPOperator(op.klass).Some? && Derives(sem, arg) && Layer(arg) <= 2
    case Infix(l, op, r) =>
      && ParseBinaryPPOperator(op.klass).Some?
      && Derives(sem, l) && Derives(sem, r)
      && Layer(l) <= Layer(t) && Layer(r) < Layer(t)
  }

  function Yield(t: Tree): seq<Token> {
    match t
    case Operand(tok) => [tok]
    case Paren(open, inner, close) => [open] + Yield(inner) + [close]
    case Prefix(op, arg) => [op] + Yield(arg)
    case Infix(l, op, r) => Yield(l) + [op] + Yield(r)
  }

  function Value(sem: Semantics, t: Tree): int
    requires Derives(sem, t)
  {
    match t
    case Operand(tok) => OperandValue(sem, tok).value
    case Paren(_, inner, _) => Value(sem, inner)
    case Prefix(op, arg) => sem.apply(ParseUnaryPPOperator(op.klass).value.op, Value(sem, arg), 0)
    case Infix(l, op, r) =>
      sem.apply(ParseBinaryPPOperator(op.klass).value.op, Value(sem, l), Value(sem, r))
  }

  /** `tokens` is a sentence of the grammar and `v` the value of a parse tree of it. */
  ghost predicate Denotes(sem: Semantics, tokens: seq<Token>, v: int) {
    exists t :: Derives(sem, t) && Yield(t) == tokens && Value(sem, t) == v
  }

  // ---------------------------------------------------------------------------------------
  // The machine, as a function of its two stacks
  // ---------------------------------------------------------------------------------------

  datatype Machine = Machine(values: seq<int>, ops: seq<PPOperatorInfo>)

  function EvalTop(sem: Semantics, m: Machine): Option<Machine> {
    if |m.ops| == 0 then None
    else
      var top := m.ops[|m.ops| - 1];
      var rest := m.ops[..|m.ops| - 1];
      var n := |m.values|;
      if top.op == ParenOp then None
      else if top.isUnary then
        if n == 0 then None
        else Some(Machine(m.values[..n - 1] + [sem.apply(top.op, m.values[n - 1], 0)], rest))
      else
        if n < 2 then None
        else Some(Machine(m.values[..n - 2] + [sem.apply(top.op, m.values[n - 2], m.values[n - 1])], rest))
  }

  predicate MustReduce(top: PPOperatorInfo, op: PPOperatorInfo) {
    top.HasHigherPrecedenceThan(op) || (top.precedence == op.precedence && op.IsLeftAssociative())
  }

  function Push(sem: Semantics, m: Machine, op: PPOperatorInfo): Option<Machine>
    decreases |m.ops|
  {
    if |m.ops| > 0 && MustReduce(m.ops[|m.ops| - 1], op) then
      var m1 := EvalTop(sem, m);
      if m1.None? then None else Push(sem, m1.value, op)
    else
      Some(m.(ops := m.ops + [op]))
  }

  /** Evaluate down to the innermost open parenthesis and drop it. */
  function Close(sem: Semantics, m: Machine): Option<Machine>
    decreases |m.ops|
  {
    if |m.ops| == 0 then None
    else if m.ops[|m.ops| - 1].op == ParenOp then Some(m.(ops := m.ops[..|m.ops| - 1]))
    else
      var m1 := EvalTop(sem, m);
      if m1.None? then None else Close(sem, m1.value)
  }

  function Drain(sem: Semantics, m: Machine): Option<Machine>
    decreases |m.ops|
  {
    if |m.ops| == 0 then Some(m)
    else
      var m1 := EvalTop(sem, m);
      if m1.None? then None else Drain(sem, m1.value)
  }

  function Result(sem: Semantics, m: Machine): Option<int> {
    match Drain(sem, m)
    case None => None
    case Some(m1) => if |m1.values| == 1 then Some(m1.values[0]) else None
  }

  datatype Config = Config(machine: Machine, parsedLhs: bool)

  function Step(sem: Semantics, c: Config, tok: Token): Option<Config> {
    var m := c.machine;
    if c.parsedLhs then
      if tok.klass.RParen? then
        match Close(sem, m) case None => None case Some(m1) => Some(Config(m1, true))
      else
        match ParseBinaryPPOperator(tok.klass)
        case None => None
        case Some(op) => match Push(sem, m, op) case None => None case Some(m1) => Some(Config(m1, false))
    else
      match OperandValue(sem, tok)
      case Some(v) => Some(Config(m.(values := m.values + [v]), true))
      case None =>
        if tok.klass.LParen? then Some(Config(m.(ops := m.ops + [PAREN_OPERATOR]), false))
        else
          match ParseUnaryPPOperator(tok.klass)
          case None => None
          case Some(op) => match Push(sem, m, op) case None => None case Some(m1) => Some(Config(m1, false))
  }

  function Run(sem: Semantics, c: Config, tokens: seq<Token>): Option<int>
    decreases |tokens|
  {
    if tokens == [] then Result(sem, c.machine)
    else
      match Step(sem, c, tokens[0])
      case None => None
      case Some(c1) => Run(sem, c1, tokens[1..])
  }

  function Evaluate(sem: Semantics, tokens: seq<Token>): Option<int> {
    Run(sem, Config(Machine([], []), false), tokens)
  }

  // ---------------------------------------------------------------------------------------
  // Completeness: every sentence evaluates to the value of each of its parse trees
  // ---------------------------------------------------------------------------------------

  /** The operators above height `n` all bind at least as tightly as layer `p`, and evaluating
      them leaves the stacks `done`. */
  ghost predicate Settles(sem: Semantics, m: Machine, done: Machine, p: int)
    decreases |m.ops|
  {
    if |m.ops| <= |done.ops| then m == done
    else
      var top := m.ops[|m.ops| - 1];
      && top.op != ParenOp && 2 <= top.precedence <= p
      && EvalTop(sem, m).Some? && Settles(sem, EvalTop(sem, m).value, done, p)
  }

  /** The operator on top of the stack waits for an operand of the layer of `t`. */
  predicate Awaits(ops: seq<PPOperatorInfo>, layer: int) {
    |ops| > 0 ==>
      var top := ops[|ops| - 1];
      (layer < top.precedence || (layer <= 2 && top.precedence == 2)) && (top.isUnary <==> top.precedence == 2)
  }

  lemma SettlesWeaken(sem: Semantics, m: Machine, done: Machine, p: int, q: int)
    requires Settles(sem, m, done, p) && p <= q
    ensures Settles(sem, m, done, q)
    decreases |m.ops|
  {
    if |m.ops| > |done.ops| { SettlesWeaken(sem, EvalTop(sem, m).value, done, p, q); }
  }

  lemma SettlesTrans(sem: Semantics, m: Machine, mid: Machine, done: Machine, p: int)
    requires Settles(sem, m, mid, p) && Settles(sem, mid, done, p)
    ensures Settles(sem, m, done, p)
    decreases |m.ops|
  {
    if |m.ops| > |mid.ops| { SettlesTrans(sem, EvalTop(sem, m).value, mid, done, p); }
  }

  lemma {:induction false} PushSettled(sem: Semantics, m: Machine, done: Machine, p: int, op: PPOperatorInfo)
    requires Settles(sem, m, done, p) && p <= op.precedence && !op.isUnary
    ensures Push(sem, m, op) == Push(sem, done, op)
    decreases |m.ops|
  {
    if |m.ops| > |done.ops| { PushSettled(sem, EvalTop(sem, m).value, done, p, op); }
  }

  lemma {:induction false} CloseSettled(sem: Semantics, m: Machine, done: Machine, p: int)
    requires Settles(sem, m, done, p)
    requires |done.ops| > 0 && done.ops[|done.ops| - 1].op == ParenOp
    ensures Close(sem, m) == Some(done.(ops := done.ops[..|done.ops| - 1]))
    decreases |m.ops|
  {
    if |m.ops| > |done.ops| { CloseSettled(sem, EvalTop(sem, m).value, done, p); }
  }

  lemma {:induction false} DrainSettled(sem: Semantics, m: Machine, done: Machine, p: int)
    requires Settles(sem, m, done, p) && done.ops == []
    ensures Drain(sem, m) == Some(done)
    decreases |m.ops|
  {
    if |m.ops| > 0 { DrainSettled(sem, EvalTop(sem, m).value, done, p); }
  }

  /** Running one step in front of the remaining tokens. */
  lemma RunCons(sem: Semantics, c: Config, tok: Token, rest: seq<Token>)
    ensures Run(sem, c, [tok] + rest) ==
            match Step(sem, c, tok) case None => None case Some(c1) => Run(sem, c1, rest)
  {
    assert ([tok] + rest)[1..] == rest;
  }

  function Pushed(sem: Semantics, m: Machine, t: Tree): Machine
    requires Derives(sem, t)
  {
    m.(values := m.values + [Value(sem, t)])
  }

  /** Reading a whole subtree leaves, up to operators that any later operator of an outer layer
      evaluates first, the stacks as they were with the value of the subtree on top. */
  lemma {:induction false} RunTree(sem: Semantics, m: Machine, t: Tree, rest: seq<Token>) returns (m1: Machine)
    requires Derives(sem, t) && Awaits(m.ops, Layer(t))
    ensures Settles(sem, m1, Pushed(sem, m, t), Layer(t))
    ensures Run(sem, Config(m, false), Yield(t) + rest) == Run(sem, Config(m1, true), rest)
    decreases t
  {
    match t
    case Operand(tok) =>
      m1 := Pushed(sem, m, t);
      RunCons(sem, Config(m, false), tok, rest);
    case Paren(open, inner, close) => m1 := RunParen(sem, m, t, rest);
    case Prefix(op, arg) => m1 := RunPrefix(sem, m, t, rest);
    case Infix(l, op, r) => m1 := RunInfix(sem, m, t, rest);
  }

  lemma {:induction false} RunParen(sem: Semantics, m: Machine, t: Tree, rest: seq<Token>) returns (m1: Machine)
    requires t.Paren? && Derives(sem, t)
    ensures m1 == Pushed(sem, m, t)
    ensures Run(sem, Config(m, false), Yield(t) + rest) == Run(sem, Config(m1, true), rest)
    decreases t, 0
  {
    hide ParseBinaryPPOperator, ParseUnaryPPOperator, Push, EvalTop;
    m1 := Pushed(sem, m, t);
    var inside := m.(ops := m.ops + [PAREN_OPERATOR]);
    assert Yield(t) + rest == [t.open] + (Yield(t.inner) + ([t.close] + rest));
    RunCons(sem, Config(m, false), t.open, Yield(t.inner) + ([t.close] + rest));
    var m2 := RunTree(sem, inside, t.inner, [t.close] + rest);
    CloseSettled(sem, m2, Pushed(sem, inside, t.inner), Layer(t.inner));
    assert inside.ops[..|inside.ops| - 1] == m.ops;
    RunCons(sem, Config(m2, true), t.close, rest);
  }

  lemma {:induction false} RunPrefix(sem: Semantics, m: Machine, t: Tree, rest: seq<Token>) returns (m1: Machine)
    requires t.Prefix? && Derives(sem, t) && Awaits(m.ops, Layer(t))
    ensures Settles(sem, m1, Pushed(sem, m, t), 2)
    ensures Run(sem, Config(m, false), Yield(t) + rest) == Run(sem, Config(m1, true), rest)
    decreases t, 0
  {
    hide ParseBinaryPPOperator, EvalTop, Settles;
    var op := ParseUnaryPPOperator(t.opTok.klass).value;
    var next := m.(ops := m.ops + [op]);
    assert Yield(t) + rest == [t.opTok] + (Yield(t.arg) + rest);
    RunCons(sem, Config(m, false), t.opTok, Yield(t.arg) + rest);
    m1 := RunTree(sem, next, t.arg, rest);
    SettlesWeaken(sem, m1, Pushed(sem, next, t.arg), Layer(t.arg), 2);
    EvalTopPrefix(sem, m, t);
    SettlesTrans(sem, m1, Pushed(sem, next, t.arg), Pushed(sem, m, t), 2);
  }

  lemma EvalTopPrefix(sem: Semantics, m: Machine, t: Tree)
    requires t.Prefix? && Derives(sem, t)
    ensures var next := Pushed(sem, m.(ops := m.ops + [ParseUnaryPPOperator(t.opTok.klass).value]), t.arg);
            EvalTop(sem, next) == Some(Pushed(sem, m, t)) && Settles(sem, next, Pushed(sem, m, t), 2)
  {
    hide ParseBinaryPPOperator;
    var next := m.(ops := m.ops + [ParseUnaryPPOperator(t.opTok.klass).value]);
    assert next.ops[..|next.ops| - 1] == m.ops;
    assert Pushed(sem, next, t.arg).values[..|m.values|] == m.values;
    assert EvalTop(sem, Pushed(sem, next, t.arg)) == Some(Pushed(sem, m, t));
  }

  function BothPushed(sem: Semantics, m: Machine, t: Tree): Machine
    requires t.Infix? && Derives(sem, t)
  {
    Machine(m.values + [Value(sem, t.lhs)] + [Value(sem, t.rhs)],
            m.ops + [ParseBinaryPPOperator(t.opTok.klass).value])
  }

  lemma EvalTopInfix(sem: Semantics, m: Machine, t: Tree)
    requires t.Infix? && Derives(sem, t)
    ensures EvalTop(sem, BothPushed(sem, m, t)) == Some(Pushed(sem, m, t))
    ensures Settles(sem, BothPushed(sem, m, t), Pushed(sem, m, t), Layer(t))
  {
    var both := BothPushed(sem, m, t);
    assert both.ops[..|both.ops| - 1] == m.ops;
    assert both.values[..|both.values| - 2] == m.values;
    assert EvalTop(sem, both) == Some(Pushed(sem, m, t));
  }

  function LeftPushed(sem: Semantics, m: Machine, t: Tree): Machine
    requires t.Infix? && Derives(sem, t)
  {
    Machine(m.values + [Value(sem, t.lhs)], m.ops + [ParseBinaryPPOperator(t.opTok.klass).value])
  }

  /** The left operand of a binary operator, and the operator. */
  lemma {:induction false} RunLeft(sem: Semantics, m: Machine, t: Tree, rest: seq<Token>)
    requires t.Infix? && Derives(sem, t) && Awaits(m.ops, Layer(t))
    ensures Run(sem, Config(m, false), Yield(t.lhs) + ([t.opTok] + rest)) ==
            Run(sem, Config(LeftPushed(sem, m, t), false), rest)
    decreases t, 0
  {
    hide ParseBinaryPPOperator, Push, Step, Settles, EvalTop;
    var op := ParseBinaryPPOperator(t.opTok.klass).value;
    var m1 := RunTree(sem, m, t.lhs, [t.opTok] + rest);
    PushSettled(sem, m1, Pushed(sem, m, t.lhs), Layer(t.lhs), op);
    PushLeft(sem, m, t);
    StepOperator(sem, m1, t.opTok);
    RunCons(sem, Config(m1, true), t.opTok, rest);
  }

  lemma PushLeft(sem: Semantics, m: Machine, t: Tree)
    requires t.Infix? && Derives(sem, t) && Awaits(m.ops, Layer(t))
    ensures Push(sem, Pushed(sem, m, t.lhs), ParseBinaryPPOperator(t.opTok.klass).value) == Some(LeftPushed(sem, m, t))
  {
    hide ParseBinaryPPOperator;
  }

  lemma StepOperator(sem: Semantics, m: Machine, tok: Token)
    requires ParseBinaryPPOperator(tok.klass).Some?
    ensures Step(sem, Config(m, true), tok) ==
            match Push(sem, m, ParseBinaryPPOperator(tok.klass).value)
            case None => None
            case Some(m1) => Some(Config(m1, false))
  {
    hide Push;
  }

  lemma {:induction false} RunInfix(sem: Semantics, m: Machine, t: Tree, rest: seq<Token>) returns (m1: Machine)
    requires t.Infix? && Derives(sem, t) && Awaits(m.ops, Layer(t))
    ensures Settles(sem, m1, Pushed(sem, m, t), Layer(t))
    ensures Run(sem, Config(m, false), Yield(t) + rest) == Run(sem, Config(m1, true), rest)
    decreases t, 1
  {
    hide ParseBinaryPPOperator;
    assert Yield(t) + rest == Yield(t.lhs) + ([t.opTok] + (Yield(t.rhs) + rest));
    RunLeft(sem, m, t, Yield(t.rhs) + rest);
    m1 := RunTree(sem, LeftPushed(sem, m, t), t.rhs, rest);
    SettlesWeaken(sem, m1, BothPushed(sem, m, t), Layer(t.rhs), Layer(t));
    EvalTopInfix(sem, m, t);
    SettlesTrans(sem, m1, BothPushed(sem, m, t), Pushed(sem, m, t), Layer(t));
  }

  /** Completeness, which also makes the value independent of the parse tree chosen. */
  lemma {:induction false} EvaluateComplete(sem: Semantics, t: Tree)
    requires Derives(sem, t)
    ensures Evaluate(sem, Yield(t)) == Some(Value(sem, t))
  {
    var start := Machine([], []);
    var m1 := RunTree(sem, start, t, []);
    assert Yield(t) + [] == Yield(t);
    DrainSettled(sem, m1, Pushed(sem, start, t), Layer(t));
  }

  // ---------------------------------------------------------------------------------------
  // Soundness: a value comes from a parse tree of the tokens read
  // ---------------------------------------------------------------------------------------

  /** What the stacks hold, spelled out: a parse tree per value and a token per operator. */
  datatype Shadow = Shadow(trees: seq<Tree>, opToks: seq<Token>)

  /** A tree of this layer may become the operand of the operator on top. */
  predicate Fits(ops: seq<PPOperatorInfo>, layer: int) {
    |ops| > 0 ==>
      var top := ops[|ops| - 1];
      top.op == ParenOp || (if top.isUnary then layer <= 2 else layer < top.precedence)
  }

  predicate OpensWith(top: PPOperatorInfo, tok: Token) {
    || (top == PAREN_OPERATOR && tok.klass.LParen?)
    || (top.isUnary && ParseUnaryPPOperator(tok.klass) == Some(top))
  }

  /** The stacks spell out exactly `read`, and an operand is expected next. */
  ghost predicate ExpectsOperand(sem: Semantics, m: Machine, sh: Shadow, read: seq<Token>)
    decreases |m.ops|, 0
  {
    if |m.ops| == 0 then m.values == [] && sh == Shadow([], []) && read == []
    else if |sh.opToks| != |m.ops| || |read| == 0 then false
    else
      var top := m.ops[|m.ops| - 1];
      var tok := sh.opToks[|m.ops| - 1];
      var below := m.(ops := m.ops[..|m.ops| - 1]);
      var sh1 := sh.(opToks := sh.opToks[..|m.ops| - 1]);
      var read1 := read[..|read| - 1];
      && read[|read| - 1] == tok
      && if OpensWith(top, tok) then ExpectsOperand(sem, below, sh1, read1)
         else
           && ParseBinaryPPOperator(tok.klass) == Some(top)
           && ExpectsOperator(sem, below, sh1, read1)
           && Layer(sh1.trees[|sh1.trees| - 1]) <= top.precedence
           && Fits(below.ops, top.precedence)
  }

  /** The stacks spell out exactly `read`, and an operand has just been completed. */
  ghost predicate ExpectsOperator(sem: Semantics, m: Machine, sh: Shadow, read: seq<Token>)
    decreases |m.ops|, 1
  {
    if |m.values| == 0 || |sh.trees| != |m.values| then false
    else
      var t := sh.trees[|sh.trees| - 1];
      var k := |read| - |Yield(t)|;
      && Derives(sem, t) && Value(sem, t) == m.values[|m.values| - 1]
      && Fits(m.ops, Layer(t))
      && k >= 0 && read[k..] == Yield(t)
      && ExpectsOperand(sem, m.(values := m.values[..|m.values| - 1]),
                        sh.(trees := sh.trees[..|sh.trees| - 1]), read[..k])
  }

  function LastTree(sh: Shadow): Tree
    requires |sh.trees| > 0
  {
    sh.trees[|sh.trees| - 1]
  }

  /** Completing an operand `t` in a state that expects one. */
  lemma CompleteOperand(sem: Semantics, m: Machine, sh: Shadow, read: seq<Token>, t: Tree) returns (sh1: Shadow)
    requires ExpectsOperand(sem, m, sh, read) && Derives(sem, t) && Fits(m.ops, Layer(t))
    requires |sh.trees| == |m.values|
    ensures sh1 == sh.(trees := sh.trees + [t])
    ensures ExpectsOperator(sem, Pushed(sem, m, t), sh1, read + Yield(t))
  {
    sh1 := sh.(trees := sh.trees + [t]);
    assert (read + Yield(t))[|read|..] == Yield(t);
    assert (read + Yield(t))[..|read|] == read;
    assert sh1.trees[..|sh.trees|] == sh.trees;
    assert Pushed(sem, m, t).values[..|m.values|] == m.values;
  }

  lemma {:induction false} ShadowSizes(sem: Semantics, m: Machine, sh: Shadow, read: seq<Token>)
    ensures ExpectsOperand(sem, m, sh, read) ==> |sh.trees| == |m.values| == Binaries(m.ops)
    ensures ExpectsOperator(sem, m, sh, read) ==> |sh.trees| == |m.values| == Binaries(m.ops) + 1
    decreases |m.ops|
  {
    if ExpectsOperator(sem, m, sh, read) {
      var k := |read| - |Yield(LastTree(sh))|;
      ShadowSizesOperand(sem, m.(values := m.values[..|m.values| - 1]),
                         sh.(trees := sh.trees[..|sh.trees| - 1]), read[..k]);
    }
    if ExpectsOperand(sem, m, sh, read) { ShadowSizesOperand(sem, m, sh, read); }
  }

  lemma {:induction false} ShadowSizesOperand(sem: Semantics, m: Machine, sh: Shadow, read: seq<Token>)
    requires ExpectsOperand(sem, m, sh, read)
    ensures |sh.trees| == |m.values| == Binaries(m.ops)
    decreases |m.ops|, 0
  {
    if |m.ops| > 0 {
      ShadowSizes(sem, m.(ops := m.ops[..|m.ops| - 1]), sh.(opToks := sh.opToks[..|m.ops| - 1]), read[..|read| - 1]);
    }
  }

  /** The number of binary operators on the stack. */
  function Binaries(ops: seq<PPOperatorInfo>): nat {
    if |ops| == 0 then 0
    else
      var top := ops[|ops| - 1];
      Binaries(ops[..|ops| - 1]) + (if top.isUnary || top.op == ParenOp then 0 else 1)
  }

  lemma OperatorTokens(sem: Semantics, m: Machine, sh: Shadow, read: seq<Token>)
    requires ExpectsOperand(sem, m, sh, read) || ExpectsOperator(sem, m, sh, read)
    ensures |sh.opToks| == |m.ops| && |sh.trees| == |m.values|
    ensures |m.ops| > 0 && m.ops[|m.ops| - 1].op == ParenOp ==> m.ops[|m.ops| - 1] == PAREN_OPERATOR
    ensures ExpectsOperand(sem, m, sh, read) && |m.ops| > 0 ==> Fits(m.ops, 2) && m.ops[|m.ops| - 1].precedence >= 2
  {
    hide ParseBinaryPPOperator, ParseUnaryPPOperator;
    ShadowSizes(sem, m, sh, read);
  }

  /** Taking the completed operand off. */
  lemma PopOperand(sem: Semantics, m: Machine, sh: Shadow, read: seq<Token>)
    returns (under: Machine, shUnder: Shadow, read1: seq<Token>, t: Tree)
    requires ExpectsOperator(sem, m, sh, read)
    ensures t == LastTree(sh) && Derives(sem, t) && m == Pushed(sem, under, t) && under.ops == m.ops
    ensures sh.trees == shUnder.trees + [t] && sh.opToks == shUnder.opToks
    ensures read == read1 + Yield(t) && Fits(m.ops, Layer(t))
    ensures ExpectsOperand(sem, under, shUnder, read1)
    ensures |shUnder.trees| == |under.values|
  {
    t := LastTree(sh);
    under := m.(values := m.values[..|m.values| - 1]);
    shUnder := sh.(trees := sh.trees[..|sh.trees| - 1]);
    read1 := read[..|read| - |Yield(t)|];
  }

  /** Taking off an operator that waits for its only operand. */
  lemma PopOpening(sem: Semantics, m: Machine, sh: Shadow, read: seq<Token>)
    returns (below: Machine, shBelow: Shadow, read1: seq<Token>, tok: Token)
    requires ExpectsOperand(sem, m, sh, read) && |m.ops| > 0
    requires m.ops[|m.ops| - 1].op == ParenOp || m.ops[|m.ops| - 1].isUnary
    ensures m == below.(ops := below.ops + [m.ops[|m.ops| - 1]])
    ensures sh == shBelow.(opToks := shBelow.opToks + [tok])
    ensures OpensWith(m.ops[|m.ops| - 1], tok) && read == read1 + [tok]
    ensures ExpectsOperand(sem, below, shBelow, read1) && Fits(below.ops, 2)
  {
    hide ParseBinaryPPOperator, ParseUnaryPPOperator;
    var n := |m.ops| - 1;
    below, shBelow := m.(ops := m.ops[..n]), sh.(opToks := sh.opToks[..n]);
    read1, tok := read[..|read| - 1], sh.opToks[n];
  }

  /** Taking off an operator that already has its left operand. */
  lemma PopBinary(sem: Semantics, m: Machine, sh: Shadow, read: seq<Token>)
    returns (below: Machine, shBelow: Shadow, read1: seq<Token>, tok: Token)
    requires ExpectsOperand(sem, m, sh, read) && |m.ops| > 0
    requires m.ops[|m.ops| - 1].op != ParenOp && !m.ops[|m.ops| - 1].isUnary
    ensures m == below.(ops := below.ops + [m.ops[|m.ops| - 1]])
    ensures sh == shBelow.(opToks := shBelow.opToks + [tok])
    ensures ParseBinaryPPOperator(tok.klass) == Some(m.ops[|m.ops| - 1]) && read == read1 + [tok]
    ensures ExpectsOperator(sem, below, shBelow, read1)
    ensures Layer(LastTree(shBelow)) <= m.ops[|m.ops| - 1].precedence
    ensures Fits(below.ops, m.ops[|m.ops| - 1].precedence)
  {
    hide ParseBinaryPPOperator, ParseUnaryPPOperator;
    var n := |m.ops| - 1;
    below, shBelow := m.(ops := m.ops[..n]), sh.(opToks := sh.opToks[..n]);
    read1, tok := read[..|read| - 1], sh.opToks[n];
  }

  lemma EvalUnarySound(sem: Semantics, m: Machine, sh: Shadow, read: seq<Token>) returns (sh1: Shadow)
    requires ExpectsOperator(sem, m, sh, read)
    requires |m.ops| > 0 && m.ops[|m.ops| - 1].op != ParenOp && m.ops[|m.ops| - 1].isUnary
    ensures EvalTop(sem, m).Some? && ExpectsOperator(sem, EvalTop(sem, m).value, sh1, read)
    ensures Layer(LastTree(sh1)) == m.ops[|m.ops| - 1].precedence
  {
    hide ParseBinaryPPOperator, ParseUnaryPPOperator, ExpectsOperand, ExpectsOperator;
    var under, shUnder, read1, t := PopOperand(sem, m, sh, read);
    var below, shBelow, read2, tok := PopOpening(sem, under, shUnder, read1);
    sh1 := CompleteOperand(sem, below, shBelow, read2, Prefix(tok, t));
    assert read == read2 + ([tok] + Yield(t));
  }

  lemma InfixOfPops(sem: Semantics, m: Machine, under: Machine, mid: Machine, base: Machine, t: Tree, front: seq<Token>)
    requires t.Infix? && Derives(sem, t.lhs) && Derives(sem, t.rhs)
    requires m == Pushed(sem, under, t.rhs) && mid == Pushed(sem, base, t.lhs)
    requires ParseBinaryPPOperator(t.opTok.klass).Some?
    requires under == mid.(ops := mid.ops + [ParseBinaryPPOperator(t.opTok.klass).value])
    requires Layer(t.lhs) <= Layer(t) && Layer(t.rhs) < Layer(t)
    ensures Derives(sem, t) && m == BothPushed(sem, base, t)
    ensures front + Yield(t.lhs) + [t.opTok] + Yield(t.rhs) == front + Yield(t)
  {
  }

  /** Taking off a binary operator with both its operands. */
  lemma PopBoth(sem: Semantics, m: Machine, sh: Shadow, read: seq<Token>)
    returns (base: Machine, shBase: Shadow, read1: seq<Token>, t: Tree)
    requires ExpectsOperator(sem, m, sh, read)
    requires |m.ops| > 0 && m.ops[|m.ops| - 1].op != ParenOp && !m.ops[|m.ops| - 1].isUnary
    ensures ExpectsOperand(sem, base, shBase, read1) && |shBase.trees| == |base.values|
    ensures t.Infix? && Derives(sem, t) && m == BothPushed(sem, base, t)
    ensures Layer(t) == m.ops[|m.ops| - 1].precedence && Fits(base.ops, Layer(t))
    ensures read == read1 + Yield(t)
  {
    hide ParseBinaryPPOperator, ParseUnaryPPOperator, ExpectsOperand, ExpectsOperator, Pushed, BothPushed, Yield,
      Derives;
    var under, shUnder, read3, r := PopOperand(sem, m, sh, read);
    var mid, shMid, read2, tok := PopBinary(sem, under, shUnder, read3);
    var l;
    base, shBase, read1, l := PopOperand(sem, mid, shMid, read2);
    t := Infix(l, tok, r);
    InfixOfPops(sem, m, under, mid, base, t, read1);
  }

  lemma EvalBinarySound(sem: Semantics, m: Machine, sh: Shadow, read: seq<Token>) returns (sh1: Shadow)
    requires ExpectsOperator(sem, m, sh, read)
    requires |m.ops| > 0 && m.ops[|m.ops| - 1].op != ParenOp && !m.ops[|m.ops| - 1].isUnary
    ensures EvalTop(sem, m).Some? && ExpectsOperator(sem, EvalTop(sem, m).value, sh1, read)
    ensures Layer(LastTree(sh1)) == m.ops[|m.ops| - 1].precedence
  {
    hide ParseBinaryPPOperator, ParseUnaryPPOperator, ExpectsOperand, ExpectsOperator, EvalTop, BothPushed, Yield,
      Derives, Layer;
    var base, shBase, read1, t := PopBoth(sem, m, sh, read);
    EvalTopInfix(sem, base, t);
    sh1 := CompleteOperand(sem, base, shBase, read1, t);
  }

  /** Evaluating the operator on top cannot fail, and builds the tree of that operator. */
  lemma EvalTopSound(sem: Semantics, m: Machine, sh: Shadow, read: seq<Token>) returns (sh1: Shadow)
    requires ExpectsOperator(sem, m, sh, read)
    requires |m.ops| > 0 && m.ops[|m.ops| - 1].op != ParenOp
    ensures EvalTop(sem, m).Some? && ExpectsOperator(sem, EvalTop(sem, m).value, sh1, read)
    ensures Layer(LastTree(sh1)) == m.ops[|m.ops| - 1].precedence
  {
    if m.ops[|m.ops| - 1].isUnary {
      sh1 := EvalUnarySound(sem, m, sh, read);
    } else {
      sh1 := EvalBinarySound(sem, m, sh, read);
    }
  }

  lemma {:induction false} PushSound(sem: Semantics, m: Machine, sh: Shadow, read: seq<Token>, tok: Token)
    returns (sh1: Shadow)
    requires ExpectsOperator(sem, m, sh, read)
    requires ParseBinaryPPOperator(tok.klass).Some?
    requires Layer(LastTree(sh)) <= ParseBinaryPPOperator(tok.klass).value.precedence
    ensures var m1 := Push(sem, m, ParseBinaryPPOperator(tok.klass).value);
            m1.Some? && ExpectsOperand(sem, m1.value, sh1, read + [tok])
    decreases |m.ops|
  {
    hide ParseBinaryPPOperator, ParseUnaryPPOperator;
    var op := ParseBinaryPPOperator(tok.klass).value;
    OperatorTokens(sem, m, sh, read);
    if |m.ops| > 0 && MustReduce(m.ops[|m.ops| - 1], op) {
      var sh2 := EvalTopSound(sem, m, sh, read);
      sh1 := PushSound(sem, EvalTop(sem, m).value, sh2, read, tok);
    } else {
      sh1 := sh.(opToks := sh.opToks + [tok]);
      assert sh1.opToks[..|m.ops|] == sh.opToks;
      assert (m.ops + [op])[..|m.ops|] == m.ops;
      assert (read + [tok])[..|read|] == read;
    }
  }

  lemma CloseParenSound(sem: Semantics, m: Machine, sh: Shadow, read: seq<Token>, tok: Token) returns (sh1: Shadow)
    requires ExpectsOperator(sem, m, sh, read) && tok.klass.RParen?
    requires |m.ops| > 0 && m.ops[|m.ops| - 1].op == ParenOp
    ensures ExpectsOperator(sem, m.(ops := m.ops[..|m.ops| - 1]), sh1, read + [tok])
    ensures Layer(LastTree(sh1)) == 1
  {
    hide ParseBinaryPPOperator, ParseUnaryPPOperator, ExpectsOperand, ExpectsOperator;
    var under, shUnder, read1, t := PopOperand(sem, m, sh, read);
    var below, shBelow, read2, open := PopOpening(sem, under, shUnder, read1);
    var paren := Paren(open, t, tok);
    assert read + [tok] == read2 + Yield(paren);
    sh1 := CompleteOperand(sem, below, shBelow, read2, paren);
    assert m.(ops := m.ops[..|m.ops| - 1]) == Pushed(sem, below, paren);
  }

  lemma {:induction false} CloseSound(sem: Semantics, m: Machine, sh: Shadow, read: seq<Token>, tok: Token)
    returns (sh1: Shadow)
    requires ExpectsOperator(sem, m, sh, read) && tok.klass.RParen?
    requires Close(sem, m).Some?
    ensures ExpectsOperator(sem, Close(sem, m).value, sh1, read + [tok])
    ensures Layer(LastTree(sh1)) == 1
    decreases |m.ops|
  {
    hide ParseBinaryPPOperator, ParseUnaryPPOperator, ExpectsOperand, ExpectsOperator, Layer;
    if m.ops[|m.ops| - 1].op == ParenOp {
      sh1 := CloseParenSound(sem, m, sh, read, tok);
    } else {
      var sh2 := EvalTopSound(sem, m, sh, read);
      sh1 := CloseSound(sem, EvalTop(sem, m).value, sh2, read, tok);
    }
  }

  /** Adding an operator that waits for its only operand. */
  lemma OpenSound(sem: Semantics, m: Machine, sh: Shadow, read: seq<Token>, info: PPOperatorInfo, tok: Token)
    returns (sh1: Shadow)
    requires ExpectsOperand(sem, m, sh, read) && OpensWith(info, tok)
    ensures ExpectsOperand(sem, m.(ops := m.ops + [info]), sh1, read + [tok])
  {
    hide ParseBinaryPPOperator, ParseUnaryPPOperator;
    OperatorTokens(sem, m, sh, read);
    sh1 := sh.(opToks := sh.opToks + [tok]);
    assert sh1.opToks[..|m.ops|] == sh.opToks;
    assert (m.ops + [info])[..|m.ops|] == m.ops;
    assert (read + [tok])[..|read|] == read;
  }

  /** In every configuration the stacks spell out the tokens read. */
  ghost predicate Spells(sem: Semantics, c: Config, sh: Shadow, read: seq<Token>) {
    if c.parsedLhs then
      ExpectsOperator(sem, c.machine, sh, read) && Layer(LastTree(sh)) <= 2
    else
      ExpectsOperand(sem, c.machine, sh, read)
  }

  lemma OperandStepSound(sem: Semantics, c: Config, sh: Shadow, read: seq<Token>, tok: Token) returns (sh1: Shadow)
    requires Spells(sem, c, sh, read) && !c.parsedLhs && Step(sem, c, tok).Some?
    ensures Spells(sem, Step(sem, c, tok).value, sh1, read + [tok])
  {
    hide ExpectsOperand, ExpectsOperator;
    OperatorTokens(sem, c.machine, sh, read);
    if OperandValue(sem, tok).Some? {
      sh1 := CompleteOperand(sem, c.machine, sh, read, Operand(tok));
    } else if tok.klass.LParen? {
      sh1 := OpenSound(sem, c.machine, sh, read, PAREN_OPERATOR, tok);
    } else {
      var op := ParseUnaryPPOperator(tok.klass).value;
      assert Push(sem, c.machine, op) == Some(c.machine.(ops := c.machine.ops + [op])) by {
        hide ParseBinaryPPOperator, ParseUnaryPPOperator;
      }
      sh1 := OpenSound(sem, c.machine, sh, read, op, tok);
    }
  }

  lemma StepSound(sem: Semantics, c: Config, sh: Shadow, read: seq<Token>, tok: Token) returns (sh1: Shadow)
    requires Spells(sem, c, sh, read) && Step(sem, c, tok).Some?
    ensures Spells(sem, Step(sem, c, tok).value, sh1, read + [tok])
  {
    hide ExpectsOperand, ExpectsOperator, ParseBinaryPPOperator, ParseUnaryPPOperator;
    if !c.parsedLhs {
      sh1 := OperandStepSound(sem, c, sh, read, tok);
    } else if tok.klass.RParen? {
      sh1 := CloseSound(sem, c.machine, sh, read, tok);
    } else {
      sh1 := PushSound(sem, c.machine, sh, read, tok);
    }
  }

  /** Draining spends one value per binary operator, so an unfinished expression never leaves
      exactly one. */
  lemma {:induction false} DrainCount(sem: Semantics, m: Machine)
    requires Drain(sem, m).Some?
    ensures |Drain(sem, m).value.values| == |m.values| - Binaries(m.ops)
    decreases |m.ops|
  {
    if |m.ops| > 0 { DrainCount(sem, EvalTop(sem, m).value); }
  }

  lemma {:induction false} DrainSound(sem: Semantics, m: Machine, sh: Shadow, read: seq<Token>) returns (t: Tree)
    requires ExpectsOperator(sem, m, sh, read) && Drain(sem, m).Some?
    ensures Derives(sem, t) && Yield(t) == read && Drain(sem, m).value.values == [Value(sem, t)]
    decreases |m.ops|
  {
    hide ParseBinaryPPOperator, ParseUnaryPPOperator;
    if |m.ops| > 0 {
      hide ExpectsOperand, ExpectsOperator, Yield, Derives, Value;
      var sh1 := EvalTopSound(sem, m, sh, read);
      t := DrainSound(sem, EvalTop(sem, m).value, sh1, read);
    } else {
      var under, shUnder, read1, t1 := PopOperand(sem, m, sh, read);
      t := t1;
    }
  }

  lemma {:induction false} RunSound(sem: Semantics, c: Config, sh: Shadow, read: seq<Token>, rest: seq<Token>)
    returns (t: Tree)
    requires Spells(sem, c, sh, read) && Run(sem, c, rest).Some?
    ensures Derives(sem, t) && Yield(t) == read + rest && Run(sem, c, rest) == Some(Value(sem, t))
    decreases |rest|
  {
    hide ExpectsOperand, ExpectsOperator, Yield, Derives, Value, Step, Layer;
    if rest == [] {
      DrainCount(sem, c.machine);
      ShadowSizes(sem, c.machine, sh, read);
      t := DrainSound(sem, c.machine, sh, read);
    } else {
      var sh1 := StepSound(sem, c, sh, read, rest[0]);
      assert read + rest == (read + [rest[0]]) + rest[1..];
      t := RunSound(sem, Step(sem, c, rest[0]).value, sh1, read + [rest[0]], rest[1..]);
    }
  }

  /** The evaluator returns `v` exactly when the tokens are a sentence of the grammar with a
      parse tree of value `v`; on every other token list it returns nothing. */
  lemma {:induction false} EvaluateCorrect(sem: Semantics, tokens: seq<Token>)
    ensures forall v :: Evaluate(sem, tokens) == Some(v) <==> Denotes(sem, tokens, v)
  {
    if Evaluate(sem, tokens).Some? {
      var t := RunSound(sem, Config(Machine([], []), false), Shadow([], []), [], tokens);
      assert Yield(t) == tokens;
      assert Denotes(sem, tokens, Value(sem, t));
    }
    forall v | Denotes(sem, tokens, v) ensures Evaluate(sem, tokens) == Some(v) {
      var t :| Derives(sem, t) && Yield(t) == tokens && Value(sem, t) == v;
      EvaluateComplete(sem, t);
    }
  }

  // ---------------------------------------------------------------------------------------
  // The evaluator object
  // ---------------------------------------------------------------------------------------

  class PPExprEvaluator {
    const sem: Semantics
    var valueStack: seq<int>
    var operatorStack: seq<PPOperatorInfo>

    function State(): Machine
      reads this
    {
      Machine(valueStack, operatorStack)
    }

    constructor (sem: Semantics)
      ensures this.sem == sem && State() == Machine([], [])
    {
      this.sem := sem;
      valueStack, operatorStack := [], [];
    }

    method EvalOperatorOnTop() returns (ok: bool)
      modifies this
      ensures ok == EvalTop(sem, old(State())).Some?
      ensures State() == if ok then EvalTop(sem, old(State())).value else old(State())
    {
      if operatorStack == [] { return false; }
      var top := operatorStack[|operatorStack| - 1];
      if top.op == ParenOp { return false; }

      var lhs, rhs := 0, 0;
      if top.isUnary {
        if valueStack == [] { return false; }
        lhs := valueStack[|valueStack| - 1];
        valueStack := valueStack[..|valueStack| - 1];
      } else {
        if |valueStack| < 2 { return false; }
        rhs := valueStack[|valueStack| - 1];
        valueStack := valueStack[..|valueStack| - 1];
        lhs := valueStack[|valueStack| - 1];
        valueStack := valueStack[..|valueStack| - 1];
        assert valueStack == old(valueStack)[..|old(valueStack)| - 2];
      }
      valueStack := valueStack + [sem.apply(top.op, lhs, rhs)];
      operatorStack := operatorStack[..|operatorStack| - 1];
      return true;
    }

    method PushOperator(op: PPOperatorInfo) returns (ok: bool)
      requires op.op != ParenOp
      modifies this
      ensures ok == Push(sem, old(State()), op).Some?
      ensures ok ==> State() == Push(sem, old(State()), op).value
    {
      while operatorStack != []
        invariant Push(sem, State(), op) == Push(sem, old(State()), op)
        decreases |operatorStack|
      {
        var top := operatorStack[|operatorStack| - 1];
        if top.HasHigherPrecedenceThan(op) || (top.precedence == op.precedence && op.IsLeftAssociative()) {
          var evaluated := EvalOperatorOnTop();
          if !evaluated { return false; }
        } else {
          break;
        }
      }
      operatorStack := operatorStack + [op];
      return true;
    }

    method PushOperand(value: int)
      modifies this
      ensures valueStack == old(valueStack) + [value] && operatorStack == old(operatorStack)
    {
      valueStack := valueStack + [value];
    }

    /** The `)` case of the loop in `Evaluate`. */
    method CloseParen() returns (ok: bool)
      modifies this
      ensures ok == Close(sem, old(State())).Some?
      ensures ok ==> State() == Close(sem, old(State())).value
    {
      while operatorStack != [] && operatorStack[|operatorStack| - 1].op != ParenOp
        invariant Close(sem, State()) == Close(sem, old(State()))
        decreases |operatorStack|
      {
        var evaluated := EvalOperatorOnTop();
        if !evaluated { return false; }
      }
      if operatorStack == [] { return false; }
      operatorStack := operatorStack[..|operatorStack| - 1];
      return true;
    }

    method Evaluate(tokens: seq<Token>) returns (result: Option<int>)
      modifies this
      ensures result == Run(sem, Config(old(State()), false), tokens)
      ensures old(State()) == Machine([], []) ==> forall v :: result == Some(v) <==> Denotes(sem, tokens, v)
    {
      EvaluateCorrect(sem, tokens);
      var parsedLhs := false;
      var cursor := 0;
      ghost var whole := Run(sem, Config(State(), false), tokens);
      assert tokens[0..] == tokens;

      while cursor < |tokens|
        invariant 0 <= cursor <= |tokens|
        invariant Run(sem, Config(State(), parsedLhs), tokens[cursor..]) == whole
      {
        var token := tokens[cursor];
        assert tokens[cursor..] == [token] + tokens[cursor + 1..];
        RunCons(sem, Config(State(), parsedLhs), token, tokens[cursor + 1..]);
        cursor := cursor + 1;

        if parsedLhs {
          if token.klass.RParen? {
            var ok := CloseParen();
            if !ok { return None; }
          } else {
            var info := ParseBinaryPPOperator(token.klass);
            if info.None? { return None; }
            var ok := PushOperator(info.value);
            if !ok { return None; }
            parsedLhs := false;
          }
        } else {
          var value := OperandValue(sem, token);
          if value.Some? {
            PushOperand(value.value);
            parsedLhs := true;
          } else if token.klass.LParen? {
            operatorStack := operatorStack + [PAREN_OPERATOR];
          } else {
            var info := ParseUnaryPPOperator(token.klass);
            if info.None? { return None; }
            var ok := PushOperator(info.value);
            if !ok { return None; }
          }
        }
      }

      while operatorStack != []
        invariant Result(sem, State()) == whole
        decreases |operatorStack|
      {
        var evaluated := EvalOperatorOnTop();
        if !evaluated { return None; }
      }
      return if |valueStack| == 1 then Some(valueStack[0]) else None;
    }
  }
}
