/** The parser's cursor, its mode and delimiter depths, and recovery from syntax errors. */
module ParserState {
  import opened Tokens

  /** What the parser reads: the tokens, and the names that are known to be struct types. */
  datatype TokenStream = TokenStream(tokens: seq<Token>, structNames: set<string>)

  const EOF_TOKEN := Token(Eof, "", 0, 0, false, false)

  /** Tokens end with `Eof`; `struct` operands are not part of the expression language modelled
      here. */
  type Input = s: TokenStream |
      && |s.tokens| > 0 && s.tokens[|s.tokens| - 1].klass.Eof?
      && forall i | 0 <= i < |s.tokens| :: !s.tokens[i].klass.K_struct?
    witness TokenStream([EOF_TOKEN], {})

  /** The parser's fields.  `errors` lists the token index of every diagnostic reported. */
  datatype State = State(cur: nat, recovering: bool, parens: nat, brackets: nat, braces: nat, errors: seq<nat>)

  datatype RecoveryMode = CommaMode | ParenMode | BracketMode | BraceMode | IListBraceMode | SemiMode

  predicate Valid(inp: Input, st: State) { st.cur < |inp.tokens| }

  function Peek(inp: Input, st: State): TokenKlass
    requires Valid(inp, st)
  {
    inp.tokens[st.cur].klass
  }

  function LookAhead(inp: Input, st: State, lookahead: nat): TokenKlass
    requires Valid(inp, st)
  {
    if st.cur + lookahead < |inp.tokens| then inp.tokens[st.cur + lookahead].klass
    else inp.tokens[|inp.tokens| - 1].klass
  }

  function Left(inp: Input, st: State): nat
    requires Valid(inp, st)
  {
    |inp.tokens| - st.cur
  }

  function Report(st: State): State {
    st.(errors := st.errors + [st.cur])
  }

  function Pred(n: nat): nat { if n > 0 then n - 1 else 0 }

  /** Tokens that do not touch the depth counters. */
  predicate IsPlain(klass: TokenKlass) {
    && !klass.Eof? && !klass.LParen? && !klass.RParen? && !klass.LBracket? && !klass.RBracket?
    && !klass.LBrace? && !klass.RBrace?
  }

  /** Advance past one token, keeping the depth counters; `Eof` is never passed. */
  function Consume(inp: Input, st: State): (st1: State)
    requires Valid(inp, st)
    ensures Valid(inp, st1) && st1.recovering == st.recovering && st1.errors == st.errors
    ensures st1.cur == if Peek(inp, st).Eof? then st.cur else st.cur + 1
    ensures IsPlain(Peek(inp, st)) ==> st1 == st.(cur := st.cur + 1)
    ensures Peek(inp, st).LParen? ==> st1 == st.(cur := st.cur + 1, parens := st.parens + 1)
    ensures Peek(inp, st).LBracket? ==> st1 == st.(cur := st.cur + 1, brackets := st.brackets + 1)
    ensures Peek(inp, st).RParen? ==> st1 == st.(cur := st.cur + 1, parens := Pred(st.parens))
    ensures Peek(inp, st).RBracket? ==> st1 == st.(cur := st.cur + 1, brackets := Pred(st.brackets))
  {
    var klass := Peek(inp, st);
    var st1 := st.(cur := st.cur + 1);
    if klass.Eof? then st
    else if klass.LParen? then st1.(parens := st.parens + 1)
    else if klass.LBracket? then st1.(brackets := st.brackets + 1)
    else if klass.LBrace? then st1.(braces := st.braces + 1)
    else if klass.RParen? then st1.(parens := Pred(st.parens))
    else if klass.RBracket? then st1.(brackets := Pred(st.brackets))
    else if klass.RBrace? then st1.(braces := Pred(st.braces))
    else st1
  }

  // ---------------------------------------------------------------------------------------
  // Recovery
  // ---------------------------------------------------------------------------------------

  predicate InParens(mode: RecoveryMode) { mode.CommaMode? || mode.ParenMode? }

  /** The delimiter whose depth a mode needs to be positive, as the source asserts. */
  predicate MayRecover(mode: RecoveryMode, st: State) {
    match mode
    case CommaMode => st.parens > 0
    case ParenMode => st.parens > 0
    case BracketMode => st.brackets > 0
    case BraceMode => st.braces > 0
    case _ => true
  }

  /** Whether skipping stops in front of a token of class `klass`, given the depths `at` reached
      and the depths `init` at which skipping began. */
  predicate Stops(mode: RecoveryMode, init: State, at: State, klass: TokenKlass) {
    match klass
    case RParen => at.parens != 0 && InParens(mode) && at.parens == init.parens
    case RBracket => at.brackets != 0 && mode == BracketMode && at.brackets == init.brackets
    case RBrace => at.braces != 0 && at.braces == init.braces
    case Comma =>
      mode == CommaMode && at.parens == init.parens && at.brackets == init.brackets && at.braces == init.braces
    case Semicolon =>
      ((InParens(mode) || mode.BracketMode? || mode.SemiMode?) && at.braces == init.braces) || mode == IListBraceMode
    case _ => false
  }

  /** The depth adjustment made on stopping in front of `klass`: an unclosed pair is closed. */
  function Settle(mode: RecoveryMode, at: State, klass: TokenKlass, ilistBraceDepth: nat): State {
    match klass
    case RBrace => CloseUnclosed(mode, at, klass)
    case Semicolon =>
      if mode == IListBraceMode then at.(braces := ilistBraceDepth) else CloseUnclosed(mode, at, klass)
    case _ => at
  }

  function CloseUnclosed(mode: RecoveryMode, at: State, klass: TokenKlass): State {
    match mode
    case ParenMode => if !klass.RParen? then at.(parens := Pred(at.parens)) else at
    case BracketMode => if !klass.RBracket? then at.(brackets := Pred(at.brackets)) else at
    case BraceMode => if !klass.RBrace? then at.(braces := Pred(at.braces)) else at
    case IListBraceMode => if !klass.RBrace? then at.(braces := Pred(at.braces)) else at
    case _ => at
  }

  /** The tokens a recovery can end in front of. */
  predicate SkipTarget(mode: RecoveryMode, st: State, klass: TokenKlass) {
    || klass.Eof? || klass.Semicolon? || (klass.RBrace? && st.braces > 0)
    || (klass.RParen? && InParens(mode))
    || (klass.RBracket? && mode == BracketMode)
    || (klass.Comma? && mode == CommaMode)
  }

  function SkipFrom(inp: Input, mode: RecoveryMode, init: State, at: State, ilistBraceDepth: nat): (st: State)
    requires Valid(inp, at)
    ensures Valid(inp, st) && st.cur >= at.cur && st.recovering == at.recovering && st.errors == at.errors
    ensures SkipTarget(mode, st, Peek(inp, st))
    decreases Left(inp, at)
  {
    var klass := Peek(inp, at);
    if klass.Eof? then at
    else if Stops(mode, init, at, klass) then Settle(mode, at, klass, ilistBraceDepth)
    else SkipFrom(inp, mode, init, Consume(inp, at), ilistBraceDepth)
  }

  function RecoverFromError(inp: Input, mode: RecoveryMode, st: State, ilistBraceDepth: nat := 0): (st1: State)
    requires Valid(inp, st) && MayRecover(mode, st)
    ensures Valid(inp, st1) && st1.cur >= st.cur && st1.recovering == st.recovering && st1.errors == st.errors
    ensures SkipTarget(mode, st1, Peek(inp, st1))
  {
    SkipFrom(inp, mode, st, st, ilistBraceDepth)
  }

  /** The state after skipping `n` tokens, by the saturating depth counts alone. */
  function SkipCount(inp: Input, st: State, n: nat): (st1: State)
    requires Valid(inp, st) && st.cur + n < |inp.tokens|
    requires forall i | st.cur <= i < st.cur + n :: !inp.tokens[i].klass.Eof?
    ensures Valid(inp, st1) && st1.cur == st.cur + n
  {
    if n == 0 then st else Consume(inp, SkipCount(inp, st, n - 1))
  }

  /** Where each mode lets the parser go on, given the depths `init` at which skipping began: at the
      delimiter that the mode waits for, where it closes what was open then; at the end of the
      statement; and at the `}` of the scope. */
  predicate IsSync(mode: RecoveryMode, init: State, at: State, klass: TokenKlass) {
    var closesScope := klass.RBrace? && at.braces == init.braces > 0;
    var endsStatement := klass.Semicolon? && at.braces == init.braces;
    match mode
    case CommaMode =>
      || closesScope || endsStatement
      || (klass.RParen? && at.parens == init.parens > 0)
      || (&& klass.Comma?
          && at.parens == init.parens && at.brackets == init.brackets && at.braces == init.braces)
    case ParenMode => closesScope || endsStatement || (klass.RParen? && at.parens == init.parens > 0)
    case BracketMode => closesScope || endsStatement || (klass.RBracket? && at.brackets == init.brackets > 0)
    case BraceMode => closesScope
    case IListBraceMode => closesScope || klass.Semicolon?
    case SemiMode => closesScope || endsStatement
  }

  /** The depths with which the parser goes on.  A pair of parentheses or brackets that skipping was to
      close counts as closed where it stops elsewhere, and an initializer list ends with its statement. */
  function Resumed(mode: RecoveryMode, at: State, klass: TokenKlass, ilistBraceDepth: nat): State {
    match mode
    case ParenMode => if klass.Semicolon? || klass.RBrace? then at.(parens := Pred(at.parens)) else at
    case BracketMode => if klass.Semicolon? || klass.RBrace? then at.(brackets := Pred(at.brackets)) else at
    case IListBraceMode => if klass.Semicolon? then at.(braces := ilistBraceDepth) else at
    case _ => at
  }

  lemma StopsIffSync(mode: RecoveryMode, init: State, at: State, klass: TokenKlass, ilistBraceDepth: nat)
    ensures Stops(mode, init, at, klass) <==> IsSync(mode, init, at, klass)
    ensures Stops(mode, init, at, klass) ==>
              Settle(mode, at, klass, ilistBraceDepth) == Resumed(mode, at, klass, ilistBraceDepth)
  {
  }

  /** The parser may go on (or the input ends) `n` tokens ahead. */
  ghost predicate SyncPoint(inp: Input, mode: RecoveryMode, st: State, n: nat)
    requires Valid(inp, st) && st.cur + n < |inp.tokens|
    requires forall i | st.cur <= i < st.cur + n :: !inp.tokens[i].klass.Eof?
  {
    var klass := inp.tokens[st.cur + n].klass;
    klass.Eof? || IsSync(mode, st, SkipCount(inp, st, n), klass)
  }

  /** `n` tokens ahead lies the first synchronisation point of the mode. */
  ghost predicate FirstSyncPoint(inp: Input, mode: RecoveryMode, st: State, n: nat)
    requires Valid(inp, st)
  {
    && st.cur + n < |inp.tokens|
    && (forall i | st.cur <= i < st.cur + n :: !inp.tokens[i].klass.Eof?)
    && SyncPoint(inp, mode, st, n)
    && forall k: nat | k < n :: !SyncPoint(inp, mode, st, k)
  }

  /** The depth that a mode counts never falls below its value on entry while tokens are
      skipped; that is why closing an unclosed pair on exit cannot make it negative. */
  predicate KeepsDepth(mode: RecoveryMode, init: State, at: State) {
    && (InParens(mode) ==> at.parens >= init.parens)
    && (mode == BracketMode ==> at.brackets >= init.brackets)
    && (init.braces > 0 ==> at.braces >= init.braces)
  }

  lemma ConsumeKeepsDepth(inp: Input, mode: RecoveryMode, init: State, at: State)
    requires Valid(inp, at) && KeepsDepth(mode, init, at) && !Stops(mode, init, at, Peek(inp, at))
    ensures KeepsDepth(mode, init, Consume(inp, at))
  {
  }

  lemma {:induction false} SkipFromStops(inp: Input, mode: RecoveryMode, st: State, n: nat, ilistBraceDepth: nat)
    returns (total: nat)
    requires Valid(inp, st) && st.cur + n < |inp.tokens|
    requires forall i | st.cur <= i < st.cur + n :: !inp.tokens[i].klass.Eof?
    requires forall k: nat | k < n :: !SyncPoint(inp, mode, st, k)
    requires forall k: nat | k <= n :: KeepsDepth(mode, st, SkipCount(inp, st, k))
    ensures FirstSyncPoint(inp, mode, st, total)
    ensures forall k: nat | k <= total :: KeepsDepth(mode, st, SkipCount(inp, st, k))
    ensures var at := SkipCount(inp, st, total);
            var klass := inp.tokens[st.cur + total].klass;
            SkipFrom(inp, mode, st, SkipCount(inp, st, n), ilistBraceDepth) ==
            if klass.Eof? then at else Resumed(mode, at, klass, ilistBraceDepth)
    decreases |inp.tokens| - n
  {
    hide Stops, Consume, KeepsDepth, Settle, SkipTarget, IsSync, Resumed;
    var at := SkipCount(inp, st, n);
    StopsIffSync(mode, st, at, inp.tokens[st.cur + n].klass, ilistBraceDepth);
    if SyncPoint(inp, mode, st, n) {
      total := n;
    } else {
      ConsumeKeepsDepth(inp, mode, st, at);
      assert SkipCount(inp, st, n + 1) == Consume(inp, at);
      total := SkipFromStops(inp, mode, st, n + 1, ilistBraceDepth);
    }
  }

  /** Recovery moves forward to the first synchronisation point of its mode and stops there,
      and only then adjusts the depths. */
  lemma RecoverStopsAtFirstSyncPoint(inp: Input, mode: RecoveryMode, st: State, ilistBraceDepth: nat)
    returns (n: nat)
    requires Valid(inp, st) && MayRecover(mode, st)
    ensures FirstSyncPoint(inp, mode, st, n)
    ensures forall k: nat | k <= n :: KeepsDepth(mode, st, SkipCount(inp, st, k))
    ensures var klass := inp.tokens[st.cur + n].klass;
            var at := SkipCount(inp, st, n);
            RecoverFromError(inp, mode, st, ilistBraceDepth) ==
            if klass.Eof? then at else Resumed(mode, at, klass, ilistBraceDepth)
  {
    n := SkipFromStops(inp, mode, st, 0, ilistBraceDepth);
  }
}
