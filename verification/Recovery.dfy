/** What the depth counters mean while recovery skips tokens, and where it stops in an argument list. */
module Recovery {
  import opened Tokens
  import opened ParserState

  datatype Delimiter = Paren | Bracket | Brace

  predicate IsOpening(d: Delimiter, klass: TokenKlass) {
    match d case Paren => klass.LParen? case Bracket => klass.LBracket? case Brace => klass.LBrace?
  }

  predicate IsClosing(d: Delimiter, klass: TokenKlass) {
    match d case Paren => klass.RParen? case Bracket => klass.RBracket? case Brace => klass.RBrace?
  }

  function DepthOf(d: Delimiter, st: State): nat {
    match d case Paren => st.parens case Bracket => st.brackets case Brace => st.braces
  }

  /** How many delimiters are opened in `ts` and not closed in it. */
  function Unclosed(d: Delimiter, ts: seq<Token>): nat {
    if ts == [] then 0
    else
      var before, klass := Unclosed(d, ts[..|ts| - 1]), ts[|ts| - 1].klass;
      if IsOpening(d, klass) then before + 1 else if IsClosing(d, klass) then Pred(before) else before
  }

  /** How many delimiters are closed in `ts` that were not opened in it. */
  function Excess(d: Delimiter, ts: seq<Token>): nat {
    if ts == [] then 0
    else
      var before, klass := Excess(d, ts[..|ts| - 1]), ts[|ts| - 1].klass;
      if IsClosing(d, klass) && Unclosed(d, ts[..|ts| - 1]) == 0 then before + 1 else before
  }

  /** The tokens that are skipped in front of the `n`-th. */
  function Skipped(inp: Input, st: State, n: nat): seq<Token>
    requires Valid(inp, st) && st.cur + n < |inp.tokens|
  {
    inp.tokens[st.cur..st.cur + n]
  }

  lemma SkippedSnoc(inp: Input, st: State, n: nat)
    requires Valid(inp, st) && 0 < n && st.cur + n < |inp.tokens|
    ensures Skipped(inp, st, n)[..n - 1] == Skipped(inp, st, n - 1)
    ensures |Skipped(inp, st, n)| == n && Skipped(inp, st, n)[n - 1] == inp.tokens[st.cur + n - 1]
  {
  }

  lemma ConsumeCounts(inp: Input, st: State, d: Delimiter)
    requires Valid(inp, st) && !Peek(inp, st).Eof?
    ensures DepthOf(d, Consume(inp, st)) ==
            var before, klass := DepthOf(d, st), Peek(inp, st);
            if IsOpening(d, klass) then before + 1 else if IsClosing(d, klass) then Pred(before) else before
    ensures !(IsOpening(d, Peek(inp, st)) && IsClosing(d, Peek(inp, st)))
  {
  }

  /** Behind any tokens a counter tells how many delimiters are open: those from before that were not
      closed, none below zero, and those opened since. */
  lemma {:induction false} DepthsCount(inp: Input, st: State, n: nat, d: Delimiter)
    requires Valid(inp, st) && st.cur + n < |inp.tokens|
    requires forall i | st.cur <= i < st.cur + n :: !inp.tokens[i].klass.Eof?
    ensures var ts := Skipped(inp, st, n);
            DepthOf(d, SkipCount(inp, st, n)) == Unclosed(d, ts) +
              if DepthOf(d, st) > Excess(d, ts) then DepthOf(d, st) - Excess(d, ts) else 0
    decreases n
  {
    hide Consume, IsOpening, IsClosing, DepthOf, Skipped, Unclosed, Excess;
    if n == 0 {
      NothingSkipped(inp, st, d);
    } else {
      DepthsCount(inp, st, n - 1, d);
      ConsumeCounts(inp, SkipCount(inp, st, n - 1), d);
      CountsSnoc(inp, st, n, d);
    }
  }

  lemma NothingSkipped(inp: Input, st: State, d: Delimiter)
    requires Valid(inp, st)
    ensures Unclosed(d, Skipped(inp, st, 0)) == Excess(d, Skipped(inp, st, 0)) == 0
  {
  }

  /** One more token is skipped. */
  lemma CountsSnoc(inp: Input, st: State, n: nat, d: Delimiter)
    requires Valid(inp, st) && 0 < n && st.cur + n < |inp.tokens|
    ensures var klass := inp.tokens[st.cur + n - 1].klass;
            var unclosed, excess := Unclosed(d, Skipped(inp, st, n - 1)), Excess(d, Skipped(inp, st, n - 1));
            && Unclosed(d, Skipped(inp, st, n)) == (if IsOpening(d, klass) then unclosed + 1
                 else if IsClosing(d, klass) then Pred(unclosed) else unclosed)
            && Excess(d, Skipped(inp, st, n)) == (if IsClosing(d, klass) && unclosed == 0 then excess + 1 else excess)
  {
    hide IsOpening, IsClosing;
    SkippedSnoc(inp, st, n);
  }

  /** A counter that never falls below where it was has met no delimiter too many. */
  lemma {:induction false} NoExcess(inp: Input, st: State, n: nat, d: Delimiter)
    requires Valid(inp, st) && st.cur + n < |inp.tokens| && DepthOf(d, st) > 0
    requires forall i | st.cur <= i < st.cur + n :: !inp.tokens[i].klass.Eof?
    requires forall k: nat | k <= n :: DepthOf(d, SkipCount(inp, st, k)) >= DepthOf(d, st)
    ensures Excess(d, Skipped(inp, st, n)) == 0
    decreases n
  {
    if n > 0 {
      SkippedSnoc(inp, st, n);
      NoExcess(inp, st, n - 1, d);
      DepthsCount(inp, st, n, d);
    }
  }

  /** Recovery in an argument list stops at a comma only outside all parentheses and braces that were
      opened since; and outside all brackets exactly if no bracket from before was closed meanwhile. */
  lemma {:induction false} CommaIsOutside(inp: Input, st: State, n: nat)
    requires Valid(inp, st) && MayRecover(CommaMode, st) && FirstSyncPoint(inp, CommaMode, st, n)
    requires inp.tokens[st.cur + n].klass.Comma?
    ensures Unclosed(Paren, Skipped(inp, st, n)) == 0 && Unclosed(Brace, Skipped(inp, st, n)) == 0
    ensures Unclosed(Bracket, Skipped(inp, st, n)) == 0
            <==> st.brackets == 0 || Excess(Bracket, Skipped(inp, st, n)) == 0
  {
    var m := RecoverStopsAtFirstSyncPoint(inp, CommaMode, st, 0);
    assert m == n by { FirstIsUnique(inp, CommaMode, st, m, n); }
    DepthsCount(inp, st, n, Paren);
    DepthsCount(inp, st, n, Bracket);
    DepthsCount(inp, st, n, Brace);
    NoExcess(inp, st, n, Paren);
    if st.braces > 0 { NoExcess(inp, st, n, Brace); }
  }

  lemma FirstIsUnique(inp: Input, mode: RecoveryMode, st: State, m: nat, n: nat)
    requires Valid(inp, st) && FirstSyncPoint(inp, mode, st, m) && FirstSyncPoint(inp, mode, st, n)
    ensures m == n
  {
  }

  /** `] [ ,` in the arguments of a call within brackets: recovery stops at the comma, inside the
      bracket just opened. */
  lemma {:induction false} CommaInsideBracket(inp: Input, st: State)
    requires Valid(inp, st) && MayRecover(CommaMode, st) && st.brackets > 0 && st.cur + 2 < |inp.tokens|
    requires inp.tokens[st.cur].klass.RBracket? && inp.tokens[st.cur + 1].klass.LBracket?
    requires inp.tokens[st.cur + 2].klass.Comma?
    ensures RecoverFromError(inp, CommaMode, st) == st.(cur := st.cur + 2)
    ensures Unclosed(Bracket, Skipped(inp, st, 2)) == 1
  {
    var st1 := Consume(inp, st);
    assert SkipFrom(inp, CommaMode, st, st, 0) == SkipFrom(inp, CommaMode, st, st1, 0);
    var st2 := Consume(inp, st1);
    assert st2 == st.(cur := st.cur + 2);
    assert SkipFrom(inp, CommaMode, st, st1, 0) == SkipFrom(inp, CommaMode, st, st2, 0);
    SkippedSnoc(inp, st, 1);
    SkippedSnoc(inp, st, 2);
    assert Unclosed(Bracket, Skipped(inp, st, 0)) == 0;
    assert Unclosed(Bracket, Skipped(inp, st, 1)) == 0;
  }
}
