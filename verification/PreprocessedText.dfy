/** Conditional compilation and macro expansion together: what a file is preprocessed to while the
    macro table stays as it is. */
module PreprocessedText {
  import opened Tokens
  import opened MacroSyntax
  import M = MacroExpansion
  import R = MacroRefinement
  import opened Conditionals
  import opened ConditionalLines
  import G = ConditionalGroups
  import opened ConditionalSelection
  import PPEval
  import PPCondition

  /** The state behind the conditionals: the macro processor, and the tokens put out. */
  datatype Sink = Sink(env: Env, sem: PPEval.Semantics, processor: M.Processor, out: seq<Token>)

  /** The condition of `#if` and `#elif`. */
  predicate Condition(env: Env, sem: PPEval.Semantics, toks: seq<Token>) {
    match PPCondition.ResolveDefined(env, toks)
    case None => false
    case Some(ts) =>
      var v := PPEval.Evaluate(sem, M.Expand(env, {}, ts));
      v.Some? && v.value != 0
  }

  lemma {:induction false} ConditionHolds(env: Env, sem: PPEval.Semantics, toks: seq<Token>)
    ensures Condition(env, sem, toks) <==> PPCondition.Holds(env, {}, sem, toks)
  {
    hide M.Expand, PPEval.Evaluate, PPCondition.Holds, PPCondition.ResolveDefined;
    PPCondition.HoldsIffResolved(env, {}, sem, toks);
  }

  function Feed(s: Sink, tok: Token): Sink {
    if !M.Valid(s.env, {}, s.processor) then s
    else
      var r := M.Feed(s.env, {}, s.processor, tok);
      s.(processor := r.0, out := s.out + r.1)
  }

  function Finish(s: Sink): Sink {
    var r := M.Finalize(s.processor);
    s.(processor := r.0, out := s.out + r.1)
  }

  /** Directives other than the conditional ones leave the text alone. */
  const EXPANDER: Host<Sink> := Host(
    (s: Sink, toks) => Condition(s.env, s.sem, toks),
    (s: Sink, name) => name in s.env.macros,
    (s: Sink, toks) => s,
    Feed,
    Finish,
    (s: Sink, tok) => s.(out := s.out + [tok]))

  // ---------------------------------------------------------------------------------------
  // The text that conditional compilation selects
  // ---------------------------------------------------------------------------------------

  function LineText(line: seq<Token>): seq<Token> {
    if line == [] || line[0].klass.Hash? then [] else line
  }

  /** The tokens of all lines in branches that are selected. */
  function Selected(s: Sink, t: G.Text): seq<Token>
    requires G.WellFormed(t)
    decreases t
  {
    match t
    case Nothing => []
    case Line(line, rest) => LineText(line) + Selected(s, rest)
    case Group(head, body, tail, rest) =>
      var active := G.HeadCondition(EXPANDER, s, head);
      (if active then Selected(s, body) else []) + SelectedTail(s, Entry(active, active, false), tail)
      + Selected(s, rest)
  }

  function SelectedTail(s: Sink, e: Entry, t: G.Tail): seq<Token>
    requires G.WellFormedTail(t)
    decreases t
  {
    match t
    case EndGroup(_) => []
    case Branch(d, body, rest) =>
      var e1 := G.NextBranch(EXPANDER, s, e, d);
      (if e1.active then Selected(s, body) else []) + SelectedTail(s, e1, rest)
  }

  /** The first branch of a group is selected if `active`, and the others are selected behind that. */
  predicate SelectsFirst(s: Sink, t: G.Text, active: bool)
    requires G.WellFormed(t) && t.Group?
  {
    Selected(s, t) == (if active then Selected(s, t.body) else [])
                      + SelectedTail(s, Entry(active, active, false), t.tail) + Selected(s, t.rest)
  }

  /** The lines of `#ifdef X` are selected exactly if X is in the macro table, those of `#ifndef X`
      exactly if it is not. */
  lemma {:induction false} IfdefSelects(s: Sink, t: G.Text)
    requires G.WellFormed(t) && t.Group? && (G.IsWord(t.head, "ifdef") || G.IsWord(t.head, "ifndef"))
    ensures |t.head| > 2
    ensures G.IsWord(t.head, "ifdef") ==> SelectsFirst(s, t, t.head[2].text in s.env.macros)
    ensures G.IsWord(t.head, "ifndef") ==> SelectsFirst(s, t, t.head[2].text !in s.env.macros)
  {
    G.WordsOf(t.head);
    hide G.IsWord, Condition, DirectiveOf;
  }

  /** So are the lines of `#if defined X` and of `#if defined ( X )`. */
  lemma {:induction false} IfDefinedSelects(s: Sink, t: G.Text, p: PPCondition.Piece)
    requires G.WellFormed(t) && t.Group? && G.IsWord(t.head, "if")
    requires !p.Other? && PPCondition.IsPiece(p) && t.head[2..] == PPCondition.PieceText(p)
    ensures SelectsFirst(s, t, p.name.text in s.env.macros)
  {
    G.WordsOf(t.head);
    hide G.IsWord, Condition, DirectiveOf;
    ConditionHolds(s.env, s.sem, t.head[2..]);
    PPCondition.DefinedHoldsIff(s.env, {}, s.sem, p);
  }

  /** The state behind some text. */
  function FeedText(s: Sink, ts: seq<Token>): Sink
    requires M.Valid(s.env, {}, s.processor)
  {
    var r := M.FeedAll(s.env, {}, s.processor, ts);
    s.(processor := r.0, out := s.out + r.1)
  }

  predicate Ready(s: Sink) { M.Valid(s.env, {}, s.processor) }

  lemma {:induction false} FeedTextAppend(s: Sink, a: seq<Token>, b: seq<Token>)
    requires Ready(s)
    ensures Ready(FeedText(s, a)) && FeedText(s, a + b) == FeedText(FeedText(s, a), b)
  {
    hide M.Feed, M.FeedAll, M.Valid;
    R.FeedAllAppend(s.env, {}, s.processor, a, b);
    var r := M.FeedAll(s.env, {}, s.processor, a);
    var q := M.FeedAll(s.env, {}, r.0, b);
    assert s.out + (r.1 + q.1) == s.out + r.1 + q.1;
  }

  lemma FeedTextNothing(s: Sink)
    requires Ready(s)
    ensures FeedText(s, []) == s
  {
    hide M.Valid;
    R.FeedNothing(s.env, {}, s.processor);
    assert s.out + [] == s.out;
  }

  /** The host takes the tokens of a line one at a time. */
  lemma {:induction false} HostFeedsText(s: Sink, ts: seq<Token>)
    requires Ready(s)
    ensures ConditionalLines.FeedText(EXPANDER, s, ts) == FeedText(s, ts)
    decreases |ts|
  {
    hide M.Feed, M.FeedAll, M.Valid;
    if ts == [] {
      FeedTextNothing(s);
    } else {
      assert ts == [ts[0]] + ts[1..];
      FeedTextAppend(s, [ts[0]], ts[1..]);
      R.FeedAllOne(s.env, {}, s.processor, ts[0]);
      HostFeedsText(Feed(s, ts[0]), ts[1..]);
    }
  }

  /** Conditions depend on the macro table only. */
  ghost predicate SameTable(s: Sink, s1: Sink) { s.env == s1.env && s.sem == s1.sem }

  lemma {:induction false} SelectedByTable(s: Sink, s1: Sink, t: G.Text)
    requires G.WellFormed(t) && SameTable(s, s1)
    ensures Selected(s, t) == Selected(s1, t)
    decreases t
  {
    hide Condition;
    match t
    case Nothing =>
    case Line(_, rest) => SelectedByTable(s, s1, rest);
    case Group(head, body, tail, rest) =>
      var active := G.HeadCondition(EXPANDER, s, head);
      SelectedByTable(s, s1, body);
      SelectedTailByTable(s, s1, Entry(active, active, false), tail);
      SelectedByTable(s, s1, rest);
  }

  lemma {:induction false} SelectedTailByTable(s: Sink, s1: Sink, e: Entry, t: G.Tail)
    requires G.WellFormedTail(t) && SameTable(s, s1)
    ensures SelectedTail(s, e, t) == SelectedTail(s1, e, t)
    decreases t
  {
    hide Condition;
    match t
    case EndGroup(_) =>
    case Branch(d, body, rest) =>
      SelectedByTable(s, s1, body);
      SelectedTailByTable(s, s1, G.NextBranch(EXPANDER, s, e, d), rest);
  }

  /** The meaning of nested groups is the selected text, fed to the macro processor. */
  lemma {:induction false} MeaningIsSelected(s: Sink, t: G.Text)
    requires G.WellFormed(t) && Ready(s)
    ensures G.Meaning(EXPANDER, s, t) == FeedText(s, Selected(s, t))
    decreases t
  {
    hide Condition, M.FeedAll, M.Valid, M.Feed, ConditionalLines.FeedText;
    match t
    case Nothing => FeedTextNothing(s);
    case Line(line, rest) =>
      HostFeedsText(s, line);
      FeedTextNothing(s);
      FeedTextAppend(s, LineText(line), Selected(s, rest));
      var s1 := FeedText(s, LineText(line));
      MeaningIsSelected(s1, rest);
      SelectedByTable(s, s1, rest);
    case Group(head, body, tail, rest) =>
      var active := G.HeadCondition(EXPANDER, s, head);
      var inBody := if active then Selected(s, body) else [];
      var e := Entry(active, active, false);
      if active { MeaningIsSelected(s, body); } else { FeedTextNothing(s); }
      var inTail := SelectedTail(s, e, tail);
      FeedTextAppend(s, inBody + inTail, Selected(s, rest));
      FeedTextAppend(s, inBody, inTail);
      var s1 := FeedText(s, inBody);
      TailIsSelected(s1, e, tail);
      SelectedTailByTable(s, s1, e, tail);
      var s2 := FeedText(s1, inTail);
      MeaningIsSelected(s2, rest);
      SelectedByTable(s, s2, rest);
  }

  lemma {:induction false} TailIsSelected(s: Sink, e: Entry, t: G.Tail)
    requires G.WellFormedTail(t) && Ready(s)
    ensures G.TailMeaning(EXPANDER, s, e, t) == FeedText(s, SelectedTail(s, e, t))
    decreases t
  {
    hide Condition, M.FeedAll, M.Valid, M.Feed, ConditionalLines.FeedText;
    match t
    case EndGroup(_) => FeedTextNothing(s);
    case Branch(d, body, rest) =>
      var e1 := G.NextBranch(EXPANDER, s, e, d);
      var inBody := if e1.active then Selected(s, body) else [];
      if e1.active { MeaningIsSelected(s, body); } else { FeedTextNothing(s); }
      FeedTextAppend(s, inBody, SelectedTail(s, e1, rest));
      var s1 := FeedText(s, inBody);
      TailIsSelected(s1, e1, rest);
      SelectedTailByTable(s, s1, e1, rest);
  }

  /** A balanced file is preprocessed to the expansion of the text that its conditionals select, as
      one list of tokens, and the end-of-file token. */
  lemma {:induction false} FileIsExpanded(env: Env, sem: PPEval.Semantics, t: G.Text, eof: Token)
    requires G.WellFormed(t) && eof.klass.Eof?
    ensures var s := Sink(env, sem, M.FRESH, []);
            var m := FeedPPToken(EXPANDER, FeedAll(EXPANDER, Initial(s), Concat(G.Lines(t))), eof);
            m.state.Halt? && m.conds.env.out == M.Expand(env, {}, Selected(s, t)) + [eof]
  {
    hide FeedAll, G.Lines, G.Meaning, Concat, Selected, M.FeedAll, M.Feed, M.Expand;
    var s := Sink(env, sem, M.FRESH, []);
    BalancedFile(EXPANDER, s, t, eof);
    MeaningIsSelected(s, t);
    R.StreamRefinesExpand(env, {}, Selected(s, t));
    var r := M.FeedAll(env, {}, M.FRESH, Selected(s, t));
    assert [] + r.1 == r.1;
  }
}
