/** What a file is preprocessed to when `#define` and `#undef` change the macro table on the way. */
module PreprocessedPieces {
  import opened Tokens
  import opened MacroSyntax
  import M = MacroExpansion
  import R = MacroRefinement
  import A = MacroArguments
  import opened Conditionals
  import L = ConditionalLines
  import G = ConditionalGroups
  import S = ConditionalSelection
  import PPEval
  import opened PreprocessedText

  /** What a directive makes of the macro table; nothing if it leaves it alone. */
  type Definer = (Env, seq<Token>) -> Option<Env>

  /** The host of `PreprocessedText`, with directives that change its table. */
  function Expander(define: Definer): Host<Sink> {
    Host(
      (s: Sink, toks) => Condition(s.env, s.sem, toks),
      (s: Sink, name) => name in s.env.macros,
      (s: Sink, toks) => match define(s.env, toks) case None => s case Some(env) => s.(env := env),
      Feed,
      Finish,
      (s: Sink, tok) => s.(out := s.out + [tok]))
  }

  /** A text in pieces: the table in force, the tokens of the current piece, and what the pieces
      before it were expanded to; `quiet` if behind each of those nothing was pending. */
  datatype Pieces = Pieces(env: Env, sem: PPEval.Semantics, current: seq<Token>, out: seq<Token>, quiet: bool)

  /** The current piece ends, and another table comes into force. */
  function NextPiece(p: Pieces, env: Env): Pieces {
    Pieces(env, p.sem, [], p.out + M.Expand(p.env, {}, p.current),
      p.quiet && A.LeavesNothingPending(p.env, {}, p.current))
  }

  /** The reference: each piece is expanded as one list, with the table that is in force for it. */
  function Collector(define: Definer): Host<Pieces> {
    Host(
      (p: Pieces, toks) => Condition(p.env, p.sem, toks),
      (p: Pieces, name) => name in p.env.macros,
      (p: Pieces, toks) => match define(p.env, toks) case None => p case Some(env) => NextPiece(p, env),
      (p: Pieces, tok) => p.(current := p.current + [tok]),
      (p: Pieces) => p,
      (p: Pieces, tok) => p)
  }

  /** The state of the macro processor behind the current piece. */
  function SinkOf(p: Pieces): Sink {
    var r := M.FeedAll(p.env, {}, M.FRESH, p.current);
    Sink(p.env, p.sem, r.0, p.out + r.1)
  }

  lemma FeedCommutes(p: Pieces, tok: Token)
    ensures Feed(SinkOf(p), tok) == SinkOf(p.(current := p.current + [tok]))
  {
    hide M.Feed, M.FeedAll;
    R.FeedAllSnoc(p.env, {}, M.FRESH, p.current, tok);
    var r := M.FeedAll(p.env, {}, M.FRESH, p.current);
    var s := M.Feed(p.env, {}, r.0, tok);
    assert p.out + (r.1 + s.1) == p.out + r.1 + s.1;
  }

  lemma {:induction false} TextCommutes(define: Definer, p: Pieces, toks: seq<Token>)
    ensures L.FeedText(Expander(define), SinkOf(p), toks) == SinkOf(L.FeedText(Collector(define), p, toks))
    ensures L.FeedText(Collector(define), p, toks).quiet == p.quiet
    decreases |toks|
  {
    hide SinkOf, Feed;
    if toks != [] {
      FeedCommutes(p, toks[0]);
      TextCommutes(define, p.(current := p.current + [toks[0]]), toks[1..]);
    }
  }

  /** Behind a piece where nothing is pending, the processor is as fresh. */
  lemma NextPieceCommutes(p: Pieces, env: Env)
    requires A.LeavesNothingPending(p.env, {}, p.current)
    ensures SinkOf(p).(env := env) == SinkOf(NextPiece(p, env))
  {
    hide M.Feed, M.Expand;
    var r := M.FeedAll(p.env, {}, M.FRESH, p.current);
    A.IdleIsFresh(p.env, {}, r.0);
    R.StreamRefinesExpand(p.env, {}, p.current);
    assert r.1 + [] == r.1;
    R.FeedNothing(env, {}, M.FRESH);
    assert p.out + r.1 + [] == p.out + r.1;
  }

  lemma LineCommutes(define: Definer, p: Pieces, line: seq<Token>)
    requires line != []
    ensures var q := G.ProcessLine(Collector(define), p, line);
            (q.quiet ==> p.quiet && G.ProcessLine(Expander(define), SinkOf(p), line) == SinkOf(q))
  {
    hide M.FeedAll, M.Expand, A.LeavesNothingPending, Condition;
    if line[0].klass.Hash? {
      if |line| > 1 {
        var env := define(p.env, line[1..]);
        if env.Some? && A.LeavesNothingPending(p.env, {}, p.current) { NextPieceCommutes(p, env.value); }
      }
    } else {
      TextCommutes(define, p, line);
    }
  }

  /** Nested groups, with the macro processor and in pieces. */
  lemma {:induction false} MeaningCommutes(define: Definer, p: Pieces, t: G.Text)
    requires G.WellFormed(t) && G.Meaning(Collector(define), p, t).quiet
    ensures p.quiet && G.Meaning(Expander(define), SinkOf(p), t) == SinkOf(G.Meaning(Collector(define), p, t))
    decreases t
  {
    hide SinkOf, Condition, G.ProcessLine, G.IsWord;
    match t
    case Nothing =>
    case Line(line, rest) =>
      MeaningCommutes(define, G.ProcessLine(Collector(define), p, line), rest);
      LineCommutes(define, p, line);
    case Group(head, body, tail, rest) =>
      HeadCommutes(define, p, head);
      var active := G.HeadCondition(Collector(define), p, head);
      var p1 := if active then G.Meaning(Collector(define), p, body) else p;
      var e := Entry(active, active, false);
      var p2 := G.TailMeaning(Collector(define), p1, e, tail);
      MeaningCommutes(define, p2, rest);
      TailCommutes(define, p1, e, tail);
      if active { MeaningCommutes(define, p, body); }
  }

  lemma HeadCommutes(define: Definer, p: Pieces, head: seq<Token>)
    requires G.Opens(head) && G.NamesItsMacro(head)
    ensures G.HeadCondition(Expander(define), SinkOf(p), head) == G.HeadCondition(Collector(define), p, head)
  {
    hide Condition, G.IsWord, M.FeedAll;
  }

  lemma {:induction false} TailCommutes(define: Definer, p: Pieces, e: Entry, t: G.Tail)
    requires G.WellFormedTail(t) && G.TailMeaning(Collector(define), p, e, t).quiet
    ensures p.quiet
    ensures G.TailMeaning(Expander(define), SinkOf(p), e, t) == SinkOf(G.TailMeaning(Collector(define), p, e, t))
    decreases t
  {
    hide SinkOf, Condition, G.IsWord;
    match t
    case EndGroup(_) =>
    case Branch(d, body, rest) =>
      G.WordsOf(d);
      BranchCommutes(define, p, e, d);
      var e1 := G.NextBranch(Collector(define), p, e, d);
      var p1 := if e1.active then G.Meaning(Collector(define), p, body) else p;
      TailCommutes(define, p1, e1, rest);
      if e1.active { MeaningCommutes(define, p, body); }
  }

  lemma BranchCommutes(define: Definer, p: Pieces, e: Entry, d: seq<Token>)
    requires G.IsDirective(d)
    ensures G.NextBranch(Expander(define), SinkOf(p), e, d) == G.NextBranch(Collector(define), p, e, d)
  {
    hide Condition, G.IsWord, M.FeedAll;
  }

  /** A balanced file whose directives change the macro table only where nothing is pending is
      preprocessed to the expansions of its pieces, each with its own table, and the end-of-file
      token. */
  lemma {:induction false} FileIsExpandedInPieces(define: Definer, env: Env, sem: PPEval.Semantics, t: G.Text,
    eof: Token)
    requires G.WellFormed(t) && eof.klass.Eof?
    requires G.Meaning(Collector(define), Pieces(env, sem, [], [], true), t).quiet
    ensures var p := G.Meaning(Collector(define), Pieces(env, sem, [], [], true), t);
            var host := Expander(define);
            var m := FeedPPToken(host, FeedAll(host, S.Initial(Sink(env, sem, M.FRESH, [])), S.Concat(G.Lines(t))), eof);
            m.state.Halt? && m.conds.env.out == p.out + M.Expand(p.env, {}, p.current) + [eof]
  {
    hide FeedAll, G.Lines, G.Meaning, S.Concat, M.FeedAll, M.Feed, M.Expand;
    var s, p0, host := Sink(env, sem, M.FRESH, []), Pieces(env, sem, [], [], true), Expander(define);
    R.FeedNothing(env, {}, M.FRESH);
    var none: seq<Token> := [];
    assert none + none == none && SinkOf(p0) == s;
    S.BalancedFile(host, s, t, eof);
    MeaningCommutes(define, p0, t);
    var p := G.Meaning(Collector(define), p0, t);
    R.StreamRefinesExpand(p.env, {}, p.current);
    var r := M.FeedAll(p.env, {}, M.FRESH, p.current);
    assert p.out + r.1 + M.Finalize(r.0).1 == p.out + (r.1 + M.Finalize(r.0).1);
  }
}
