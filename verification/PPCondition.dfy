/** The condition of `#if` and `#elif`: `defined` is resolved, the rest is macro expanded one token at
    a time, and the result is evaluated. */
module PPCondition {
  import opened Tokens
  import opened MacroSyntax
  import M = MacroExpansion
  import R = MacroRefinement
  import opened MacroProcessor
  import PPEval
  import PPStandard

  /** The macro behind `defined`, with or without parentheses, and the tokens behind it. */
  function DefinedOperand(toks: seq<Token>): (r: Option<(string, seq<Token>)>)
    ensures r.Some? ==> |r.value.1| < |toks| && toks[|toks| - |r.value.1|..] == r.value.1
  {
    if |toks| > 0 && toks[0].klass.Identifier? then Some((toks[0].text, toks[1..]))
    else if |toks| > 2 && toks[0].klass.LParen? && toks[1].klass.Identifier? && toks[2].klass.RParen? then
      Some((toks[1].text, toks[3..]))
    else None
  }

  function DefinedToken(isDefined: bool, at: Token): Token {
    at.(klass := if isDefined then DefinedYes else DefinedNo, text := "")
  }

  predicate IsDefinedOperator(tok: Token) { tok.klass.Identifier? && tok.text == "defined" }

  function Prepend(a: seq<Token>, b: Option<seq<Token>>): Option<seq<Token>> {
    match b case None => None case Some(rest) => Some(a + rest)
  }

  lemma PrependTwice(a: seq<Token>, t: Token, b: Option<seq<Token>>)
    ensures Prepend(a, Prepend([t], b)) == Prepend(a + [t], b)
  {
    if b.Some? {
      assert a + ([t] + b.value) == a + [t] + b.value;
    }
  }

  /** The condition with every `defined` replaced by its answer; nothing if one is malformed. */
  function ResolveDefined(env: Env, toks: seq<Token>): Option<seq<Token>>
    decreases |toks|
  {
    if toks == [] then Some([])
    else if IsDefinedOperator(toks[0]) then
      match DefinedOperand(toks[1..])
      case None => None
      case Some(operand) =>
        Prepend([DefinedToken(operand.0 in env.macros, toks[0])], ResolveDefined(env, operand.1))
    else Prepend([toks[0]], ResolveDefined(env, toks[1..]))
  }

  // ---------------------------------------------------------------------------------------
  // What a condition means
  // ---------------------------------------------------------------------------------------

  /** A piece of a condition: `defined X`, `defined ( X )`, or any other token. */
  datatype Piece =
    | DefinedName(op: Token, name: Token)
    | DefinedParens(op: Token, open: Token, name: Token, close: Token)
    | Other(tok: Token)

  predicate IsPiece(p: Piece) {
    match p
    case DefinedName(op, name) => op.klass.Identifier? && op.text == "defined" && name.klass.Identifier?
    case DefinedParens(op, open, name, close) =>
      && op.klass.Identifier? && op.text == "defined"
      && open.klass.LParen? && name.klass.Identifier? && close.klass.RParen?
    case Other(tok) => !(tok.klass.Identifier? && tok.text == "defined")
  }

  function PieceText(p: Piece): seq<Token> {
    match p
    case DefinedName(op, name) => [op, name]
    case DefinedParens(op, open, name, close) => [op, open, name, close]
    case Other(tok) => [tok]
  }

  /** What stands for a piece when the condition is expanded. */
  function Answer(env: Env, p: Piece): Token {
    if p.Other? then p.tok
    else if p.name.text in env.macros then p.op.(klass := DefinedYes, text := "")
    else p.op.(klass := DefinedNo, text := "")
  }

  function PiecesText(ps: seq<Piece>): seq<Token> {
    if ps == [] then [] else PieceText(ps[0]) + PiecesText(ps[1..])
  }

  function Answers(env: Env, ps: seq<Piece>): seq<Token> {
    if ps == [] then [] else [Answer(env, ps[0])] + Answers(env, ps[1..])
  }

  ghost predicate ConsistsOf(toks: seq<Token>, ps: seq<Piece>) {
    (forall p <- ps :: IsPiece(p)) && PiecesText(ps) == toks
  }

  /** The condition consists of such pieces, and with their answers it is, after expansion, a condition
      of the standard with a value other than zero. */
  ghost predicate Holds(env: Env, disabled: set<string>, sem: PPEval.Semantics, toks: seq<Token>) {
    exists ps, v: int ::
      && ConsistsOf(toks, ps) && v != 0
      && PPStandard.IsConditionOf(sem, M.Expand(env, disabled, Answers(env, ps)), v)
  }

  /** The pieces of a condition, if it has no malformed `defined`. */
  function Pieces(toks: seq<Token>): Option<seq<Piece>>
    decreases |toks|
  {
    if toks == [] then Some([])
    else if !(toks[0].klass.Identifier? && toks[0].text == "defined") then
      PrependPiece(Other(toks[0]), Pieces(toks[1..]))
    else if |toks| > 1 && toks[1].klass.Identifier? then
      PrependPiece(DefinedName(toks[0], toks[1]), Pieces(toks[2..]))
    else if |toks| > 3 && toks[1].klass.LParen? && toks[2].klass.Identifier? && toks[3].klass.RParen? then
      PrependPiece(DefinedParens(toks[0], toks[1], toks[2], toks[3]), Pieces(toks[4..]))
    else None
  }

  function PrependPiece(p: Piece, ps: Option<seq<Piece>>): Option<seq<Piece>> {
    match ps case None => None case Some(rest) => Some([p] + rest)
  }

  lemma {:induction false} PiecesFound(toks: seq<Token>)
    requires Pieces(toks).Some?
    ensures ConsistsOf(toks, Pieces(toks).value)
    decreases |toks|
  {
    if toks != [] {
      var p := Pieces(toks).value[0];
      var n := |PieceText(p)|;
      PiecesFound(toks[n..]);
      assert Pieces(toks).value[1..] == Pieces(toks[n..]).value;
      assert toks == toks[..n] + toks[n..];
    }
  }

  /** The first piece is found where it stands. */
  lemma FirstPiece(toks: seq<Token>, p: Piece, rest: seq<Token>)
    requires IsPiece(p) && toks == PieceText(p) + rest
    ensures Pieces(toks) == PrependPiece(p, Pieces(rest))
  {
    var n := |PieceText(p)|;
    assert toks[n..] == rest;
    assert toks[0] == PieceText(p)[0];
    if n > 1 { assert toks[1] == PieceText(p)[1]; }
    if n > 2 { assert toks[2] == PieceText(p)[2] && toks[3] == PieceText(p)[3]; }
  }

  lemma {:induction false} PiecesAreFound(toks: seq<Token>, ps: seq<Piece>)
    requires ConsistsOf(toks, ps)
    ensures Pieces(toks) == Some(ps)
    decreases |ps|
  {
    hide Pieces, IsPiece, PieceText;
    if ps == [] {
      assert Pieces([]) == Some([]) by { NoPieces(); }
    } else {
      var rest := PiecesText(ps[1..]);
      assert ps[0] in ps;
      FirstPiece(toks, ps[0], rest);
      PiecesAreFound(rest, ps[1..]);
      assert ps == [ps[0]] + ps[1..];
    }
  }

  lemma NoPieces()
    ensures Pieces([]) == Some([])
  {
  }

  /** `defined` is resolved exactly if the condition consists of pieces, and to their answers. */
  lemma {:induction false} ResolvedToAnswers(env: Env, toks: seq<Token>)
    ensures ResolveDefined(env, toks) ==
            match Pieces(toks) case None => None case Some(ps) => Some(Answers(env, ps))
    decreases |toks|
  {
    if toks != [] {
      var ps := Pieces(toks);
      if !IsDefinedOperator(toks[0]) {
        ResolvedToAnswers(env, toks[1..]);
      } else {
        var operand := DefinedOperand(toks[1..]);
        if |toks| > 1 && toks[1].klass.Identifier? {
          assert toks[1..][1..] == toks[2..];
          ResolvedToAnswers(env, toks[2..]);
        } else if |toks| > 3 && toks[1].klass.LParen? && toks[2].klass.Identifier? && toks[3].klass.RParen? {
          assert toks[1..][3..] == toks[4..];
          ResolvedToAnswers(env, toks[4..]);
        }
      }
      if ps.Some? {
        assert Answers(env, ps.value) == [Answer(env, ps.value[0])] + Answers(env, ps.value[1..]);
      }
    }
  }

  lemma PiecesIff(env: Env, toks: seq<Token>)
    ensures ResolveDefined(env, toks).None? <==> forall ps :: !ConsistsOf(toks, ps)
    ensures forall ps :: ConsistsOf(toks, ps) ==> ResolveDefined(env, toks) == Some(Answers(env, ps))
  {
    hide ConsistsOf, Answers, Pieces, ResolveDefined;
    ResolvedToAnswers(env, toks);
    if Pieces(toks).Some? { PiecesFound(toks); }
    forall ps | ConsistsOf(toks, ps) ensures Pieces(toks) == Some(ps) { PiecesAreFound(toks, ps); }
  }

  /** What the evaluator finds in a condition is what the condition means. */
  lemma {:induction false} HoldsIffResolved(env: Env, disabled: set<string>, sem: PPEval.Semantics, toks: seq<Token>)
    ensures var resolved := ResolveDefined(env, toks);
            Holds(env, disabled, sem, toks)
            <==> && resolved.Some?
                 && var v := PPEval.Evaluate(sem, M.Expand(env, disabled, resolved.value));
                    v.Some? && v.value != 0
  {
    hide M.Expand, PPEval.Evaluate, PPStandard.IsConditionOf, ConsistsOf, Answers, Pieces, ResolveDefined;
    ResolvedToAnswers(env, toks);
    var pieces := Pieces(toks);
    if pieces.Some? {
      PiecesFound(toks);
      var expanded := M.Expand(env, disabled, Answers(env, pieces.value));
      var v := PPEval.Evaluate(sem, expanded);
      if v.Some? { PPStandard.EvaluateIsStandard(sem, expanded, v.value); }
    }
    if Holds(env, disabled, sem, toks) {
      var ps, v: int :|
        && ConsistsOf(toks, ps) && v != 0
        && PPStandard.IsConditionOf(sem, M.Expand(env, disabled, Answers(env, ps)), v);
      PiecesAreFound(toks, ps);
      PPStandard.EvaluateIsStandard(sem, M.Expand(env, disabled, Answers(env, ps)), v);
    }
  }

  method EvaluatePPExpression(pp: MacroContext, sem: PPEval.Semantics, toks: seq<Token>) returns (result: bool)
    modifies pp
    ensures pp.disabledMacros == old(pp.disabledMacros)
    ensures result == Holds(pp.env, pp.disabledMacros, sem, toks)
  {
    hide M.Expand, PPEval.Run, Holds;
    HoldsIffResolved(pp.env, pp.disabledMacros, sem, toks);
    var tokenBuffer := ExpandCondition(pp, toks);
    if tokenBuffer.None? { return false; }
    var evaluator := new PPEval.PPExprEvaluator(sem);
    var value := evaluator.Evaluate(tokenBuffer.value);
    return value.Some? && value.value != 0;
  }

  /** Resolve `defined` and feed the tokens to a macro processor. */
  method ExpandCondition(pp: MacroContext, toks: seq<Token>) returns (expanded: Option<seq<Token>>)
    modifies pp
    ensures pp.disabledMacros == old(pp.disabledMacros)
    ensures expanded ==
      match ResolveDefined(pp.env, toks)
      case None => None
      case Some(ts) => Some(M.Expand(pp.env, pp.disabledMacros, ts))
    ensures expanded.None? <==> forall ps :: !ConsistsOf(toks, ps)
    ensures forall ps :: ConsistsOf(toks, ps) ==>
              expanded == Some(M.Expand(pp.env, pp.disabledMacros, Answers(pp.env, ps)))
  {
    hide M.FeedAll, M.Feed, M.Expand, M.Finalize, ConsistsOf, Answers, Pieces;
    PiecesIff(pp.env, toks);
    ghost var env, disabled := pp.env, pp.disabledMacros;
    var tokenBuffer := new TokenBuffer();
    var processor := new MacroExpansionProcessor(pp, tokenBuffer);
    ghost var fed := [];
    ghost var r := (M.FRESH, []);
    R.FeedNothing(env, disabled, M.FRESH);
    var cursor := 0;
    assert toks[0..] == toks;
    NothingFed(ResolveDefined(env, toks));
    while cursor < |toks|
      invariant 0 <= cursor <= |toks|
      invariant processor.Valid() && fresh(processor.Repr) && pp.disabledMacros == disabled
      invariant processor.pp == pp && processor.outputBuffer == tokenBuffer
      invariant r == M.FeedAll(env, disabled, M.FRESH, fed)
      invariant processor.State == r.0 && tokenBuffer.tokens == r.1
      invariant ResolveDefined(env, toks) == Prepend(fed, ResolveDefined(env, toks[cursor..]))
    {
      var token, behind := NextToken(pp.env, toks, cursor);
      if token.None? { return None; }
      cursor := behind;
      R.FeedAllSnoc(env, disabled, M.FRESH, fed, token.value);
      PrependTwice(fed, token.value, ResolveDefined(env, toks[cursor..]));
      processor.Feed(token.value);
      fed := fed + [token.value];
      r := M.FeedAll(env, disabled, M.FRESH, fed);
    }
    assert toks[|toks|..] == [] && fed + [] == fed;
    processor.Finalize();
    R.StreamRefinesExpand(env, disabled, fed);
    expanded := Some(tokenBuffer.tokens);
  }

  lemma NothingFed(b: Option<seq<Token>>)
    ensures Prepend([], b) == b
  {
    if b.Some? { assert [] + b.value == b.value; }
  }

  /** The token to feed next, with `defined` resolved, and where to go on; nothing if malformed. */
  method NextToken(env: Env, toks: seq<Token>, cursor: nat) returns (token: Option<Token>, behind: nat)
    requires cursor < |toks|
    ensures cursor < behind <= |toks|
    ensures ResolveDefined(env, toks[cursor..]) ==
      if token.None? then None else Prepend([token.value], ResolveDefined(env, toks[behind..]))
  {
    ghost var rest := toks[cursor..];
    assert rest[1..] == toks[cursor + 1..];
    if !IsDefinedOperator(toks[cursor]) { return Some(toks[cursor]), cursor + 1; }
    var operand := DefinedOperand(toks[cursor + 1..]);
    if operand.None? { return None, cursor + 1; }
    behind := |toks| - |operand.value.1|;
    assert toks[behind..] == operand.value.1;
    return Some(DefinedToken(operand.value.0 in env.macros, toks[cursor])), behind;
  }

  // ---------------------------------------------------------------------------------------
  // `defined` alone
  // ---------------------------------------------------------------------------------------

  function Truth(b: bool): int { if b then 1 else 0 }

  lemma AnswerAlone(env: Env, disabled: set<string>, sem: PPEval.Semantics, p: Piece)
    requires !p.Other?
    ensures M.Expand(env, disabled, Answers(env, [p])) == [Answer(env, p)]
    ensures PPEval.Evaluate(sem, [Answer(env, p)]) == Some(Truth(p.name.text in env.macros))
  {
    hide PPEval.Evaluate;
    assert M.Expand(env, disabled, []) == [] && [Answer(env, p)][1..] == [];
    PPStandard.OperandAlone(sem, Answer(env, p));
  }

  /** `defined X` and `defined ( X )` hold if and only if X is in the macro table. */
  lemma DefinedHoldsIff(env: Env, disabled: set<string>, sem: PPEval.Semantics, p: Piece)
    requires IsPiece(p) && !p.Other?
    ensures Holds(env, disabled, sem, PieceText(p)) <==> p.name.text in env.macros
  {
    hide PPEval.Evaluate, M.Expand, Holds;
    HoldsIffResolved(env, disabled, sem, PieceText(p));
    PiecesIff(env, PieceText(p));
    assert PiecesText([]) == [] && PiecesText([p]) == PieceText(p);
    assert ConsistsOf(PieceText(p), [p]);
    AnswerAlone(env, disabled, sem, p);
  }

  lemma ExpandPunctuation(env: Env, disabled: set<string>, t: Token, rest: seq<Token>)
    requires !t.klass.Identifier?
    ensures M.Expand(env, disabled, [t] + rest) == [t] + M.Expand(env, disabled, rest)
  {
    assert ([t] + rest)[1..] == rest;
  }

  lemma NotAnswer(env: Env, disabled: set<string>, sem: PPEval.Semantics, bang: Token, p: Piece)
    requires !p.Other? && bang.klass.Bang?
    ensures M.Expand(env, disabled, Answers(env, [Other(bang), p])) == [bang, Answer(env, p)]
    ensures PPEval.Evaluate(sem, [bang, Answer(env, p)])
         == Some(sem.apply(PPEval.LogicalNot, Truth(p.name.text in env.macros), 0))
  {
    hide PPEval.Evaluate, M.Expand;
    AnswerAlone(env, disabled, sem, p);
    ExpandPunctuation(env, disabled, bang, Answers(env, [p]));
    assert [Other(bang), p][1..] == [p];
    assert Answers(env, [Other(bang), p]) == [bang] + Answers(env, [p]);
    PPStandard.PrefixAlone(sem, bang, Answer(env, p));
  }

  /** `! defined X` holds as the negation of 1 or 0 has it. */
  lemma NotDefinedHoldsIff(env: Env, disabled: set<string>, sem: PPEval.Semantics, bang: Token, p: Piece)
    requires IsPiece(p) && !p.Other? && bang.klass.Bang?
    ensures Holds(env, disabled, sem, [bang] + PieceText(p))
            <==> sem.apply(PPEval.LogicalNot, if p.name.text in env.macros then 1 else 0, 0) != 0
  {
    hide PPEval.Evaluate, M.Expand, Holds;
    var toks := [bang] + PieceText(p);
    var ps := [Other(bang), p];
    HoldsIffResolved(env, disabled, sem, toks);
    PiecesIff(env, toks);
    assert ps[1..] == [p] && PiecesText([]) == [] && PiecesText([p]) == PieceText(p);
    assert ConsistsOf(toks, ps);
    NotAnswer(env, disabled, sem, bang, p);
  }
}
