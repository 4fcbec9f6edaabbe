/** Which tokens macro processors are fed.  The source asserts that none is the end of the input. */
module MacroFed {
  import opened Tokens
  import opened MacroSyntax
  import opened MacroExpansion
  import opened MacroRefinement
  import opened MacroReplacement

  /** What happens while tokens are fed: a processor, nested or not, takes a token, or the tokenizer
      lexes a pasted text. */
  datatype Event = Fed(tok: Token) | Pasted(text: string)

  /** The texts that are pasted in a body. */
  function PastedTexts(def: MacroDefinition, args: seq<Arg>, body: seq<Token>): seq<Event>
    decreases |body|
  {
    if body == [] then []
    else if body[0].klass.Hash? then
      PastedTexts(def, args, if |body| > 2 && body[2].klass.Identifier? then body[2..] else body[1..])
    else if |body| > 1 && body[1].klass.HashHash? then
      var pasted := PasteChain(def, args, PasteOperand(def, args, body[0]), body[1..]);
      (if pasted.0.Some? then [Pasted(pasted.0.value)] else []) + PastedTexts(def, args, pasted.1)
    else PastedTexts(def, args, body[1..])
  }

  /** The events of one call of `Feed`. */
  function FeedTrace(env: Env, disabled: set<string>, p: Processor, tok: Token): seq<Event>
    requires Valid(env, disabled, p)
    decreases |Enabled(env, disabled)|, 2, p, 1
  {
    [Fed(tok)]
    + (if p.withheld == [] || (p.args == [] && !tok.klass.LParen?) then PlainTrace(env, disabled, tok)
       else if p.args == [] then []
       else ArgumentTrace(env, disabled, p, tok))
  }

  function ArgumentTrace(env: Env, disabled: set<string>, p: Processor, tok: Token): seq<Event>
    requires Valid(env, disabled, p) && p.args != []
    decreases |Enabled(env, disabled)|, 2, p, 0
  {
    var parens := Depth(p.parens, tok);
    if parens == 0 then
      var q := FinishArgument(p);
      BodyTrace(env, disabled, p.pending.value, p.withheld[0], FixArgs(p.pending.value, Slices(q.withheld, q.args)))
    else if parens == 1 && tok.klass.Comma? then []
    else FeedTrace(env, disabled, p.argProcessor.value, tok)
  }

  function PlainTrace(env: Env, disabled: set<string>, tok: Token): seq<Event>
    decreases |Enabled(env, disabled)|, 1
  {
    match Read(env, disabled, tok)
    case ObjectMacro(def) => BodyTrace(env, disabled, def, tok, [])
    case _ => []
  }

  function BodyTrace(env: Env, disabled: set<string>, def: MacroDefinition, name: Token, args: seq<Arg>): seq<Event>
    requires name.text in env.macros && name.text !in disabled
    decreases |Enabled(env, disabled)|, 0
  {
    DisablingShrinks(env, disabled, name.text);
    PastedTexts(def, args, def.body)
    + ListTrace(env, disabled + {name.text}, FRESH, Substitute(env, def, name, args, def.body))
  }

  function ListTrace(env: Env, disabled: set<string>, p: Processor, ts: seq<Token>): seq<Event>
    requires Valid(env, disabled, p)
    decreases |Enabled(env, disabled)|, 3, |ts|
  {
    if ts == [] then []
    else
      var front := ts[..|ts| - 1];
      ListTrace(env, disabled, p, front)
      + FeedTrace(env, disabled, FeedAll(env, disabled, p, front).0, ts[|ts| - 1])
  }

  predicate FeedsNoEof(trace: seq<Event>) { forall e <- trace :: e.Fed? ==> !e.tok.klass.Eof? }

  predicate PastesNoNothing(trace: seq<Event>) { forall e <- trace :: e.Pasted? ==> e.text != "" }

  lemma TraceParts(a: seq<Event>, b: seq<Event>)
    ensures FeedsNoEof(a + b) <==> FeedsNoEof(a) && FeedsNoEof(b)
    ensures PastesNoNothing(a + b) <==> PastesNoNothing(a) && PastesNoNothing(b)
  {
    assert forall e <- a :: e in a + b;
    assert forall e <- b :: e in a + b;
  }

  /** No macro body has an end-of-file token. */
  predicate TableIsText(env: Env) { forall name <- env.macros :: NoEof(env.macros[name].body) }

  predicate CleanArgs(args: seq<Arg>) { forall a <- args :: NoEof(a.replacement) }

  predicate Clean(p: Processor) {
    NoEof(p.withheld) && (p.argProcessor.Some? ==> Clean(p.argProcessor.value))
  }

  lemma {:induction false} ChainKeepsText(def: MacroDefinition, args: seq<Arg>, text: Option<string>, body: seq<Token>)
    requires NoEof(body)
    ensures NoEof(PasteChain(def, args, text, body).1)
    decreases |body|
  {
    hide PasteOperand;
    if |body| > 1 && body[0].klass.HashHash? {
      var operand := PasteOperand(def, args, body[1]);
      var joined := if text.Some? && operand.Some? then Some(text.value + operand.value) else None;
      assert forall t <- body[2..] :: t in body;
      ChainKeepsText(def, args, joined, body[2..]);
    }
  }

  lemma NoEofAlone(t: Token)
    ensures NoEof([t]) <==> !t.klass.Eof?
  {
    assert t in [t];
  }

  lemma PastedAlone(text: string)
    ensures FeedsNoEof([Pasted(text)]) && (PastesNoNothing([Pasted(text)]) <==> text != "")
  {
    assert Pasted(text) in [Pasted(text)];
  }

  lemma FedAlone(t: Token)
    ensures PastesNoNothing([Fed(t)]) && (FeedsNoEof([Fed(t)]) <==> !t.klass.Eof?)
  {
    assert Fed(t) in [Fed(t)];
  }

  /** The text of a macro use has an end-of-file token exactly if an empty text is pasted in it. */
  lemma {:induction false} EofIsPasted(env: Env, def: MacroDefinition, at: Token, args: seq<Arg>, body: seq<Token>)
    requires LexesEnd(env) && CleanArgs(args) && NoEof(body)
    ensures NoEof(Substitute(env, def, at, args, body)) <==> PastesNoNothing(PastedTexts(def, args, body))
    ensures FeedsNoEof(PastedTexts(def, args, body))
    decreases |body|
  {
    hide PasteChain, PasteOperand, ParamIndex;
    if body != [] {
      assert forall t <- body[1..] :: t in body;
      if body[0].klass.Hash? {
        if |body| > 2 && body[2].klass.Identifier? {
          assert forall t <- body[2..] :: t in body;
          EofIsPasted(env, def, at, args, body[2..]);
        } else {
          EofIsPasted(env, def, at, args, body[1..]);
          NoEofParts([Relocate(body[0], at)], Substitute(env, def, at, args, body[1..]));
        }
      } else if |body| > 1 && body[1].klass.HashHash? {
        var text := PasteOperand(def, args, body[0]);
        var pasted := PasteChain(def, args, text, body[1..]);
        ChainKeepsText(def, args, text, body[1..]);
        EofIsPasted(env, def, at, args, pasted.1);
        if pasted.0.Some? {
          var tok := Relocate(env.lex(pasted.0.value), at);
          NoEofParts([tok], Substitute(env, def, at, args, pasted.1));
          NoEofAlone(tok);
          TraceParts([Pasted(pasted.0.value)], PastedTexts(def, args, pasted.1));
          PastedAlone(pasted.0.value);
        }
      } else {
        EofIsPasted(env, def, at, args, body[1..]);
        var i := if body[0].klass.Identifier? then ParamIndex(def.params, body[0].text) else None;
        var here := match i
          case Some(k) => if k < |args| then args[k].replacement else []
          case None => [Relocate(body[0], at)];
        NoEofParts(here, Substitute(env, def, at, args, body[1..]));
        assert NoEof(here) by { if i.Some? && i.value < |args| { assert args[i.value] in args; } }
      }
    }
  }

  /** The arguments that a processor has collected. */
  lemma {:induction false} SlicesAreClean(withheld: seq<Token>, args: seq<ArgInfo>)
    requires InBounds(args, |withheld|) && NoEof(withheld)
    ensures CleanArgs(Slices(withheld, args))
  {
    if args != [] {
      var a := args[|args| - 1];
      SlicesAreClean(withheld, args[..|args| - 1]);
      assert forall t <- withheld[a.begin..a.end] :: t in withheld;
    }
  }

  lemma FinishIsClean(p: Processor)
    requires Clean(p) && p.args != [] && p.argProcessor.Some?
    ensures NoEof(FinishArgument(p).withheld)
  {
    NoEofParts(p.withheld, Finalize(p.argProcessor.value).1);
  }

  /** While every token so far has been text, the processors withhold and put out text only. */
  predicate Keeps(trace: seq<Event>, p: Processor, out: seq<Token>) {
    && (FeedsNoEof(trace) <==> PastesNoNothing(trace))
    && (FeedsNoEof(trace) ==> Clean(p) && NoEof(out))
  }

  lemma {:induction false} FeedKeeps(env: Env, disabled: set<string>, p: Processor, tok: Token)
    requires LexesEnd(env) && TableIsText(env) && Valid(env, disabled, p) && Clean(p) && !tok.klass.Eof?
    ensures var r := Feed(env, disabled, p, tok); Keeps(FeedTrace(env, disabled, p, tok), r.0, r.1)
    decreases |Enabled(env, disabled)|, 2, p, 1
  {
    FedAlone(tok);
    hide Substitute, Slices, Read;
    if p.withheld == [] || (p.args == [] && !tok.klass.LParen?) {
      PlainKeeps(env, disabled, tok);
      TraceParts([Fed(tok)], PlainTrace(env, disabled, tok));
      NoEofParts(Finalize(p).1, FeedWithoutContext(env, disabled, tok).1);
    } else if p.args == [] {
      assert [Fed(tok)] + [] == [Fed(tok)] && Clean(FRESH);
    } else {
      ArgumentKeeps(env, disabled, p, tok);
      TraceParts([Fed(tok)], ArgumentTrace(env, disabled, p, tok));
    }
  }

  lemma {:induction false} ArgumentKeeps(env: Env, disabled: set<string>, p: Processor, tok: Token)
    requires LexesEnd(env) && TableIsText(env) && Valid(env, disabled, p) && Clean(p) && !tok.klass.Eof?
    requires p.args != []
    ensures var r := FeedArgument(env, disabled, p, tok); Keeps(ArgumentTrace(env, disabled, p, tok), r.0, r.1)
    decreases |Enabled(env, disabled)|, 2, p, 0
  {
    hide Substitute, Slices, Feed, FeedTrace;
    var parens := Depth(p.parens, tok);
    var q := FinishArgument(p);
    FinishIsClean(p);
    if parens == 0 {
      SlicesAreClean(q.withheld, q.args);
      ReadsMacro(env, disabled, p.withheld[0], p.pending.value);
      BodyKeeps(env, disabled, p.pending.value, p.withheld[0], FixArgs(p.pending.value, Slices(q.withheld, q.args)));
    } else if parens == 1 && tok.klass.Comma? {
      NoEofParts(q.withheld, [tok]);
      NoEofAlone(tok);
      assert Clean(FRESH);
    } else {
      FeedKeeps(env, disabled, p.argProcessor.value, tok);
      NoEofParts(p.withheld, Feed(env, disabled, p.argProcessor.value, tok).1);
    }
  }

  lemma {:induction false} PlainKeeps(env: Env, disabled: set<string>, tok: Token)
    requires LexesEnd(env) && TableIsText(env) && !tok.klass.Eof?
    ensures var r := FeedWithoutContext(env, disabled, tok); Keeps(PlainTrace(env, disabled, tok), r.0, r.1)
    decreases |Enabled(env, disabled)|, 1
  {
    var r := Read(env, disabled, tok);
    if r.ObjectMacro? { BodyKeeps(env, disabled, r.def, tok, []); }
  }

  lemma {:induction false} BodyKeeps(env: Env, disabled: set<string>, def: MacroDefinition, name: Token,
    args: seq<Arg>)
    requires LexesEnd(env) && TableIsText(env) && CleanArgs(args)
    requires name.text in env.macros && name.text !in disabled && env.macros[name.text] == def
    ensures Keeps(BodyTrace(env, disabled, def, name, args), FRESH,
      FeedMacroExpansion(env, disabled, def, name, args))
    decreases |Enabled(env, disabled)|, 0
  {
    DisablingShrinks(env, disabled, name.text);
    var inner, body := disabled + {name.text}, Substitute(env, def, name, args, def.body);
    EofIsPasted(env, def, name, args, def.body);
    hide Substitute;
    TraceParts(PastedTexts(def, args, def.body), ListTrace(env, inner, FRESH, body));
    if NoEof(body) {
      ListKeeps(env, inner, FRESH, body);
      var r := FeedAll(env, inner, FRESH, body);
      NoEofParts(r.1, Finalize(r.0).1);
    } else {
      var i :| 0 <= i < |body| && body[i].klass.Eof?;
      ListFeeds(env, inner, FRESH, body, i);
    }
  }

  lemma {:induction false} ListKeeps(env: Env, disabled: set<string>, p: Processor, ts: seq<Token>)
    requires LexesEnd(env) && TableIsText(env) && Valid(env, disabled, p) && Clean(p) && NoEof(ts)
    ensures var r := FeedAll(env, disabled, p, ts); Keeps(ListTrace(env, disabled, p, ts), r.0, r.1)
    decreases |Enabled(env, disabled)|, 3, |ts|
  {
    hide Feed, FeedTrace, Valid;
    if ts != [] {
      var front, last := ts[..|ts| - 1], ts[|ts| - 1];
      assert last in ts && forall t <- front :: t in ts;
      ListKeeps(env, disabled, p, front);
      var r := FeedAll(env, disabled, p, front);
      TraceParts(ListTrace(env, disabled, p, front), FeedTrace(env, disabled, r.0, last));
      if FeedsNoEof(ListTrace(env, disabled, p, front)) {
        FeedKeeps(env, disabled, r.0, last);
        NoEofParts(r.1, Feed(env, disabled, r.0, last).1);
      }
    }
  }

  /** Each token of a list is fed. */
  lemma {:induction false} ListFeeds(env: Env, disabled: set<string>, p: Processor, ts: seq<Token>, i: nat)
    requires Valid(env, disabled, p) && i < |ts|
    ensures Fed(ts[i]) in ListTrace(env, disabled, p, ts)
    decreases |ts|
  {
    hide Feed;
    var front := ts[..|ts| - 1];
    if i < |front| {
      ListFeeds(env, disabled, p, front, i);
    } else {
      assert FeedTrace(env, disabled, FeedAll(env, disabled, p, front).0, ts[i])[0] == Fed(ts[i]);
    }
  }

  /** From a list and macro bodies without the end of the input, no processor is fed the end of the
      input exactly if no empty text is pasted on the way. */
  lemma {:induction false} NoEofIsFedIff(env: Env, disabled: set<string>, ts: seq<Token>)
    requires LexesEnd(env) && TableIsText(env) && NoEof(ts)
    ensures var trace := ListTrace(env, disabled, FRESH, ts); FeedsNoEof(trace) <==> PastesNoNothing(trace)
  {
    ListKeeps(env, disabled, FRESH, ts);
  }
}
