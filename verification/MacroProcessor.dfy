/** The macro expansion processor as the object it is: buffers filled in place, a nested processor
    for the argument being read, and one set of disabled macros shared by all processors.  Every
    method is proved against the transducer of `MacroExpansion`. */
module MacroProcessor {
  import opened Tokens
  import opened MacroSyntax
  import M = MacroExpansion
  import R = MacroRefinement

  class TokenBuffer {
    var tokens: seq<Token>

    constructor ()
      ensures tokens == []
    {
      tokens := [];
    }
  }

  /** The part of the preprocessor that processors share. */
  class MacroContext {
    const env: Env
    var disabledMacros: set<string>

    constructor (env: Env)
      ensures this.env == env && disabledMacros == {}
    {
      this.env := env;
      disabledMacros := {};
    }
  }

  /** What the expansion of a macro yields: the body, fed to a fresh processor, and its end. */
  lemma ExpansionParts(env: Env, disabled: set<string>, def: MacroDefinition, name: Token, args: seq<Arg>)
    requires name.text in env.macros && name.text !in disabled
    ensures
      var r := M.FeedAll(env, disabled + {name.text}, M.FRESH, Substitute(env, def, name, args, def.body));
      M.FeedMacroExpansion(env, disabled, def, name, args) == r.1 + M.Finalize(r.0).1
  {
    hide M.FeedAll, Substitute, M.Finalize;
  }

  class MacroExpansionProcessor {
    const pp: MacroContext
    const outputBuffer: TokenBuffer
    const witheldTokens: TokenBuffer
    var invocationArguments: seq<M.ArgInfo>
    var pendingInvokedMacro: Option<MacroDefinition>
    var argLParenCounter: nat
    var argProcessor: MacroExpansionProcessor?

    /** The state of the transducer that this object is in. */
    ghost var State: M.Processor
    ghost var Repr: set<object>

    ghost predicate Valid()
      reads this, Repr
      decreases Repr
    {
      && this in Repr && witheldTokens in Repr
      && outputBuffer !in Repr && pp !in Repr
      && State.withheld == witheldTokens.tokens
      && State.args == invocationArguments
      && State.pending == pendingInvokedMacro
      && State.parens == argLParenCounter
      && (argProcessor == null <==> State.argProcessor.None?)
      && (argProcessor != null ==>
        && argProcessor in Repr && argProcessor.Repr < Repr
        && this !in argProcessor.Repr
        && argProcessor.outputBuffer == witheldTokens && argProcessor.pp == pp
        && argProcessor.Valid()
        && State.argProcessor == Some(argProcessor.State))
    }

    /** The state is one that a run from a fresh processor can reach. */
    ghost predicate Ready()
      reads this, pp
    {
      M.Valid(pp.env, pp.disabledMacros, State)
    }

    constructor (pp: MacroContext, outputBuffer: TokenBuffer)
      ensures Valid() && fresh(Repr) && State == M.FRESH
      ensures this.pp == pp && this.outputBuffer == outputBuffer
    {
      this.pp := pp;
      this.outputBuffer := outputBuffer;
      witheldTokens := new TokenBuffer();
      invocationArguments := [];
      pendingInvokedMacro := None;
      argLParenCounter := 0;
      argProcessor := null;
      State := M.FRESH;
      new;
      Repr := {this, witheldTokens};
    }

    method Feed(token: Token)
      requires Valid() && Ready()
      modifies Repr, outputBuffer, pp
      ensures Valid() && fresh(Repr - old(Repr)) && pp.disabledMacros == old(pp.disabledMacros)
      ensures var r := M.Feed(pp.env, old(pp.disabledMacros), old(State), token);
              && State == r.0
              && outputBuffer.tokens == old(outputBuffer.tokens) + r.1
      decreases |Enabled(pp.env, pp.disabledMacros)|, 2, State, 2
    {
      if |witheldTokens.tokens| == 0 {
        FeedTokenWithoutMacroContext(token);
      } else {
        FeedTokenWithMacroContext(token);
      }
    }

    method FeedTokenWithoutMacroContext(token: Token)
      requires Valid() && Ready() && State == M.FRESH
      modifies Repr, outputBuffer, pp
      ensures Valid() && Repr == old(Repr) && pp.disabledMacros == old(pp.disabledMacros)
      ensures var r := M.FeedWithoutContext(pp.env, old(pp.disabledMacros), token);
              && State == r.0
              && outputBuffer.tokens == old(outputBuffer.tokens) + r.1
      decreases |Enabled(pp.env, pp.disabledMacros)|, 1
    {
      match Read(pp.env, pp.disabledMacros, token) {
        case Plain(t) =>
          YieldToken(t);
        case ObjectMacro(def) =>
          FeedMacroExpansion(token, def, [], []);
        case FunctionMacro(def) =>
          witheldTokens.tokens := witheldTokens.tokens + [token];
          pendingInvokedMacro := Some(def);
          State := State.(withheld := [token], pending := Some(def));
      }
    }

    method YieldToken(token: Token)
      modifies outputBuffer
      ensures outputBuffer.tokens == old(outputBuffer.tokens) + [token]
    {
      outputBuffer.tokens := outputBuffer.tokens + [token];
    }

    method FeedMacroExpansion(macroNameTok: Token, def: MacroDefinition, invocationTokens: seq<Token>,
      args: seq<M.ArgInfo>)
      requires macroNameTok.text in pp.env.macros && macroNameTok.text !in pp.disabledMacros
      requires M.InBounds(args, |invocationTokens|)
      modifies outputBuffer, pp
      ensures pp.disabledMacros == old(pp.disabledMacros)
      ensures outputBuffer.tokens == old(outputBuffer.tokens)
        + M.FeedMacroExpansion(pp.env, old(pp.disabledMacros), def, macroNameTok, M.Slices(invocationTokens, args))
      decreases |Enabled(pp.env, pp.disabledMacros)|, 0
    {
      hide M.FeedAll, M.Slices, Substitute, M.Finalize, M.FeedMacroExpansion;
      ExpansionParts(pp.env, pp.disabledMacros, def, macroNameTok, M.Slices(invocationTokens, args));
      DisablingShrinks(pp.env, pp.disabledMacros, macroNameTok.text);
      pp.disabledMacros := pp.disabledMacros + {macroNameTok.text};
      FeedNextProcessor(macroNameTok, def, invocationTokens, args);
      pp.disabledMacros := pp.disabledMacros - {macroNameTok.text};
      assert pp.disabledMacros == old(pp.disabledMacros);
    }

    /** A processor of its own takes the body of a macro. */
    method FeedNextProcessor(macroNameTok: Token, def: MacroDefinition, invocationTokens: seq<Token>,
      args: seq<M.ArgInfo>)
      requires M.InBounds(args, |invocationTokens|)
      modifies outputBuffer, pp
      ensures pp.disabledMacros == old(pp.disabledMacros)
      ensures var body := Substitute(pp.env, def, macroNameTok, M.Slices(invocationTokens, args), def.body);
              var r := M.FeedAll(pp.env, old(pp.disabledMacros), M.FRESH, body);
              outputBuffer.tokens == old(outputBuffer.tokens) + (r.1 + M.Finalize(r.0).1)
      decreases |Enabled(pp.env, pp.disabledMacros)|, 5
    {
      hide M.FeedAll, M.Slices, Substitute, M.Finalize;
      var nextProcessor := new MacroExpansionProcessor(pp, outputBuffer);
      nextProcessor.FeedBody(macroNameTok, def, invocationTokens, args);
      nextProcessor.Finalize();
    }

    /** Feed the body of a macro, replacing parameters and pasting tokens on the way. */
    method FeedBody(macroNameTok: Token, def: MacroDefinition, invocationTokens: seq<Token>, args: seq<M.ArgInfo>)
      requires Valid() && Ready() && State == M.FRESH && M.InBounds(args, |invocationTokens|)
      modifies Repr, outputBuffer, pp
      ensures Valid() && fresh(Repr - old(Repr)) && pp.disabledMacros == old(pp.disabledMacros)
      ensures var body := Substitute(pp.env, def, macroNameTok, M.Slices(invocationTokens, args), def.body);
              var r := M.FeedAll(pp.env, old(pp.disabledMacros), M.FRESH, body);
              && State == r.0
              && outputBuffer.tokens == old(outputBuffer.tokens) + r.1
      decreases |Enabled(pp.env, pp.disabledMacros)|, 4
    {
      hide M.FeedAll, M.Slices, Substitute, M.Valid;
      ghost var sargs := M.Slices(invocationTokens, args);
      ghost var fed := [];
      ghost var r := (M.FRESH, []);
      R.FeedNothing(pp.env, pp.disabledMacros, M.FRESH);
      var cursor := 0;
      assert def.body[0..] == def.body;
      while cursor < |def.body|
        invariant 0 <= cursor <= |def.body|
        invariant Valid() && fresh(Repr - old(Repr)) && pp.disabledMacros == old(pp.disabledMacros)
        invariant fed + Substitute(pp.env, def, macroNameTok, sargs, def.body[cursor..])
               == Substitute(pp.env, def, macroNameTok, sargs, def.body)
        invariant r == M.FeedAll(pp.env, old(pp.disabledMacros), M.FRESH, fed)
        invariant State == r.0 && outputBuffer.tokens == old(outputBuffer.tokens) + r.1
      {
        var replacement, behind := NextReplacement(macroNameTok, def, invocationTokens, args, cursor);
        R.FeedAllAppend(pp.env, pp.disabledMacros, M.FRESH, fed, replacement);
        FeedAll(replacement);
        cursor := behind;
        fed := fed + replacement;
        r := M.FeedAll(pp.env, pp.disabledMacros, M.FRESH, fed);
      }
      SubstituteNothing(pp.env, def, macroNameTok, sargs);
      assert def.body[|def.body|..] == [] && fed + [] == fed;
    }

    /** Feed tokens one at a time. */
    method FeedAll(tokens: seq<Token>)
      requires Valid() && Ready()
      modifies Repr, outputBuffer, pp
      ensures Valid() && fresh(Repr - old(Repr)) && pp.disabledMacros == old(pp.disabledMacros)
      ensures var r := M.FeedAll(pp.env, old(pp.disabledMacros), old(State), tokens);
              && State == r.0
              && outputBuffer.tokens == old(outputBuffer.tokens) + r.1
      decreases |Enabled(pp.env, pp.disabledMacros)|, 3
    {
      hide M.Feed, M.FeedAll, M.Valid;
      R.FeedNothing(pp.env, pp.disabledMacros, State);
      ghost var r := (State, []);
      assert tokens[..0] == [];
      for i := 0 to |tokens|
        invariant Valid() && fresh(Repr - old(Repr)) && pp.disabledMacros == old(pp.disabledMacros)
        invariant r == M.FeedAll(pp.env, old(pp.disabledMacros), old(State), tokens[..i])
        invariant State == r.0 && outputBuffer.tokens == old(outputBuffer.tokens) + r.1
      {
        R.FeedAllSnoc(pp.env, pp.disabledMacros, old(State), tokens[..i], tokens[i]);
        assert tokens[..i + 1] == tokens[..i] + [tokens[i]];
        Feed(tokens[i]);
        r := M.FeedAll(pp.env, old(pp.disabledMacros), old(State), tokens[..i + 1]);
      }
      assert tokens[..|tokens|] == tokens;
    }

    /** The tokens that replace the body from `cursor` on, and where the body goes on. */
    method NextReplacement(macroNameTok: Token, def: MacroDefinition, invocationTokens: seq<Token>,
      args: seq<M.ArgInfo>, cursor: nat) returns (replacement: seq<Token>, behind: nat)
      requires cursor < |def.body| && M.InBounds(args, |invocationTokens|)
      ensures cursor < behind <= |def.body|
      ensures var sargs := M.Slices(invocationTokens, args);
              Substitute(pp.env, def, macroNameTok, sargs, def.body[cursor..])
              == replacement + Substitute(pp.env, def, macroNameTok, sargs, def.body[behind..])
    {
      var token := Relocate(def.body[cursor], macroNameTok);
      behind := cursor + 1;
      ghost var rest := def.body[cursor..];
      assert rest[1..] == def.body[cursor + 1..];
      if token.klass.Hash? {
        if |def.body| > behind + 1 && def.body[behind + 1].klass.Identifier? {
          assert rest[2..] == def.body[cursor + 2..];
          return [], behind + 1;
        }
      } else if |def.body| > behind && def.body[behind].klass.HashHash? {
        var pasted;
        pasted, behind := PasteTokens(def, invocationTokens, args, cursor);
        return if pasted.Some? then [Relocate(pp.env.lex(pasted.value), macroNameTok)] else [], behind;
      } else if token.klass.Identifier? {
        var param := FindParameter(def.params, token.text);
        if param.Some? {
          var i := param.value;
          if |args| > i {
            SlicesAt(invocationTokens, args, i);
            return invocationTokens[args[i].begin..args[i].end], behind;
          }
          return [], behind;
        }
      }
      return [token], behind;
    }

    /** The text of a chain of `##`, unless pasting fails. */
    method PasteTokens(def: MacroDefinition, invocationTokens: seq<Token>, args: seq<M.ArgInfo>, cursor: nat)
      returns (pasted: Option<string>, behind: nat)
      requires cursor < |def.body| && M.InBounds(args, |invocationTokens|)
      ensures cursor < behind <= |def.body|
      ensures var sargs := M.Slices(invocationTokens, args);
              PasteChain(def, sargs, PasteOperand(def, sargs, def.body[cursor]), def.body[cursor + 1..])
              == (pasted, def.body[behind..])
    {
      ghost var sargs := M.Slices(invocationTokens, args);
      pasted := PasteTokenText(def, invocationTokens, args, def.body[cursor]);
      behind := cursor + 1;
      while behind < |def.body| && def.body[behind].klass.HashHash?
        invariant cursor < behind <= |def.body|
        invariant PasteChain(def, sargs, pasted, def.body[behind..])
               == PasteChain(def, sargs, PasteOperand(def, sargs, def.body[cursor]), def.body[cursor + 1..])
      {
        ghost var rest := def.body[behind..];
        if behind + 1 < |def.body| {
          var operand := PasteTokenText(def, invocationTokens, args, def.body[behind + 1]);
          pasted := if pasted.Some? && operand.Some? then Some(pasted.value + operand.value) else None;
          assert rest[2..] == def.body[behind + 2..];
          behind := behind + 2;
        } else {
          pasted := None;
          assert rest[1..] == [] == def.body[behind + 1..];
          behind := behind + 1;
        }
      }
    }

    method PasteTokenText(def: MacroDefinition, invocationTokens: seq<Token>, args: seq<M.ArgInfo>, tok: Token)
      returns (text: Option<string>)
      requires M.InBounds(args, |invocationTokens|)
      ensures text == PasteOperand(def, M.Slices(invocationTokens, args), tok)
    {
      if tok.klass.Identifier? {
        var param := FindParameter(def.params, tok.text);
        if param.Some? {
          var i := param.value;
          if i >= |args| { return Some(""); }
          SlicesAt(invocationTokens, args, i);
          if args[i].count == 0 || args[i].first.None? { return Some(""); }
          return if args[i].count == 1 then Some(args[i].first.value.text) else None;
        }
      }
      return Some(tok.text);
    }

    /** The first parameter with the given name. */
    method FindParameter(paramTokens: seq<Token>, name: string) returns (r: Option<nat>)
      ensures r == ParamIndex(paramTokens, name)
    {
      for i := 0 to |paramTokens|
        invariant ParamIndex(paramTokens, name)
               == match ParamIndex(paramTokens[i..], name) case None => None case Some(k) => Some(k + i)
      {
        assert paramTokens[i..][1..] == paramTokens[i + 1..];
        if paramTokens[i].text == name { return Some(i); }
      }
      assert paramTokens[|paramTokens|..] == [];
      return None;
    }

    method FeedTokenWithMacroContext(token: Token)
      requires Valid() && Ready() && State.withheld != []
      modifies Repr, outputBuffer, pp
      ensures Valid() && fresh(Repr - old(Repr)) && pp.disabledMacros == old(pp.disabledMacros)
      ensures var r := M.Feed(pp.env, old(pp.disabledMacros), old(State), token);
              && State == r.0
              && outputBuffer.tokens == old(outputBuffer.tokens) + r.1
      decreases |Enabled(pp.env, pp.disabledMacros)|, 2, State, 1
    {
      hide M.FeedArgument, M.FeedWithoutContext, Read;
      if |invocationArguments| == 0 {
        if token.klass.LParen? {
          NewPendingInvocationArgument();
          argLParenCounter := argLParenCounter + 1;
          State := State.(parens := State.parens + 1);
        } else {
          RevokePendingMacroInvocation();
          FeedTokenWithoutMacroContext(token);
        }
      } else {
        ghost var p := State;
        ReadingArguments(pp.env, pp.disabledMacros, p);
        var parens := CountParenthesis(token);
        FeedArgument(token, parens, p);
      }
    }

    /** A token of an argument list, whose parentheses have been counted; `p` is the state before. */
    method FeedArgument(token: Token, parens: nat, ghost p: M.Processor)
      requires M.Valid(pp.env, pp.disabledMacros, p) && p.args != [] && parens == Depth(p.parens, token)
      requires Valid() && State == p.(parens := parens)
      modifies Repr, outputBuffer, pp
      ensures Valid() && fresh(Repr - old(Repr)) && pp.disabledMacros == old(pp.disabledMacros)
      ensures var r := M.FeedArgument(pp.env, old(pp.disabledMacros), p, token);
              && State == r.0
              && outputBuffer.tokens == old(outputBuffer.tokens) + r.1
      decreases |Enabled(pp.env, pp.disabledMacros)|, 2, p, 0
    {
      ghost var disabled := pp.disabledMacros;
      ReadingArguments(pp.env, disabled, p);
      hide M.Feed, M.Slices, M.Valid, M.Finalize, M.FinishArgument, M.FixArgs, M.FeedMacroExpansion, M.FeedArgument,
        M.NewArgument, ArgumentToken, Valid;
      if parens == 0 {
        CaseClose(pp.env, disabled, p, token);
        FinishCall();
      } else if parens == 1 && token.klass.Comma? {
        CaseComma(pp.env, disabled, p, token);
        NextArgument(token);
      } else {
        CaseToken(pp.env, disabled, p, token);
        FeedArgumentToken(token);
      }
    }

    method CountParenthesis(token: Token) returns (parens: nat)
      requires Valid() && State.parens > 0
      modifies this`argLParenCounter, this`State
      ensures Valid() && State == old(State).(parens := parens)
      ensures parens == Depth(old(State).parens, token)
    {
      if token.klass.LParen? {
        argLParenCounter := argLParenCounter + 1;
      } else if token.klass.RParen? {
        argLParenCounter := argLParenCounter - 1;
      }
      State := State.(parens := argLParenCounter);
      parens := argLParenCounter;
    }

    /** A delimiting comma: the next argument starts in front of it. */
    method NextArgument(token: Token)
      requires Valid() && State.args != [] && State.argProcessor.Some?
      requires var n := State.argProcessor.value; n.pending.Some? ==> n.withheld != []
      modifies Repr
      ensures Valid() && fresh(Repr - old(Repr))
      ensures var q := M.NewArgument(M.FinishArgument(old(State)));
              State == q.(withheld := q.withheld + [token])
    {
      hide M.FinishArgument;
      FinishPendingInvocationArgument();
      NewPendingInvocationArgument();
      witheldTokens.tokens := witheldTokens.tokens + [token];
      State := State.(withheld := State.withheld + [token]);
    }

    /** The call is complete: its expansion takes its place. */
    method FinishCall()
      requires Valid() && State.args != [] && State.argProcessor.Some? && State.parens == 0
      requires State.pending.Some? && State.withheld != []
      requires M.InBounds(State.args, |State.withheld|)
      requires var n := State.argProcessor.value; n.pending.Some? ==> n.withheld != []
      requires State.withheld[0].text in pp.env.macros && State.withheld[0].text !in pp.disabledMacros
      modifies Repr, outputBuffer, pp
      ensures Valid() && Repr <= old(Repr) && pp.disabledMacros == old(pp.disabledMacros)
      ensures State == M.FRESH
      ensures var q, def := M.FinishArgument(old(State)), old(State).pending.value;
              outputBuffer.tokens == old(outputBuffer.tokens)
              + M.FeedMacroExpansion(pp.env, old(pp.disabledMacros), def, old(State).withheld[0],
                  M.FixArgs(def, M.Slices(q.withheld, q.args)))
      decreases |Enabled(pp.env, pp.disabledMacros)|, 1
    {
      hide M.Slices, M.FixArgs, M.FeedMacroExpansion;
      FinishPendingInvocationArgument();
      var def := pendingInvokedMacro.value;
      SlicesFix(witheldTokens.tokens, invocationArguments, def);
      if |def.params| == 0 && |invocationArguments| == 1 && invocationArguments[0].count == 0 {
        invocationArguments := [];
        State := State.(args := []);
      }
      FeedMacroExpansion(witheldTokens.tokens[0], def, witheldTokens.tokens, invocationArguments);
      FinishPendingMacroInvocation();
    }

    /** A regular token of the argument goes to the nested processor. */
    method FeedArgumentToken(token: Token)
      requires Valid() && State.args != [] && State.argProcessor.Some?
      requires M.Valid(pp.env, pp.disabledMacros, State.argProcessor.value)
      modifies Repr, pp
      ensures Valid() && fresh(Repr - old(Repr)) && pp.disabledMacros == old(pp.disabledMacros)
      ensures State == ArgumentToken(pp.env, old(pp.disabledMacros), old(State), token)
      decreases |Enabled(pp.env, pp.disabledMacros)|, 2, State.argProcessor.value, 3
    {
      hide M.Feed, M.Valid;
      var last := |invocationArguments| - 1;
      var a := invocationArguments[last];
      if a.count == 0 { a := a.(first := Some(token)); }
      a := a.(count := a.count + 1);
      argProcessor.Feed(token);
      invocationArguments := invocationArguments[last := a];
      Repr := Repr + argProcessor.Repr;
      State := State.(args := invocationArguments, withheld := witheldTokens.tokens,
        argProcessor := Some(argProcessor.State));
    }

    method NewPendingInvocationArgument()
      requires Valid()
      modifies this
      ensures Valid() && fresh(Repr - old(Repr)) && State == M.NewArgument(old(State))
    {
      var n := |witheldTokens.tokens|;
      invocationArguments := invocationArguments + [M.ArgInfo(0, None, n, n)];
      argProcessor := new MacroExpansionProcessor(pp, witheldTokens);
      Repr := {this, witheldTokens} + argProcessor.Repr;
      State := M.NewArgument(State);
    }

    method FinishPendingInvocationArgument()
      requires Valid() && State.args != [] && State.argProcessor.Some?
      requires var n := State.argProcessor.value; n.pending.Some? ==> n.withheld != []
      modifies Repr
      ensures Valid() && Repr <= old(Repr) && State == M.FinishArgument(old(State))
    {
      argProcessor.Finalize();
      argProcessor := null;
      var last := |invocationArguments| - 1;
      invocationArguments := invocationArguments[last := invocationArguments[last].(end := |witheldTokens.tokens|)];
      Repr := {this, witheldTokens};
      State := M.FinishArgument(State);
    }

    method FinishPendingMacroInvocation()
      requires Valid() && State.parens == 0 && State.argProcessor.None?
      modifies this, witheldTokens
      ensures Valid() && Repr == old(Repr) && State == M.FRESH
    {
      pendingInvokedMacro := None;
      witheldTokens.tokens := [];
      invocationArguments := [];
      State := M.FRESH;
    }

    method RevokePendingMacroInvocation()
      requires Valid() && State.pending.Some? && State.withheld != []
      modifies this, witheldTokens, outputBuffer
      ensures Valid() && Repr == old(Repr)
      ensures State == M.Finalize(old(State)).0
      ensures outputBuffer.tokens == old(outputBuffer.tokens) + M.Finalize(old(State)).1
    {
      pendingInvokedMacro := None;
      YieldToken(witheldTokens.tokens[0]);
      witheldTokens.tokens := [];
      invocationArguments := [];
      State := M.Finalize(State).0;
    }

    /** Releases the macro name that is withheld, if any. */
    method Finalize()
      requires Valid() && (State.pending.Some? ==> State.withheld != [])
      modifies this, witheldTokens, outputBuffer
      ensures Valid() && Repr == old(Repr)
      ensures State == M.Finalize(old(State)).0
      ensures outputBuffer.tokens == old(outputBuffer.tokens) + M.Finalize(old(State)).1
    {
      if pendingInvokedMacro.Some? {
        RevokePendingMacroInvocation();
      }
    }
  }

  lemma {:induction false} SlicesAt(withheld: seq<Token>, args: seq<M.ArgInfo>, i: nat)
    requires M.InBounds(args, |withheld|) && i < |args|
    ensures M.Slices(withheld, args)[i] == Arg(args[i].count, args[i].first, withheld[args[i].begin..args[i].end])
    decreases |args|
  {
    if i < |args| - 1 {
      SlicesAt(withheld, args[..|args| - 1], i);
    }
  }

  lemma SlicesFix(withheld: seq<Token>, args: seq<M.ArgInfo>, def: MacroDefinition)
    requires M.InBounds(args, |withheld|)
    ensures M.FixArgs(def, M.Slices(withheld, args))
         == M.Slices(withheld, if def.params == [] && |args| == 1 && args[0].count == 0 then [] else args)
  {
    if |args| == 1 {
      SlicesAt(withheld, args, 0);
    }
  }

  lemma SubstituteNothing(env: Env, def: MacroDefinition, at: Token, args: seq<Arg>)
    ensures Substitute(env, def, at, args, []) == []
  {
  }

  /** What a processor that reads arguments can rely on. */
  lemma ReadingArguments(env: Env, disabled: set<string>, p: M.Processor)
    requires M.Valid(env, disabled, p) && p.args != []
    ensures p.argProcessor.Some? && M.Valid(env, disabled, p.argProcessor.value)
    ensures p.pending.Some? && p.withheld != [] && M.InBounds(p.args, |p.withheld|) && p.parens > 0
    ensures p.withheld[0].text in env.macros && p.withheld[0].text !in disabled
    ensures var n := p.argProcessor.value; n.pending.Some? ==> n.withheld != []
  {
  }

  // The cases of a token in an argument list, after the parentheses have been counted.

  lemma CaseClose(env: Env, disabled: set<string>, p: M.Processor, token: Token)
    requires M.Valid(env, disabled, p) && p.args != [] && Depth(p.parens, token) == 0
    requires p.pending.Some? && p.withheld != [] && p.argProcessor.Some?
    requires p.withheld[0].text in env.macros && p.withheld[0].text !in disabled
    ensures var q := M.FinishArgument(p.(parens := 0));
            && M.InBounds(q.args, |q.withheld|)
            && M.FeedArgument(env, disabled, p, token)
               == (M.FRESH, M.FeedMacroExpansion(env, disabled, p.pending.value, p.withheld[0],
                    M.FixArgs(p.pending.value, M.Slices(q.withheld, q.args))))
  {
  }

  lemma CaseComma(env: Env, disabled: set<string>, p: M.Processor, token: Token)
    requires M.Valid(env, disabled, p) && p.args != [] && p.argProcessor.Some?
    requires Depth(p.parens, token) == 1 && token.klass.Comma?
    ensures var q := M.NewArgument(M.FinishArgument(p.(parens := 1)));
            M.FeedArgument(env, disabled, p, token) == (q.(withheld := q.withheld + [token]), [])
  {
  }

  lemma CaseToken(env: Env, disabled: set<string>, p: M.Processor, token: Token)
    requires M.Valid(env, disabled, p) && p.args != []
    requires p.argProcessor.Some? && M.Valid(env, disabled, p.argProcessor.value)
    requires var parens := Depth(p.parens, token); parens != 0 && !(parens == 1 && token.klass.Comma?)
    ensures M.FeedArgument(env, disabled, p, token)
         == (ArgumentToken(env, disabled, p.(parens := Depth(p.parens, token)), token), [])
  {
  }

  ghost function ArgumentToken(env: Env, disabled: set<string>, p: M.Processor, token: Token): M.Processor
    requires p.args != [] && p.argProcessor.Some? && M.Valid(env, disabled, p.argProcessor.value)
  {
    var last := |p.args| - 1;
    var a := p.args[last];
    var r := M.Feed(env, disabled, p.argProcessor.value, token);
    p.(withheld := p.withheld + r.1, argProcessor := Some(r.0), args := p.args[last :=
         a.(count := a.count + 1, first := if a.count == 0 then Some(token) else a.first)])
  }

  /** Expand a whole list of tokens with one processor. */
  method ExpandTokens(pp: MacroContext, tokens: seq<Token>) returns (expanded: seq<Token>)
    modifies pp
    ensures pp.disabledMacros == old(pp.disabledMacros)
    ensures expanded == M.Expand(pp.env, pp.disabledMacros, tokens)
  {
    hide M.FeedAll, M.Expand, M.Finalize;
    var buffer := new TokenBuffer();
    var processor := new MacroExpansionProcessor(pp, buffer);
    processor.FeedAll(tokens);
    processor.Finalize();
    R.StreamRefinesExpand(pp.env, pp.disabledMacros, tokens);
    expanded := buffer.tokens;
  }
}
