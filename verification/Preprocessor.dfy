/** The preprocessor as the object it is: tokens are fed one at a time, directives are collected in a
    buffer, and the handlers update the stack of conditionals in place.  Every method is proved
    against the machine of `Conditionals`. */
module Preprocessor {
  import opened Tokens
  import opened Conditionals
  import opened ConditionalLines
  import opened ConditionalGroups
  import opened ConditionalSelection

  class PreprocessStateMachine<E> {
    const host: Host<E>
    var state: PPState
    var directiveTokBuffer: seq<Token>
    var conditionalStack: seq<Entry>
    var skippedInactiveConditionalCount: nat
    var env: E

    function Conditions(): Conds<E>
      reads this
    {
      Conds(conditionalStack, skippedInactiveConditionalCount, env)
    }

    function Value(): Machine<E>
      reads this
    {
      Machine(state, directiveTokBuffer, Conditions())
    }

    constructor (host: Host<E>, env: E)
      ensures this.host == host && Value() == Initial(env)
    {
      this.host := host;
      state := Default;
      directiveTokBuffer := [];
      conditionalStack := [];
      skippedInactiveConditionalCount := 0;
      this.env := env;
    }

    /** Tokens of the main file up to its end.  In an inactive region only a `#` that starts a line is
        looked at. */
    method PreprocessSourceFile(tokens: seq<Token>, eof: Token)
      requires Sound(Value()) && !state.Halt?
      requires (forall t <- tokens :: !t.klass.Eof?) && eof.klass.Eof?
      modifies this
      ensures Value() == Conditionals.FeedPPToken(host, FeedAll(host, old(Value()), tokens), eof)
    {
      hide Dispatch, Sound, Conditionals.FeedPPToken;
      ghost var m := Value();
      assert tokens[..0] == [];
      for i := 0 to |tokens|
        invariant Sound(Value()) && !state.Halt?
        invariant Value() == FeedAll(host, m, tokens[..i])
      {
        FeedAllAppend(host, m, tokens[..i], [tokens[i]]);
        FeedAllSingle(host, Value(), tokens[i]);
        assert tokens[..i + 1] == tokens[..i] + [tokens[i]];
        if !state.Inactive? || (tokens[i].klass.Hash? && tokens[i].isFirstTokenOfLine) {
          FeedPPToken(tokens[i]);
        } else {
          InactiveIgnores(host, Value(), tokens[i]);
        }
      }
      assert tokens[..|tokens|] == tokens;
      FeedPPToken(eof);
    }

    method FeedPPToken(token: Token)
      requires Sound(Value()) && !state.Halt?
      modifies this
      ensures Value() == Conditionals.FeedPPToken(host, old(Value()), token)
    {
      DispatchTokenToHandler(token);
      if token.klass.Eof? {
        env := host.finish(env);
        env := host.output(env, token);
        state := Halt;
      }
    }

    method DispatchTokenToHandler(token: Token)
      requires Sound(Value()) && !state.Halt?
      modifies this
      ensures Value() == Dispatch(host, old(Value()), token)
      decreases if Expecting(state) then 4 else 1
    {
      match state {
        case Default => AcceptOnDefaultState(token);
        case Inactive => AcceptOnInactiveState(token);
        case ExpectDirective => AcceptOnExpectDirectiveState(token);
        case ExpectDefaultDirectiveTail => AcceptOnExpectDirectiveTailState(token);
        case ExpectIncludeDirectiveTail => AcceptOnExpectDirectiveTailState(token);
        case Halt => assert false;
      }
    }

    method AcceptOnDefaultState(token: Token)
      requires Sound(Value()) && state.Default?
      modifies this
      ensures Value() == Dispatch(host, old(Value()), token)
      decreases 0
    {
      if token.klass.Eof? {
      } else if token.klass.Hash? && token.isFirstTokenOfLine {
        TransitionToExpectDirectiveState(token);
      } else {
        env := host.feed(env, token);
      }
    }

    method AcceptOnInactiveState(token: Token)
      requires Sound(Value()) && state.Inactive?
      modifies this
      ensures Value() == Dispatch(host, old(Value()), token)
      decreases 0
    {
      if token.klass.Hash? && token.isFirstTokenOfLine {
        TransitionToExpectDirectiveState(token);
      }
    }

    method TransitionToExpectDirectiveState(hashToken: Token)
      requires state.Default? || state.Inactive?
      requires hashToken.klass.Hash? && hashToken.isFirstTokenOfLine
      modifies this`state, this`directiveTokBuffer
      ensures Value() == TransitionToExpectDirective(old(Value()), hashToken)
    {
      state := ExpectDirective;
      directiveTokBuffer := [];
      directiveTokBuffer := directiveTokBuffer + [hashToken];
    }

    method AcceptOnExpectDirectiveState(token: Token)
      requires Sound(Value()) && state.ExpectDirective?
      modifies this
      ensures Value() == Dispatch(host, old(Value()), token)
      decreases 3
    {
      hide DirectiveOf;
      if StartsLine(token) {
        DispatchPPDirectiveToHandler();
        Redirect(token);
      } else {
        directiveTokBuffer := directiveTokBuffer + [token];
        if |conditionalStack| == 0 || conditionalStack[|conditionalStack| - 1].active {
          if DirectiveOf(token.text).Include? {
            state := ExpectIncludeDirectiveTail;
          } else {
            state := ExpectDefaultDirectiveTail;
          }
        } else if IsConditional(DirectiveOf(token.text)) {
          state := ExpectDefaultDirectiveTail;
        } else {
          state := Inactive;
        }
      }
    }

    method AcceptOnExpectDirectiveTailState(token: Token)
      requires Sound(Value()) && (state.ExpectDefaultDirectiveTail? || state.ExpectIncludeDirectiveTail?)
      modifies this
      ensures Value() == Dispatch(host, old(Value()), token)
      decreases 3
    {
      if StartsLine(token) {
        DispatchPPDirectiveToHandler();
        Redirect(token);
      } else {
        directiveTokBuffer := directiveTokBuffer + [token];
      }
    }

    /** The directive has been handled; the token behind it goes to the state that follows. */
    method Redirect(token: Token)
      requires Expecting(state) && (state.ExpectIncludeDirectiveTail? ==> Active(conditionalStack))
      modifies this
      ensures Value() == if Active(old(conditionalStack)) then TransitionToDefault(host, old(Value()), token)
                         else TransitionToInactive(host, old(Value()), token)
      decreases 2
    {
      if |conditionalStack| == 0 || conditionalStack[|conditionalStack| - 1].active {
        state := Default;
        DispatchTokenToHandler(token);
      } else {
        state := Inactive;
        DispatchTokenToHandler(token);
      }
    }

    method DispatchPPDirectiveToHandler()
      modifies this`conditionalStack, this`skippedInactiveConditionalCount, this`env
      ensures Conditions() == DispatchDirective(host, old(Conditions()), directiveTokBuffer)
    {
      if |directiveTokBuffer| <= 1 { return; }
      var args := directiveTokBuffer[2..];
      match DirectiveOf(directiveTokBuffer[1].text) {
        case If => HandleIfDirective(args);
        case Ifdef => HandleIfdefDirective(args, false);
        case Ifndef => HandleIfdefDirective(args, true);
        case Elif => HandleElifDirective(args);
        case Else => HandleElseDirective();
        case Endif => HandleEndifDirective();
        case Include => env := host.execute(env, directiveTokBuffer[1..]);
        case Other => env := host.execute(env, directiveTokBuffer[1..]);
      }
    }

    method HandleIfDirective(args: seq<Token>)
      modifies this`conditionalStack, this`skippedInactiveConditionalCount
      ensures Conditions() == HandleIf(host, old(Conditions()), args)
    {
      if |conditionalStack| != 0 && !conditionalStack[|conditionalStack| - 1].active {
        skippedInactiveConditionalCount := skippedInactiveConditionalCount + 1;
        return;
      }
      var evalToTrue := host.evaluate(env, args);
      conditionalStack := conditionalStack + [Entry(evalToTrue, evalToTrue, false)];
    }

    method HandleIfdefDirective(args: seq<Token>, isNDef: bool)
      modifies this`conditionalStack, this`skippedInactiveConditionalCount
      ensures Conditions() == HandleIfdef(host, old(Conditions()), args, isNDef)
    {
      if |conditionalStack| != 0 && !conditionalStack[|conditionalStack| - 1].active {
        skippedInactiveConditionalCount := skippedInactiveConditionalCount + 1;
        return;
      }
      if |args| == 0 || !args[0].klass.Identifier? { return; }
      var isActive := host.isDefined(env, args[0].text) != isNDef;
      conditionalStack := conditionalStack + [Entry(isActive, isActive, false)];
    }

    method HandleElifDirective(args: seq<Token>)
      modifies this`conditionalStack
      ensures Conditions() == HandleElif(host, old(Conditions()), args)
    {
      if skippedInactiveConditionalCount > 0 { return; }
      var evalToTrue := host.evaluate(env, args);
      if |conditionalStack| == 0 { return; }
      var last := |conditionalStack| - 1;
      var info := conditionalStack[last];
      if info.seenElse { return; }
      info := info.(active := !info.seenActiveBranch && evalToTrue);
      info := info.(seenActiveBranch := info.active);
      conditionalStack := conditionalStack[last := info];
    }

    method HandleElseDirective()
      modifies this`conditionalStack
      ensures Conditions() == HandleElse(old(Conditions()))
    {
      if skippedInactiveConditionalCount > 0 || |conditionalStack| == 0 { return; }
      var last := |conditionalStack| - 1;
      var info := conditionalStack[last];
      if info.seenElse { return; }
      conditionalStack := conditionalStack[last := Entry(!info.seenActiveBranch, true, true)];
    }

    method HandleEndifDirective()
      modifies this`conditionalStack, this`skippedInactiveConditionalCount
      ensures Conditions() == HandleEndif(old(Conditions()))
    {
      if skippedInactiveConditionalCount > 0 {
        skippedInactiveConditionalCount := skippedInactiveConditionalCount - 1;
        return;
      }
      if |conditionalStack| == 0 { return; }
      conditionalStack := conditionalStack[..|conditionalStack| - 1];
    }
  }

  lemma FeedAllSingle<E>(host: Host<E>, m: Machine<E>, tok: Token)
    requires Sound(m) && !m.state.Halt? && !tok.klass.Eof?
    ensures FeedAll(host, m, [tok]) == Conditionals.FeedPPToken(host, m, tok)
  {
    assert [tok][1..] == [];
    assert FeedAll(host, Conditionals.FeedPPToken(host, m, tok), []) == Conditionals.FeedPPToken(host, m, tok);
  }

  lemma InactiveIgnores<E>(host: Host<E>, m: Machine<E>, tok: Token)
    requires Sound(m) && m.state.Inactive? && !tok.klass.Eof? && !(tok.klass.Hash? && tok.isFirstTokenOfLine)
    ensures Conditionals.FeedPPToken(host, m, tok) == m
  {
  }

  /** A balanced file from its first token to the halt. */
  method PreprocessFile<E>(host: Host<E>, env: E, t: Text, eof: Token) returns (pp: PreprocessStateMachine<E>)
    requires WellFormed(t) && eof.klass.Eof?
    ensures pp.state.Halt? && pp.conditionalStack == [] && pp.skippedInactiveConditionalCount == 0
    ensures pp.env == host.output(host.finish(Meaning(host, env, t)), eof)
  {
    hide FeedAll, Lines, Meaning, Concat, Dispatch;
    pp := new PreprocessStateMachine(host, env);
    pp.PreprocessSourceFile(Concat(Lines(t)), eof);
    BalancedFile(host, env, t, eof);
  }
}
