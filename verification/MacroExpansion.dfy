/** Macro expansion as a token-at-a-time transducer, and as a recursive expander of whole lists.

    `Feed` and `Finalize` are the streaming form: a processor withholds the name of a
    function-like macro and the expanded arguments read so far, with a nested processor for the
    argument being read.  `Expand` is the batch form. */
module MacroExpansion {
  import opened Tokens
  import opened MacroSyntax

  // ---------------------------------------------------------------------------------------
  // The batch form
  // ---------------------------------------------------------------------------------------

  /** A list of arguments with a single empty one is no argument at all for a macro without
      parameters. */
  function FixArgs(def: MacroDefinition, args: seq<Arg>): seq<Arg> {
    if def.params == [] && |args| == 1 && args[0].count == 0 then [] else args
  }

  function First(raw: seq<Token>): Option<Token> { if raw == [] then None else Some(raw[0]) }

  predicate AllWithin(args: seq<RawArg>, n: nat) { forall a <- args :: |a.raw| <= n }

  lemma {:induction false} SplitCallWithin(ts: seq<Token>, depth: nat, done: seq<RawArg>, current: RawArg, n: nat)
    requires AllWithin(done, n) && |current.raw| + |ts| <= n
    ensures SplitCall(ts, depth, done, current).Some? ==> AllWithin(SplitCall(ts, depth, done, current).value.args, n)
    decreases |ts|
  {
    if ts != [] && !(ts[0].klass.RParen? && depth == 0) {
      var t := ts[0];
      if t.klass.Comma? && depth == 0 {
        SplitCallWithin(ts[1..], depth, done + [current], RawArg([t], []), n);
      } else {
        SplitCallWithin(ts[1..], Depth(depth, t), done, current.(raw := current.raw + [t]), n);
      }
    }
  }

  /** The call whose `(` has just been read. */
  function ReadCall(ts: seq<Token>): (r: Option<Call>)
    ensures r.Some? ==> |r.value.after| < |ts| && AllWithin(r.value.args, |ts|)
  {
    SplitCallWithin(ts, 0, [], RawArg([], []), |ts|);
    SplitCall(ts, 0, [], RawArg([], []))
  }

  /** Expand a whole list of tokens.  A function-like macro that is not followed by `(` is an
      ordinary token; one whose call is not closed is all that is left of the rest. */
  function Expand(env: Env, disabled: set<string>, ts: seq<Token>): seq<Token>
    decreases |Enabled(env, disabled)|, |ts|, 0
  {
    if ts == [] then []
    else
      match Read(env, disabled, ts[0])
      case Plain(t) => [t] + Expand(env, disabled, ts[1..])
      case ObjectMacro(def) =>
        DisablingShrinks(env, disabled, ts[0].text);
        Expand(env, disabled + {ts[0].text}, Substitute(env, def, ts[0], [], def.body))
        + Expand(env, disabled, ts[1..])
      case FunctionMacro(def) =>
        if |ts| == 1 || !ts[1].klass.LParen? then [ts[0]] + Expand(env, disabled, ts[1..])
        else
          match ReadCall(ts[2..])
          case None => [ts[0]]
          case Some(call) =>
            DisablingShrinks(env, disabled, ts[0].text);
            var args := FixArgs(def, ExpandArgs(env, disabled, call.args, |ts| - 2));
            Expand(env, disabled + {ts[0].text}, Substitute(env, def, ts[0], args, def.body))
            + Expand(env, disabled, call.after)
  }

  /** Each argument is expanded on its own; all but the first keep the comma in front of them. */
  function ExpandArgs(env: Env, disabled: set<string>, args: seq<RawArg>, n: nat): (r: seq<Arg>)
    requires AllWithin(args, n)
    ensures |r| == |args|
    decreases |Enabled(env, disabled)|, n, 1 + |args|
  {
    if args == [] then []
    else
      var a := args[|args| - 1];
      ExpandArgs(env, disabled, args[..|args| - 1], n)
      + [Arg(|a.raw|, First(a.raw), a.comma + Expand(env, disabled, a.raw))]
  }

  /** `__LINE__` is the number of its line, counted from one, `__FILE__` that of its file, and
      `__VERSION__` that of the language, whatever macros are defined. */
  lemma BuiltinsExpand(env: Env, disabled: set<string>, tok: Token)
    requires tok.klass.Identifier?
    ensures tok.text == "__LINE__" ==>
      Expand(env, disabled, [tok])
      == [Token(NumberLiteral, env.decimal(tok.line + 1), tok.file, tok.line, false, false)]
    ensures tok.text == "__FILE__" ==>
      Expand(env, disabled, [tok])
      == [Token(NumberLiteral, env.decimal(tok.file), tok.file, tok.line, false, false)]
    ensures tok.text == "__VERSION__" ==>
      Expand(env, disabled, [tok])
      == [Token(NumberLiteral, env.decimal(env.version), tok.file, tok.line, false, false)]
  {
    assert [tok][1..] == [] && Expand(env, disabled, []) == [];
  }

  // ---------------------------------------------------------------------------------------
  // The streaming form
  // ---------------------------------------------------------------------------------------

  /** Bookkeeping for an argument: the tokens read for it, and where its expansion lies in the
      withheld tokens. */
  datatype ArgInfo = ArgInfo(count: nat, first: Option<Token>, begin: nat, end: nat)

  datatype Processor = Processor(
    withheld: seq<Token>,
    args: seq<ArgInfo>,
    pending: Option<MacroDefinition>,
    parens: nat,
    argProcessor: Option<Processor>)

  const FRESH := Processor([], [], None, 0, None)

  predicate InBounds(args: seq<ArgInfo>, n: nat) { forall a <- args :: a.begin <= a.end <= n }

  /** What holds of a processor between two tokens.  It implies what the source asserts of processors;
      what it asserts of the tokens they are fed can fail, see `MacroFed`. */
  predicate Valid(env: Env, disabled: set<string>, p: Processor) {
    && (p.withheld == [] <==> p.pending.None?)
    && (p.pending.Some? ==> Read(env, disabled, p.withheld[0]) == FunctionMacro(p.pending.value))
    && (p.pending.None? ==> p.args == [])
    && (p.args == [] <==> p.parens == 0)
    && (p.args == [] <==> p.argProcessor.None?)
    && (p.args == [] ==> |p.withheld| <= 1)
    && (p.argProcessor.Some? ==> Valid(env, disabled, p.argProcessor.value))
    && InBounds(p.args, |p.withheld|)
  }

  /** The arguments as `Substitute` sees them. */
  function Slices(withheld: seq<Token>, args: seq<ArgInfo>): (r: seq<Arg>)
    requires InBounds(args, |withheld|)
    ensures |r| == |args|
  {
    if args == [] then []
    else
      var a := args[|args| - 1];
      Slices(withheld, args[..|args| - 1]) + [Arg(a.count, a.first, withheld[a.begin..a.end])]
  }

  /** Releases the macro name only.  The parenthesis counter and the nested processor stay. */
  function Finalize(p: Processor): (Processor, seq<Token>) {
    if p.pending.None? || p.withheld == [] then (p, [])
    else (p.(withheld := [], args := [], pending := None), [p.withheld[0]])
  }

  /** Start the next argument behind the tokens withheld so far. */
  function NewArgument(p: Processor): Processor {
    p.(args := p.args + [ArgInfo(0, None, |p.withheld|, |p.withheld|)], argProcessor := Some(FRESH))
  }

  /** The nested processor releases what it withholds, and the argument ends there. */
  function FinishArgument(p: Processor): (r: Processor)
    requires p.args != [] && p.argProcessor.Some?
    ensures InBounds(p.args, |p.withheld|) ==> InBounds(r.args, |r.withheld|)
  {
    var withheld := p.withheld + Finalize(p.argProcessor.value).1;
    var last := |p.args| - 1;
    p.(withheld := withheld, args := p.args[last := p.args[last].(end := |withheld|)], argProcessor := None)
  }

  function Feed(env: Env, disabled: set<string>, p: Processor, tok: Token): (r: (Processor, seq<Token>))
    requires Valid(env, disabled, p)
    ensures Valid(env, disabled, r.0)
    decreases |Enabled(env, disabled)|, 2, p, 1
  {
    if p.withheld == [] then FeedWithoutContext(env, disabled, tok)
    else if p.args == [] then
      if tok.klass.LParen? then (NewArgument(p).(parens := 1), [])
      else
        var released := Finalize(p).1;
        var r := FeedWithoutContext(env, disabled, tok);
        (r.0, released + r.1)
    else FeedArgument(env, disabled, p, tok)
  }

  /** A token while the argument list of a call is read. */
  function FeedArgument(env: Env, disabled: set<string>, p: Processor, tok: Token): (r: (Processor, seq<Token>))
    requires Valid(env, disabled, p) && p.args != []
    ensures Valid(env, disabled, r.0)
    decreases |Enabled(env, disabled)|, 2, p, 0
  {
    var parens := Depth(p.parens, tok);
    if parens == 0 then
      var q := FinishArgument(p);
      var args := FixArgs(p.pending.value, Slices(q.withheld, q.args));
      (FRESH, FeedMacroExpansion(env, disabled, p.pending.value, p.withheld[0], args))
    else if parens == 1 && tok.klass.Comma? then
      var q := NewArgument(FinishArgument(p));
      (q.(parens := parens, withheld := q.withheld + [tok]), [])
    else
      var last := |p.args| - 1;
      var a := p.args[last];
      var first := if a.count == 0 then Some(tok) else a.first;
      var r := Feed(env, disabled, p.argProcessor.value, tok);
      (p.(parens := parens, args := p.args[last := a.(count := a.count + 1, first := first)],
          withheld := p.withheld + r.1, argProcessor := Some(r.0)), [])
  }

  /** A token while no macro call is pending. */
  function FeedWithoutContext(env: Env, disabled: set<string>, tok: Token): (r: (Processor, seq<Token>))
    ensures Valid(env, disabled, r.0)
    decreases |Enabled(env, disabled)|, 1
  {
    match Read(env, disabled, tok)
    case Plain(t) => (FRESH, [t])
    case ObjectMacro(def) => (FRESH, FeedMacroExpansion(env, disabled, def, tok, []))
    case FunctionMacro(def) => (FRESH.(withheld := [tok], pending := Some(def)), [])
  }

  /** Feed a macro body, with its parameters replaced, to a new processor and finalize it.  The
      macro is disabled meanwhile. */
  function FeedMacroExpansion(env: Env, disabled: set<string>, def: MacroDefinition, name: Token, args: seq<Arg>)
    : seq<Token>
    requires name.text in env.macros && name.text !in disabled
    decreases |Enabled(env, disabled)|, 0
  {
    DisablingShrinks(env, disabled, name.text);
    Stream(env, disabled + {name.text}, FRESH, Substitute(env, def, name, args, def.body))
  }

  function FeedAll(env: Env, disabled: set<string>, p: Processor, ts: seq<Token>): (r: (Processor, seq<Token>))
    requires Valid(env, disabled, p)
    ensures Valid(env, disabled, r.0)
    decreases |Enabled(env, disabled)|, 3, |ts|
  {
    if ts == [] then (p, [])
    else
      var r := FeedAll(env, disabled, p, ts[..|ts| - 1]);
      var s := Feed(env, disabled, r.0, ts[|ts| - 1]);
      (s.0, r.1 + s.1)
  }

  /** Everything a processor yields for a list of tokens and the end of its input. */
  function Stream(env: Env, disabled: set<string>, p: Processor, ts: seq<Token>): seq<Token>
    requires Valid(env, disabled, p)
    decreases |Enabled(env, disabled)|, 4
  {
    var r := FeedAll(env, disabled, p, ts);
    r.1 + Finalize(r.0).1
  }
}
