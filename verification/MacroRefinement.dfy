/** Streaming macro expansion refines batch expansion: for every macro table and every list of tokens
    they compute the same tokens. */
module MacroRefinement {
  import opened Tokens
  import opened MacroSyntax
  import opened MacroExpansion

  lemma {:induction false} FeedAllAppend(env: Env, disabled: set<string>, p: Processor, a: seq<Token>, b: seq<Token>)
    requires Valid(env, disabled, p)
    ensures var r := FeedAll(env, disabled, p, a);
            var s := FeedAll(env, disabled, r.0, b);
            FeedAll(env, disabled, p, a + b) == (s.0, r.1 + s.1)
    decreases |b|
  {
    hide Feed, Valid;
    if b == [] {
      assert a + b == a;
      var r := FeedAll(env, disabled, p, a);
      assert FeedAll(env, disabled, r.0, b) == (r.0, []);
      assert r.1 + [] == r.1;
    } else {
      var last := |b| - 1;
      FeedAllAppend(env, disabled, p, a, b[..last]);
      assert (a + b)[..|a + b| - 1] == a + b[..last];
      assert (a + b)[|a + b| - 1] == b[last];
      var r := FeedAll(env, disabled, p, a);
      var s := FeedAll(env, disabled, r.0, b[..last]);
      var f := Feed(env, disabled, s.0, b[last]);
      assert r.1 + s.1 + f.1 == r.1 + (s.1 + f.1);
    }
  }

  /** One token first, then the others. */
  lemma StreamCons(env: Env, disabled: set<string>, p: Processor, ts: seq<Token>)
    requires Valid(env, disabled, p) && ts != []
    ensures var r := Feed(env, disabled, p, ts[0]);
            Stream(env, disabled, p, ts) == r.1 + Stream(env, disabled, r.0, ts[1..])
  {
    hide Feed, Valid, FeedAll;
    assert ts == [ts[0]] + ts[1..];
    FeedAllAppend(env, disabled, p, [ts[0]], ts[1..]);
    FeedAllOne(env, disabled, p, ts[0]);
  }

  lemma FeedAllOne(env: Env, disabled: set<string>, p: Processor, t: Token)
    requires Valid(env, disabled, p)
    ensures FeedAll(env, disabled, p, [t]) == Feed(env, disabled, p, t)
  {
    assert [t][..0] == [];
    assert FeedAll(env, disabled, p, []) == (p, []);
    var s := Feed(env, disabled, p, t);
    assert FeedAll(env, disabled, p, [t]) == (s.0, [] + s.1);
    assert [] + s.1 == s.1;
  }

  lemma FeedAllSnoc(env: Env, disabled: set<string>, p: Processor, ts: seq<Token>, t: Token)
    requires Valid(env, disabled, p)
    ensures var r := FeedAll(env, disabled, p, ts);
            var s := Feed(env, disabled, r.0, t);
            FeedAll(env, disabled, p, ts + [t]) == (s.0, r.1 + s.1)
  {
    assert (ts + [t])[..|ts|] == ts;
  }

  /** Arguments already read do not change when more tokens are withheld. */
  lemma {:induction false} SlicesExtend(withheld: seq<Token>, more: seq<Token>, args: seq<ArgInfo>)
    requires InBounds(args, |withheld|)
    ensures InBounds(args, |withheld + more|)
    ensures Slices(withheld + more, args) == Slices(withheld, args)
  {
    if args != [] {
      var a := args[|args| - 1];
      SlicesExtend(withheld, more, args[..|args| - 1]);
      assert (withheld + more)[a.begin..a.end] == withheld[a.begin..a.end];
    }
  }

  /** The processor has read the name, the `(`, the arguments `done` and, so far, `current`. */
  ghost predicate Collecting(env: Env, disabled: set<string>, p: Processor, name: Token, def: MacroDefinition,
    done: seq<RawArg>, current: RawArg, n: nat)
  {
    && Valid(env, disabled, p)
    && p.withheld != [] && p.withheld[0] == name && p.pending == Some(def)
    && AllWithin(done, n)
    && |p.args| == |done| + 1
    && Slices(p.withheld, p.args[..|done|]) == ExpandArgs(env, disabled, done, n)
    && CollectingLast(env, disabled, p, p.args[|done|], current)
  }

  ghost predicate CollectingLast(env: Env, disabled: set<string>, p: Processor, last: ArgInfo, current: RawArg) {
    var r := FeedAll(env, disabled, FRESH, current.raw);
    && last.begin <= |p.withheld|
    && last.count == |current.raw|
    && last.first == First(current.raw)
    && p.withheld[last.begin..] == current.comma + r.1
    && p.argProcessor == Some(r.0)
  }

  /** The text of a finished argument. */
  lemma {:induction false} FinishedText(env: Env, disabled: set<string>, p: Processor, current: RawArg)
    requires p.args != [] && CollectingLast(env, disabled, p, p.args[|p.args| - 1], current)
    ensures var q, k := FinishArgument(p), |p.args| - 1;
            && q.args[k] == p.args[k].(end := |q.withheld|) && q.args[k].begin <= |q.withheld|
            && q.withheld[q.args[k].begin..] == current.comma + Stream(env, disabled, FRESH, current.raw)
  {
    hide Feed, FeedAll, Valid;
    var q, k := FinishArgument(p), |p.args| - 1;
    var more := Finalize(p.argProcessor.value).1;
    assert q.withheld[q.args[k].begin..] == p.withheld[p.args[k].begin..] + more;
  }

  /** A finished argument is the comma in front of it and its own expansion. */
  lemma {:induction false} FinishArgumentExpands(env: Env, disabled: set<string>, p: Processor, name: Token,
    def: MacroDefinition, done: seq<RawArg>, current: RawArg, n: nat)
    requires Collecting(env, disabled, p, name, def, done, current, n)
    requires |current.raw| <= n
    requires Stream(env, disabled, FRESH, current.raw) == Expand(env, disabled, current.raw)
    ensures var q := FinishArgument(p);
            && InBounds(q.args, |q.withheld|)
            && Slices(q.withheld, q.args) == ExpandArgs(env, disabled, done + [current], n)
  {
    hide Feed, Expand, FeedAll, Stream;
    assert InBounds(p.args[..|done|], |p.withheld|) && InBounds(p.args, |p.withheld|);
    hide Valid;
    FinishedText(env, disabled, p, current);
    var q := FinishArgument(p);
    var more := Finalize(p.argProcessor.value).1;
    assert q.args[..|done|] == p.args[..|done|];
    SlicesExtend(p.withheld, more, p.args[..|done|]);
    hide FinishArgument, Finalize;
    var last := q.args[|done|];
    assert q.withheld[last.begin..last.end] == q.withheld[last.begin..];
    assert (done + [current])[..|done|] == done;
  }

  /** What the batch form makes of a call and of the tokens behind it. */
  ghost function AfterCall(env: Env, disabled: set<string>, name: Token, def: MacroDefinition, call: Option<Call>,
    n: nat): seq<Token>
  {
    if call.None? then [name]
    else if !AllWithin(call.value.args, n) then []
    else
      var args := FixArgs(def, ExpandArgs(env, disabled, call.value.args, n));
      Expand(env, disabled + {name.text}, Substitute(env, def, name, args, def.body))
      + Expand(env, disabled, call.value.after)
  }

  /** The closing parenthesis of a call triggers the expansion. */
  lemma {:induction false} CloseExpands(env: Env, disabled: set<string>, p: Processor, name: Token,
    def: MacroDefinition, done: seq<RawArg>, current: RawArg, t: Token, n: nat)
    requires Collecting(env, disabled, p, name, def, done, current, n)
    requires |current.raw| <= n && p.parens == 1 && t.klass.RParen?
    requires Stream(env, disabled, FRESH, current.raw) == Expand(env, disabled, current.raw)
    ensures var args := FixArgs(def, ExpandArgs(env, disabled, done + [current], n));
            Feed(env, disabled, p, t)
            == (FRESH, Stream(env, disabled + {name.text}, FRESH, Substitute(env, def, name, args, def.body)))
  {
    hide Expand, ExpandArgs, FeedAll, Slices, Substitute, Stream;
    FinishArgumentExpands(env, disabled, p, name, def, done, current, n);
    assert Feed(env, disabled, p, t) == FeedArgument(env, disabled, p, t);
  }

  /** A comma at the outermost level of the list starts the next argument. */
  lemma {:induction false} CommaKeepsCollecting(env: Env, disabled: set<string>, p: Processor, name: Token,
    def: MacroDefinition, done: seq<RawArg>, current: RawArg, t: Token, n: nat)
    requires Collecting(env, disabled, p, name, def, done, current, n)
    requires |current.raw| <= n && p.parens == 1 && t.klass.Comma?
    requires Stream(env, disabled, FRESH, current.raw) == Expand(env, disabled, current.raw)
    ensures var next := Feed(env, disabled, p, t);
            && next.1 == [] && next.0.parens == 1
            && Collecting(env, disabled, next.0, name, def, done + [current], RawArg([t], []), n)
  {
    hide Expand, ExpandArgs, Slices, Stream;
    FinishArgumentExpands(env, disabled, p, name, def, done, current, n);
    var q := FinishArgument(p);
    var next := Feed(env, disabled, p, t).0;
    assert Feed(env, disabled, p, t) == FeedArgument(env, disabled, p, t);
    SlicesExtend(q.withheld, [t], q.args);
    assert next.args[..|done| + 1] == q.args;
    assert next.withheld[|q.withheld|..] == [t] + [];
    assert FeedAll(env, disabled, FRESH, []) == (FRESH, []);
  }

  /** Any other token goes to the nested processor. */
  lemma {:induction false} TokenKeepsCollecting(env: Env, disabled: set<string>, p: Processor, name: Token,
    def: MacroDefinition, done: seq<RawArg>, current: RawArg, t: Token, n: nat)
    requires Collecting(env, disabled, p, name, def, done, current, n)
    requires p.parens == 1 ==> !t.klass.RParen? && !t.klass.Comma?
    ensures var next := Feed(env, disabled, p, t);
            && next.1 == []
            && next.0.parens == Depth(p.parens, t)
            && Collecting(env, disabled, next.0, name, def, done, current.(raw := current.raw + [t]), n)
  {
    hide Expand, ExpandArgs, Slices, Stream, FeedAll;
    assert Feed(env, disabled, p, t) == FeedArgument(env, disabled, p, t);
    var next := FeedArgument(env, disabled, p, t).0;
    FeedAllSnoc(env, disabled, FRESH, current.raw, t);
    var r := Feed(env, disabled, p.argProcessor.value, t);
    SlicesExtend(p.withheld, r.1, p.args[..|done|]);
    assert next.args[..|done|] == p.args[..|done|];
    var last := p.args[|done|];
    assert (p.withheld + r.1)[last.begin..] == p.withheld[last.begin..] + r.1;
    assert current.comma + FeedAll(env, disabled, FRESH, current.raw).1 + r.1
        == current.comma + (FeedAll(env, disabled, FRESH, current.raw).1 + r.1);
  }

  /** Reading an argument list: the processor yields what the batch form makes of the whole call
      and of the tokens behind it. */
  lemma {:induction false} CollectRefines(env: Env, disabled: set<string>, p: Processor, name: Token,
    def: MacroDefinition, done: seq<RawArg>, current: RawArg, ts: seq<Token>, n: nat)
    requires Collecting(env, disabled, p, name, def, done, current, n)
    requires |current.raw| + |ts| <= n
    ensures Stream(env, disabled, p, ts)
            == AfterCall(env, disabled, name, def, SplitCall(ts, p.parens - 1, done, current), n)
    decreases |Enabled(env, disabled)|, n, 1, |ts|
  {
    hide Expand, ExpandArgs, Slices, FeedAll, Feed, Substitute, CollectingLast, Read, FixArgs;
    SplitCallWithin(ts, p.parens - 1, done, current, n);
    if ts == [] {
      assert FeedAll(env, disabled, p, ts) == (p, []) by { FeedNothing(env, disabled, p); }
    } else {
      var t := ts[0];
      assert p.parens >= 1;
      ReadsMacro(env, disabled, name, def);
      hide Stream, Collecting, Valid;
      StreamCons(env, disabled, p, ts);
      var next := Feed(env, disabled, p, t);
      if t.klass.RParen? && p.parens == 1 {
        StreamRefinesExpand(env, disabled, current.raw);
        CloseExpands(env, disabled, p, name, def, done, current, t, n);
        DisablingShrinks(env, disabled, name.text);
        var args := FixArgs(def, ExpandArgs(env, disabled, done + [current], n));
        StreamRefinesExpand(env, disabled + {name.text}, Substitute(env, def, name, args, def.body));
        StreamRefinesExpand(env, disabled, ts[1..]);
      } else if t.klass.Comma? && p.parens == 1 {
        StreamRefinesExpand(env, disabled, current.raw);
        CommaKeepsCollecting(env, disabled, p, name, def, done, current, t, n);
        CollectRefines(env, disabled, next.0, name, def, done + [current], RawArg([t], []), ts[1..], n);
      } else {
        TokenKeepsCollecting(env, disabled, p, name, def, done, current, t, n);
        CollectRefines(env, disabled, next.0, name, def, done, current.(raw := current.raw + [t]), ts[1..], n);
      }
    }
  }

  lemma ReadsMacro(env: Env, disabled: set<string>, name: Token, def: MacroDefinition)
    requires Read(env, disabled, name) == FunctionMacro(def)
    ensures name.text in env.macros && name.text !in disabled && env.macros[name.text] == def
  {
  }

  lemma FeedNothing(env: Env, disabled: set<string>, p: Processor)
    requires Valid(env, disabled, p)
    ensures FeedAll(env, disabled, p, []) == (p, [])
  {
  }

  /** A processor that has read the name of a function-like macro and a `(`. */
  function CallBegun(name: Token, def: MacroDefinition): Processor {
    Processor([name], [ArgInfo(0, None, 1, 1)], Some(def), 1, Some(FRESH))
  }

  lemma {:induction false} CallBegins(env: Env, disabled: set<string>, ts: seq<Token>, def: MacroDefinition)
    requires |ts| > 1 && Read(env, disabled, ts[0]) == FunctionMacro(def) && ts[1].klass.LParen?
    ensures var q := CallBegun(ts[0], def);
            && Stream(env, disabled, FRESH, ts) == Stream(env, disabled, q, ts[2..])
            && Collecting(env, disabled, q, ts[0], def, [], RawArg([], []), |ts| - 2)
  {
    hide Read, Stream;
    var p := Feed(env, disabled, FRESH, ts[0]).0;
    StreamCons(env, disabled, FRESH, ts);
    assert Feed(env, disabled, FRESH, ts[0]) == FeedWithoutContext(env, disabled, ts[0]);
    assert p == FRESH.(withheld := [ts[0]], pending := Some(def));
    StreamCons(env, disabled, p, ts[1..]);
    assert ts[1..][1..] == ts[2..];
    var q := CallBegun(ts[0], def);
    assert NewArgument(p).(parens := 1) == q by { assert p.args + q.args == q.args; }
    assert Feed(env, disabled, p, ts[1]) == (q, []);
    FeedNothing(env, disabled, FRESH);
    assert q.withheld[1..] == [] + [];
  }

  /** The name of a function-like macro without a call behind it. */
  lemma {:induction false} NameAlone(env: Env, disabled: set<string>, ts: seq<Token>, def: MacroDefinition)
    requires ts != [] && Read(env, disabled, ts[0]) == FunctionMacro(def)
    requires |ts| > 1 ==> !ts[1].klass.LParen?
    ensures Stream(env, disabled, FRESH, ts) == [ts[0]] + Stream(env, disabled, FRESH, ts[1..])
  {
    hide Read, Substitute;
    var p := Feed(env, disabled, FRESH, ts[0]).0;
    StreamCons(env, disabled, FRESH, ts);
    assert Feed(env, disabled, FRESH, ts[0]) == FeedWithoutContext(env, disabled, ts[0]);
    assert p == FRESH.(withheld := [ts[0]], pending := Some(def));
    if |ts| == 1 {
      assert ts[1..] == [];
      FeedNothing(env, disabled, p);
      FeedNothing(env, disabled, FRESH);
    } else {
      StreamCons(env, disabled, p, ts[1..]);
      StreamCons(env, disabled, FRESH, ts[1..]);
      hide Stream, FeedAll;
      assert Feed(env, disabled, FRESH, ts[1]) == FeedWithoutContext(env, disabled, ts[1]);
    }
  }

  /** A plain token, or the name of an object-like macro. */
  lemma {:induction false} NameOrPlain(env: Env, disabled: set<string>, ts: seq<Token>)
    requires ts != [] && !Read(env, disabled, ts[0]).FunctionMacro?
    ensures var rest := Stream(env, disabled, FRESH, ts[1..]);
            match Read(env, disabled, ts[0])
            case Plain(t) => Stream(env, disabled, FRESH, ts) == [t] + rest
            case ObjectMacro(def) =>
              Stream(env, disabled, FRESH, ts)
              == Stream(env, disabled + {ts[0].text}, FRESH, Substitute(env, def, ts[0], [], def.body)) + rest
            case FunctionMacro(_) => true
  {
    hide Substitute, Stream, FeedAll;
    StreamCons(env, disabled, FRESH, ts);
    assert Feed(env, disabled, FRESH, ts[0]) == FeedWithoutContext(env, disabled, ts[0]);
  }

  /** The main theorem: feeding any list of tokens one at a time and finalizing yields exactly
      its batch expansion. */
  lemma {:induction false} StreamRefinesExpand(env: Env, disabled: set<string>, ts: seq<Token>)
    ensures Stream(env, disabled, FRESH, ts) == Expand(env, disabled, ts)
    decreases |Enabled(env, disabled)|, |ts|, 0
  {
    if ts == [] {
      FeedNothing(env, disabled, FRESH);
    } else {
      hide Read, Feed, FeedAll, Stream, ExpandArgs, Substitute, SplitCall, Collecting, Valid;
      var t := ts[0];
      match Read(env, disabled, t)
      case Plain(_) =>
        NameOrPlain(env, disabled, ts);
        StreamRefinesExpand(env, disabled, ts[1..]);
      case ObjectMacro(def) =>
        NameOrPlain(env, disabled, ts);
        DisablingShrinks(env, disabled, t.text);
        StreamRefinesExpand(env, disabled + {t.text}, Substitute(env, def, t, [], def.body));
        StreamRefinesExpand(env, disabled, ts[1..]);
      case FunctionMacro(def) =>
        if |ts| > 1 && ts[1].klass.LParen? {
          CallBegins(env, disabled, ts, def);
          var q := CallBegun(t, def);
          CollectRefines(env, disabled, q, t, def, [], RawArg([], []), ts[2..], |ts| - 2);
        } else {
          NameAlone(env, disabled, ts, def);
          StreamRefinesExpand(env, disabled, ts[1..]);
        }
    }
  }
}
