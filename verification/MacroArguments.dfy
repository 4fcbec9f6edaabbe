/** Consequences of the expansion semantics: when input can be expanded piecewise, what an
    unclosed call costs, and what the comma that stays in front of an argument does. */
module MacroArguments {
  import opened Tokens
  import opened Parentheses
  import opened MacroSyntax
  import opened MacroExpansion
  import opened MacroRefinement

  // ---------------------------------------------------------------------------------------
  // Expanding piecewise
  // ---------------------------------------------------------------------------------------

  /** Nothing is withheld behind `ts`: no macro name waits for its `(` and no call is open. */
  predicate LeavesNothingPending(env: Env, disabled: set<string>, ts: seq<Token>) {
    FeedAll(env, disabled, FRESH, ts).0.withheld == []
  }

  lemma IdleIsFresh(env: Env, disabled: set<string>, p: Processor)
    requires Valid(env, disabled, p) && p.withheld == []
    ensures p == FRESH
  {
  }

  /** Lists can be expanded one after the other wherever no call is pending in between. */
  lemma {:induction false} ExpandPiecewise(env: Env, disabled: set<string>, a: seq<Token>, b: seq<Token>)
    requires LeavesNothingPending(env, disabled, a)
    ensures Expand(env, disabled, a + b) == Expand(env, disabled, a) + Expand(env, disabled, b)
  {
    hide Feed, Expand;
    IdleIsFresh(env, disabled, FeedAll(env, disabled, FRESH, a).0);
    hide Valid;
    FeedAllAppend(env, disabled, FRESH, a, b);
    StreamRefinesExpand(env, disabled, a);
    StreamRefinesExpand(env, disabled, b);
    StreamRefinesExpand(env, disabled, a + b);
  }

  // ---------------------------------------------------------------------------------------
  // Calls that are not closed
  // ---------------------------------------------------------------------------------------

  /** The argument list is never closed exactly if no prefix closes more than it opens. */
  lemma {:induction false} SplitCallFailsIff(ts: seq<Token>, depth: nat, done: seq<RawArg>, current: RawArg)
    ensures SplitCall(ts, depth, done, current).None? <==>
            forall k :: 0 <= k <= |ts| ==> depth + Balance(ts[..k]) >= 0
    decreases |ts|
  {
    if ts != [] {
      var t := ts[0];
      BalanceOne(ts);
      forall k | 0 < k <= |ts| ensures Balance(ts[..k]) == Balance(ts[..1]) + Balance(ts[1..][..k - 1]) {
        BalanceCons(ts, k);
      }
      if t.klass.RParen? && depth == 0 {
        assert depth + Balance(ts[..1]) < 0;
      } else {
        var depth1 := Depth(depth, t);
        if t.klass.Comma? && depth == 0 {
          SplitCallFailsIff(ts[1..], depth1, done + [current], RawArg([t], []));
        } else {
          SplitCallFailsIff(ts[1..], depth1, done, current.(raw := current.raw + [t]));
        }
        assert ts[..0] == [];
        if forall k :: 0 <= k <= |ts| ==> depth + Balance(ts[..k]) >= 0 {
          forall k | 0 <= k <= |ts[1..]| ensures depth1 + Balance(ts[1..][..k]) >= 0 {
            assert depth + Balance(ts[..k + 1]) >= 0;
          }
        }
      }
    }
  }

  /** All tokens behind the name of a call that is not closed are lost, and the processor is left
      in a state that its own assertions exclude. */
  lemma {:induction false} UnclosedCallKeepsOnlyTheName(env: Env, disabled: set<string>, name: Token, open: Token,
    ts: seq<Token>)
    requires Read(env, disabled, name).FunctionMacro? && open.klass.LParen?
    requires forall k :: 0 <= k <= |ts| ==> Balance(ts[..k]) >= 0
    ensures Stream(env, disabled, FRESH, [name, open] + ts) == [name]
  {
    hide Stream, Feed, Valid, Read;
    var whole := [name, open] + ts;
    assert whole[2..] == ts;
    SplitCallFailsIff(ts, 0, [], RawArg([], []));
    StreamRefinesExpand(env, disabled, whole);
  }

  /** A finalized processor can be fed again exactly if no argument list was open: the counter of
      open parentheses is not reset. */
  lemma FinalizeResetsUnlessInArguments(env: Env, disabled: set<string>, p: Processor)
    requires Valid(env, disabled, p)
    ensures Valid(env, disabled, Finalize(p).0) <==> p.parens == 0
  {
  }

  // ---------------------------------------------------------------------------------------
  // The comma in front of an argument
  // ---------------------------------------------------------------------------------------

  /** `b` are the arguments `a` without the delimiting commas. */
  predicate WithoutComma(a: Arg, b: Arg, first: bool) {
    && a.count == b.count && a.first == b.first
    && (if first then a.replacement == b.replacement
        else a.replacement != [] && a.replacement[1..] == b.replacement)
  }

  predicate WithoutCommas(a: seq<Arg>, b: seq<Arg>) {
    |a| == |b| && forall i :: 0 <= i < |a| ==> WithoutComma(a[i], b[i], i == 0)
  }

  /** How often the body is replaced by an argument other than the first, when `n` are given. */
  function Leaks(def: MacroDefinition, n: nat, body: seq<Token>): nat
    decreases |body|
  {
    if body == [] then 0
    else if body[0].klass.Hash? then
      Leaks(def, n, if |body| > 2 && body[2].klass.Identifier? then body[2..] else body[1..])
    else if |body| > 1 && body[1].klass.HashHash? then Leaks(def, n, BehindChain(body[1..]))
    else
      var here := if body[0].klass.Identifier? then ParamIndex(def.params, body[0].text) else None;
      (if here.Some? && 0 < here.value < n then 1 else 0) + Leaks(def, n, body[1..])
  }

  /** The tokens behind a chain of `##`. */
  function BehindChain(body: seq<Token>): (r: seq<Token>)
    ensures |r| <= |body|
    decreases |body|
  {
    if |body| == 0 || !body[0].klass.HashHash? then body
    else if |body| == 1 then []
    else BehindChain(body[2..])
  }

  lemma {:induction false} PasteIgnoresCommas(def: MacroDefinition, a: seq<Arg>, b: seq<Arg>, text: Option<string>,
    body: seq<Token>)
    requires WithoutCommas(a, b)
    ensures PasteChain(def, a, text, body) == PasteChain(def, b, text, body)
    ensures PasteChain(def, a, text, body).1 == BehindChain(body)
    decreases |body|
  {
    if |body| > 1 && body[0].klass.HashHash? {
      OperandIgnoresCommas(def, a, b, body[1]);
      var operand := PasteOperand(def, a, body[1]);
      var joined := if text.Some? && operand.Some? then Some(text.value + operand.value) else None;
      PasteIgnoresCommas(def, a, b, joined, body[2..]);
    }
  }

  lemma OperandIgnoresCommas(def: MacroDefinition, a: seq<Arg>, b: seq<Arg>, tok: Token)
    requires WithoutCommas(a, b)
    ensures PasteOperand(def, a, tok) == PasteOperand(def, b, tok)
  {
    var i := if tok.klass.Identifier? then ParamIndex(def.params, tok.text) else None;
    if i.Some? && i.value < |a| {
      assert WithoutComma(a[i.value], b[i.value], i.value == 0);
    }
  }

  /** Each use of a later argument puts exactly one comma too many into the text. */
  lemma {:induction false} SubstituteCountsCommas(env: Env, def: MacroDefinition, at: Token, a: seq<Arg>, b: seq<Arg>,
    body: seq<Token>)
    requires WithoutCommas(a, b)
    ensures var s, t := Substitute(env, def, at, a, body), Substitute(env, def, at, b, body);
            && |s| == |t| + Leaks(def, |a|, body)
            && (Leaks(def, |a|, body) == 0 ==> s == t)
    decreases |body|
  {
    hide PasteChain, PasteOperand, ParamIndex, BehindChain, WithoutComma;
    if body != [] {
      if body[0].klass.Hash? {
        SubstituteCountsCommas(env, def, at, a, b,
          if |body| > 2 && body[2].klass.Identifier? then body[2..] else body[1..]);
      } else if |body| > 1 && body[1].klass.HashHash? {
        OperandIgnoresCommas(def, a, b, body[0]);
        PasteIgnoresCommas(def, a, b, PasteOperand(def, a, body[0]), body[1..]);
        SubstituteCountsCommas(env, def, at, a, b, BehindChain(body[1..]));
      } else {
        SubstituteCountsCommas(env, def, at, a, b, body[1..]);
        var i := if body[0].klass.Identifier? then ParamIndex(def.params, body[0].text) else None;
        if i.Some? && i.value < |a| {
          CommaLength(a[i.value], b[i.value], i.value == 0);
        }
      }
    }
  }

  lemma CommaLength(a: Arg, b: Arg, first: bool)
    requires WithoutComma(a, b, first)
    ensures |a.replacement| == |b.replacement| + (if first then 0 else 1)
    ensures first ==> a.replacement == b.replacement
  {
  }

  /** The text of a call is the text without the delimiting commas exactly if no later argument is used
      outside `##`. */
  lemma {:induction false} SubstituteExactIff(env: Env, def: MacroDefinition, at: Token, a: seq<Arg>, b: seq<Arg>,
    body: seq<Token>)
    requires WithoutCommas(a, b)
    ensures Substitute(env, def, at, a, body) == Substitute(env, def, at, b, body) <==> Leaks(def, |a|, body) == 0
  {
    SubstituteCountsCommas(env, def, at, a, b, body);
  }

  /** The same expander, but for the commas: arguments do not include them. */
  function ExpandWithoutCommas(env: Env, disabled: set<string>, ts: seq<Token>): seq<Token>
    decreases |Enabled(env, disabled)|, |ts|, 0
  {
    if ts == [] then []
    else
      match Read(env, disabled, ts[0])
      case Plain(t) => [t] + ExpandWithoutCommas(env, disabled, ts[1..])
      case ObjectMacro(def) =>
        DisablingShrinks(env, disabled, ts[0].text);
        ExpandWithoutCommas(env, disabled + {ts[0].text}, Substitute(env, def, ts[0], [], def.body))
        + ExpandWithoutCommas(env, disabled, ts[1..])
      case FunctionMacro(def) =>
        if |ts| == 1 || !ts[1].klass.LParen? then [ts[0]] + ExpandWithoutCommas(env, disabled, ts[1..])
        else
          match ReadCall(ts[2..])
          case None => [ts[0]]
          case Some(call) =>
            DisablingShrinks(env, disabled, ts[0].text);
            var args := FixArgs(def, ArgsWithoutCommas(env, disabled, call.args, |ts| - 2));
            ExpandWithoutCommas(env, disabled + {ts[0].text}, Substitute(env, def, ts[0], args, def.body))
            + ExpandWithoutCommas(env, disabled, call.after)
  }

  function ArgsWithoutCommas(env: Env, disabled: set<string>, args: seq<RawArg>, n: nat): (r: seq<Arg>)
    requires AllWithin(args, n)
    ensures |r| == |args|
    decreases |Enabled(env, disabled)|, n, 1 + |args|
  {
    if args == [] then []
    else
      var a := args[|args| - 1];
      ArgsWithoutCommas(env, disabled, args[..|args| - 1], n)
      + [Arg(|a.raw|, First(a.raw), ExpandWithoutCommas(env, disabled, a.raw))]
  }

  /** Every argument but the first has exactly the comma in front of it. */
  predicate ProperCommas(args: seq<RawArg>) {
    forall i :: 0 <= i < |args| ==> |args[i].comma| == if i == 0 then 0 else 1
  }

  lemma {:induction false} SplitCallCommas(ts: seq<Token>, depth: nat, done: seq<RawArg>, current: RawArg)
    requires ProperCommas(done + [current])
    ensures SplitCall(ts, depth, done, current).Some? ==> ProperCommas(SplitCall(ts, depth, done, current).value.args)
    decreases |ts|
  {
    if ts != [] && !(ts[0].klass.RParen? && depth == 0) {
      var t := ts[0];
      if t.klass.Comma? && depth == 0 {
        SplitCallCommas(ts[1..], depth, done + [current], RawArg([t], []));
      } else {
        assert (done + [current])[|done|] == current;
        assert forall i :: 0 <= i < |done| ==> (done + [current])[i] == done[i];
        SplitCallCommas(ts[1..], Depth(depth, t), done, current.(raw := current.raw + [t]));
      }
    }
  }

  lemma {:induction false} ArgsDifferInCommas(env: Env, disabled: set<string>, args: seq<RawArg>, n: nat)
    requires AllWithin(args, n) && ProperCommas(args)
    requires forall a <- args :: ExpandWithoutCommas(env, disabled, a.raw) == Expand(env, disabled, a.raw)
    ensures WithoutCommas(ExpandArgs(env, disabled, args, n), ArgsWithoutCommas(env, disabled, args, n))
  {
    if args != [] {
      ArgsDifferInCommas(env, disabled, args[..|args| - 1], n);
    }
  }

  /** No body uses an argument other than the first outside `##`. */
  predicate OneArgumentBodies(env: Env) {
    forall name <- env.macros :: Leaks(env.macros[name], |env.macros[name].params|, env.macros[name].body) == 0
  }

  lemma {:induction false} LeaksBounded(def: MacroDefinition, n: nat, body: seq<Token>)
    requires Leaks(def, |def.params|, body) == 0
    ensures Leaks(def, n, body) == 0
    decreases |body|
  {
    if body != [] {
      if body[0].klass.Hash? {
        LeaksBounded(def, n, if |body| > 2 && body[2].klass.Identifier? then body[2..] else body[1..]);
      } else if |body| > 1 && body[1].klass.HashHash? {
        LeaksBounded(def, n, BehindChain(body[1..]));
      } else {
        LeaksBounded(def, n, body[1..]);
      }
    }
  }

  /** With such a macro table the commas make no difference. */
  lemma {:induction false} CommasDoNotMatter(env: Env, disabled: set<string>, ts: seq<Token>)
    requires OneArgumentBodies(env)
    ensures ExpandWithoutCommas(env, disabled, ts) == Expand(env, disabled, ts)
    decreases |Enabled(env, disabled)|, |ts|
  {
    hide Substitute, SplitCall, Leaks, ExpandArgs, ArgsWithoutCommas, Read, OneArgumentBodies;
    if ts != [] {
      var t := ts[0];
      match Read(env, disabled, t)
      case Plain(_) => CommasDoNotMatter(env, disabled, ts[1..]);
      case ObjectMacro(def) =>
        EnabledNames(env, disabled, t);
        DisablingShrinks(env, disabled, t.text);
        CommasDoNotMatter(env, disabled + {t.text}, Substitute(env, def, t, [], def.body));
        CommasDoNotMatter(env, disabled, ts[1..]);
      case FunctionMacro(def) =>
        EnabledNames(env, disabled, t);
        DisablingShrinks(env, disabled, t.text);
        if |ts| == 1 || !ts[1].klass.LParen? {
          CommasDoNotMatter(env, disabled, ts[1..]);
        } else if ReadCall(ts[2..]).Some? {
          var call := ReadCall(ts[2..]).value;
          var n := |ts| - 2;
          CommasDoNotMatter(env, disabled, call.after);
          forall a <- call.args ensures ExpandWithoutCommas(env, disabled, a.raw) == Expand(env, disabled, a.raw) {
            CommasDoNotMatter(env, disabled, a.raw);
          }
          SplitCallCommas(ts[2..], 0, [], RawArg([], []));
          ArgsDifferInCommas(env, disabled, call.args, n);
          var a := FixArgs(def, ExpandArgs(env, disabled, call.args, n));
          var b := FixArgs(def, ArgsWithoutCommas(env, disabled, call.args, n));
          assert WithoutCommas(a, b);
          SubstituteCountsCommas(env, def, t, a, b, def.body);
          BodyDoesNotLeak(env, t, def, |a|);
          CommasDoNotMatter(env, disabled + {t.text}, Substitute(env, def, t, b, def.body));
        }
    }
  }

  lemma EnabledNames(env: Env, disabled: set<string>, t: Token)
    requires !Read(env, disabled, t).Plain?
    ensures t.text in env.macros && t.text !in disabled && env.macros[t.text] == Read(env, disabled, t).def
  {
  }

  lemma BodyDoesNotLeak(env: Env, t: Token, def: MacroDefinition, n: nat)
    requires OneArgumentBodies(env) && t.text in env.macros && env.macros[t.text] == def
    ensures Leaks(def, n, def.body) == 0
  {
    LeaksBounded(def, n, def.body);
  }

  function Tok(klass: TokenKlass, text: string): Token { Token(klass, text, 0, 0, false, false) }

  /** `#define F(a, b) b` */
  const SECOND := MacroDefinition(true, [Tok(Identifier, "a"), Tok(Identifier, "b")], [Tok(Identifier, "b")])

  /** With this macro, the call `F(x, y)` is expanded to `, y`. */
  lemma SecondArgumentKeepsItsComma(env: Env)
    requires env.macros == map["F" := SECOND]
    ensures var f, open, x, comma, y, close := Tok(Identifier, "F"), Tok(LParen, "("), Tok(Identifier, "x"),
                Tok(Comma, ","), Tok(Identifier, "y"), Tok(RParen, ")");
            && Expand(env, {}, [f, open, x, comma, y, close]) == [comma, y]
            && ExpandWithoutCommas(env, {}, [f, open, x, comma, y, close]) == [y]
  {
    var f, open, x, comma, y, close := Tok(Identifier, "F"), Tok(LParen, "("), Tok(Identifier, "x"),
      Tok(Comma, ","), Tok(Identifier, "y"), Tok(RParen, ")");
    var ts := [f, open, x, comma, y, close];
    assert ts[2..] == [x, comma, y, close];
    SplitsAtComma(x, comma, y, close);
    assert Read(env, {}, f) == FunctionMacro(SECOND);
    PlainAlone(env, {}, x);
    PlainAlone(env, {}, y);
    PlainAlone(env, {"F"}, y);
    hide SplitCall, Substitute, ExpandArgs, ArgsWithoutCommas;
    BothArguments(env, x, comma, y);
    SubstituteSecond(env, f, [Arg(1, Some(x), [x]), Arg(1, Some(y), [comma, y])]);
    SubstituteSecond(env, f, [Arg(1, Some(x), [x]), Arg(1, Some(y), [y])]);
    assert [comma, y][1..] == [y];
    assert {} + {f.text} == {"F"};
    assert Expand(env, {}, []) == [] && ExpandWithoutCommas(env, {}, []) == [];
    assert Expand(env, {"F"}, [comma, y]) == [comma] + Expand(env, {"F"}, [y]);
  }

  lemma BothArguments(env: Env, x: Token, comma: Token, y: Token)
    requires Expand(env, {}, [x]) == [x] && ExpandWithoutCommas(env, {}, [x]) == [x]
    requires Expand(env, {}, [y]) == [y] && ExpandWithoutCommas(env, {}, [y]) == [y]
    ensures var raw := [RawArg([], [x]), RawArg([comma], [y])];
            && AllWithin(raw, 4)
            && ExpandArgs(env, {}, raw, 4) == [Arg(1, Some(x), [x]), Arg(1, Some(y), [comma, y])]
            && ArgsWithoutCommas(env, {}, raw, 4) == [Arg(1, Some(x), [x]), Arg(1, Some(y), [y])]
  {
    hide Expand, ExpandWithoutCommas;
    var first, second := RawArg([], [x]), RawArg([comma], [y]);
    assert [first, second][..1] == [first] && [first][..0] == [];
    assert [comma] + [y] == [comma, y] && [] + [x] == [x];
    assert ExpandArgs(env, {}, [first], 4) == ExpandArgs(env, {}, [], 4) + [Arg(1, Some(x), [] + [x])];
    assert ArgsWithoutCommas(env, {}, [first], 4) == ArgsWithoutCommas(env, {}, [], 4) + [Arg(1, Some(x), [x])];
  }

  lemma SplitsAtComma(x: Token, comma: Token, y: Token, close: Token)
    requires x.klass.Identifier? && y.klass.Identifier? && comma.klass.Comma? && close.klass.RParen?
    ensures ReadCall([x, comma, y, close]) == Some(Call([RawArg([], [x]), RawArg([comma], [y])], close, []))
  {
    assert [x, comma, y, close][1..] == [comma, y, close];
    assert [comma, y, close][1..] == [y, close];
    assert [y, close][1..] == [close];
    var first := RawArg([], [x]);
    assert RawArg([], []).raw + [x] == [x] && RawArg([comma], []).raw + [y] == [y] && [] + [first] == [first];
    assert RawArg([], []).(raw := [x]) == first && RawArg([comma], []).(raw := [y]) == RawArg([comma], [y]);
    assert [first] + [RawArg([comma], [y])] == [first, RawArg([comma], [y])] && [close][1..] == [];
    assert SplitCall([close], 0, [first], RawArg([comma], [y]))
        == Some(Call([first] + [RawArg([comma], [y])], close, [close][1..]));
    assert SplitCall([y, close], 0, [first], RawArg([comma], []))
        == SplitCall([close], 0, [first], RawArg([comma], [y]));
    assert SplitCall([comma, y, close], 0, [], first) == SplitCall([y, close], 0, [first], RawArg([comma], []));
    assert SplitCall([x, comma, y, close], 0, [], RawArg([], [])) == SplitCall([comma, y, close], 0, [], first);
  }

  lemma PlainAlone(env: Env, disabled: set<string>, t: Token)
    requires Read(env, disabled, t) == Plain(t)
    ensures Expand(env, disabled, [t]) == [t] && ExpandWithoutCommas(env, disabled, [t]) == [t]
  {
    assert [t][1..] == [];
    assert Expand(env, disabled, []) == [] && ExpandWithoutCommas(env, disabled, []) == [];
  }

  lemma SubstituteSecond(env: Env, at: Token, args: seq<Arg>)
    requires |args| == 2
    ensures Substitute(env, SECOND, at, args, SECOND.body) == args[1].replacement
  {
    assert SECOND.body[1..] == [];
    assert ParamIndex(SECOND.params[1..], "b") == Some(0);
    assert Substitute(env, SECOND, at, args, []) == [];
  }
}
