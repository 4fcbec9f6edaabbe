/** Inputs on which macro expansion departs from the standard. */
module MacroFailures {
  import opened Tokens
  import opened MacroSyntax
  import opened MacroExpansion
  import opened MacroArguments
  import opened MacroReplacement
  import opened MacroStandard
  import opened MacroDepartures
  import opened MacroFed
  import opened MacroRefinement

  /** `#define F(p) p` */
  const IDENTITY := MacroDefinition(true, [Tok(Identifier, "p")], [Tok(Identifier, "p")])

  /** `#define G F` */
  const ALIAS := MacroDefinition(false, [], [Tok(Identifier, "F")])

  /** `#define A x A` */
  const SELF := MacroDefinition(false, [], [Tok(Identifier, "x"), Tok(Identifier, "A")])

  lemma IdentityYieldsArgument(env: Env, at: Token, args: seq<ItemArg>)
    requires |args| == 1
    ensures PrescribedText(env, IDENTITY, at, args) == Some(args[0].replacement)
  {
    assert IDENTITY.body[1..] == [];
    assert ParamIndex(IDENTITY.params, "p") == Some(0);
    assert Replace(env, IDENTITY, at, args, []) == Some([]);
    assert args[0].replacement + [] == args[0].replacement;
  }

  lemma ScansPlain(env: Env, disabled: set<string>, t: Token, fuel: nat)
    requires Read(env, disabled, t) == Plain(t) && !IsDisabledName(env, disabled, t) && fuel > 1
    ensures Rescan(env, disabled, [Item(t, false)], fuel) == Some(Scan([Item(t, false)], []))
  {
    assert [Item(t, false)][1..] == [];
    assert Rescan(env, disabled, [], fuel - 1) == Some(Scan([], []));
    assert [Item(t, false)] + [] == [Item(t, false)];
  }

  /** With `F` and `G`, the tokens `G ( 1 )` are expanded to `F ( 1 )` instead of `1`. */
  lemma {:induction false} AliasIsNotCalled(env: Env)
    requires env.macros == map["F" := IDENTITY, "G" := ALIAS]
    ensures
      var g, f, open, one, close := Tok(Identifier, "G"), Tok(Identifier, "F"), Tok(LParen, "("),
        Tok(NumberLiteral, "1"), Tok(RParen, ")");
      && Expand(env, {}, [g, open, one, close]) == [f, open, one, close]
      && Prescribes(env, {}, [g, open, one, close], [one])
  {
    var g, f, open, one, close := Tok(Identifier, "G"), Tok(Identifier, "F"), Tok(LParen, "("),
      Tok(NumberLiteral, "1"), Tok(RParen, ")");
    hide Rescan, Expand, Yields;
    CodeLeavesAlias(env, g, f, open, one, close);
    var behind := [Item(open, false), Item(one, false), Item(close, false)];
    var u := Scan([Item(one, false)], []);
    assert Read(env, {}, f) == FunctionMacro(IDENTITY) && Read(env, {}, g) == ObjectMacro(ALIAS);
    assert Read(env, {"G"}, f) == FunctionMacro(IDENTITY);
    ScansPlain(env, {}, one, 8);
    ScansPlain(env, {"F"}, one, 8);
    hide Read;
    assert [Item(one, false)] + [] == [Item(one, false)];
    IdentityCall(env, f, open, one, close, [Item(f, false)] + behind, 9, u, u);
    AliasIsJoined(env, g, f, behind, u);
    assert Items([g, open, one, close]) == [Item(g, false)] + behind;
    YieldsScan(env, [g, open, one, close], 10, u);
    assert Erase(u.out + u.open) == [one];
    assert Yields(env, {}, [g, open, one, close], 10, [one]);
  }

  lemma YieldsScan(env: Env, ts: seq<Token>, fuel: nat, u: Scan)
    requires Rescan(env, {}, Items(ts), fuel) == Some(u)
    ensures Yields(env, {}, ts, fuel, Erase(u.out + u.open))
  {
    hide Rescan;
  }

  /** What `G` is replaced by is scanned with the tokens behind it. */
  lemma AliasIsJoined(env: Env, g: Token, f: Token, behind: seq<Item>, u: Scan)
    requires Read(env, {}, g) == ObjectMacro(ALIAS) && Read(env, {"G"}, f) == FunctionMacro(IDENTITY)
    requires g == Tok(Identifier, "G") && f == Tok(Identifier, "F")
    requires Rescan(env, {}, [Item(f, false)] + behind, 9) == Some(u)
    ensures Rescan(env, {}, [Item(g, false)] + behind, 10) == Some(u)
  {
    hide Read;
    var items := [Item(g, false)] + behind;
    assert items[1..] == behind && ALIAS.body[1..] == [];
    assert Replace(env, ALIAS, g, [], []) == Some([]);
    assert Replace(env, ALIAS, g, [], ALIAS.body) == Some([Item(f, false)] + []);
    assert [Item(f, false)] + [] == [Item(f, false)];
    assert PrescribedText(env, ALIAS, g, []) == Some([Item(f, false)]);
    assert {} + {"G"} == {"G"};
    assert Rescan(env, {"G"}, [Item(f, false)], 9) == Some(Scan([], [Item(f, false)]));
    assert [] + u.out == u.out;
  }

  /** A call of `F` with one token, whose scan is `s`; the rescan of that is `u`. */
  lemma IdentityCall(env: Env, f: Token, open: Token, arg: Token, close: Token, ts: seq<Item>, fuel: nat, s: Scan,
    u: Scan)
    requires Read(env, {}, f) == FunctionMacro(IDENTITY) && f.text == "F" && fuel > 1
    requires open.klass.LParen? && close.klass.RParen?
    requires !arg.klass.LParen? && !arg.klass.RParen? && !arg.klass.Comma?
    requires ts == [Item(f, false), Item(open, false), Item(arg, false), Item(close, false)]
    requires Rescan(env, {}, [Item(arg, false)], fuel - 1) == Some(s)
    requires Rescan(env, {"F"}, s.out + s.open, fuel - 1) == Some(u) && u.open == []
    ensures Rescan(env, {}, ts, fuel) == Some(u)
  {
    var item := Item(arg, false);
    var behind := [item, Item(close, false)];
    assert ts[2..] == behind;
    assert behind[1..] == [Item(close, false)] && [Item(close, false)][1..] == [];
    assert Arguments(behind[1..], 0, [], [item]) == Some(([] + [[item]], []));
    assert [] + [item] == [item] && [] + [[item]] == [[item]];
    assert Arguments(behind, 0, [], []) == Arguments(behind[1..], 0, [], [] + [item]);
    ScanCall(env, {}, ts, IDENTITY, [[item]], [], fuel);
    hide Arguments;
    assert [[item]][..0] == [];
    var args := [ItemArg([item], s.out + s.open)];
    assert RescanArgs(env, {}, [], fuel - 1) == Some([]);
    assert RescanArgs(env, {}, [[item]], fuel - 1) == Some([] + args) && [] + args == args;
    hide RescanArgs;
    IdentityYieldsArgument(env, f, args);
    hide PrescribedText;
    assert FixItemArgs(IDENTITY, args) == args;
    assert {} + {"F"} == {"F"};
    assert Rescan(env, {}, [] + [], fuel - 1) == Some(Scan([], []));
    assert u.out + [] == u.out;
  }

  lemma CodeLeavesAlias(env: Env, g: Token, f: Token, open: Token, one: Token, close: Token)
    requires env.macros == map["F" := IDENTITY, "G" := ALIAS]
    requires g == Tok(Identifier, "G") && f == Tok(Identifier, "F")
    requires open.klass.LParen? && one.klass.NumberLiteral? && close.klass.RParen?
    ensures Expand(env, {}, [g, open, one, close]) == [f, open, one, close]
  {
    var ts := [g, open, one, close];
    assert ts[1..] == [open, one, close] && ts[1..][1..] == [one, close] && [one, close][1..] == [close];
    assert [close][1..] == [];
    assert Expand(env, {}, []) == [] && Expand(env, {"G"}, []) == [];
    assert Expand(env, {}, [close]) == [close];
    assert Expand(env, {}, [one, close]) == [one, close];
    assert Expand(env, {}, ts[1..]) == ts[1..];
    assert ALIAS.body[1..] == [];
    assert Substitute(env, ALIAS, g, [], []) == [];
    assert Substitute(env, ALIAS, g, [], ALIAS.body) == [f];
    assert [f][1..] == [];
    assert {} + {"G"} == {"G"};
    assert Expand(env, {"G"}, [f]) == [f] + [];
  }

  /** With `F` and `A`, the tokens `F ( A )` are expanded to `x x A` instead of `x A`: that `A` is
      no longer to be replaced is forgotten when an argument is put in. */
  lemma {:induction false} BlockedNameIsReplacedAgain(env: Env)
    requires env.macros == map["F" := IDENTITY, "A" := SELF]
    ensures
      var f, open, a, x, close := Tok(Identifier, "F"), Tok(LParen, "("), Tok(Identifier, "A"),
        Tok(Identifier, "x"), Tok(RParen, ")");
      && Expand(env, {}, [f, open, a, close]) == [x, x, a]
      && Prescribes(env, {}, [f, open, a, close], [x, a])
  {
    var f, open, a, x, close := Tok(Identifier, "F"), Tok(LParen, "("), Tok(Identifier, "A"),
      Tok(Identifier, "x"), Tok(RParen, ")");
    assert Read(env, {}, f) == FunctionMacro(IDENTITY);
    hide Rescan, Expand, Read, Yields;
    CodeReplacesAgain(env, f, open, a, x, close);
    ScanOfSelf(env, x, a);
    ScansX(env, {"F"}, x, a, true, 9);
    BlockedStays(env, f, open, a, x, close);
    assert Yields(env, {}, [f, open, a, close], 10, [x, a]);
  }

  lemma BlockedStays(env: Env, f: Token, open: Token, a: Token, x: Token, close: Token)
    requires Read(env, {}, f) == FunctionMacro(IDENTITY) && f.text == "F"
    requires open.klass.LParen? && a.klass.Identifier? && close.klass.RParen?
    requires Rescan(env, {}, [Item(a, false)], 9) == Some(Scan([Item(x, false), Item(a, true)], []))
    requires Rescan(env, {"F"}, [Item(x, false), Item(a, true)], 9) == Some(Scan([Item(x, false), Item(a, true)], []))
    ensures Yields(env, {}, [f, open, a, close], 10, [x, a])
  {
    hide Rescan, Read;
    var out, ts := [Item(x, false), Item(a, true)], [f, open, a, close];
    assert out + [] == out && Erase(out + []) == [x, a];
    IdentityCall(env, f, open, a, close, Items(ts), 10, Scan(out, []), Scan(out, []));
  }

  lemma ScanOfSelf(env: Env, x: Token, a: Token)
    requires "A" in env.macros && env.macros["A"] == SELF
    requires x == Tok(Identifier, "x") && a == Tok(Identifier, "A") && x.text !in env.macros
    ensures Rescan(env, {}, [Item(a, false)], 9) == Some(Scan([Item(x, false), Item(a, true)], []))
  {
    var out := [Item(x, false), Item(a, true)];
    assert SELF.body[1..] == [a] && [a][1..] == [];
    assert Replace(env, SELF, a, [], []) == Some([]);
    assert Replace(env, SELF, a, [], [a]) == Some([Item(a, false)] + []);
    assert Replace(env, SELF, a, [], SELF.body) == Some([Item(x, false)] + ([Item(a, false)] + []));
    assert [Item(x, false)] + ([Item(a, false)] + []) == [Item(x, false), Item(a, false)];
    assert PrescribedText(env, SELF, a, []) == Some([Item(x, false), Item(a, false)]);
    ScansX(env, {"A"}, x, a, false, 8);
    assert {} + {"A"} == {"A"} && [Item(a, false)][1..] == [];
    assert Rescan(env, {}, [] + [], 8) == Some(Scan([], []));
    assert out + [] == out;
  }

  lemma ScansX(env: Env, disabled: set<string>, x: Token, a: Token, blocked: bool, fuel: nat)
    requires "A" in env.macros && x.text !in env.macros && fuel > 2
    requires x == Tok(Identifier, "x") && a == Tok(Identifier, "A") && (blocked || "A" in disabled)
    ensures Rescan(env, disabled, [Item(x, false), Item(a, blocked)], fuel)
         == Some(Scan([Item(x, false), Item(a, true)], []))
  {
    var ts := [Item(x, false), Item(a, blocked)];
    assert ts[1..] == [Item(a, blocked)] && ts[1..][1..] == [];
    assert Rescan(env, disabled, [], fuel - 2) == Some(Scan([], []));
    assert Rescan(env, disabled, ts[1..], fuel - 1) == Some(Scan([Item(a, true)] + [], []));
    assert [Item(x, false)] + ([Item(a, true)] + []) == [Item(x, false), Item(a, true)];
  }

  lemma CodeReplacesSelf(env: Env, disabled: set<string>, a: Token, x: Token)
    requires env.macros == map["F" := IDENTITY, "A" := SELF] && "A" !in disabled
    requires a == Tok(Identifier, "A") && x == Tok(Identifier, "x")
    ensures Expand(env, disabled, [a]) == [x, a]
  {
    assert SELF.body[1..] == [a] && [a][1..] == [];
    assert Substitute(env, SELF, a, [], []) == [] && Substitute(env, SELF, a, [], [a]) == [a] + [];
    assert Substitute(env, SELF, a, [], SELF.body) == [x, a];
    assert [x, a][1..] == [a];
    var both := disabled + {"A"};
    assert Expand(env, disabled, []) == [] && Expand(env, both, []) == [];
    assert Expand(env, both, [a]) == [a] + [];
    assert Expand(env, both, [x, a]) == [x, a];
    assert Expand(env, disabled, [a]) == [x, a] + [];
  }

  lemma CodeReplacesAgain(env: Env, f: Token, open: Token, a: Token, x: Token, close: Token)
    requires env.macros == map["F" := IDENTITY, "A" := SELF]
    requires f == Tok(Identifier, "F") && a == Tok(Identifier, "A") && x == Tok(Identifier, "x")
    requires open.klass.LParen? && close.klass.RParen?
    ensures Expand(env, {}, [f, open, a, close]) == [x, x, a]
  {
    var ts, call := [f, open, a, close], Call([RawArg([], [a])], close, []);
    assert ts[2..] == [a, close];
    assert Read(env, {}, f) == FunctionMacro(IDENTITY);
    hide SplitCall, Substitute, ExpandArgs;
    OneTokenCall(a, close);
    CodeReplacesSelf(env, {}, a, x);
    CodeReplacesSelf(env, {"F"}, a, x);
    assert {} + {"F"} == {"F"} && [x, a][1..] == [a];
    assert Expand(env, {"F"}, [x, a]) == [x] + [x, a];
    assert Expand(env, {}, []) == [];
    hide Expand;
    ExpandCall(env, {}, ts, IDENTITY, call);
    OneArgument(env, a, [x, a]);
    IdentityIsSubstituted(env, f, [Arg(1, Some(a), [x, a])]);
  }

  lemma OneArgument(env: Env, a: Token, out: seq<Token>)
    requires Expand(env, {}, [a]) == out
    ensures AllWithin([RawArg([], [a])], 2) && ExpandArgs(env, {}, [RawArg([], [a])], 2) == [Arg(1, Some(a), out)]
  {
    hide Expand;
    var arg := RawArg([], [a]);
    assert [arg][..0] == [] && [] + out == out;
    assert ExpandArgs(env, {}, [], 2) == [];
    assert ExpandArgs(env, {}, [arg], 2) == [] + [Arg(1, First([a]), [] + Expand(env, {}, [a]))];
  }

  lemma IdentityIsSubstituted(env: Env, at: Token, args: seq<Arg>)
    requires |args| == 1
    ensures Substitute(env, IDENTITY, at, args, IDENTITY.body) == args[0].replacement
  {
    assert IDENTITY.body[1..] == [];
    assert ParamIndex(IDENTITY.params, "p") == Some(0);
    assert Substitute(env, IDENTITY, at, args, []) == [];
  }

  /** `#define F(p)` */
  const NOTHING := MacroDefinition(true, [Tok(Identifier, "p")], [])

  /** A departure need not be seen in the end: what is replaced wrongly may be dropped later on.  So
      no condition on how the tokens are expanded can be necessary unless it repeats the result. */
  lemma {:induction false} RegularityIsNotNecessary(env: Env)
    requires env.macros == map["F" := NOTHING, "A" := SELF]
    ensures
      var ts := [Tok(Identifier, "F"), Tok(LParen, "("), Tok(Identifier, "A"), Tok(RParen, ")")];
      !Regular(env, {}, ts, false) && Prescribes(env, {}, ts, Expand(env, {}, ts))
  {
    var f, open, a, x, close := Tok(Identifier, "F"), Tok(LParen, "("), Tok(Identifier, "A"),
      Tok(Identifier, "x"), Tok(RParen, ")");
    var ts := [f, open, a, close];
    SelfIsNotRegular(env, a, x);
    CallIsNotRegular(env, f, open, a, close);
    ScanOfSelf(env, x, a);
    hide Regular, Rescan, Expand, Read;
    ScansNothing(env, f, open, a, close, Items(ts));
    var none: seq<Item> := [];
    assert Erase(none + none) == [];
    assert Yields(env, {}, ts, 10, []);
  }

  lemma CallIsNotRegular(env: Env, f: Token, open: Token, a: Token, close: Token)
    requires Read(env, {}, f) == FunctionMacro(NOTHING) && !Regular(env, {}, [a], true)
    requires open.klass.LParen? && close.klass.RParen? && a.klass.Identifier?
    ensures !Regular(env, {}, [f, open, a, close], false) && Expand(env, {}, [f, open, a, close]) == []
  {
    var ts := [f, open, a, close];
    OneTokenCall(a, close);
    assert ts[2..] == [a, close];
    var call := ReadCall(ts[2..]).value;
    hide SplitCall, Read;
    assert call.args[0] in call.args;
    assert Expand(env, {}, ts) == [] + [];
  }

  lemma OneTokenCall(a: Token, close: Token)
    requires a.klass.Identifier? && close.klass.RParen?
    ensures ReadCall([a, close]) == Some(Call([RawArg([], [a])], close, []))
  {
    assert [a, close][1..] == [close] && [close][1..] == [];
    var arg := RawArg([], [a]);
    assert RawArg([], []).(raw := [] + [a]) == arg && [] + [arg] == [arg] && [] + [a] == [a];
    assert SplitCall([close], 0, [], arg) == Some(Call([] + [arg], close, []));
    assert SplitCall([a, close], 0, [], RawArg([], [])) == SplitCall([close], 0, [], arg);
  }

  lemma SelfIsNotRegular(env: Env, a: Token, x: Token)
    requires "A" in env.macros && env.macros["A"] == SELF && x.text !in env.macros
    requires x == Tok(Identifier, "x") && a == Tok(Identifier, "A")
    ensures !Regular(env, {}, [a], true)
  {
    assert SELF.body[1..] == [a] && [a][1..] == [];
    assert Substitute(env, SELF, a, [], []) == [] && Substitute(env, SELF, a, [], [a]) == [a] + [];
    assert Substitute(env, SELF, a, [], SELF.body) == [x, a];
    assert [x, a][1..] == [a] && {} + {"A"} == {"A"};
    assert !Regular(env, {"A"}, [a], true);
    assert !Regular(env, {"A"}, [x, a], true);
  }

  lemma ScansNothing(env: Env, f: Token, open: Token, a: Token, close: Token, ts: seq<Item>)
    requires Read(env, {}, f) == FunctionMacro(NOTHING)
    requires open.klass.LParen? && close.klass.RParen? && a.klass.Identifier?
    requires ts == [Item(f, false), Item(open, false), Item(a, false), Item(close, false)]
    requires Rescan(env, {}, [Item(a, false)], 9).Some?
    ensures Rescan(env, {}, ts, 10) == Some(Scan([], []))
  {
    var item := Item(a, false);
    var behind := [item, Item(close, false)];
    assert ts[2..] == behind;
    assert behind[1..] == [Item(close, false)] && [Item(close, false)][1..] == [];
    assert Arguments(behind[1..], 0, [], [item]) == Some(([] + [[item]], []));
    assert [] + [item] == [item] && [] + [[item]] == [[item]];
    assert Arguments(behind, 0, [], []) == Arguments(behind[1..], 0, [], [] + [item]);
    ScanCall(env, {}, ts, NOTHING, [[item]], [], 10);
    hide Arguments, Read;
    assert [[item]][..0] == [];
    assert RescanArgs(env, {}, [], 9) == Some([]);
    assert RescanArgs(env, {}, [[item]], 9).Some?;
    hide RescanArgs;
    assert Rescan(env, {} + {f.text}, [], 9) == Some(Scan([], []));
    assert Rescan(env, {}, [] + [], 9) == Some(Scan([], []));
  }

  // ---------------------------------------------------------------------------------------
  // Pasting
  // ---------------------------------------------------------------------------------------

  /** `#define C(a, b) a ## b` */
  const PASTE := MacroDefinition(true, [Tok(Identifier, "a"), Tok(Identifier, "b")],
    [Tok(Identifier, "a"), Tok(HashHash, "##"), Tok(Identifier, "b")])

  /** `#define H # ## #` */
  const HASHES := MacroDefinition(false, [], [Tok(Hash, "#"), Tok(HashHash, "##"), Tok(Hash, "#")])

  /** Names that are no macros. */
  predicate ArePlain(env: Env, ts: seq<Token>) {
    forall t <- ts :: t.klass.Identifier? && t.text !in env.macros && BuiltinMacro(env, t).None?
  }

  lemma {:induction false} SplitRun(env: Env, a: seq<Token>, rest: seq<Token>, done: seq<RawArg>, current: RawArg)
    requires ArePlain(env, a)
    ensures SplitCall(a + rest, 0, done, current) == SplitCall(rest, 0, done, current.(raw := current.raw + a))
    decreases |a|
  {
    if a == [] {
      assert a + rest == rest && current.raw + a == current.raw;
    } else {
      assert a[0] in a;
      assert (a + rest)[1..] == a[1..] + rest;
      assert forall t <- a[1..] :: t in a;
      SplitRun(env, a[1..], rest, done, current.(raw := current.raw + [a[0]]));
      assert current.raw + [a[0]] + a[1..] == current.raw + a;
    }
  }

  lemma TwoArguments(env: Env, a: seq<Token>, comma: Token, b: seq<Token>, close: Token)
    requires ArePlain(env, a) && ArePlain(env, b) && comma.klass.Comma? && close.klass.RParen?
    ensures ReadCall(a + ([comma] + (b + [close]))) == Some(Call([RawArg([], a), RawArg([comma], b)], close, []))
  {
    var rest := b + [close];
    SplitRun(env, a, [comma] + rest, [], RawArg([], []));
    assert [] + a == a && [] + b == b && ([comma] + rest)[1..] == rest && [close][1..] == [];
    var first, second := RawArg([], a), RawArg([comma], b);
    assert RawArg([], []).(raw := [] + a) == first && [] + [first] == [first];
    SplitRun(env, b, [close], [first], RawArg([comma], []));
    assert [first] + [second] == [first, second];
  }

  lemma NamesArePlain(env: Env, disabled: set<string>, a: seq<Token>)
    requires ArePlain(env, a) && a != []
    ensures Read(env, disabled, a[0]) == Plain(a[0]) && !IsDisabledName(env, disabled, a[0])
    ensures ArePlain(env, a[1..])
  {
    assert a[0] in a;
    assert forall u <- a[1..] :: u in a;
  }

  lemma {:induction false} NamesExpand(env: Env, disabled: set<string>, a: seq<Token>)
    requires ArePlain(env, a)
    ensures Expand(env, disabled, a) == a
    decreases |a|
  {
    hide Read, ArePlain, IsDisabledName;
    if a != [] {
      NamesArePlain(env, disabled, a);
      NamesExpand(env, disabled, a[1..]);
    }
  }

  lemma {:induction false} NamesScan(env: Env, disabled: set<string>, a: seq<Token>)
    requires ArePlain(env, a)
    ensures Rescan(env, disabled, Items(a), |a| + 1) == Some(Scan(Items(a), []))
    decreases |a|
  {
    hide Read, ArePlain, IsDisabledName, Enter, RescanArgs, Arguments, PrescribedText, Block;
    if a == [] {
      assert Items([]) == [];
    } else {
      NamesArePlain(env, disabled, a);
      NamesScan(env, disabled, a[1..]);
      assert Items(a)[1..] == Items(a[1..]);
      assert [Item(a[0], false)] + Items(a[1..]) == Items(a);
    }
  }

  function CallOfPaste(a: seq<Token>, b: seq<Token>): seq<Token> {
    [Tok(Identifier, "C"), Tok(LParen, "(")] + (a + ([Tok(Comma, ",")] + (b + [Tok(RParen, ")")])))
  }

  /** Expanding a call, one step. */
  lemma ExpandCall(env: Env, disabled: set<string>, ts: seq<Token>, def: MacroDefinition, call: Call)
    requires |ts| > 1 && Read(env, disabled, ts[0]) == FunctionMacro(def) && ts[1].klass.LParen?
    requires ReadCall(ts[2..]) == Some(call) && AllWithin(call.args, |ts| - 2)
    ensures Expand(env, disabled, ts)
         == Expand(env, disabled + {ts[0].text},
              Substitute(env, def, ts[0], FixArgs(def, ExpandArgs(env, disabled, call.args, |ts| - 2)), def.body))
            + Expand(env, disabled, call.after)
  {
    hide Read, Substitute, SplitCall, ExpandArgs, FixArgs;
  }

  lemma TwoArgsExpand(env: Env, a: seq<Token>, comma: Token, b: seq<Token>, n: nat)
    requires AllWithin([RawArg([], a), RawArg([comma], b)], n)
    requires Expand(env, {}, a) == a && Expand(env, {}, b) == b
    ensures ExpandArgs(env, {}, [RawArg([], a), RawArg([comma], b)], n)
         == [Arg(|a|, First(a), a), Arg(|b|, First(b), [comma] + b)]
  {
    hide Expand;
    var first, second := RawArg([], a), RawArg([comma], b);
    assert [first, second][..1] == [first] && [first][..0] == [] && [] + a == a;
    assert ExpandArgs(env, {}, [], n) == [];
    assert ExpandArgs(env, {}, [first], n) == [] + [Arg(|a|, First(a), [] + Expand(env, {}, a))];
  }

  /** What the code makes of a call of `C` with plain arguments. */
  lemma {:induction false} CodePastes(env: Env, a: seq<Token>, b: seq<Token>)
    requires env.macros == map["C" := PASTE] && ArePlain(env, a) && ArePlain(env, b)
    ensures var args := [Arg(|a|, First(a), a), Arg(|b|, First(b), [Tok(Comma, ",")] + b)];
            Expand(env, {}, CallOfPaste(a, b))
            == Expand(env, {"C"}, Substitute(env, PASTE, Tok(Identifier, "C"), args, PASTE.body))
  {
    var c, comma, ts := Tok(Identifier, "C"), Tok(Comma, ","), CallOfPaste(a, b);
    TwoArguments(env, a, comma, b, Tok(RParen, ")"));
    assert ts[2..] == a + ([comma] + (b + [Tok(RParen, ")")]));
    NamesExpand(env, {}, a);
    NamesExpand(env, {}, b);
    assert Expand(env, {}, []) == [];
    assert Read(env, {}, c) == FunctionMacro(PASTE);
    var args := [Arg(|a|, First(a), a), Arg(|b|, First(b), [comma] + b)];
    assert FixArgs(PASTE, args) == args;
    hide SplitCall, Substitute, Expand, ExpandArgs, FixArgs, Read, ArePlain;
    ExpandCall(env, {}, ts, PASTE, Call([RawArg([], a), RawArg([comma], b)], Tok(RParen, ")"), []));
    TwoArgsExpand(env, a, comma, b, |ts| - 2);
    assert {} + {"C"} == {"C"};
    var text := Expand(env, {"C"}, Substitute(env, PASTE, c, args, PASTE.body));
    assert text + [] == text;
  }

  lemma SplitItems(env: Env, a: seq<Token>, b: seq<Token>)
    requires ArePlain(env, a) && ArePlain(env, b)
    ensures Arguments(Items(CallOfPaste(a, b))[2..], 0, [], []) == Some(([Items(a), Items(b)], []))
  {
    var comma, close, ts := Tok(Comma, ","), Tok(RParen, ")"), CallOfPaste(a, b);
    TwoArguments(env, a, comma, b, close);
    hide SplitCall, Arguments, ArePlain;
    assert ts[2..] == a + ([comma] + (b + [close]));
    assert Items(ts)[2..] == Items(ts[2..]);
    ArgumentsAreSplit(ts[2..], 0, [], RawArg([], []));
    assert RawItems([]) == [] && Items([]) == [];
    assert RawItems([RawArg([], a), RawArg([comma], b)]) == [Items(a), Items(b)];
  }

  /** What the standard makes of it. */
  lemma {:induction false} StandardPastes(env: Env, a: seq<Token>, b: seq<Token>, out: seq<Token>, fuel: nat)
    requires env.macros == map["C" := PASTE] && ArePlain(env, a) && ArePlain(env, b) && ArePlain(env, out)
    requires fuel > |a| + |b| + |out|
    requires PrescribedText(env, PASTE, Tok(Identifier, "C"), [ItemArg(Items(a), Items(a)), ItemArg(Items(b), Items(b))])
             == Some(Items(out))
    ensures Prescribes(env, {}, CallOfPaste(a, b), out)
  {
    var c := Tok(Identifier, "C");
    NamesScan(env, {}, a);
    NamesScan(env, {}, b);
    NamesScan(env, {"C"}, out);
    SplitItems(env, a, b);
    assert Read(env, {}, c) == FunctionMacro(PASTE);
    hide Arguments, Rescan, Enter, PrescribedText, Expand, ArePlain, Read;
    MoreFuel(env, {}, Items(a), |a| + 1, fuel);
    MoreFuel(env, {}, Items(b), |b| + 1, fuel);
    MoreFuel(env, {"C"}, Items(out), |out| + 1, fuel);
    TwoArgsScan(env, a, b, fuel);
    ScanPaste(env, a, b, fuel);
    EnterPlain(env, c, out, fuel);
    assert Yields(env, {}, CallOfPaste(a, b), fuel + 1, out);
  }

  lemma ScanPaste(env: Env, a: seq<Token>, b: seq<Token>, fuel: nat)
    requires Read(env, {}, Tok(Identifier, "C")) == FunctionMacro(PASTE)
    requires Arguments(Items(CallOfPaste(a, b))[2..], 0, [], []) == Some(([Items(a), Items(b)], []))
    requires RescanArgs(env, {}, [Items(a), Items(b)], fuel)
          == Some([ItemArg(Items(a), Items(a)), ItemArg(Items(b), Items(b))])
    ensures
      var c, args := Tok(Identifier, "C"), [ItemArg(Items(a), Items(a)), ItemArg(Items(b), Items(b))];
      Rescan(env, {}, Items(CallOfPaste(a, b)), fuel + 1)
      == Enter(env, {}, c, PrescribedText(env, PASTE, c, args), [], fuel)
  {
    hide Arguments, Rescan, RescanArgs, Enter, PrescribedText, Read;
    ScanCall(env, {}, Items(CallOfPaste(a, b)), PASTE, [Items(a), Items(b)], [], fuel + 1);
  }

  lemma TwoArgsScan(env: Env, a: seq<Token>, b: seq<Token>, fuel: nat)
    requires Rescan(env, {}, Items(a), fuel) == Some(Scan(Items(a), []))
    requires Rescan(env, {}, Items(b), fuel) == Some(Scan(Items(b), []))
    ensures RescanArgs(env, {}, [Items(a), Items(b)], fuel)
         == Some([ItemArg(Items(a), Items(a)), ItemArg(Items(b), Items(b))])
  {
    hide Rescan;
    assert [Items(a), Items(b)][..1] == [Items(a)] && [Items(a)][..0] == [];
    assert Items(a) + [] == Items(a) && Items(b) + [] == Items(b);
    assert RescanArgs(env, {}, [], fuel) == Some([]);
    assert RescanArgs(env, {}, [Items(a)], fuel) == Some([] + [ItemArg(Items(a), Items(a))]);
    assert [] + [ItemArg(Items(a), Items(a))] == [ItemArg(Items(a), Items(a))];
    assert [ItemArg(Items(a), Items(a))] + [ItemArg(Items(b), Items(b))]
        == [ItemArg(Items(a), Items(a)), ItemArg(Items(b), Items(b))];
  }

  lemma EnterPlain(env: Env, name: Token, out: seq<Token>, fuel: nat)
    requires Rescan(env, {name.text}, Items(out), fuel) == Some(Scan(Items(out), [])) && fuel > 0
    ensures var r := Enter(env, {}, name, Some(Items(out)), [], fuel);
            r.Some? && Erase(r.value.out + r.value.open) == out
  {
    assert {} + {name.text} == {name.text};
    assert Rescan(env, {}, [] + [], fuel) == Some(Scan([], []));
    hide Rescan;
    assert Items(out) + [] + [] == Items(out);
    EraseItems(out);
  }

  lemma PasteIsReplaced(env: Env, at: Token, args: seq<ItemArg>)
    requires |args| == 2
    ensures PrescribedText(env, PASTE, at, args)
         == match Paste(env, at, args[0].raw, args[1].raw) case None => None case Some(r) => Some(r + [])
  {
    hide Paste;
    var a, b := Tok(Identifier, "a"), Tok(Identifier, "b");
    assert PASTE.body[1..][2..] == [] && PASTE.body[1..][1] == b;
    assert ParamIndex(PASTE.params, "a") == Some(0);
    assert ParamIndex(PASTE.params[1..], "b") == Some(0) && ParamIndex(PASTE.params, "b") == Some(1);
    assert Replace(env, PASTE, at, args, []) == Some([]);
  }

  lemma PasteIsSubstituted(env: Env, at: Token, args: seq<Arg>)
    requires |args| == 2
    ensures
      var l := PasteOperand(PASTE, args, Tok(Identifier, "a"));
      var r := PasteOperand(PASTE, args, Tok(Identifier, "b"));
      Substitute(env, PASTE, at, args, PASTE.body)
      == (if l.Some? && r.Some? then [Relocate(env.lex(l.value + r.value), at)] else []) + []
    ensures ParamIndex(PASTE.params, "a") == Some(0) && ParamIndex(PASTE.params, "b") == Some(1)
  {
    assert PASTE.body == [PASTE.body[0], PASTE.body[1], PASTE.body[2]] + [];
    PasteJoinsTexts(env, PASTE, at, args, PASTE.body[0], PASTE.body[1], PASTE.body[2], []);
    assert Substitute(env, PASTE, at, args, []) == [];
    assert ParamIndex(PASTE.params[1..], "b") == Some(0);
  }

  /** With `C`, the tokens `C ( x y , z )` vanish, where `x yz` is prescribed. */
  lemma {:induction false} LongOperandVanishes(env: Env)
    requires env.macros == map["C" := PASTE] && env.lex("yz") == Tok(Identifier, "yz")
    ensures
      var x, y, z, yz := Tok(Identifier, "x"), Tok(Identifier, "y"), Tok(Identifier, "z"), Tok(Identifier, "yz");
      && Expand(env, {}, CallOfPaste([x, y], [z])) == []
      && Prescribes(env, {}, CallOfPaste([x, y], [z]), [x, yz])
  {
    var x, y, z, yz := Tok(Identifier, "x"), Tok(Identifier, "y"), Tok(Identifier, "z"), Tok(Identifier, "yz");
    assert y.text + z.text == yz.text;
    assert ArePlain(env, [x, y]) && ArePlain(env, [z]) && ArePlain(env, [x, yz]);
    hide ArePlain, Expand, PrescribedText, Prescribes, CallOfPaste;
    LongOperandIsDropped(env, x, y, z);
    LongOperandIsPasted(env, x, y, z, yz);
    StandardPastes(env, [x, y], [z], [x, yz], 10);
  }

  lemma LongOperandIsDropped(env: Env, x: Token, y: Token, z: Token)
    requires env.macros == map["C" := PASTE] && ArePlain(env, [x, y]) && ArePlain(env, [z])
    ensures Expand(env, {}, CallOfPaste([x, y], [z])) == []
  {
    CodePastes(env, [x, y], [z]);
    PasteIsSubstituted(env, Tok(Identifier, "C"),
      [Arg(2, First([x, y]), [x, y]), Arg(1, First([z]), [Tok(Comma, ",")] + [z])]);
    assert Expand(env, {"C"}, []) == [];
  }

  lemma LongOperandIsPasted(env: Env, x: Token, y: Token, z: Token, yz: Token)
    requires env.lex(y.text + z.text) == yz && yz.text == y.text + z.text
    requires Relocate(yz, Tok(Identifier, "C")) == yz
    ensures
      var l, r := Items([x, y]), Items([z]);
      PrescribedText(env, PASTE, Tok(Identifier, "C"), [ItemArg(l, l), ItemArg(r, r)]) == Some(Items([x, yz]))
  {
    var c, l, r := Tok(Identifier, "C"), Items([x, y]), Items([z]);
    PasteIsReplaced(env, c, [ItemArg(l, l), ItemArg(r, r)]);
    assert Paste(env, c, l, r) == Some(l[..1] + [Item(yz, false)] + r[1..]);
    assert l[..1] + [Item(yz, false)] + r[1..] + [] == Items([x, yz]);
  }

  /** With `C`, the tokens `C ( , )` become an end-of-file token, where nothing is prescribed. */
  lemma {:induction false} EmptyPasteEndsFile(env: Env)
    requires env.macros == map["C" := PASTE] && env.lex("").klass.Eof?
    ensures Expand(env, {}, CallOfPaste([], [])) == [Relocate(env.lex(""), Tok(Identifier, "C"))]
    ensures Prescribes(env, {}, CallOfPaste([], []), [])
  {
    var c := Tok(Identifier, "C");
    CodePastes(env, [], []);
    PasteIsSubstituted(env, c, [Arg(0, First([]), []), Arg(0, First([]), [Tok(Comma, ",")] + [])]);
    var eof := Relocate(env.lex(""), c);
    assert "" + "" == "";
    assert [eof][1..] == [] && [eof] + [] == [eof] && Expand(env, {"C"}, []) == [];
    assert Expand(env, {"C"}, [eof]) == [eof];
    assert Items([]) == [];
    PasteIsReplaced(env, c, [ItemArg([], []), ItemArg([], [])]);
    StandardPastes(env, [], [], [], 10);
  }

  /** With `H`, the token `H` becomes `# ## #`, where `##` is prescribed. */
  lemma {:induction false} HashesAreNotPasted(env: Env, at: Token)
    requires env.lex("##") == Tok(HashHash, "##") && at == Tok(Identifier, "H")
    ensures Substitute(env, HASHES, at, [], HASHES.body) == HASHES.body
    ensures PrescribedText(env, HASHES, at, []) == Some([Item(Tok(HashHash, "##"), false)])
  {
    var hash, paste := Tok(Hash, "#"), Tok(HashHash, "##");
    assert HASHES.body[1..] == [paste, hash] && [paste, hash][1..] == [hash] && [hash][1..] == [];
    assert Substitute(env, HASHES, at, [], []) == [];
    assert Substitute(env, HASHES, at, [], [hash]) == [hash] + [];
    assert Substitute(env, HASHES, at, [], [paste, hash]) == [paste] + [hash];
    assert Substitute(env, HASHES, at, [], HASHES.body) == [hash] + [paste, hash];
    var item := Item(hash, false);
    assert "#" + "#" == "##";
    assert [item][..0] == [] && [item][1..] == [];
    assert Paste(env, at, [item], [item]) == Some([] + [Item(paste, false)] + []);
    assert [] + [Item(paste, false)] + [] == [Item(paste, false)];
    assert [paste, hash][2..] == [];
    assert PasteAll(env, HASHES, at, [], [Item(paste, false)], []) == Some(([Item(paste, false)], []));
    assert PasteAll(env, HASHES, at, [], [item], [paste, hash]) == Some(([Item(paste, false)], []));
    assert Replace(env, HASHES, at, [], []) == Some([]);
    assert Replace(env, HASHES, at, [], HASHES.body) == Some([Item(paste, false)] + []);
    assert [Item(paste, false)] + [] == [Item(paste, false)];
  }

  /** The processor that has read `C ( ,`. */
  function BetweenArguments(c: Token, comma: Token): Processor {
    Processor([c, comma], [ArgInfo(0, None, 1, 1), ArgInfo(0, None, 1, 1)], Some(PASTE), 1, Some(FRESH))
  }

  lemma ReadsBetween(env: Env, c: Token, open: Token, comma: Token)
    requires Read(env, {}, c) == FunctionMacro(PASTE) && open.klass.LParen? && comma.klass.Comma?
    ensures var p := BetweenArguments(c, comma);
            Valid(env, {}, p) && FeedAll(env, {}, FRESH, [c, open, comma]).0 == p
  {
    hide Read, Substitute;
    var p1, p2, p3 := FRESH.(withheld := [c], pending := Some(PASTE)), CallBegun(c, PASTE), BetweenArguments(c, comma);
    assert [c, open, comma][..2] == [c, open] && [c, open][..1] == [c] && [c][..0] == [];
    assert FeedAll(env, {}, FRESH, []) == (FRESH, []);
    assert Feed(env, {}, FRESH, c) == (p1, []);
    assert FeedAll(env, {}, FRESH, [c]).0 == p1;
    assert NewArgument(p1).args == [ArgInfo(0, None, 1, 1)];
    assert Feed(env, {}, p1, open) == (p2, []);
    assert FeedAll(env, {}, FRESH, [c, open]).0 == p2;
    var q := FinishArgument(p2);
    assert q.withheld == [c] && q.args == [ArgInfo(0, None, 1, 1)];
    assert NewArgument(q).args == p3.args && q.withheld + [comma] == p3.withheld;
    assert Feed(env, {}, p2, comma) == FeedArgument(env, {}, p2, comma);
    assert FeedArgument(env, {}, p2, comma) == (p3, []);
  }

  lemma ClosePastesNothing(env: Env, c: Token, comma: Token, close: Token)
    requires Valid(env, {}, BetweenArguments(c, comma)) && close.klass.RParen?
    ensures Pasted("") in FeedTrace(env, {}, BetweenArguments(c, comma), close)
  {
    var p := BetweenArguments(c, comma);
    var q := FinishArgument(p);
    assert q.withheld == [c, comma] && q.args == [ArgInfo(0, None, 1, 1), ArgInfo(0, None, 1, 2)];
    assert q.args[..1] == [q.args[0]] && q.args[..1][..0] == [];
    var a, b := Arg(0, None, []), Arg(0, None, [comma]);
    assert q.withheld[1..1] == [] && q.withheld[1..2] == [comma];
    assert Slices(q.withheld, []) == [] && Slices(q.withheld, [q.args[0]]) == [] + [a];
    assert Slices(q.withheld, q.args) == [] + [a] + [b] && [] + [a] + [b] == [a, b];
    assert FixArgs(PASTE, [a, b]) == [a, b];
    assert PASTE.body[1..][2..] == [] && "" + "" == "";
    assert ParamIndex(PASTE.params, "a") == Some(0);
    assert ParamIndex(PASTE.params[1..], "b") == Some(0) && ParamIndex(PASTE.params, "b") == Some(1);
    assert PasteChain(PASTE, [a, b], Some(""), PASTE.body[1..]) == (Some(""), []);
    assert PastedTexts(PASTE, [a, b], PASTE.body) == [Pasted("")] + [];
    assert Pasted("") in BodyTrace(env, {}, PASTE, c, [a, b]);
    assert Pasted("") in ArgumentTrace(env, {}, p, close);
  }

  /** With `C`, the tokens `C ( , )` feed the end of the input to a macro processor. */
  lemma {:induction false} EmptyPasteIsFed(env: Env)
    requires LexesEnd(env) && env.macros == map["C" := PASTE]
    ensures !FeedsNoEof(ListTrace(env, {}, FRESH, CallOfPaste([], [])))
  {
    var c, open, comma, close := Tok(Identifier, "C"), Tok(LParen, "("), Tok(Comma, ","), Tok(RParen, ")");
    var ts := CallOfPaste([], []);
    assert ts == [c, open, comma, close] && ts[..3] == [c, open, comma];
    ReadsBetween(env, c, open, comma);
    ClosePastesNothing(env, c, comma, close);
    hide Feed, FeedTrace, Valid, Read;
    assert Pasted("") in ListTrace(env, {}, FRESH, ts);
    NoEofIsFedIff(env, {}, ts);
  }
}
