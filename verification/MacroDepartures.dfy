/** Where macro expansion departs from the standard: inputs on which it does, and when exactly. */
module MacroDepartures {
  import opened Tokens
  import opened MacroSyntax
  import opened MacroExpansion
  import opened MacroArguments
  import opened MacroReplacement
  import opened MacroStandard

  // ---------------------------------------------------------------------------------------
  // Calls that are not closed
  // ---------------------------------------------------------------------------------------

  /** If nothing else departs from the standard, a call is expanded as prescribed exactly if it is
      closed. */
  lemma {:induction false} CallIsPrescribedIffClosed(env: Env, disabled: set<string>, ts: seq<Token>)
    requires |ts| > 1 && Read(env, disabled, ts[0]).FunctionMacro? && ts[1].klass.LParen?
    requires ReadCall(ts[2..]).Some? ==> OneArgumentBodies(env) && Regular(env, disabled, ts, false)
    ensures Prescribes(env, disabled, ts, Expand(env, disabled, ts)) <==> ReadCall(ts[2..]).Some?
  {
    if ReadCall(ts[2..]).Some? {
      RegularIsPrescribed(env, disabled, ts);
    } else {
      forall fuel: nat ensures !Yields(env, disabled, ts, fuel, [ts[0]]) {
        UnclosedIsOpen(env, disabled, ts, fuel);
      }
      assert Expand(env, disabled, ts) == [ts[0]];
    }
  }

  lemma UnclosedIsOpen(env: Env, disabled: set<string>, ts: seq<Token>, fuel: nat)
    requires |ts| > 1 && Read(env, disabled, ts[0]).FunctionMacro? && ts[1].klass.LParen?
    requires ReadCall(ts[2..]).None?
    ensures var r := Rescan(env, disabled, Items(ts), fuel);
            if fuel == 0 then r.None? else r.Some? && r.value.out == [] && Erase(r.value.open) == ts
    ensures !Yields(env, disabled, ts, fuel, [ts[0]])
  {
    hide Read, Arguments, SplitCall;
    var items := Items(ts);
    assert items[2..] == Items(ts[2..]);
    assert RawItems([]) == [] && Items([]) == [];
    ArgumentsAreSplit(ts[2..], 0, [], RawArg([], []));
    EraseItems(ts);
    if fuel > 0 {
      var open := Block(env, disabled, items);
      assert Rescan(env, disabled, items, fuel) == Some(Scan([], open));
      assert [] + open == open;
    }
  }

  // ---------------------------------------------------------------------------------------
  // Replacements are not rescanned with the tokens behind them
  // ---------------------------------------------------------------------------------------

  /** `use` is one macro use, which is replaced by `body`; its arguments are regular. */
  predicate IsReplacedBy(env: Env, disabled: set<string>, use: seq<Token>, body: seq<Token>) {
    use != [] &&
    match Read(env, disabled, use[0])
    case Plain(_) => false
    case ObjectMacro(def) =>
      |use| == 1 && Fits(env, def, []) && body == Substitute(env, def, use[0], [], def.body)
    case FunctionMacro(def) =>
      && |use| > 1 && use[1].klass.LParen?
      && var call := ReadCall(use[2..]);
      && call.Some? && call.value.after == []
      && Fits(env, def, CallArgs(env, disabled, def, call.value, |use| - 2))
      && (forall a <- call.value.args :: Regular(env, disabled, a.raw, true))
      && body == CallBody(env, disabled, use[0], def, call.value, |use| - 2)
  }

  lemma {:induction false} SplitCallExtends(ts: seq<Token>, more: seq<Token>, depth: nat, done: seq<RawArg>,
    current: RawArg)
    requires SplitCall(ts, depth, done, current).Some?
    ensures
      var c := SplitCall(ts, depth, done, current).value;
      SplitCall(ts + more, depth, done, current) == Some(c.(after := c.after + more))
    decreases |ts|
  {
    var t := ts[0];
    assert (ts + more)[1..] == ts[1..] + more;
    if t.klass.RParen? && depth == 0 {
    } else if t.klass.Comma? && depth == 0 {
      SplitCallExtends(ts[1..], more, depth, done + [current], RawArg([t], []));
    } else {
      SplitCallExtends(ts[1..], more, Depth(depth, t), done, current.(raw := current.raw + [t]));
    }
  }

  lemma {:induction false} ArgsIgnoreBound(env: Env, disabled: set<string>, args: seq<RawArg>, m: nat, n: nat)
    requires AllWithin(args, m) && AllWithin(args, n)
    ensures ArgsWithoutCommas(env, disabled, args, m) == ArgsWithoutCommas(env, disabled, args, n)
    decreases |args|
  {
    hide ExpandWithoutCommas;
    if args != [] {
      ArgsIgnoreBound(env, disabled, args[..|args| - 1], m, n);
    }
  }

  /** A macro use in front of other tokens. */
  lemma {:induction false} UseInFront(env: Env, disabled: set<string>, use: seq<Token>, body: seq<Token>,
    rest: seq<Token>)
    requires IsReplacedBy(env, disabled, use, body)
    ensures var inner := disabled + {use[0].text};
            && ExpandWithoutCommas(env, disabled, use + rest)
               == ExpandWithoutCommas(env, inner, body) + ExpandWithoutCommas(env, disabled, rest)
            && (Regular(env, disabled, rest, false) && RegularBody(env, inner, body, false)
                ==> Regular(env, disabled, use + rest, false))
  {
    if Read(env, disabled, use[0]).ObjectMacro? {
      ObjectInFront(env, disabled, use, body, rest);
    } else {
      var def := Read(env, disabled, use[0]).def;
      var inner, ts := disabled + {use[0].text}, use + rest;
      var call := CallInFront(env, disabled, use, body, rest, def);
      assert ts[0] == use[0] && ts[1].klass.LParen?;
      hide *;
      ExpandsCall(env, disabled, ts, def, call);
      if Regular(env, disabled, rest, false) && RegularBody(env, inner, body, false) {
        IsRegularCall(env, disabled, ts, def, call);
      }
    }
  }

  lemma ObjectInFront(env: Env, disabled: set<string>, use: seq<Token>, body: seq<Token>, rest: seq<Token>)
    requires IsReplacedBy(env, disabled, use, body) && Read(env, disabled, use[0]).ObjectMacro?
    ensures var inner := disabled + {use[0].text};
            && ExpandWithoutCommas(env, disabled, use + rest)
               == ExpandWithoutCommas(env, inner, body) + ExpandWithoutCommas(env, disabled, rest)
            && (Regular(env, disabled, rest, false) && RegularBody(env, inner, body, false)
                ==> Regular(env, disabled, use + rest, false))
  {
    EnabledNames(env, disabled, use[0]);
    DisablingShrinks(env, disabled, use[0].text);
    hide Read, Substitute, SplitCall, RegularBody, Fits, CallBody, CallArgs;
    assert (use + rest)[1..] == rest;
  }

  lemma ExpandsCall(env: Env, disabled: set<string>, ts: seq<Token>, def: MacroDefinition, call: Call)
    requires |ts| > 1 && Read(env, disabled, ts[0]) == FunctionMacro(def) && ts[1].klass.LParen?
    requires ReadCall(ts[2..]) == Some(call) && AllWithin(call.args, |ts| - 2)
    ensures ExpandWithoutCommas(env, disabled, ts)
         == ExpandWithoutCommas(env, disabled + {ts[0].text}, CallBody(env, disabled, ts[0], def, call, |ts| - 2))
            + ExpandWithoutCommas(env, disabled, call.after)
  {
    hide Read, Substitute, SplitCall, ArgsWithoutCommas, FixArgs;
  }

  lemma IsRegularCall(env: Env, disabled: set<string>, ts: seq<Token>, def: MacroDefinition, call: Call)
    requires |ts| > 1 && Read(env, disabled, ts[0]) == FunctionMacro(def) && ts[1].klass.LParen?
    requires ReadCall(ts[2..]) == Some(call) && AllWithin(call.args, |ts| - 2)
    requires Fits(env, def, CallArgs(env, disabled, def, call, |ts| - 2))
    requires forall a <- call.args :: Regular(env, disabled, a.raw, true)
    requires RegularBody(env, disabled + {ts[0].text}, CallBody(env, disabled, ts[0], def, call, |ts| - 2), false)
    requires Regular(env, disabled, call.after, false)
    ensures Regular(env, disabled, ts, false)
  {
    EnabledNames(env, disabled, ts[0]);
    DisablingShrinks(env, disabled, ts[0].text);
    hide Read, SplitCall, RegularBody, Fits, CallBody, CallArgs;
  }

  lemma {:induction false} CallInFront(env: Env, disabled: set<string>, use: seq<Token>, body: seq<Token>,
    rest: seq<Token>, def: MacroDefinition) returns (call: Call)
    requires IsReplacedBy(env, disabled, use, body) && Read(env, disabled, use[0]) == FunctionMacro(def)
    ensures var ts := use + rest;
            && |use| > 1 && use[1].klass.LParen? && ReadCall(ts[2..]) == Some(call) && call.after == rest
            && AllWithin(call.args, |ts| - 2) && (forall a <- call.args :: Regular(env, disabled, a.raw, true))
            && Fits(env, def, CallArgs(env, disabled, def, call, |ts| - 2))
            && CallBody(env, disabled, ts[0], def, call, |ts| - 2) == body
  {
    hide Read, SplitCall, Regular, ArgsWithoutCommas, Substitute, FixArgs, Fits;
    var c := ReadCall(use[2..]).value;
    SplitCallExtends(use[2..], rest, 0, [], RawArg([], []));
    assert (use + rest)[2..] == use[2..] + rest;
    assert c.after + rest == rest;
    call := c.(after := rest);
    ArgsIgnoreBound(env, disabled, c.args, |use| - 2, |use + rest| - 2);
  }

  /** The scan of a macro use in front of other tokens resumes with what its body leaves open. */
  lemma {:induction false} UseResumes(env: Env, disabled: set<string>, use: seq<Token>, body: seq<Token>,
    rest: seq<Token>, fuel: nat)
    requires IsReplacedBy(env, disabled, use, body)
    requires Rescan(env, disabled, Items(use + rest), fuel).Some?
    ensures
      && fuel > 0
      && var scanned := Rescan(env, disabled + {use[0].text}, Items(body), fuel - 1);
      && Rescan(env, disabled, Items(use + rest), fuel) == Resume(env, disabled, scanned, Items(rest), fuel - 1)
  {
    var ts, items := use + rest, Items(use + rest);
    var r := Read(env, disabled, use[0]);
    hide Read, Resume, Substitute, PrescribedText, Fits;
    if r.ObjectMacro? {
      assert items[1..] == Items(rest);
      ObjectText(env, r.def, use[0]);
    } else {
      var call := CallIsRead(env, disabled, use, body, rest, r.def, items);
      CallResumes(env, disabled, items, use[0], r.def, call, Items(rest), fuel);
    }
  }

  /** Scanning a call, one step. */
  lemma ScanCall(env: Env, disabled: set<string>, ts: seq<Item>, def: MacroDefinition, raw: seq<seq<Item>>,
    after: seq<Item>, fuel: nat)
    requires |ts| > 1 && !ts[0].blocked && Read(env, disabled, ts[0].tok) == FunctionMacro(def)
    requires ts[1].tok.klass.LParen? && Arguments(ts[2..], 0, [], []) == Some((raw, after)) && fuel > 0
    ensures
      Rescan(env, disabled, ts, fuel)
      == match RescanArgs(env, disabled, raw, fuel - 1)
         case None => None
         case Some(args) =>
           Enter(env, disabled, ts[0].tok, PrescribedText(env, def, ts[0].tok, FixItemArgs(def, args)), after, fuel - 1)
  {
    hide Read, Enter, PrescribedText, RescanArgs, Arguments, FixItemArgs;
  }

  lemma {:induction false} CallIsRead(env: Env, disabled: set<string>, use: seq<Token>, body: seq<Token>,
    rest: seq<Token>, def: MacroDefinition, items: seq<Item>) returns (call: Call)
    requires IsReplacedBy(env, disabled, use, body) && Read(env, disabled, use[0]) == FunctionMacro(def)
    requires items == Items(use + rest)
    ensures |items| > 1 && items[0] == Item(use[0], false) && items[1].tok.klass.LParen?
    ensures AllWithin(call.args, |items| - 2) && forall a <- call.args :: Regular(env, disabled, a.raw, true)
    ensures Fits(env, def, CallArgs(env, disabled, def, call, |items| - 2))
    ensures CallBody(env, disabled, use[0], def, call, |items| - 2) == body
    ensures Arguments(items[2..], 0, [], []) == Some((RawItems(call.args), Items(rest)))
  {
    var ts := use + rest;
    call := CallInFront(env, disabled, use, body, rest, def);
    hide Read, SplitCall, Arguments, CallBody, CallArgs, Regular, Fits;
    assert items[2..] == Items(ts[2..]);
    assert RawItems([]) == [] && Items([]) == [];
    ArgumentsAreSplit(ts[2..], 0, [], RawArg([], []));
  }

  lemma {:induction false} CallResumes(env: Env, disabled: set<string>, items: seq<Item>, name: Token,
    def: MacroDefinition, call: Call, rest: seq<Item>, fuel: nat)
    requires |items| > 1 && items[0] == Item(name, false) && items[1].tok.klass.LParen?
    requires Read(env, disabled, name) == FunctionMacro(def)
    requires AllWithin(call.args, |items| - 2) && Fits(env, def, CallArgs(env, disabled, def, call, |items| - 2))
    requires forall a <- call.args :: Regular(env, disabled, a.raw, true)
    requires Arguments(items[2..], 0, [], []) == Some((RawItems(call.args), rest))
    requires Rescan(env, disabled, items, fuel).Some? && fuel > 0
    ensures
      var body := CallBody(env, disabled, name, def, call, |items| - 2);
      var scanned := Rescan(env, disabled + {name.text}, Items(body), fuel - 1);
      Rescan(env, disabled, items, fuel) == Resume(env, disabled, scanned, rest, fuel - 1)
  {
    hide *;
    ScanCall(env, disabled, items, def, RawItems(call.args), rest, fuel);
    var args := RescanArgs(env, disabled, RawItems(call.args), fuel - 1);
    assert args.Some?;
    ArgsAgree(env, disabled, call.args, |items| - 2, fuel - 1);
    CallText(env, disabled, name, def, call, |items| - 2, args.value);
    EnterSome(env, disabled, name, CallBody(env, disabled, name, def, call, |items| - 2), rest, fuel - 1);
  }

  lemma EnterSome(env: Env, disabled: set<string>, name: Token, body: seq<Token>, rest: seq<Item>, fuel: nat)
    ensures Enter(env, disabled, name, Some(Items(body)), rest, fuel)
         == Resume(env, disabled, Rescan(env, disabled + {name.text}, Items(body), fuel), rest, fuel)
  {
  }

  lemma ArgsAgree(env: Env, disabled: set<string>, args: seq<RawArg>, n: nat, fuel: nat)
    requires AllWithin(args, n) && forall a <- args :: Regular(env, disabled, a.raw, true)
    requires RescanArgs(env, disabled, RawItems(args), fuel).Some?
    ensures ArgsScanTo(env, disabled, args, n, RescanArgs(env, disabled, RawItems(args), fuel))
  {
    hide Regular, ScansTo, Rescan, RescanArgs;
    var k := ArgsFuel(env, disabled, args, n);
    ArgsScan(env, disabled, args, n, k);
    MoreFuelArgs(env, disabled, RawItems(args), fuel, fuel + k);
    MoreFuelArgs(env, disabled, RawItems(args), k, fuel + k);
  }

  /** No token stems from the given line. */
  predicate Avoids(ts: seq<Item>, line: nat) { forall i :: 0 <= i < |ts| ==> ts[i].tok.line != line }

  predicate ArgsAvoid(args: seq<ItemArg>, line: nat) {
    forall a <- args :: Avoids(a.raw, line) && Avoids(a.replacement, line)
  }

  lemma OperandAvoids(def: MacroDefinition, at: Token, args: seq<ItemArg>, tok: Token, line: nat)
    requires at.line != line && ArgsAvoid(args, line)
    ensures Avoids(Operand(def, at, args, tok), line)
  {
    var i := ParamOf(def, tok);
    if i.Some? && i.value < |args| { assert args[i.value] in args; }
  }

  lemma {:induction false} PasteAllAvoids(env: Env, def: MacroDefinition, at: Token, args: seq<ItemArg>,
    left: seq<Item>, body: seq<Token>, line: nat)
    requires at.line != line && ArgsAvoid(args, line) && Avoids(left, line)
    ensures var r := PasteAll(env, def, at, args, left, body); r.Some? ==> Avoids(r.value.0, line)
    decreases |body|
  {
    hide Operand;
    if |body| > 1 && body[0].klass.HashHash? {
      OperandAvoids(def, at, args, body[1], line);
      var joined := Paste(env, at, left, Operand(def, at, args, body[1]));
      if joined.Some? { PasteAllAvoids(env, def, at, args, joined.value, body[2..], line); }
    }
  }

  lemma {:induction false} ReplaceAvoids(env: Env, def: MacroDefinition, at: Token, args: seq<ItemArg>,
    body: seq<Token>, line: nat)
    requires at.line != line && ArgsAvoid(args, line)
    ensures var r := Replace(env, def, at, args, body); r.Some? ==> Avoids(r.value, line)
    decreases |body|
  {
    hide Operand, ParamIndex, PasteAll;
    if body != [] {
      if |body| > 1 && body[1].klass.HashHash? {
        OperandAvoids(def, at, args, body[0], line);
        PasteAllAvoids(env, def, at, args, Operand(def, at, args, body[0]), body[1..], line);
        ReplaceAvoids(env, def, at, args, BehindChain(body[1..]), line);
      } else {
        ReplaceAvoids(env, def, at, args, body[1..], line);
        var i := ParamOf(def, body[0]);
        if i.Some? && i.value < |args| {
          assert args[i.value] in args;
        }
      }
    }
  }

  lemma {:induction false} ArgumentsAvoid(ts: seq<Item>, depth: nat, done: seq<seq<Item>>, current: seq<Item>,
    line: nat)
    requires Avoids(ts, line) && Avoids(current, line) && forall a <- done :: Avoids(a, line)
    ensures
      var r := Arguments(ts, depth, done, current);
      r.Some? ==> Avoids(r.value.1, line) && forall a <- r.value.0 :: Avoids(a, line)
    decreases |ts|
  {
    if ts != [] && !(ts[0].tok.klass.RParen? && depth == 0) {
      var klass := ts[0].tok.klass;
      if klass.Comma? && depth == 0 {
        ArgumentsAvoid(ts[1..], depth, done + [current], [], line);
      } else {
        ArgumentsAvoid(ts[1..], Depth(depth, ts[0].tok), done, current + [ts[0]], line);
      }
    }
  }

  predicate ScanAvoids(r: Option<Scan>, line: nat) {
    r.Some? ==> Avoids(r.value.out, line) && Avoids(r.value.open, line)
  }

  /** Replacing macros never makes up tokens of other lines. */
  lemma {:induction false} RescanAvoids(env: Env, disabled: set<string>, ts: seq<Item>, fuel: nat, line: nat)
    requires Avoids(ts, line)
    ensures ScanAvoids(Rescan(env, disabled, ts, fuel), line)
    decreases fuel, 0
  {
    hide Replace, Arguments, Enter;
    if fuel > 0 && ts != [] {
      var name := ts[0].tok;
      RescanAvoids(env, disabled, ts[1..], fuel - 1, line);
      var r := Read(env, disabled, name);
      if !ts[0].blocked && !r.Plain? {
        hide Read;
        if r.ObjectMacro? {
          ReplaceAvoids(env, r.def, name, [], r.def.body, line);
          EnterAvoids(env, disabled, name, PrescribedText(env, r.def, name, []), ts[1..], fuel - 1, line);
        } else if |ts| > 1 && ts[1].tok.klass.LParen? {
          ArgumentsAvoid(ts[2..], 0, [], [], line);
          var call := Arguments(ts[2..], 0, [], []);
          if call.Some? {
            RescanArgsAvoid(env, disabled, call.value.0, fuel - 1, line);
            var args := RescanArgs(env, disabled, call.value.0, fuel - 1);
            if args.Some? {
              var fixed := FixItemArgs(r.def, args.value);
              ReplaceAvoids(env, r.def, name, fixed, r.def.body, line);
              EnterAvoids(env, disabled, name, PrescribedText(env, r.def, name, fixed), call.value.1, fuel - 1, line);
            }
          }
        }
      }
    }
  }

  lemma {:induction false} EnterAvoids(env: Env, disabled: set<string>, name: Token, body: Option<seq<Item>>,
    rest: seq<Item>, fuel: nat, line: nat)
    requires Avoids(rest, line) && (body.Some? ==> Avoids(body.value, line))
    ensures ScanAvoids(Enter(env, disabled, name, body, rest, fuel), line)
    decreases fuel, 2
  {
    if body.Some? { ResumeAvoids(env, disabled, disabled + {name.text}, body.value, rest, fuel, line); }
  }

  lemma {:induction false} ResumeAvoids(env: Env, disabled: set<string>, inner: set<string>, body: seq<Item>,
    rest: seq<Item>, fuel: nat, line: nat)
    requires Avoids(body, line) && Avoids(rest, line)
    ensures ScanAvoids(Resume(env, disabled, Rescan(env, inner, body, fuel), rest, fuel), line)
    decreases fuel, 1
  {
    hide Rescan;
    RescanAvoids(env, inner, body, fuel, line);
    var r := Rescan(env, inner, body, fuel);
    if r.Some? {
      RescanAvoids(env, disabled, r.value.open + rest, fuel, line);
    }
  }

  lemma {:induction false} RescanArgsAvoid(env: Env, disabled: set<string>, args: seq<seq<Item>>, fuel: nat, line: nat)
    requires forall a <- args :: Avoids(a, line)
    ensures
      var r := RescanArgs(env, disabled, args, fuel);
      r.Some? ==> ArgsAvoid(r.value, line)
    decreases fuel, 1 + |args|
  {
    hide Rescan;
    if args != [] {
      var last := args[|args| - 1];
      assert last in args;
      RescanArgsAvoid(env, disabled, args[..|args| - 1], fuel, line);
      RescanAvoids(env, disabled, last, fuel, line);
    }
  }

  /** The name of a function-like macro with `()` behind it, the `)` on another line: the standard
      does not leave that `)` in the result. */
  lemma {:induction false} EmptyCallIsConsumed(env: Env, disabled: set<string>, name: Token, open: Token,
    close: Token, fuel: nat)
    requires Read(env, disabled, name).FunctionMacro? && open.klass.LParen? && close.klass.RParen?
    requires close.line != name.line
    ensures ScanAvoids(Rescan(env, disabled, Items([name, open, close]), fuel), close.line)
  {
    var ts := Items([name, open, close]);
    var def := Read(env, disabled, name).def;
    if fuel > 0 {
      assert ts[2..][1..] == [];
      var raw: seq<seq<Item>> := [] + [[]];
      assert Arguments(ts[2..], 0, [], []) == Some((raw, []));
      ScanCall(env, disabled, ts, def, raw, [], fuel);
      hide Arguments, Read, Replace, Rescan, RescanArgs, Enter;
      RescanArgsAvoid(env, disabled, raw, fuel - 1, close.line);
      var args := RescanArgs(env, disabled, raw, fuel - 1);
      if args.Some? {
        var fixed := FixItemArgs(def, args.value);
        ReplaceAvoids(env, def, name, fixed, def.body, close.line);
        EnterAvoids(env, disabled, name, PrescribedText(env, def, name, fixed), [], fuel - 1, close.line);
      }
    }
  }

  /** Whatever tokens follow it, a macro use is expanded together with them as prescribed exactly if
      its replacement settles: the code finalizes each replacement on its own.  Where the standard
      gives the tokens no meaning, nothing is prescribed, whatever the code makes of them. */
  lemma {:induction false} UseIsPrescribedIffSettled(env: Env, disabled: set<string>, use: seq<Token>,
    body: seq<Token>)
    requires OneArgumentBodies(env) && IsReplacedBy(env, disabled, use, body)
    requires Regular(env, disabled + {use[0].text}, body, false)
    ensures Settles(env, disabled + {use[0].text}, body) <==>
            forall rest :: Regular(env, disabled, rest, false) ==>
              Prescribes(env, disabled, use + rest, Expand(env, disabled, use + rest))
  {
    var inner := disabled + {use[0].text};
    hide Expand, IsReplacedBy;
    if Settles(env, inner, body) {
      forall rest | Regular(env, disabled, rest, false)
        ensures Prescribes(env, disabled, use + rest, Expand(env, disabled, use + rest))
      {
        UseInFront(env, disabled, use, body, rest);
        RegularIsPrescribed(env, disabled, use + rest);
      }
    } else {
      var rest := UnsettledFails(env, disabled, use, body);
    }
  }

  /** A body that does not settle ends with the name of a function-like macro. */
  lemma ReadsMacroName(env: Env, disabled: set<string>, body: seq<Token>, fuel: nat)
    requires ScansTo(env, disabled, body, false, Rescan(env, disabled, Items(body), fuel))
    requires !Settles(env, disabled, body)
    ensures var s := Rescan(env, disabled, Items(body), fuel).value;
            && |s.open| == 1 && s.open[0] == Item(s.open[0].tok, false)
            && Read(env, disabled, s.open[0].tok).FunctionMacro?
            && Erase(s.out) + [s.open[0].tok] == ExpandWithoutCommas(env, disabled, body)
  {
    hide Rescan, ExpandWithoutCommas, Settles, Read;
    var s := Rescan(env, disabled, Items(body), fuel).value;
    assert Erase(s.open) == [s.open[0].tok];
  }

  lemma {:induction false} UnsettledFails(env: Env, disabled: set<string>, use: seq<Token>, body: seq<Token>)
    returns (rest: seq<Token>)
    requires OneArgumentBodies(env) && IsReplacedBy(env, disabled, use, body)
    requires Regular(env, disabled + {use[0].text}, body, false) && !Settles(env, disabled + {use[0].text}, body)
    ensures Regular(env, disabled, rest, false)
    ensures !Prescribes(env, disabled, use + rest, Expand(env, disabled, use + rest))
  {
    var inner := disabled + {use[0].text};
    var m := ScanFuel(env, inner, body, false);
    ReadsMacroName(env, inner, body, m);
    var s := Rescan(env, inner, Items(body), m).value;
    hide ScansTo;
    var name := s.open[0].tok;
    var open, close := Tok(LParen, "("), Tok(RParen, ")").(line := name.line + 1);
    rest := [open, close];
    ParensAreRegular(env, disabled, open, close);
    UseInFront(env, disabled, use, body, rest);
    CommasDoNotMatter(env, disabled, use + rest);
    var text := Erase(s.out) + [name];
    hide Rescan, Expand, ExpandWithoutCommas, Regular, IsReplacedBy, Settles, Read, Yields, Erase;
    ReadableOutside(env, disabled, use[0].text, name);
    forall fuel: nat ensures !Yields(env, disabled, use + rest, fuel, text + rest) {
      OpenNameIsNotYielded(env, disabled, use, body, name, open, close, m, fuel);
    }
    assert text + rest == Expand(env, disabled, use + rest);
  }

  lemma {:induction false} OpenNameIsNotYielded(env: Env, disabled: set<string>, use: seq<Token>, body: seq<Token>,
    name: Token, open: Token, close: Token, m: nat, fuel: nat)
    requires use != [] && IsReplacedBy(env, disabled, use, body) && Read(env, disabled, name).FunctionMacro?
    requires open.klass.LParen? && close.klass.RParen? && close.line != name.line
    requires var r := Rescan(env, disabled + {use[0].text}, Items(body), m);
             r.Some? && r.value.open == [Item(name, false)]
    ensures var s := Rescan(env, disabled + {use[0].text}, Items(body), m).value;
            !Yields(env, disabled, use + [open, close], fuel, Erase(s.out) + [name] + [open, close])
  {
    hide IsReplacedBy, Rescan, Avoids, Read;
    var rest := [open, close];
    var s := Rescan(env, disabled + {use[0].text}, Items(body), m).value;
    if Rescan(env, disabled, Items(use + rest), fuel).Some? {
      OpenPartIsJoined(env, disabled, use, body, rest, m, fuel);
      assert s.open + Items(rest) == Items([name, open, close]);
      hide Items;
      JoinedNameIsNotYielded(env, disabled, s.out, name, open, close, fuel - 1);
    }
  }

  lemma JoinedNameIsNotYielded(env: Env, disabled: set<string>, front: seq<Item>, name: Token, open: Token,
    close: Token, fuel: nat)
    requires Read(env, disabled, name).FunctionMacro? && open.klass.LParen? && close.klass.RParen?
    requires close.line != name.line
    ensures var r := Emit(front, Rescan(env, disabled, Items([name, open, close]), fuel));
            r.Some? ==> Erase(r.value.out + r.value.open) != Erase(front) + [name] + [open, close]
  {
    hide Rescan, Avoids, Read, Items, Erase;
    EmptyCallIsConsumed(env, disabled, name, open, close, fuel);
    var r := Rescan(env, disabled, Items([name, open, close]), fuel);
    if r.Some? {
      CloseIsMissing(front, r.value, name, open, close);
    }
  }

  /** A macro use in front of other tokens: what its body leaves open is scanned with them. */
  lemma {:induction false} OpenPartIsJoined(env: Env, disabled: set<string>, use: seq<Token>, body: seq<Token>,
    rest: seq<Token>, m: nat, fuel: nat)
    requires use != [] && IsReplacedBy(env, disabled, use, body)
    requires Rescan(env, disabled + {use[0].text}, Items(body), m).Some?
    requires Rescan(env, disabled, Items(use + rest), fuel).Some?
    ensures
      && fuel > 0
      && var s := Rescan(env, disabled + {use[0].text}, Items(body), m).value;
      && Rescan(env, disabled, Items(use + rest), fuel)
         == Emit(s.out, Rescan(env, disabled, s.open + Items(rest), fuel - 1))
  {
    hide Rescan, IsReplacedBy;
    var inner := disabled + {use[0].text};
    UseResumes(env, disabled, use, body, rest, fuel);
    MoreFuel(env, inner, Items(body), fuel - 1, fuel + m);
    MoreFuel(env, inner, Items(body), m, fuel + m);
  }

  lemma CloseIsMissing(front: seq<Item>, r: Scan, name: Token, open: Token, close: Token)
    requires Avoids(r.out, close.line) && Avoids(r.open, close.line)
    ensures Erase(front + r.out + r.open) != Erase(front) + [name] + [open, close]
  {
    var all := front + r.out + r.open;
    var expected := Erase(front) + [name] + [open, close];
    assert expected[|front| + 2] == close;
    if |all| > |front| + 2 {
      assert all[|front| + 2] == (r.out + r.open)[2];
      assert Erase(all)[|front| + 2].line != close.line;
    }
  }

  lemma ParensAreRegular(env: Env, disabled: set<string>, open: Token, close: Token)
    requires open.klass.LParen? && close.klass.RParen?
    ensures Regular(env, disabled, [open, close], false)
    ensures ExpandWithoutCommas(env, disabled, [open, close]) == [open, close]
  {
    assert [open, close][1..] == [close] && [close][1..] == [];
    assert ExpandWithoutCommas(env, disabled, []) == [];
    assert ExpandWithoutCommas(env, disabled, [close]) == [close];
    assert Regular(env, disabled, [close], false);
  }

  /** A macro that is enabled inside a replacement is enabled behind it. */
  lemma ReadableOutside(env: Env, disabled: set<string>, text: string, name: Token)
    requires Read(env, disabled + {text}, name).FunctionMacro?
    ensures Read(env, disabled, name).FunctionMacro?
  {
  }
}
