/** Macro expansion as section 3.3 of the standard takes it over from C++, and when the code agrees.

    What a macro use is replaced by is rescanned together with the tokens behind it; a name that is
    met inside its own replacement is never replaced again, wherever it ends up; arguments do not
    include the commas between them; a call that is not closed is left as it is. */
module MacroStandard {
  import opened Tokens
  import opened MacroSyntax
  import opened MacroExpansion
  import opened MacroArguments
  import opened MacroReplacement

  // ---------------------------------------------------------------------------------------
  // The reference
  // ---------------------------------------------------------------------------------------

  /** The arguments of a call whose `(` has been read, and the tokens behind its `)`. */
  function Arguments(ts: seq<Item>, depth: nat, done: seq<seq<Item>>, current: seq<Item>)
    : (r: Option<(seq<seq<Item>>, seq<Item>)>)
    decreases |ts|
  {
    if ts == [] then None
    else
      var klass := ts[0].tok.klass;
      if klass.RParen? && depth == 0 then Some((done + [current], ts[1..]))
      else if klass.Comma? && depth == 0 then Arguments(ts[1..], depth, done + [current], [])
      else if klass.LParen? then Arguments(ts[1..], depth + 1, done, current + [ts[0]])
      else if klass.RParen? then Arguments(ts[1..], depth - 1, done, current + [ts[0]])
      else Arguments(ts[1..], depth, done, current + [ts[0]])
  }

  /** The name of a macro that is being replaced. */
  predicate IsDisabledName(env: Env, disabled: set<string>, tok: Token) {
    tok.klass.Identifier? && BuiltinMacro(env, tok).None? && tok.text in env.macros && tok.text in disabled
  }

  function Block(env: Env, disabled: set<string>, ts: seq<Item>): (r: seq<Item>)
    ensures |r| == |ts| && Erase(r) == Erase(ts)
  {
    seq(|ts|, i requires 0 <= i < |ts| => ts[i].(blocked := ts[i].blocked || IsDisabledName(env, disabled, ts[i].tok)))
  }

  /** What is known to be in the result, and the tokens at the end that depend on what follows: a
      name that may still be followed by `(`, or a call without its `)`. */
  datatype Scan = Scan(out: seq<Item>, open: seq<Item>)

  /** Scan a list of tokens.  There is no result if `fuel` does not suffice. */
  function Rescan(env: Env, disabled: set<string>, ts: seq<Item>, fuel: nat): Option<Scan>
    decreases fuel, 0
  {
    if fuel == 0 then None
    else if ts == [] then Some(Scan([], []))
    else if ts[0].blocked then Emit([ts[0]], Rescan(env, disabled, ts[1..], fuel - 1))
    else
      var name := ts[0].tok;
      match Read(env, disabled, name)
      case Plain(t) =>
        Emit([Item(t, IsDisabledName(env, disabled, name))], Rescan(env, disabled, ts[1..], fuel - 1))
      case ObjectMacro(def) =>
        Enter(env, disabled, name, PrescribedText(env, def, name, []), ts[1..], fuel - 1)
      case FunctionMacro(def) =>
        if |ts| == 1 then Some(Scan([], ts))
        else if !ts[1].tok.klass.LParen? then Emit([ts[0]], Rescan(env, disabled, ts[1..], fuel - 1))
        else
          match Arguments(ts[2..], 0, [], [])
          case None => Some(Scan([], Block(env, disabled, ts)))
          case Some(call) =>
            match RescanArgs(env, disabled, call.0, fuel - 1)
            case None => None
            case Some(args) =>
              Enter(env, disabled, name, PrescribedText(env, def, name, FixItemArgs(def, args)), call.1, fuel - 1)
  }

  /** Scan what a macro use is replaced by, if that has a meaning, and then what is behind the use. */
  function Enter(env: Env, disabled: set<string>, name: Token, body: Option<seq<Item>>, rest: seq<Item>, fuel: nat)
    : Option<Scan>
    decreases fuel, 2
  {
    match body
    case None => None
    case Some(b) => Resume(env, disabled, Rescan(env, disabled + {name.text}, b, fuel), rest, fuel)
  }

  function FixItemArgs(def: MacroDefinition, args: seq<ItemArg>): seq<ItemArg> {
    if def.params == [] && |args| == 1 && args[0].raw == [] then [] else args
  }

  function Emit(front: seq<Item>, r: Option<Scan>): Option<Scan> {
    match r case None => None case Some(s) => Some(Scan(front + s.out, s.open))
  }

  /** What a replacement leaves open is scanned on together with the tokens behind the macro use. */
  function Resume(env: Env, disabled: set<string>, r: Option<Scan>, rest: seq<Item>, fuel: nat): Option<Scan>
    decreases fuel, 1
  {
    match r
    case None => None
    case Some(s) => Emit(s.out, Rescan(env, disabled, s.open + rest, fuel))
  }

  /** Each argument is scanned as if it were all there is. */
  function RescanArgs(env: Env, disabled: set<string>, args: seq<seq<Item>>, fuel: nat): (r: Option<seq<ItemArg>>)
    ensures r.Some? ==> |r.value| == |args|
    decreases fuel, 1 + |args|
  {
    if args == [] then Some([])
    else
      var last := args[|args| - 1];
      match (RescanArgs(env, disabled, args[..|args| - 1], fuel), Rescan(env, disabled, last, fuel))
      case (Some(done), Some(s)) => Some(done + [ItemArg(last, s.out + s.open)])
      case _ => None
  }

  /** The standard prescribes `out` for the tokens `ts`. */
  ghost predicate Prescribes(env: Env, disabled: set<string>, ts: seq<Token>, out: seq<Token>) {
    exists fuel: nat :: Yields(env, disabled, ts, fuel, out)
  }

  predicate Yields(env: Env, disabled: set<string>, ts: seq<Token>, fuel: nat, out: seq<Token>) {
    var r := Rescan(env, disabled, Items(ts), fuel);
    r.Some? && Erase(r.value.out + r.value.open) == out
  }

  lemma {:induction false} MoreFuel(env: Env, disabled: set<string>, ts: seq<Item>, fuel: nat, more: nat)
    requires Rescan(env, disabled, ts, fuel).Some? && fuel <= more
    ensures Rescan(env, disabled, ts, more) == Rescan(env, disabled, ts, fuel)
    decreases fuel, 0
  {
    hide PrescribedText, Arguments, Read, Block;
    if ts == [] {
    } else if ts[0].blocked {
      MoreFuel(env, disabled, ts[1..], fuel - 1, more - 1);
    } else {
      var name := ts[0].tok;
      match Read(env, disabled, name)
      case Plain(_) => MoreFuel(env, disabled, ts[1..], fuel - 1, more - 1);
      case ObjectMacro(def) =>
        MoreFuelEnters(env, disabled, name, PrescribedText(env, def, name, []), ts[1..], fuel - 1, more - 1);
      case FunctionMacro(def) =>
        if |ts| == 1 {
        } else if !ts[1].tok.klass.LParen? {
          MoreFuel(env, disabled, ts[1..], fuel - 1, more - 1);
        } else if Arguments(ts[2..], 0, [], []).Some? {
          var call := Arguments(ts[2..], 0, [], []).value;
          MoreFuelArgs(env, disabled, call.0, fuel - 1, more - 1);
          var args := RescanArgs(env, disabled, call.0, fuel - 1).value;
          MoreFuelEnters(env, disabled, name, PrescribedText(env, def, name, FixItemArgs(def, args)), call.1,
            fuel - 1, more - 1);
        }
    }
  }

  lemma {:induction false} MoreFuelEnters(env: Env, disabled: set<string>, name: Token, body: Option<seq<Item>>,
    rest: seq<Item>, fuel: nat, more: nat)
    requires Enter(env, disabled, name, body, rest, fuel).Some? && fuel <= more
    ensures Enter(env, disabled, name, body, rest, more) == Enter(env, disabled, name, body, rest, fuel)
    decreases fuel, 2
  {
    MoreFuelResumes(env, disabled, disabled + {name.text}, body.value, rest, fuel, more);
  }

  lemma {:induction false} MoreFuelResumes(env: Env, disabled: set<string>, inner: set<string>, body: seq<Item>,
    rest: seq<Item>, fuel: nat, more: nat)
    requires Resume(env, disabled, Rescan(env, inner, body, fuel), rest, fuel).Some? && fuel <= more
    ensures Resume(env, disabled, Rescan(env, inner, body, more), rest, more)
         == Resume(env, disabled, Rescan(env, inner, body, fuel), rest, fuel)
    decreases fuel, 1
  {
    hide Rescan;
    MoreFuel(env, inner, body, fuel, more);
    MoreFuel(env, disabled, Rescan(env, inner, body, fuel).value.open + rest, fuel, more);
  }

  lemma {:induction false} MoreFuelArgs(env: Env, disabled: set<string>, args: seq<seq<Item>>, fuel: nat, more: nat)
    requires RescanArgs(env, disabled, args, fuel).Some? && fuel <= more
    ensures RescanArgs(env, disabled, args, more) == RescanArgs(env, disabled, args, fuel)
    decreases fuel, 1 + |args|
  {
    hide Rescan;
    if args != [] {
      MoreFuelArgs(env, disabled, args[..|args| - 1], fuel, more);
      MoreFuel(env, disabled, args[|args| - 1], fuel, more);
    }
  }

  /** The standard prescribes at most one result. */
  lemma {:induction false} PrescribedIsUnique(env: Env, disabled: set<string>, ts: seq<Token>, a: seq<Token>,
    b: seq<Token>)
    requires Prescribes(env, disabled, ts, a) && Prescribes(env, disabled, ts, b)
    ensures a == b
  {
    hide Rescan;
    var m: nat :| Yields(env, disabled, ts, m, a);
    var n: nat :| Yields(env, disabled, ts, n, b);
    MoreFuel(env, disabled, Items(ts), m, m + n);
    MoreFuel(env, disabled, Items(ts), n, m + n);
  }

  // ---------------------------------------------------------------------------------------
  // When the code does what the standard prescribes
  // ---------------------------------------------------------------------------------------

  /** Behind `ts` no name of a function-like macro waits for its `(`, and no call is open. */
  predicate Settles(env: Env, disabled: set<string>, ts: seq<Token>)
    decreases |ts|
  {
    ts == [] ||
    match Read(env, disabled, ts[0])
    case Plain(_) => Settles(env, disabled, ts[1..])
    case ObjectMacro(_) => Settles(env, disabled, ts[1..])
    case FunctionMacro(_) =>
      if |ts| == 1 then false
      else if !ts[1].klass.LParen? then Settles(env, disabled, ts[1..])
      else match ReadCall(ts[2..]) case None => false case Some(call) => Settles(env, disabled, call.after)
  }

  /** The arguments of a call, expanded. */
  function CallArgs(env: Env, disabled: set<string>, def: MacroDefinition, call: Call, n: nat): seq<Arg>
    requires AllWithin(call.args, n)
  {
    FixArgs(def, ArgsWithoutCommas(env, disabled, call.args, n))
  }

  /** The text that a call is replaced by, before it is scanned again. */
  function CallBody(env: Env, disabled: set<string>, name: Token, def: MacroDefinition, call: Call, n: nat): seq<Token>
    requires AllWithin(call.args, n)
  {
    Substitute(env, def, name, CallArgs(env, disabled, def, call, n), def.body)
  }

  /** Expanding `ts` meets none of the places where the code departs from the standard: every call
      is closed, every replacement fits and settles, and no argument (`inArg`) contains the name of a
      macro that is being replaced. */
  predicate Regular(env: Env, disabled: set<string>, ts: seq<Token>, inArg: bool)
    decreases |Enabled(env, disabled)|, |ts|
  {
    ts == [] ||
    match Read(env, disabled, ts[0])
    case Plain(_) =>
      (inArg ==> !IsDisabledName(env, disabled, ts[0])) && Regular(env, disabled, ts[1..], inArg)
    case ObjectMacro(def) =>
      DisablingShrinks(env, disabled, ts[0].text);
      && Fits(env, def, [])
      && RegularBody(env, disabled + {ts[0].text}, Substitute(env, def, ts[0], [], def.body), inArg)
      && Regular(env, disabled, ts[1..], inArg)
    case FunctionMacro(def) =>
      if |ts| == 1 || !ts[1].klass.LParen? then Regular(env, disabled, ts[1..], inArg)
      else
        match ReadCall(ts[2..])
        case None => false
        case Some(call) =>
          DisablingShrinks(env, disabled, ts[0].text);
          && Fits(env, def, CallArgs(env, disabled, def, call, |ts| - 2))
          && (forall a <- call.args :: Regular(env, disabled, a.raw, true))
          && RegularBody(env, disabled + {ts[0].text}, CallBody(env, disabled, ts[0], def, call, |ts| - 2), inArg)
          && Regular(env, disabled, call.after, inArg)
  }

  predicate RegularBody(env: Env, disabled: set<string>, body: seq<Token>, inArg: bool)
    decreases |Enabled(env, disabled)|, |body| + 1
  {
    Regular(env, disabled, body, inArg) && Settles(env, disabled, body)
  }

  function RawItems(args: seq<RawArg>): (r: seq<seq<Item>>)
    ensures |r| == |args| && forall i :: 0 <= i < |args| ==> r[i] == Items(args[i].raw)
  {
    seq(|args|, i requires 0 <= i < |args| => Items(args[i].raw))
  }

  lemma {:induction false} ArgumentsAreSplit(ts: seq<Token>, depth: nat, done: seq<RawArg>, current: RawArg)
    ensures
      var r, c := Arguments(Items(ts), depth, RawItems(done), Items(current.raw)), SplitCall(ts, depth, done, current);
      if c.None? then r.None? else r == Some((RawItems(c.value.args), Items(c.value.after)))
    decreases |ts|
  {
    if ts != [] {
      var t := ts[0];
      assert Items(ts)[1..] == Items(ts[1..]);
      if t.klass.RParen? && depth == 0 {
        assert RawItems(done + [current]) == RawItems(done) + [Items(current.raw)];
      } else if t.klass.Comma? && depth == 0 {
        assert RawItems(done + [current]) == RawItems(done) + [Items(current.raw)];
        assert Items([]) == [];
        ArgumentsAreSplit(ts[1..], depth, done + [current], RawArg([t], []));
      } else {
        ItemsAppend(current.raw, [t]);
        assert Items([t]) == [Item(t, false)];
        ArgumentsAreSplit(ts[1..], Depth(depth, t), done, current.(raw := current.raw + [t]));
      }
    }
  }

  /** What a scan of regular tokens yields. */
  predicate ScansTo(env: Env, disabled: set<string>, ts: seq<Token>, inArg: bool, r: Option<Scan>) {
    && r.Some?
    && Erase(r.value.out) + Erase(r.value.open) == ExpandWithoutCommas(env, disabled, ts)
    && (inArg ==> NoneBlocked(r.value.out))
    && (if Settles(env, disabled, ts) then r.value.open == []
        else |r.value.open| == 1 && !r.value.open[0].blocked
             && Read(env, disabled, r.value.open[0].tok).FunctionMacro?)
  }

  lemma MoreFuelScans(env: Env, disabled: set<string>, ts: seq<Token>, inArg: bool, fuel: nat, more: nat)
    requires ScansTo(env, disabled, ts, inArg, Rescan(env, disabled, Items(ts), fuel)) && fuel <= more
    ensures ScansTo(env, disabled, ts, inArg, Rescan(env, disabled, Items(ts), more))
  {
    hide Rescan;
    MoreFuel(env, disabled, Items(ts), fuel, more);
  }

  /** A token that is put out, and the scan of the others. */
  lemma EmitScans(env: Env, disabled: set<string>, ts: seq<Token>, rest: seq<Token>, inArg: bool, front: seq<Item>,
    r: Option<Scan>)
    requires ScansTo(env, disabled, rest, inArg, r)
    requires ExpandWithoutCommas(env, disabled, ts) == Erase(front) + ExpandWithoutCommas(env, disabled, rest)
    requires Settles(env, disabled, ts) == Settles(env, disabled, rest)
    requires inArg ==> NoneBlocked(front)
    ensures ScansTo(env, disabled, ts, inArg, Emit(front, r))
  {
    hide ExpandWithoutCommas, Settles, Read;
    EraseAppend(front, r.value.out);
    NoneBlockedIff(front);
    NoneBlockedIff(r.value.out);
    NoneBlockedIff(front + r.value.out);
  }

  lemma {:induction false} PlainScans(env: Env, disabled: set<string>, ts: seq<Token>, inArg: bool, n: nat)
    requires ts != [] && Regular(env, disabled, ts, inArg)
    requires Read(env, disabled, ts[0]).Plain?
             || (Read(env, disabled, ts[0]).FunctionMacro? && |ts| > 1 && !ts[1].klass.LParen?)
    requires ScansTo(env, disabled, ts[1..], inArg, Rescan(env, disabled, Items(ts[1..]), n))
    ensures ScansTo(env, disabled, ts, inArg, Rescan(env, disabled, Items(ts), n + 1))
  {
    hide ScansTo, IsDisabledName;
    var items := Items(ts);
    assert items[1..] == Items(ts[1..]);
    var r := Read(env, disabled, ts[0]);
    var front := if r.Plain? then Item(r.tok, IsDisabledName(env, disabled, ts[0])) else items[0];
    assert Erase([front]) == [front.tok];
    EmitScans(env, disabled, ts, ts[1..], inArg, [front], Rescan(env, disabled, Items(ts[1..]), n));
    hide Read, Emit;
    assert Rescan(env, disabled, items, n + 1) == Emit([front], Rescan(env, disabled, Items(ts[1..]), n));
  }

  /** A body that settles, and the scan of what is behind the macro use. */
  lemma ResumeScans(env: Env, disabled: set<string>, inner: set<string>, body: seq<Token>, ts: seq<Token>,
    rest: seq<Token>, inArg: bool, n: nat)
    requires ScansTo(env, inner, body, inArg, Rescan(env, inner, Items(body), n)) && Settles(env, inner, body)
    requires ScansTo(env, disabled, rest, inArg, Rescan(env, disabled, Items(rest), n))
    requires ExpandWithoutCommas(env, disabled, ts)
          == ExpandWithoutCommas(env, inner, body) + ExpandWithoutCommas(env, disabled, rest)
    requires Settles(env, disabled, ts) == Settles(env, disabled, rest)
    ensures ScansTo(env, disabled, ts, inArg,
      Resume(env, disabled, Rescan(env, inner, Items(body), n), Items(rest), n))
  {
    hide ExpandWithoutCommas, Settles, Read, Rescan;
    var s := Rescan(env, inner, Items(body), n).value;
    assert s.open + Items(rest) == Items(rest);
    assert Erase(s.open) == [];
    EmitScans(env, disabled, ts, rest, inArg, s.out, Rescan(env, disabled, Items(rest), n));
  }

  lemma {:induction false} ObjectScans(env: Env, disabled: set<string>, ts: seq<Token>, inArg: bool,
    def: MacroDefinition, n: nat)
    requires ts != [] && Read(env, disabled, ts[0]) == ObjectMacro(def) && Fits(env, def, [])
    requires
      var inner, body := disabled + {ts[0].text}, Substitute(env, def, ts[0], [], def.body);
      ScansTo(env, inner, body, inArg, Rescan(env, inner, Items(body), n)) && Settles(env, inner, body)
    requires ScansTo(env, disabled, ts[1..], inArg, Rescan(env, disabled, Items(ts[1..]), n))
    ensures ScansTo(env, disabled, ts, inArg, Rescan(env, disabled, Items(ts), n + 1))
  {
    hide ScansTo, Read, PrescribedText, Substitute, Resume, Fits;
    var items := Items(ts);
    assert items[1..] == Items(ts[1..]);
    ObjectText(env, def, ts[0]);
    ResumeScans(env, disabled, disabled + {ts[0].text}, Substitute(env, def, ts[0], [], def.body), ts, ts[1..],
      inArg, n);
  }

  /** The replacement of an object-like macro. */
  lemma ObjectText(env: Env, def: MacroDefinition, name: Token)
    requires Fits(env, def, [])
    ensures PrescribedText(env, def, name, []) == Some(Items(Substitute(env, def, name, [], def.body)))
  {
    hide Replace, BodyFits, Substitute;
    assert ToArgs([]) == [];
    ReplaceIsSubstitute(env, def, name, [], def.body);
  }

  /** The scanned arguments of a call are those of the code without their commas. */
  predicate ArgsScanTo(env: Env, disabled: set<string>, args: seq<RawArg>, n: nat, r: Option<seq<ItemArg>>)
    requires AllWithin(args, n)
  {
    && r.Some?
    && ToArgs(r.value) == ArgsWithoutCommas(env, disabled, args, n)
    && ArgsNotBlocked(r.value)
  }

  lemma ArgScans(env: Env, disabled: set<string>, raw: seq<Token>, s: Scan)
    requires ScansTo(env, disabled, raw, true, Some(s))
    ensures
      var arg := ItemArg(Items(raw), s.out + s.open);
      && NoneBlocked(arg.raw) && NoneBlocked(arg.replacement)
      && ToArg(arg) == Arg(|raw|, First(raw), ExpandWithoutCommas(env, disabled, raw))
  {
    hide ExpandWithoutCommas, Read, Settles;
    NoneBlockedIff(s.out);
    NoneBlockedIff(s.out + s.open);
    EraseAppend(s.out, s.open);
    EraseItems(raw);
  }

  lemma ScanOf(env: Env, disabled: set<string>, ts: seq<Token>, fuel: nat) returns (s: Scan)
    requires ScansTo(env, disabled, ts, true, Rescan(env, disabled, Items(ts), fuel))
    ensures Rescan(env, disabled, Items(ts), fuel) == Some(s)
  {
    s := Rescan(env, disabled, Items(ts), fuel).value;
  }

  lemma ToArgsSnoc(args: seq<ItemArg>, a: ItemArg)
    ensures ToArgs(args + [a]) == ToArgs(args) + [ToArg(a)]
  {
  }

  lemma {:induction false} ArgsScan(env: Env, disabled: set<string>, args: seq<RawArg>, n: nat, fuel: nat)
    requires AllWithin(args, n)
    requires forall a <- args :: ScansTo(env, disabled, a.raw, true, Rescan(env, disabled, Items(a.raw), fuel))
    ensures ArgsScanTo(env, disabled, args, n, RescanArgs(env, disabled, RawItems(args), fuel))
    decreases |args|
  {
    hide Rescan, ScansTo, ExpandWithoutCommas, NoneBlocked, ToArg;
    if args == [] {
      assert ToArgs([]) == [];
    } else {
      var k := |args| - 1;
      var last := args[k];
      assert last in args;
      ArgsScan(env, disabled, args[..k], n, fuel);
      var s := ScanOf(env, disabled, last.raw, fuel);
      ArgScans(env, disabled, last.raw, s);
      var done := RescanArgs(env, disabled, RawItems(args[..k]), fuel).value;
      var arg := ItemArg(Items(last.raw), s.out + s.open);
      ToArgsSnoc(done, arg);
      OneMoreArg(env, disabled, args, fuel, done, s);
      hide RescanArgs, RawItems, Items;
    }
  }

  lemma OneMoreArg(env: Env, disabled: set<string>, args: seq<RawArg>, fuel: nat, done: seq<ItemArg>, s: Scan)
    requires args != []
    requires RescanArgs(env, disabled, RawItems(args[..|args| - 1]), fuel) == Some(done)
    requires Rescan(env, disabled, Items(args[|args| - 1].raw), fuel) == Some(s)
    ensures RescanArgs(env, disabled, RawItems(args), fuel)
         == Some(done + [ItemArg(Items(args[|args| - 1].raw), s.out + s.open)])
  {
    hide Rescan;
    assert RawItems(args)[..|args| - 1] == RawItems(args[..|args| - 1]);
  }

  lemma FixKeepsArgs(def: MacroDefinition, args: seq<ItemArg>)
    ensures ToArgs(FixItemArgs(def, args)) == FixArgs(def, ToArgs(args))
    ensures forall a <- FixItemArgs(def, args) :: a in args
  {
    assert ToArgs([]) == [];
  }

  /** The text of a call, if the arguments are scanned alike. */
  lemma CallText(env: Env, disabled: set<string>, name: Token, def: MacroDefinition, call: Call, n: nat,
    args: seq<ItemArg>)
    requires AllWithin(call.args, n) && ArgsScanTo(env, disabled, call.args, n, Some(args))
    requires Fits(env, def, CallArgs(env, disabled, def, call, n))
    ensures PrescribedText(env, def, name, FixItemArgs(def, args))
         == Some(Items(CallBody(env, disabled, name, def, call, n)))
  {
    hide Substitute, Replace, BodyFits, ArgsWithoutCommas, NoneBlocked, FixItemArgs, FixArgs;
    FixKeepsArgs(def, args);
    ReplaceIsSubstitute(env, def, name, FixItemArgs(def, args), def.body);
  }

  lemma {:induction false} CallScans(env: Env, disabled: set<string>, ts: seq<Token>, inArg: bool,
    def: MacroDefinition, call: Call, n: nat)
    requires |ts| > 1 && Read(env, disabled, ts[0]) == FunctionMacro(def) && ts[1].klass.LParen?
    requires ReadCall(ts[2..]) == Some(call) && AllWithin(call.args, |ts| - 2)
    requires Fits(env, def, CallArgs(env, disabled, def, call, |ts| - 2))
    requires forall a <- call.args :: ScansTo(env, disabled, a.raw, true, Rescan(env, disabled, Items(a.raw), n))
    requires
      var inner, body := disabled + {ts[0].text}, CallBody(env, disabled, ts[0], def, call, |ts| - 2);
      ScansTo(env, inner, body, inArg, Rescan(env, inner, Items(body), n)) && Settles(env, inner, body)
    requires ScansTo(env, disabled, call.after, inArg, Rescan(env, disabled, Items(call.after), n))
    ensures ScansTo(env, disabled, ts, inArg, Rescan(env, disabled, Items(ts), n + 1))
  {
    hide ScansTo, Read, PrescribedText, Resume, RescanArgs, SplitCall, Arguments, NoneBlocked, Fits;
    var items := Items(ts);
    assert items[2..] == Items(ts[2..]);
    assert RawItems([]) == [] && Items([]) == [];
    ArgumentsAreSplit(ts[2..], 0, [], RawArg([], []));
    assert Arguments(items[2..], 0, [], []) == Some((RawItems(call.args), Items(call.after)));
    ArgsScan(env, disabled, call.args, |ts| - 2, n);
    var args := RescanArgs(env, disabled, RawItems(call.args), n).value;
    CallText(env, disabled, ts[0], def, call, |ts| - 2, args);
    ResumeScans(env, disabled, disabled + {ts[0].text}, CallBody(env, disabled, ts[0], def, call, |ts| - 2), ts,
      call.after, inArg, n);
  }

  lemma NothingScans(env: Env, disabled: set<string>, inArg: bool)
    ensures ScansTo(env, disabled, [], inArg, Rescan(env, disabled, Items([]), 1))
  {
  }

  lemma NameScans(env: Env, disabled: set<string>, name: Token, inArg: bool)
    requires Read(env, disabled, name).FunctionMacro?
    ensures ScansTo(env, disabled, [name], inArg, Rescan(env, disabled, Items([name]), 1))
  {
    hide Read;
    assert Items([name]) == [Item(name, false)];
    assert Erase([Item(name, false)]) == [name] && Erase([]) == [];
    assert [name][1..] == [];
    assert ExpandWithoutCommas(env, disabled, []) == [];
    assert ExpandWithoutCommas(env, disabled, [name]) == [name] + [];
    assert NoneBlocked([]);
  }

  lemma {:induction false} ScanFuel(env: Env, disabled: set<string>, ts: seq<Token>, inArg: bool) returns (fuel: nat)
    requires Regular(env, disabled, ts, inArg)
    ensures ScansTo(env, disabled, ts, inArg, Rescan(env, disabled, Items(ts), fuel))
    decreases |Enabled(env, disabled)|, |ts|, 2
  {
    hide ScansTo, Rescan, Settles, ExpandWithoutCommas;
    if ts == [] {
      fuel := 1;
      NothingScans(env, disabled, inArg);
    } else {
      var r := Read(env, disabled, ts[0]);
      hide Read, ReadCall, SplitCall;
      if r.ObjectMacro? {
        fuel := ObjectFuel(env, disabled, ts, inArg, r.def);
      } else if r.FunctionMacro? && |ts| == 1 {
        fuel := 1;
        NameScans(env, disabled, ts[0], inArg);
        assert ts == [ts[0]];
      } else if r.FunctionMacro? && ts[1].klass.LParen? {
        fuel := CallFuel(env, disabled, ts, inArg, r.def);
      } else {
        var n := ScanFuel(env, disabled, ts[1..], inArg);
        fuel := n + 1;
        PlainScans(env, disabled, ts, inArg, n);
      }
    }
  }

  lemma {:induction false} ObjectFuel(env: Env, disabled: set<string>, ts: seq<Token>, inArg: bool,
    def: MacroDefinition) returns (fuel: nat)
    requires ts != [] && Read(env, disabled, ts[0]) == ObjectMacro(def) && Regular(env, disabled, ts, inArg)
    ensures ScansTo(env, disabled, ts, inArg, Rescan(env, disabled, Items(ts), fuel))
    decreases |Enabled(env, disabled)|, |ts|, 1
  {
    hide ScansTo, Rescan, Settles, ExpandWithoutCommas, Substitute;
    var inner, body := disabled + {ts[0].text}, Substitute(env, def, ts[0], [], def.body);
    EnabledNames(env, disabled, ts[0]);
    DisablingShrinks(env, disabled, ts[0].text);
    hide Read;
    var m := ScanFuel(env, inner, body, inArg);
    var n := ScanFuel(env, disabled, ts[1..], inArg);
    hide Regular;
    MoreFuelScans(env, inner, body, inArg, m, m + n);
    MoreFuelScans(env, disabled, ts[1..], inArg, n, m + n);
    ObjectScans(env, disabled, ts, inArg, def, m + n);
    fuel := m + n + 1;
  }

  lemma {:induction false} CallFuel(env: Env, disabled: set<string>, ts: seq<Token>, inArg: bool,
    def: MacroDefinition) returns (fuel: nat)
    requires |ts| > 1 && Read(env, disabled, ts[0]) == FunctionMacro(def) && ts[1].klass.LParen?
    requires Regular(env, disabled, ts, inArg)
    ensures ScansTo(env, disabled, ts, inArg, Rescan(env, disabled, Items(ts), fuel))
    decreases |Enabled(env, disabled)|, |ts|, 1
  {
    hide ScansTo, Rescan, Settles, ExpandWithoutCommas, CallBody;
    EnabledNames(env, disabled, ts[0]);
    DisablingShrinks(env, disabled, ts[0].text);
    hide Read, SplitCall;
    var call := ReadCall(ts[2..]).value;
    hide ReadCall;
    var inner, body := disabled + {ts[0].text}, CallBody(env, disabled, ts[0], def, call, |ts| - 2);
    var k := ArgsFuel(env, disabled, call.args, |ts| - 2);
    var m := ScanFuel(env, inner, body, inArg);
    var n := ScanFuel(env, disabled, call.after, inArg);
    hide Regular;
    fuel := k + m + n;
    MoreFuelScans(env, inner, body, inArg, m, fuel);
    MoreFuelScans(env, disabled, call.after, inArg, n, fuel);
    forall a <- call.args ensures ScansTo(env, disabled, a.raw, true, Rescan(env, disabled, Items(a.raw), fuel)) {
      MoreFuelScans(env, disabled, a.raw, true, k, fuel);
    }
    CallScans(env, disabled, ts, inArg, def, call, fuel);
    fuel := fuel + 1;
  }

  lemma {:induction false} ArgsFuel(env: Env, disabled: set<string>, args: seq<RawArg>, n: nat) returns (fuel: nat)
    requires AllWithin(args, n) && forall a <- args :: Regular(env, disabled, a.raw, true)
    ensures forall a <- args :: ScansTo(env, disabled, a.raw, true, Rescan(env, disabled, Items(a.raw), fuel))
    decreases |Enabled(env, disabled)|, n, 3 + |args|
  {
    hide ScansTo, Rescan, Regular;
    if args == [] {
      fuel := 0;
    } else {
      var last := args[|args| - 1];
      assert last in args;
      var m := ArgsFuel(env, disabled, args[..|args| - 1], n);
      var k := ScanFuel(env, disabled, last.raw, true);
      fuel := m + k;
      forall a <- args ensures ScansTo(env, disabled, a.raw, true, Rescan(env, disabled, Items(a.raw), fuel)) {
        if a in args[..|args| - 1] {
          MoreFuelScans(env, disabled, a.raw, true, m, fuel);
        } else {
          MoreFuelScans(env, disabled, last.raw, true, k, fuel);
        }
      }
    }
  }

  /** Where the code's own rules are met, it expands a list of tokens as the standard prescribes. */
  lemma {:induction false} RegularIsPrescribed(env: Env, disabled: set<string>, ts: seq<Token>)
    requires OneArgumentBodies(env) && Regular(env, disabled, ts, false)
    ensures Prescribes(env, disabled, ts, Expand(env, disabled, ts))
  {
    var fuel := ScanFuel(env, disabled, ts, false);
    hide Rescan, Regular, Settles, Expand, ExpandWithoutCommas;
    CommasDoNotMatter(env, disabled, ts);
    var s := Rescan(env, disabled, Items(ts), fuel).value;
    EraseAppend(s.out, s.open);
    assert Yields(env, disabled, ts, fuel, Expand(env, disabled, ts));
  }
}
