/** Macro definitions, and replacing the tokens of a macro body. */
module MacroSyntax {
  import opened Tokens

  datatype MacroDefinition = MacroDefinition(isFunctionLike: bool, params: seq<Token>, body: seq<Token>)

  /** A fixed macro table, and what comes from outside the expander: the first token that a pasted
      text lexes to, and the spelling of the builtin macros. */
  datatype Env = Env(
    macros: map<string, MacroDefinition>,
    lex: string -> Token,
    decimal: nat -> string,
    version: nat)

  /** A token as if spelled at the macro use `at`. */
  function Relocate(tok: Token, at: Token): Token {
    tok.(file := at.file, line := at.line, isFirstTokenOfLine := false, hasLeadingWhitespace := false)
  }

  function NumberAt(text: string, at: Token): Token { Token(NumberLiteral, text, at.file, at.line, false, false) }

  /** `__LINE__`, `__FILE__` and `__VERSION__`. */
  function BuiltinMacro(env: Env, tok: Token): Option<Token> {
    if tok.text == "__LINE__" then Some(NumberAt(env.decimal(tok.line + 1), tok))
    else if tok.text == "__FILE__" then Some(NumberAt(env.decimal(tok.file), tok))
    else if tok.text == "__VERSION__" then Some(NumberAt(env.decimal(env.version), tok))
    else None
  }

  /** How a token in front of the expander is to be treated. */
  datatype Reading =
    | Plain(tok: Token)
    | ObjectMacro(def: MacroDefinition)
    | FunctionMacro(def: MacroDefinition)

  function Read(env: Env, disabled: set<string>, tok: Token): Reading {
    if !tok.klass.Identifier? then Plain(tok)
    else
      match BuiltinMacro(env, tok)
      case Some(b) => Plain(b)
      case None =>
        if tok.text in env.macros && tok.text !in disabled then
          var def := env.macros[tok.text];
          if def.isFunctionLike then FunctionMacro(def) else ObjectMacro(def)
        else Plain(tok)
  }

  /** The macros that may still be expanded. */
  function Enabled(env: Env, disabled: set<string>): set<string> { env.macros.Keys - disabled }

  lemma DisablingShrinks(env: Env, disabled: set<string>, name: string)
    requires name in env.macros && name !in disabled
    ensures |Enabled(env, disabled + {name})| < |Enabled(env, disabled)|
  {
    assert Enabled(env, disabled + {name}) == Enabled(env, disabled) - {name};
  }

  // ---------------------------------------------------------------------------------------
  // Substitution
  // ---------------------------------------------------------------------------------------

  /** An argument of a macro call: how many tokens were written, the first of them, and the tokens
      that replace a parameter. */
  datatype Arg = Arg(count: nat, first: Option<Token>, replacement: seq<Token>)

  /** The first parameter with the given name. */
  function ParamIndex(params: seq<Token>, name: string): (r: Option<nat>)
    ensures r.Some? ==> r.value < |params| && params[r.value].text == name
    ensures forall j :: 0 <= j < (if r.Some? then r.value else |params|) ==> params[j].text != name
  {
    if params == [] then None
    else if params[0].text == name then Some(0)
    else match ParamIndex(params[1..], name) case None => None case Some(i) => Some(i + 1)
  }

  /** Text contributed to a paste by one operand: nothing stands for failure.  A parameter is
      replaced by its unexpanded argument, which must be at most one token. */
  function PasteOperand(def: MacroDefinition, args: seq<Arg>, tok: Token): Option<string> {
    match if tok.klass.Identifier? then ParamIndex(def.params, tok.text) else None
    case None => Some(tok.text)
    case Some(i) =>
      if i >= |args| || args[i].count == 0 || args[i].first.None? then Some("")
      else if args[i].count == 1 then Some(args[i].first.value.text)
      else None
  }

  /** The rest of a chain of `##`: the text so far, and the tokens behind the chain. */
  function PasteChain(def: MacroDefinition, args: seq<Arg>, text: Option<string>, body: seq<Token>)
    : (r: (Option<string>, seq<Token>))
    ensures |r.1| <= |body|
    decreases |body|
  {
    if |body| == 0 || !body[0].klass.HashHash? then (text, body)
    else if |body| == 1 then (None, [])
    else
      var operand := PasteOperand(def, args, body[1]);
      var joined := if text.Some? && operand.Some? then Some(text.value + operand.value) else None;
      PasteChain(def, args, joined, body[2..])
  }

  /** The body of a macro with its parameters replaced, before it is scanned again. */
  function Substitute(env: Env, def: MacroDefinition, at: Token, args: seq<Arg>, body: seq<Token>): seq<Token>
    decreases |body|
  {
    if body == [] then []
    else
      var tok := Relocate(body[0], at);
      if tok.klass.Hash? then
        // The source looks for the identifier one token too far; two tokens are dropped.
        if |body| > 2 && body[2].klass.Identifier? then Substitute(env, def, at, args, body[2..])
        else [tok] + Substitute(env, def, at, args, body[1..])
      else if |body| > 1 && body[1].klass.HashHash? then
        var pasted := PasteChain(def, args, PasteOperand(def, args, body[0]), body[1..]);
        var rest := Substitute(env, def, at, args, pasted.1);
        if pasted.0.Some? then [Relocate(env.lex(pasted.0.value), at)] + rest else rest
      else
        match if tok.klass.Identifier? then ParamIndex(def.params, tok.text) else None
        case Some(i) => (if i < |args| then args[i].replacement else []) + Substitute(env, def, at, args, body[1..])
        case None => [tok] + Substitute(env, def, at, args, body[1..])
  }

  /** `# p x` loses `#` and `p`; `# p` at the end of a body keeps both: the source looks for the
      identifier one token too far. */
  lemma HashDropsTwoTokens(env: Env, def: MacroDefinition, at: Token, args: seq<Arg>, hash: Token, p: Token, x: Token)
    requires hash.klass.Hash? && p.klass.Identifier? && x.klass.Identifier?
    requires ParamIndex(def.params, p.text).None? && ParamIndex(def.params, x.text).None?
    ensures Substitute(env, def, at, args, [hash, p, x]) == [Relocate(x, at)]
    ensures Substitute(env, def, at, args, [hash, p]) == [Relocate(hash, at), Relocate(p, at)]
  {
    assert [hash, p, x][2..] == [x] && [x][1..] == [];
    assert [hash, p][1..] == [p] && [p][1..] == [];
    assert Substitute(env, def, at, args, []) == [];
    assert Substitute(env, def, at, args, [x]) == [Relocate(x, at)] + [];
    assert Substitute(env, def, at, args, [p]) == [Relocate(p, at)] + [];
  }

  /** No token of the body is `#` or `##`. */
  predicate IsSimple(body: seq<Token>) {
    forall i :: 0 <= i < |body| ==> !body[i].klass.Hash? && !body[i].klass.HashHash?
  }

  /** What replaces a single token of a simple body. */
  function Replacement(def: MacroDefinition, at: Token, args: seq<Arg>, tok: Token): seq<Token> {
    match if tok.klass.Identifier? then ParamIndex(def.params, tok.text) else None
    case None => [Relocate(tok, at)]
    case Some(i) => if i < |args| then args[i].replacement else []
  }

  /** Simple bodies are replaced token by token, wherever they are cut. */
  lemma {:induction false} SubstituteSplits(env: Env, def: MacroDefinition, at: Token, args: seq<Arg>, a: seq<Token>,
    t: Token, b: seq<Token>)
    requires IsSimple(a + [t] + b)
    ensures Substitute(env, def, at, args, a + [t] + b)
         == Substitute(env, def, at, args, a) + Replacement(def, at, args, t) + Substitute(env, def, at, args, b)
    decreases |a|
  {
    hide Substitute, Replacement;
    var body := a + [t] + b;
    SubstituteFirst(env, def, at, args, body);
    if a == [] {
      assert body[0] == t && body[1..] == b;
    } else {
      assert body[0] == a[0] && body[1..] == a[1..] + [t] + b;
      assert IsSimple(a) by { assert forall i :: 0 <= i < |a| ==> a[i] == body[i]; }
      assert forall i :: 0 <= i < |body[1..]| ==> body[1..][i] == body[i + 1];
      SubstituteFirst(env, def, at, args, a);
      SubstituteSplits(env, def, at, args, a[1..], t, b);
    }
    SubstituteFirst(env, def, at, args, []);
  }

  lemma SubstituteFirst(env: Env, def: MacroDefinition, at: Token, args: seq<Arg>, body: seq<Token>)
    requires IsSimple(body)
    ensures Substitute(env, def, at, args, body)
         == if body == [] then [] else Replacement(def, at, args, body[0]) + Substitute(env, def, at, args, body[1..])
  {
  }

  /** `x ## y` makes one token of both texts. */
  lemma PasteJoinsTexts(env: Env, def: MacroDefinition, at: Token, args: seq<Arg>, x: Token, paste: Token, y: Token,
    rest: seq<Token>)
    requires !x.klass.Hash? && paste.klass.HashHash? && (rest != [] ==> !rest[0].klass.HashHash?)
    ensures
      var l, r := PasteOperand(def, args, x), PasteOperand(def, args, y);
      Substitute(env, def, at, args, [x, paste, y] + rest)
      == (if l.Some? && r.Some? then [Relocate(env.lex(l.value + r.value), at)] else [])
         + Substitute(env, def, at, args, rest)
  {
    hide PasteOperand;
    var l, r := PasteOperand(def, args, x), PasteOperand(def, args, y);
    var body := [x, paste, y] + rest;
    var chain := body[1..];
    assert chain[1] == y && chain[2..] == rest;
    var joined := if l.Some? && r.Some? then Some(l.value + r.value) else None;
    assert PasteChain(def, args, joined, rest) == (joined, rest);
    assert PasteChain(def, args, l, chain) == (joined, rest);
  }

  // ---------------------------------------------------------------------------------------
  // Argument lists
  // ---------------------------------------------------------------------------------------

  /** An argument as written, with the comma in front of it if it is not the first. */
  datatype RawArg = RawArg(comma: seq<Token>, raw: seq<Token>)

  datatype Call = Call(args: seq<RawArg>, close: Token, after: seq<Token>)

  /** The nesting depth behind a token. */
  function Depth(depth: nat, t: Token): nat
    requires t.klass.RParen? ==> depth > 0
  {
    if t.klass.LParen? then depth + 1 else if t.klass.RParen? then depth - 1 else depth
  }

  /** Split the tokens behind the `(` of a call at the commas that are not nested in further
      parentheses, up to the matching `)`. */
  function SplitCall(ts: seq<Token>, depth: nat, done: seq<RawArg>, current: RawArg): (r: Option<Call>)
    ensures r.Some? ==> |r.value.after| < |ts|
    decreases |ts|
  {
    if ts == [] then None
    else
      var t := ts[0];
      if t.klass.RParen? && depth == 0 then Some(Call(done + [current], t, ts[1..]))
      else if t.klass.Comma? && depth == 0 then SplitCall(ts[1..], depth, done + [current], RawArg([t], []))
      else
        SplitCall(ts[1..], Depth(depth, t), done, current.(raw := current.raw + [t]))
  }

  function Spelling(args: seq<RawArg>): seq<Token> {
    if args == [] then []
    else Spelling(args[..|args| - 1]) + args[|args| - 1].comma + args[|args| - 1].raw
  }

  /** The split loses nothing: the arguments, their commas, the `)` and the rest spell the input. */
  lemma {:induction false} SplitCallSpells(ts: seq<Token>, depth: nat, done: seq<RawArg>, current: RawArg)
    requires SplitCall(ts, depth, done, current).Some?
    ensures var c := SplitCall(ts, depth, done, current).value;
            && c.close.klass.RParen?
            && Spelling(done + [current]) + ts == Spelling(c.args) + [c.close] + c.after
    decreases |ts|
  {
    hide Spelling;
    var t := ts[0];
    var front := Spelling(done + [current]);
    if t.klass.RParen? && depth == 0 {
      assert front + ts == front + [t] + ts[1..];
    } else if t.klass.Comma? && depth == 0 {
      SplitCallSpells(ts[1..], depth, done + [current], RawArg([t], []));
      SpellingSnoc(done + [current], RawArg([t], []));
      assert front + ts == front + [t] + [] + ts[1..];
    } else {
      var current1 := current.(raw := current.raw + [t]);
      SplitCallSpells(ts[1..], Depth(depth, t), done, current1);
      SpellingSnoc(done, current);
      SpellingSnoc(done, current1);
      MoveOne(Spelling(done) + current.comma, current.raw, t, ts);
    }
  }

  lemma MoveOne(a: seq<Token>, b: seq<Token>, t: Token, ts: seq<Token>)
    requires ts != [] && ts[0] == t
    ensures a + b + ts == a + (b + [t]) + ts[1..]
  {
  }

  lemma SpellingSnoc(done: seq<RawArg>, a: RawArg)
    ensures Spelling(done + [a]) == Spelling(done) + a.comma + a.raw
  {
    assert (done + [a])[..|done|] == done;
  }
}
