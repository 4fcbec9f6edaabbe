/** The text that a macro is replaced by, before it is scanned again, as section 3.3 of the standard
    takes it over from C++, and when the code agrees. */
module MacroReplacement {
  import opened Tokens
  import opened MacroSyntax
  import opened MacroExpansion
  import opened MacroArguments

  // ---------------------------------------------------------------------------------------
  // The reference
  // ---------------------------------------------------------------------------------------

  /** A token, and whether it is a name that must not be replaced any more. */
  datatype Item = Item(tok: Token, blocked: bool)

  function Items(ts: seq<Token>): (r: seq<Item>)
    ensures |r| == |ts| && forall i :: 0 <= i < |ts| ==> r[i] == Item(ts[i], false)
  {
    seq(|ts|, i requires 0 <= i < |ts| => Item(ts[i], false))
  }

  function Erase(ts: seq<Item>): (r: seq<Token>)
    ensures |r| == |ts| && forall i :: 0 <= i < |ts| ==> r[i] == ts[i].tok
  {
    seq(|ts|, i requires 0 <= i < |ts| => ts[i].tok)
  }

  datatype ItemArg = ItemArg(raw: seq<Item>, replacement: seq<Item>)

  function ToArg(a: ItemArg): Arg { Arg(|a.raw|, First(Erase(a.raw)), Erase(a.replacement)) }

  function ToArgs(args: seq<ItemArg>): (r: seq<Arg>)
    ensures |r| == |args| && forall i :: 0 <= i < |args| ==> r[i] == ToArg(args[i])
  {
    seq(|args|, i requires 0 <= i < |args| => ToArg(args[i]))
  }

  function ParamOf(def: MacroDefinition, tok: Token): Option<nat> {
    if tok.klass.Identifier? then ParamIndex(def.params, tok.text) else None
  }

  /** What an operand of `##` stands for: a parameter for its argument as written. */
  function Operand(def: MacroDefinition, at: Token, args: seq<ItemArg>, tok: Token): seq<Item> {
    match ParamOf(def, tok)
    case None => [Item(Relocate(tok, at), false)]
    case Some(i) => if i < |args| then args[i].raw else []
  }

  /** The token that a text spells.  A text that does not spell one token is no result of `##`. */
  function Join(env: Env, at: Token, text: string, blocked: bool): Option<Item> {
    var tok := env.lex(text);
    if tok.text == text then Some(Item(Relocate(tok, at), blocked)) else None
  }

  /** The last token of the left operand and the first of the right become one; the others stay.  An
      empty operand is a placemarker, which leaves the token on the other side. */
  function Paste(env: Env, at: Token, l: seq<Item>, r: seq<Item>): Option<seq<Item>> {
    if l == [] && r == [] then Some([])
    else
      var joined :=
        if l == [] then Join(env, at, r[0].tok.text, r[0].blocked)
        else if r == [] then Join(env, at, l[|l| - 1].tok.text, l[|l| - 1].blocked)
        else Join(env, at, l[|l| - 1].tok.text + r[0].tok.text, false);
      match joined
      case None => None
      case Some(x) => Some((if l == [] then [] else l[..|l| - 1]) + [x] + (if r == [] then [] else r[1..]))
  }

  /** The rest of a chain of `##`, from left to right, and the tokens behind the chain. */
  function PasteAll(env: Env, def: MacroDefinition, at: Token, args: seq<ItemArg>, left: seq<Item>, body: seq<Token>)
    : (r: Option<(seq<Item>, seq<Token>)>)
    ensures r.Some? ==> r.value.1 == BehindChain(body)
    decreases |body|
  {
    if body == [] || !body[0].klass.HashHash? then Some((left, body))
    else if |body| == 1 || body[1].klass.HashHash? then None
    else
      match Paste(env, at, left, Operand(def, at, args, body[1]))
      case None => None
      case Some(joined) => PasteAll(env, def, at, args, joined, body[2..])
  }

  /** A body with its parameters replaced; nothing if it has no meaning. */
  function Replace(env: Env, def: MacroDefinition, at: Token, args: seq<ItemArg>, body: seq<Token>): Option<seq<Item>>
    decreases |body|
  {
    if body == [] then Some([])
    else if body[0].klass.HashHash? then None
    else if |body| > 1 && body[1].klass.HashHash? then
      match PasteAll(env, def, at, args, Operand(def, at, args, body[0]), body[1..])
      case None => None
      case Some(pasted) => InFront(pasted.0, Replace(env, def, at, args, pasted.1))
    else
      var here := match ParamOf(def, body[0])
        case Some(i) => if i < |args| then args[i].replacement else []
        case None => [Item(Relocate(body[0], at), false)];
      InFront(here, Replace(env, def, at, args, body[1..]))
  }

  function InFront(front: seq<Item>, rest: Option<seq<Item>>): Option<seq<Item>> {
    match rest case None => None case Some(r) => Some(front + r)
  }

  /** The replacement of a macro use, which must have as many arguments as the macro has parameters. */
  function PrescribedText(env: Env, def: MacroDefinition, at: Token, args: seq<ItemArg>): Option<seq<Item>> {
    if |args| == |def.params| then Replace(env, def, at, args, def.body) else None
  }

  // ---------------------------------------------------------------------------------------
  // Where the code agrees
  // ---------------------------------------------------------------------------------------

  /** An operand has at most one token. */
  predicate OperandFits(def: MacroDefinition, args: seq<Arg>, tok: Token) {
    match ParamOf(def, tok)
    case None => true
    case Some(i) => i >= |args| || (args[i].count <= 1 && (args[i].count == 1 ==> args[i].first.Some?))
  }

  /** The text of such an operand, if it has a token. */
  function OperandText(def: MacroDefinition, args: seq<Arg>, tok: Token): Option<string> {
    match ParamOf(def, tok)
    case None => Some(tok.text)
    case Some(i) =>
      if i >= |args| || args[i].count == 0 || args[i].first.None? then None else Some(args[i].first.value.text)
  }

  function TextOf(t: Option<string>): string { if t.Some? then t.value else "" }

  function JoinedText(a: Option<string>, b: Option<string>): Option<string> {
    if a.None? && b.None? then None else Some(TextOf(a) + TextOf(b))
  }

  predicate IsOneToken(env: Env, t: Option<string>) { t.Some? ==> env.lex(t.value).text == t.value }

  /** The rest of a chain: each operand has at most one token, each text spells one, and some operand
      is not empty. */
  predicate ChainFits(env: Env, def: MacroDefinition, args: seq<Arg>, left: Option<string>, body: seq<Token>)
    decreases |body|
  {
    if body == [] || !body[0].klass.HashHash? then left.Some?
    else if |body| == 1 || body[1].klass.HashHash? then false
    else
      var joined := JoinedText(left, OperandText(def, args, body[1]));
      OperandFits(def, args, body[1]) && IsOneToken(env, joined) && ChainFits(env, def, args, joined, body[2..])
  }

  /** Where the code replaces a body as prescribed: no `#` has an identifier two tokens behind it or
      `##` directly behind it, and every chain of `##` fits. */
  predicate BodyFits(env: Env, def: MacroDefinition, args: seq<Arg>, body: seq<Token>)
    decreases |body|
  {
    if body == [] then true
    else if body[0].klass.HashHash? then false
    else if |body| > 1 && body[1].klass.HashHash? then
      && !body[0].klass.Hash? && OperandFits(def, args, body[0])
      && ChainFits(env, def, args, OperandText(def, args, body[0]), body[1..])
      && BodyFits(env, def, args, BehindChain(body[1..]))
    else
      (body[0].klass.Hash? ==> !(|body| > 2 && body[2].klass.Identifier?)) && BodyFits(env, def, args, body[1..])
  }

  /** Moreover there are as many arguments as parameters. */
  predicate Fits(env: Env, def: MacroDefinition, args: seq<Arg>) {
    |args| == |def.params| && BodyFits(env, def, args, def.body)
  }

  /** Items of which none is blocked. */
  predicate NoneBlocked(ts: seq<Item>) { ts == Items(Erase(ts)) }

  lemma NoneBlockedIff(ts: seq<Item>)
    ensures NoneBlocked(ts) <==> forall i :: 0 <= i < |ts| ==> !ts[i].blocked
  {
  }

  lemma ItemsAppend(a: seq<Token>, b: seq<Token>)
    ensures Items(a + b) == Items(a) + Items(b)
  {
  }

  lemma EraseAppend(a: seq<Item>, b: seq<Item>)
    ensures Erase(a + b) == Erase(a) + Erase(b)
  {
  }

  lemma EraseItems(ts: seq<Token>)
    ensures Erase(Items(ts)) == ts
  {
  }

  /** At most one item, and its text. */
  predicate Spells(ts: seq<Item>, text: Option<string>) {
    if text.None? then ts == [] else |ts| == 1 && !ts[0].blocked && ts[0].tok.text == text.value
  }

  predicate ArgsNotBlocked(args: seq<ItemArg>) {
    forall a <- args :: NoneBlocked(a.raw) && NoneBlocked(a.replacement)
  }

  lemma OperandSpells(def: MacroDefinition, at: Token, args: seq<ItemArg>, tok: Token)
    requires OperandFits(def, ToArgs(args), tok) && ArgsNotBlocked(args)
    ensures Spells(Operand(def, at, args, tok), OperandText(def, ToArgs(args), tok))
    ensures PasteOperand(def, ToArgs(args), tok) == Some(TextOf(OperandText(def, ToArgs(args), tok)))
  {
    var i := ParamOf(def, tok);
    if i.Some? && i.value < |args| {
      assert args[i.value] in args;
      NoneBlockedIff(args[i.value].raw);
    }
  }

  /** Joining what has at most one token on either side. */
  lemma PasteSpells(env: Env, at: Token, l: seq<Item>, lt: Option<string>, r: seq<Item>, rt: Option<string>)
    requires Spells(l, lt) && Spells(r, rt) && IsOneToken(env, JoinedText(lt, rt))
    ensures var text := JoinedText(lt, rt);
            Paste(env, at, l, r)
            == Some(if text.None? then [] else [Item(Relocate(env.lex(text.value), at), false)])
  {
    assert TextOf(lt) + "" == TextOf(lt) && "" + TextOf(rt) == TextOf(rt);
    if JoinedText(lt, rt).Some? {
      var x := Item(Relocate(env.lex(JoinedText(lt, rt).value), at), false);
      assert l != [] ==> l[..|l| - 1] == [];
      assert r != [] ==> r[1..] == [];
      assert [] + [x] + [] == [x];
    }
  }

  lemma {:induction false} ChainIsSubstituted(env: Env, def: MacroDefinition, at: Token, args: seq<ItemArg>,
    l: seq<Item>, left: Option<string>, body: seq<Token>)
    requires ChainFits(env, def, ToArgs(args), left, body) && ArgsNotBlocked(args) && Spells(l, left)
    requires (body != [] && body[0].klass.HashHash?)
             || (left.Some? && l == [Item(Relocate(env.lex(left.value), at), false)])
    ensures var r, c := PasteAll(env, def, at, args, l, body), PasteChain(def, ToArgs(args), Some(TextOf(left)), body);
            && r.Some? && c.1 == BehindChain(body) && c.0.Some?
            && r.value.0 == [Item(Relocate(env.lex(c.0.value), at), false)]
    decreases |body|
  {
    hide ParamOf, Operand, OperandText, OperandFits, PasteOperand;
    if body != [] && body[0].klass.HashHash? {
      OperandSpells(def, at, args, body[1]);
      var right := OperandText(def, ToArgs(args), body[1]);
      var joined := JoinedText(left, right);
      var r := Operand(def, at, args, body[1]);
      PasteSpells(env, at, l, left, r, right);
      var l1 := Paste(env, at, l, r).value;
      assert TextOf(joined) == TextOf(left) + TextOf(right);
      ChainIsSubstituted(env, def, at, args, l1, joined, body[2..]);
    }
  }

  /** Where a body fits, the code's text is the prescribed one. */
  lemma {:induction false} ReplaceIsSubstitute(env: Env, def: MacroDefinition, at: Token, args: seq<ItemArg>,
    body: seq<Token>)
    requires BodyFits(env, def, ToArgs(args), body) && ArgsNotBlocked(args)
    ensures Replace(env, def, at, args, body) == Some(Items(Substitute(env, def, at, ToArgs(args), body)))
    decreases |body|
  {
    hide Operand, OperandText, OperandFits, PasteOperand, PasteAll, PasteChain, ParamIndex, ChainFits;
    if body != [] {
      if |body| > 1 && body[1].klass.HashHash? {
        OperandSpells(def, at, args, body[0]);
        var l, left := Operand(def, at, args, body[0]), OperandText(def, ToArgs(args), body[0]);
        ChainIsSubstituted(env, def, at, args, l, left, body[1..]);
        var rest := BehindChain(body[1..]);
        ReplaceIsSubstitute(env, def, at, args, rest);
        var text := PasteChain(def, ToArgs(args), Some(TextOf(left)), body[1..]).0.value;
        var tok := Relocate(env.lex(text), at);
        ItemsAppend([tok], Substitute(env, def, at, ToArgs(args), rest));
        assert Items([tok]) == [Item(tok, false)];
      } else {
        ReplaceIsSubstitute(env, def, at, args, body[1..]);
        var rest := Substitute(env, def, at, ToArgs(args), body[1..]);
        var i := ParamOf(def, body[0]);
        if i.Some? && i.value < |args| {
          assert args[i.value] in args;
          ItemsAppend(Erase(args[i.value].replacement), rest);
        } else if i.None? {
          ItemsAppend([Relocate(body[0], at)], rest);
          assert Items([Relocate(body[0], at)]) == [Item(Relocate(body[0], at), false)];
        } else {
          assert [] + rest == rest && [] + Items(rest) == Items(rest);
        }
      }
    }
  }

  // ---------------------------------------------------------------------------------------
  // Where it does not
  // ---------------------------------------------------------------------------------------

  predicate NoEof(ts: seq<Token>) { forall t <- ts :: !t.klass.Eof? }

  predicate AllSpelled(ts: seq<Token>) { forall t <- ts :: t.text != "" }

  /** The tokenizer finds the end of the input in the empty text only. */
  ghost predicate LexesEnd(env: Env) { forall text :: env.lex(text).klass.Eof? <==> text == "" }

  predicate ArgsAreText(args: seq<ItemArg>) {
    forall a <- args :: NoEof(Erase(a.raw)) && AllSpelled(Erase(a.raw)) && NoEof(Erase(a.replacement))
  }

  /** No `#` stands directly in front of `##`. */
  predicate HashesApart(body: seq<Token>) {
    forall i :: 0 <= i < |body| - 1 && body[i].klass.Hash? ==> !body[i + 1].klass.HashHash?
  }

  predicate Solid(ts: seq<Item>) { NoEof(Erase(ts)) && AllSpelled(Erase(ts)) }

  /** What a chain of `##` is replaced by: the number of tokens, of which none is the end of the
      input; `fits` if every operand so far had at most one token. */
  predicate ChainState(l: seq<Item>, left: Option<string>, text: Option<string>, fits: bool) {
    && Solid(l)
    && (fits ==> |l| == (if left.Some? then 1 else 0) && text == Some(TextOf(left))
                 && (left.Some? ==> left.value != "" && l[0].tok.text == left.value))
    && (!fits ==> |l| > 1 && text.None?)
  }

  lemma OperandState(def: MacroDefinition, at: Token, args: seq<ItemArg>, tok: Token)
    requires ArgsAreText(args) && tok.text != "" && !tok.klass.Eof?
    ensures ChainState(Operand(def, at, args, tok), OperandText(def, ToArgs(args), tok),
      PasteOperand(def, ToArgs(args), tok), OperandFits(def, ToArgs(args), tok))
  {
    var i := ParamOf(def, tok);
    if i.Some? && i.value < |args| {
      assert args[i.value] in args;
    }
  }

  lemma SolidParts(a: seq<Item>, x: Item, b: seq<Item>)
    requires Solid(a) && Solid(b) && x.tok.text != "" && !x.tok.klass.Eof?
    ensures Solid(a + [x] + b)
  {
    var all := a + [x] + b;
    forall t <- Erase(all) ensures t.text != "" && !t.klass.Eof? {
      var i :| 0 <= i < |all| && Erase(all)[i] == t;
      if i < |a| {
        assert Erase(a)[i] == t;
      } else if i > |a| {
        assert Erase(b)[i - |a| - 1] == t;
      }
    }
  }

  lemma SolidPart(ts: seq<Item>, i: nat, j: nat)
    requires Solid(ts) && i <= j <= |ts|
    ensures Solid(ts[i..j])
    ensures i < |ts| ==> ts[i].tok.text != ""
  {
    forall t <- Erase(ts[i..j]) ensures t in Erase(ts) {
      var k :| 0 <= k < |ts[i..j]| && Erase(ts[i..j])[k] == t;
      assert Erase(ts)[i + k] == t;
    }
    if i < |ts| { assert Erase(ts)[i] in Erase(ts); }
  }

  function JoinedCode(a: Option<string>, b: Option<string>): Option<string> {
    if a.Some? && b.Some? then Some(a.value + b.value) else None
  }

  lemma PasteState(env: Env, at: Token, l: seq<Item>, lt: Option<string>, lc: Option<string>, lf: bool,
    r: seq<Item>, rt: Option<string>, rc: Option<string>, rf: bool)
    requires LexesEnd(env) && ChainState(l, lt, lc, lf) && ChainState(r, rt, rc, rf) && Paste(env, at, l, r).Some?
    ensures ChainState(Paste(env, at, l, r).value, JoinedText(lt, rt), JoinedCode(lc, rc), lf && rf)
    ensures lf && rf ==> IsOneToken(env, JoinedText(lt, rt))
  {
    assert Solid([]);
    hide Solid;
    if l != [] { SolidPart(l, |l| - 1, |l|); SolidPart(l, 0, |l| - 1); }
    if r != [] { SolidPart(r, 0, |r|); SolidPart(r, 1, |r|); }
    if l != [] || r != [] {
      var text := (if l == [] then "" else l[|l| - 1].tok.text) + (if r == [] then "" else r[0].tok.text);
      assert l == [] ==> text == r[0].tok.text;
      assert r == [] ==> text == l[|l| - 1].tok.text;
      var x := Paste(env, at, l, r).value[if l == [] then 0 else |l| - 1];
      assert x.tok == Relocate(env.lex(text), at) && x.tok.text == text != "";
      SolidParts(if l == [] then [] else l[..|l| - 1], x, if r == [] then [] else r[1..]);
    }
  }

  lemma {:induction false} ChainCompares(env: Env, def: MacroDefinition, at: Token, args: seq<ItemArg>,
    l: seq<Item>, left: Option<string>, text: Option<string>, fits: bool, body: seq<Token>)
    requires LexesEnd(env) && ArgsAreText(args) && NoEof(body) && AllSpelled(body)
    requires ChainState(l, left, text, fits) && PasteAll(env, def, at, args, l, body).Some?
    ensures var r, c := PasteAll(env, def, at, args, l, body).value.0, PasteChain(def, ToArgs(args), text, body).0;
            && Solid(r)
            && (c.None? ==> |r| > 1)
            && (c == Some("") ==> r == [])
            && (c.Some? && c.value != "" ==> |r| == 1 && fits && ChainFits(env, def, ToArgs(args), left, body))
    ensures PasteChain(def, ToArgs(args), text, body).1 == BehindChain(body)
    decreases |body|
  {
    hide Operand, OperandText, OperandFits, PasteOperand, Paste, Solid;
    if body != [] && body[0].klass.HashHash? {
      var tok := body[1];
      OperandState(def, at, args, tok);
      var r, rt := Operand(def, at, args, tok), OperandText(def, ToArgs(args), tok);
      var rc, rf := PasteOperand(def, ToArgs(args), tok), OperandFits(def, ToArgs(args), tok);
      PasteState(env, at, l, left, text, fits, r, rt, rc, rf);
      ChainCompares(env, def, at, args, Paste(env, at, l, r).value, JoinedText(left, rt), JoinedCode(text, rc),
        fits && rf, body[2..]);
    }
  }

  lemma HashesApartBehind(body: seq<Token>)
    requires body != [] && HashesApart(body)
    ensures HashesApart(body[1..])
    ensures body[0].klass.Hash? && |body| > 1 ==> !body[1].klass.HashHash?
  {
    forall i | 0 <= i < |body[1..]| - 1 && body[1..][i].klass.Hash? ensures !body[1..][i + 1].klass.HashHash? {
      assert body[i + 1].klass.Hash?;
    }
  }

  predicate IsText(body: seq<Token>) { NoEof(body) && AllSpelled(body) && HashesApart(body) }

  lemma TextBehind(body: seq<Token>)
    requires body != [] && IsText(body)
    ensures IsText(body[1..]) && body[0].text != "" && !body[0].klass.Eof?
    ensures body[0].klass.Hash? && |body| > 1 ==> !body[1].klass.HashHash?
  {
    HashesApartBehind(body);
    assert forall t <- body[1..] :: t in body;
  }

  lemma {:induction false} TextBehindChain(body: seq<Token>)
    requires IsText(body)
    ensures IsText(BehindChain(body))
    decreases |body|
  {
    if |body| > 1 && body[0].klass.HashHash? {
      TextBehind(body);
      TextBehind(body[1..]);
      assert body[1..][1..] == body[2..];
      TextBehindChain(body[2..]);
    }
  }

  /** If the code's text has no end-of-file token, it is no longer than the prescribed one, and only
      as long where the body fits. */
  predicate Compares(env: Env, def: MacroDefinition, args: seq<ItemArg>, body: seq<Token>, r: seq<Item>,
    s: seq<Token>)
  {
    && NoEof(Erase(r))
    && (NoEof(s) ==> |s| <= |r| && (|s| == |r| ==> BodyFits(env, def, ToArgs(args), body)))
  }

  lemma NoEofParts(a: seq<Token>, b: seq<Token>)
    ensures NoEof(a + b) <==> NoEof(a) && NoEof(b)
  {
    if NoEof(a + b) {
      forall t <- a ensures !t.klass.Eof? { assert t in a + b; }
      forall t <- b ensures !t.klass.Eof? { assert t in a + b; }
    }
  }

  lemma {:induction false} BodyCompares(env: Env, def: MacroDefinition, at: Token, args: seq<ItemArg>,
    body: seq<Token>)
    requires LexesEnd(env) && ArgsAreText(args) && IsText(body) && Replace(env, def, at, args, body).Some?
    ensures Compares(env, def, args, body, Replace(env, def, at, args, body).value,
      Substitute(env, def, at, ToArgs(args), body))
    decreases |body|
  {
    hide IsText, NoEof, ParamOf, Operand, OperandText, OperandFits, PasteOperand, PasteAll, PasteChain, ChainFits;
    if body == [] {
      assert NoEof([]) by { NoEofParts([], []); NothingIsNoEof(); }
    } else {
      TextBehind(body);
      if |body| > 1 && body[1].klass.HashHash? {
        ChainBodyCompares(env, def, at, args, body);
      } else if body[0].klass.Hash? && |body| > 2 && body[2].klass.Identifier? {
        DroppedCompares(env, def, at, args, body);
      } else {
        PlainCompares(env, def, at, args, body);
      }
    }
  }

  lemma NothingIsNoEof()
    ensures NoEof([])
  {
  }

  lemma {:induction false} PlainCompares(env: Env, def: MacroDefinition, at: Token, args: seq<ItemArg>,
    body: seq<Token>)
    requires LexesEnd(env) && ArgsAreText(args) && IsText(body) && Replace(env, def, at, args, body).Some?
    requires body != [] && !(|body| > 1 && body[1].klass.HashHash?)
    requires !(body[0].klass.Hash? && |body| > 2 && body[2].klass.Identifier?)
    ensures Compares(env, def, args, body, Replace(env, def, at, args, body).value,
      Substitute(env, def, at, ToArgs(args), body))
    decreases |body|, 0
  {
    TextBehind(body);
    hide IsText, NoEof, Operand, OperandText, OperandFits, PasteOperand, PasteAll, PasteChain, ChainFits;
    BodyCompares(env, def, at, args, body[1..]);
    var r, s := Replace(env, def, at, args, body[1..]).value, Substitute(env, def, at, ToArgs(args), body[1..]);
    var here := HereOf(def, at, args, body[0]);
    HereIsText(def, at, args, body[0]);
    EraseAppend(here, r);
    NoEofParts(Erase(here), Erase(r));
    NoEofParts(Erase(here), s);
  }

  /** What a token is replaced by that is no operand of `##`. */
  function HereOf(def: MacroDefinition, at: Token, args: seq<ItemArg>, tok: Token): seq<Item> {
    match ParamOf(def, tok)
    case Some(i) => if i < |args| then args[i].replacement else []
    case None => [Item(Relocate(tok, at), false)]
  }

  lemma HereIsText(def: MacroDefinition, at: Token, args: seq<ItemArg>, tok: Token)
    requires ArgsAreText(args) && !tok.klass.Eof?
    ensures NoEof(Erase(HereOf(def, at, args, tok)))
  {
    var i := ParamOf(def, tok);
    if i.Some? && i.value < |args| { assert args[i.value] in args; }
  }

  lemma {:induction false} DroppedCompares(env: Env, def: MacroDefinition, at: Token, args: seq<ItemArg>,
    body: seq<Token>)
    requires LexesEnd(env) && ArgsAreText(args) && IsText(body) && Replace(env, def, at, args, body).Some?
    requires |body| > 2 && body[0].klass.Hash? && body[2].klass.Identifier? && !body[1].klass.HashHash?
    ensures Compares(env, def, args, body, Replace(env, def, at, args, body).value,
      Substitute(env, def, at, ToArgs(args), body))
    decreases |body|, 0
  {
    TextBehind(body);
    TextBehind(body[1..]);
    hide IsText, NoEof, Operand, OperandText, OperandFits, PasteOperand, PasteAll, PasteChain, ChainFits;
    assert body[1..][1..] == body[2..];
    assert body[1..][0] == body[1] && body[1..][1] == body[2];
    BodyCompares(env, def, at, args, body[2..]);
    var r := Replace(env, def, at, args, body[2..]).value;
    var h0, h1 := HereOf(def, at, args, body[0]), HereOf(def, at, args, body[1]);
    HereIsText(def, at, args, body[0]);
    HereIsText(def, at, args, body[1]);
    assert Replace(env, def, at, args, body[1..]) == Some(h1 + r);
    assert Replace(env, def, at, args, body) == Some(h0 + (h1 + r));
    EraseAppend(h1, r);
    EraseAppend(h0, h1 + r);
    NoEofParts(Erase(h1), Erase(r));
    NoEofParts(Erase(h0), Erase(h1 + r));
  }

  lemma {:induction false} ChainBodyCompares(env: Env, def: MacroDefinition, at: Token, args: seq<ItemArg>,
    body: seq<Token>)
    requires LexesEnd(env) && ArgsAreText(args) && IsText(body) && Replace(env, def, at, args, body).Some?
    requires |body| > 1 && body[1].klass.HashHash?
    ensures Compares(env, def, args, body, Replace(env, def, at, args, body).value,
      Substitute(env, def, at, ToArgs(args), body))
    decreases |body|, 0
  {
    TextBehind(body);
    TextBehindChain(body[1..]);
    OperandState(def, at, args, body[0]);
    assert NoEof(body[1..]) && AllSpelled(body[1..]);
    hide IsText, Operand, OperandText, OperandFits, PasteOperand, PasteAll, PasteChain, ChainFits;
    var l, left := Operand(def, at, args, body[0]), OperandText(def, ToArgs(args), body[0]);
    var text, fits := PasteOperand(def, ToArgs(args), body[0]), OperandFits(def, ToArgs(args), body[0]);
    ChainCompares(env, def, at, args, l, left, text, fits, body[1..]);
    hide NoEof;
    var rest := BehindChain(body[1..]);
    BodyCompares(env, def, at, args, rest);
    var r, s := Replace(env, def, at, args, rest).value, Substitute(env, def, at, ToArgs(args), rest);
    var p, c := PasteAll(env, def, at, args, l, body[1..]).value.0, PasteChain(def, ToArgs(args), text, body[1..]).0;
    EraseAppend(p, r);
    NoEofParts(Erase(p), Erase(r));
    if c.Some? {
      var tok := Relocate(env.lex(c.value), at);
      NoEofParts([tok], s);
      EofAlone(tok);
    }
  }

  lemma EofAlone(tok: Token)
    ensures NoEof([tok]) <==> !tok.klass.Eof?
  {
    assert tok in [tok];
  }

  /** A body that has a meaning is replaced as prescribed exactly if it fits. */
  lemma {:induction false} ReplacementIsPrescribedIff(env: Env, def: MacroDefinition, at: Token, args: seq<ItemArg>)
    requires LexesEnd(env) && ArgsAreText(args) && ArgsNotBlocked(args) && IsText(def.body)
    requires PrescribedText(env, def, at, args).Some?
    ensures Erase(PrescribedText(env, def, at, args).value) == Substitute(env, def, at, ToArgs(args), def.body)
            <==> Fits(env, def, ToArgs(args))
  {
    hide Replace, Substitute, BodyFits, NoEof, IsText;
    BodyCompares(env, def, at, args, def.body);
    if Fits(env, def, ToArgs(args)) {
      ReplaceIsSubstitute(env, def, at, args, def.body);
      EraseItems(Substitute(env, def, at, ToArgs(args), def.body));
    }
  }
}
