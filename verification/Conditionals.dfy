/** Conditional compilation: the stack of conditionals with its skip counter, and the state machine
    that collects directives token by token.

    What a line of text, a condition or another directive does is left to a `Host`, so everything
    here holds whatever macros are defined or expanded on the way. */
module Conditionals {
  import opened Tokens

  datatype Host<!E> = Host(
    evaluate: (E, seq<Token>) -> bool,
    isDefined: (E, string) -> bool,
    execute: (E, seq<Token>) -> E,
    feed: (E, Token) -> E,
    finish: E -> E,
    output: (E, Token) -> E)

  datatype Directive = If | Ifdef | Ifndef | Elif | Else | Endif | Include | Other

  function DirectiveOf(text: string): Directive {
    if text == "if" then If
    else if text == "ifdef" then Ifdef
    else if text == "ifndef" then Ifndef
    else if text == "elif" then Elif
    else if text == "else" then Else
    else if text == "endif" then Endif
    else if text == "include" then Include
    else Other
  }

  predicate IsConditional(d: Directive) { !d.Include? && !d.Other? }

  // ---------------------------------------------------------------------------------------
  // The stack of conditionals
  // ---------------------------------------------------------------------------------------

  datatype Entry = Entry(active: bool, seenActiveBranch: bool, seenElse: bool)

  /** The conditionals around the current line, the number of conditionals opened in an inactive
      region, and the state of the host. */
  datatype Conds<E> = Conds(stack: seq<Entry>, skipped: nat, env: E)

  predicate Active(stack: seq<Entry>) { stack == [] || stack[|stack| - 1].active }

  function Top<E>(c: Conds<E>): Entry
    requires c.stack != []
  {
    c.stack[|c.stack| - 1]
  }

  function SetTop<E>(c: Conds<E>, e: Entry): Conds<E>
    requires c.stack != []
  {
    c.(stack := c.stack[|c.stack| - 1 := e])
  }

  function Open<E>(c: Conds<E>, active: bool): Conds<E> { c.(stack := c.stack + [Entry(active, active, false)]) }

  function HandleIf<E>(host: Host<E>, c: Conds<E>, args: seq<Token>): Conds<E> {
    if !Active(c.stack) then c.(skipped := c.skipped + 1) else Open(c, host.evaluate(c.env, args))
  }

  function HandleIfdef<E>(host: Host<E>, c: Conds<E>, args: seq<Token>, isNDef: bool): Conds<E> {
    if !Active(c.stack) then c.(skipped := c.skipped + 1)
    else if args == [] || !args[0].klass.Identifier? then c
    else Open(c, host.isDefined(c.env, args[0].text) != isNDef)
  }

  function HandleElif<E>(host: Host<E>, c: Conds<E>, args: seq<Token>): Conds<E> {
    if c.skipped > 0 || c.stack == [] || Top(c).seenElse then c
    else
      var active := !Top(c).seenActiveBranch && host.evaluate(c.env, args);
      SetTop(c, Entry(active, active, false))
  }

  function HandleElse<E>(c: Conds<E>): Conds<E> {
    if c.skipped > 0 || c.stack == [] || Top(c).seenElse then c
    else SetTop(c, Entry(!Top(c).seenActiveBranch, true, true))
  }

  function HandleEndif<E>(c: Conds<E>): Conds<E> {
    if c.skipped > 0 then c.(skipped := c.skipped - 1)
    else if c.stack == [] then c
    else c.(stack := c.stack[..|c.stack| - 1])
  }

  /** Process a directive: the `#`, and the tokens behind it on its line. */
  function DispatchDirective<E>(host: Host<E>, c: Conds<E>, directive: seq<Token>): Conds<E> {
    if |directive| <= 1 then c
    else
      match DirectiveOf(directive[1].text)
      case If => HandleIf(host, c, directive[2..])
      case Ifdef => HandleIfdef(host, c, directive[2..], false)
      case Ifndef => HandleIfdef(host, c, directive[2..], true)
      case Elif => HandleElif(host, c, directive[2..])
      case Else => HandleElse(c)
      case Endif => HandleEndif(c)
      case Include => c.(env := host.execute(c.env, directive[1..]))
      case Other => c.(env := host.execute(c.env, directive[1..]))
  }

  // ---------------------------------------------------------------------------------------
  // The state machine
  // ---------------------------------------------------------------------------------------

  datatype PPState =
    | Default | Halt | Inactive | ExpectDirective | ExpectDefaultDirectiveTail | ExpectIncludeDirectiveTail

  datatype Machine<E> = Machine(state: PPState, directive: seq<Token>, conds: Conds<E>)

  predicate Expecting(s: PPState) {
    s.ExpectDirective? || s.ExpectDefaultDirectiveTail? || s.ExpectIncludeDirectiveTail?
  }

  /** What holds of the machine between two tokens: it rests in the inactive state exactly if the
      innermost conditional is inactive, and a directive is collected only if it will be handled. */
  predicate Sound<E>(m: Machine<E>) {
    match m.state
    case Default => Active(m.conds.stack)
    case Halt => true
    case Inactive => !Active(m.conds.stack)
    case ExpectDirective => |m.directive| == 1
    case ExpectDefaultDirectiveTail =>
      && |m.directive| > 1 && !DirectiveOf(m.directive[1].text).Include?
      && (Active(m.conds.stack) || IsConditional(DirectiveOf(m.directive[1].text)))
    case ExpectIncludeDirectiveTail =>
      |m.directive| > 1 && DirectiveOf(m.directive[1].text).Include? && Active(m.conds.stack)
  }

  predicate StartsLine(tok: Token) { tok.klass.Eof? || tok.isFirstTokenOfLine }

  function TransitionToDefault<E>(host: Host<E>, m: Machine<E>, redirected: Token): (r: Machine<E>)
    requires Expecting(m.state) && Active(m.conds.stack)
    ensures Sound(r) && !r.state.Halt?
    decreases 1
  {
    Dispatch(host, m.(state := Default), redirected)
  }

  function TransitionToInactive<E>(host: Host<E>, m: Machine<E>, redirected: Token): (r: Machine<E>)
    requires m.state.ExpectDirective? || m.state.ExpectDefaultDirectiveTail?
    requires !Active(m.conds.stack)
    ensures Sound(r) && !r.state.Halt?
    decreases 1
  {
    Dispatch(host, m.(state := Inactive), redirected)
  }

  function TransitionToExpectDirective<E>(m: Machine<E>, hash: Token): (r: Machine<E>)
    requires m.state.Default? || m.state.Inactive?
    requires hash.klass.Hash? && hash.isFirstTokenOfLine
    ensures Sound(r)
  {
    m.(state := ExpectDirective, directive := [hash])
  }

  /** Hand a token to the handler of the current state.  A token that ends a directive is dispatched
      once more, in the state behind the directive. */
  function Dispatch<E>(host: Host<E>, m: Machine<E>, tok: Token): (r: Machine<E>)
    requires Sound(m) && !m.state.Halt?
    ensures Sound(r) && !r.state.Halt?
    decreases if Expecting(m.state) then 2 else 0
  {
    if m.state.Default? then
      if tok.klass.Eof? then m
      else if tok.klass.Hash? && tok.isFirstTokenOfLine then TransitionToExpectDirective(m, tok)
      else m.(conds := m.conds.(env := host.feed(m.conds.env, tok)))
    else if m.state.Inactive? then
      if tok.klass.Hash? && tok.isFirstTokenOfLine then TransitionToExpectDirective(m, tok) else m
    else if StartsLine(tok) then
      var handled := m.(conds := DispatchDirective(host, m.conds, m.directive));
      if Active(handled.conds.stack) then TransitionToDefault(host, handled, tok)
      else TransitionToInactive(host, handled, tok)
    else CollectDirective(m, tok)
  }

  /** A directive goes on.  In an inactive region all but the conditional ones are dropped. */
  function CollectDirective<E>(m: Machine<E>, tok: Token): (r: Machine<E>)
    requires Sound(m) && Expecting(m.state)
    ensures Sound(r) && !r.state.Halt?
  {
    var collected := m.(directive := m.directive + [tok]);
    if !m.state.ExpectDirective? then collected
    else if Active(m.conds.stack) then
      if DirectiveOf(tok.text).Include? then collected.(state := ExpectIncludeDirectiveTail)
      else collected.(state := ExpectDefaultDirectiveTail)
    else if IsConditional(DirectiveOf(tok.text)) then collected.(state := ExpectDefaultDirectiveTail)
    else collected.(state := Inactive)
  }

  /** One token from the tokenizer.  The end of the main file finalizes macro expansion, puts out the
      end-of-file token and halts. */
  function FeedPPToken<E>(host: Host<E>, m: Machine<E>, tok: Token): (r: Machine<E>)
    requires Sound(m) && !m.state.Halt?
    ensures Sound(r) && (r.state.Halt? <==> tok.klass.Eof?)
  {
    var next := Dispatch(host, m, tok);
    if tok.klass.Eof? then
      next.(state := Halt, conds := next.conds.(env := host.output(host.finish(next.conds.env), tok)))
    else next
  }

  /** All tokens of a file before its end. */
  function FeedAll<E>(host: Host<E>, m: Machine<E>, toks: seq<Token>): (r: Machine<E>)
    requires Sound(m) && !m.state.Halt?
    requires forall t <- toks :: !t.klass.Eof?
    ensures Sound(r) && !r.state.Halt?
    decreases |toks|
  {
    if toks == [] then m else FeedAll(host, FeedPPToken(host, m, toks[0]), toks[1..])
  }
}
