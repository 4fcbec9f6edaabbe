/** The state machine seen line by line: what a whole line does, and that feeding its tokens one at a
    time comes to the same. */
module ConditionalLines {
  import opened Tokens
  import opened Conditionals

  /** The tokens of one line of the source. */
  predicate IsLine(line: seq<Token>) {
    && line != [] && line[0].isFirstTokenOfLine
    && (forall t <- line :: !t.klass.Eof?)
    && (forall i :: 0 < i < |line| ==> !line[i].isFirstTokenOfLine)
  }

  /** What the machine knows once the directive it collects, if any, has been handled. */
  function Settled<E>(host: Host<E>, m: Machine<E>): Conds<E> {
    if Expecting(m.state) then DispatchDirective(host, m.conds, m.directive) else m.conds
  }

  function FeedText<E>(host: Host<E>, env: E, toks: seq<Token>): E {
    if toks == [] then env else FeedText(host, host.feed(env, toks[0]), toks[1..])
  }

  /** A whole line at once. */
  function StepLine<E>(host: Host<E>, c: Conds<E>, line: seq<Token>): Conds<E> {
    if line == [] then c
    else if line[0].klass.Hash? then
      if |line| > 1 && (Active(c.stack) || IsConditional(DirectiveOf(line[1].text))) then
        DispatchDirective(host, c, line)
      else c
    else if Active(c.stack) then c.(env := FeedText(host, c.env, line))
    else c
  }

  lemma {:induction false} FeedAllAppend<E>(host: Host<E>, m: Machine<E>, a: seq<Token>, b: seq<Token>)
    requires Sound(m) && !m.state.Halt?
    requires (forall t <- a :: !t.klass.Eof?) && (forall t <- b :: !t.klass.Eof?)
    ensures forall t <- a + b :: !t.klass.Eof?
    ensures FeedAll(host, m, a + b) == FeedAll(host, FeedAll(host, m, a), b)
    decreases |a|
  {
    hide Dispatch;
    if a == [] {
      assert a + b == b;
    } else {
      FeedAllAppend(host, FeedPPToken(host, m, a[0]), a[1..], b);
      assert (a + b)[1..] == a[1..] + b;
    }
  }

  lemma {:induction false} RestOfText<E>(host: Host<E>, m: Machine<E>, toks: seq<Token>)
    requires Sound(m) && (m.state.Default? || m.state.Inactive?)
    requires forall t <- toks :: !t.klass.Eof? && !t.isFirstTokenOfLine
    ensures FeedAll(host, m, toks)
         == if m.state.Default? then m.(conds := m.conds.(env := FeedText(host, m.conds.env, toks))) else m
    decreases |toks|
  {
    if toks != [] {
      RestOfText(host, FeedPPToken(host, m, toks[0]), toks[1..]);
    }
  }

  lemma {:induction false} RestOfDirective<E>(host: Host<E>, m: Machine<E>, toks: seq<Token>)
    requires Sound(m) && (m.state.ExpectDefaultDirectiveTail? || m.state.ExpectIncludeDirectiveTail?)
    requires forall t <- toks :: !t.klass.Eof? && !t.isFirstTokenOfLine
    ensures FeedAll(host, m, toks) == m.(directive := m.directive + toks)
    decreases |toks|
  {
    if toks == [] {
      assert m.directive + toks == m.directive;
    } else {
      RestOfDirective(host, FeedPPToken(host, m, toks[0]), toks[1..]);
      assert m.directive + [toks[0]] + toks[1..] == m.directive + toks;
    }
  }

  /** A token that starts a line meets the machine behind the directive that ends there. */
  lemma {:induction false} DispatchStart<E>(host: Host<E>, m: Machine<E>, tok: Token)
    requires Sound(m) && !m.state.Halt? && StartsLine(tok)
    ensures var c := Settled(host, m);
            var r := Dispatch(host, m, tok);
            if tok.klass.Eof? then r.conds == c && r.state == if Active(c.stack) then Default else Inactive
            else if tok.klass.Hash? then r == Machine(ExpectDirective, [tok], c)
            else if Active(c.stack) then r.state.Default? && r.conds == c.(env := host.feed(c.env, tok))
            else r.state.Inactive? && r.conds == c
  {
    hide DispatchDirective;
    var c := Settled(host, m);
    if Expecting(m.state) {
      var next := m.(conds := c, state := if Active(c.stack) then Default else Inactive);
      assert Dispatch(host, m, tok) == Dispatch(host, next, tok);
    }
  }

  /** Token by token or line by line: the same conditionals and the same state of the host. */
  lemma {:induction false} FeedLine<E>(host: Host<E>, m: Machine<E>, line: seq<Token>)
    requires Sound(m) && !m.state.Halt? && IsLine(line)
    ensures Settled(host, FeedAll(host, m, line)) == StepLine(host, Settled(host, m), line)
  {
    hide DirectiveOf, HandleIf, HandleIfdef, HandleElif, HandleElse, HandleEndif;
    DispatchStart(host, m, line[0]);
    var m1 := FeedPPToken(host, m, line[0]);
    assert FeedAll(host, m, line) == FeedAll(host, m1, line[1..]);
    if line[0].klass.Hash? {
      assert m1.state.ExpectDirective? && m1.directive == [line[0]] && m1.conds == Settled(host, m);
      if |line| > 1 {
        var m2 := FeedPPToken(host, m1, line[1]);
        assert FeedAll(host, m1, line[1..]) == FeedAll(host, m2, line[1..][1..]);
        assert line[1..][1..] == line[2..];
        assert m2.directive == [line[0], line[1]];
        assert [line[0], line[1]] + line[2..] == line;
        if m2.state.Inactive? {
          RestOfText(host, m2, line[2..]);
        } else {
          RestOfDirective(host, m2, line[2..]);
        }
      }
    } else {
      RestOfText(host, m1, line[1..]);
    }
  }
}
