/** Conditional compilation as nested groups: the stack and the skip counter compute the meaning of
    the nesting structure, and how that compares with what the language prescribes. */
module ConditionalGroups {
  import opened Tokens
  import opened Conditionals
  import opened ConditionalLines

  // ---------------------------------------------------------------------------------------
  // Runs over lines and their invariant
  // ---------------------------------------------------------------------------------------

  function RunLines<E>(host: Host<E>, c: Conds<E>, lines: seq<seq<Token>>): Conds<E>
    decreases |lines|
  {
    if lines == [] then c else RunLines(host, StepLine(host, c, lines[0]), lines[1..])
  }

  /** Only the innermost conditional can be inactive; conditionals are skipped only inside it; and
      what an entry remembers fits its activity. */
  predicate Invariant<E>(c: Conds<E>) {
    && (forall i :: 0 <= i < |c.stack| - 1 ==> c.stack[i].active)
    && (c.skipped > 0 ==> !Active(c.stack))
    && (forall e <- c.stack :: EntryInvariant(e))
  }

  predicate EntryInvariant(e: Entry) {
    && (e.active ==> e.seenActiveBranch)
    && (e.seenElse ==> e.seenActiveBranch)
    && (!e.seenElse ==> e.seenActiveBranch == e.active)
  }

  lemma DirectiveKeepsInvariant<E>(host: Host<E>, c: Conds<E>, directive: seq<Token>)
    requires Invariant(c)
    ensures Invariant(DispatchDirective(host, c, directive))
  {
    hide DirectiveOf;
  }

  /** On every run over any lines, balanced or not. */
  lemma {:induction false} RunKeepsInvariant<E>(host: Host<E>, c: Conds<E>, lines: seq<seq<Token>>)
    requires Invariant(c)
    ensures Invariant(RunLines(host, c, lines))
    decreases |lines|
  {
    hide DirectiveOf, DispatchDirective;
    if lines != [] {
      DirectiveKeepsInvariant(host, c, lines[0]);
      RunKeepsInvariant(host, StepLine(host, c, lines[0]), lines[1..]);
    }
  }

  // ---------------------------------------------------------------------------------------
  // The words of the directives
  // ---------------------------------------------------------------------------------------

  predicate IsDirective(line: seq<Token>) { |line| > 1 && line[0].klass.Hash? }

  predicate IsWord(line: seq<Token>, word: string) { IsDirective(line) && line[1].text == word }

  predicate Opens(line: seq<Token>) { IsWord(line, "if") || IsWord(line, "ifdef") || IsWord(line, "ifndef") }

  predicate Continues(line: seq<Token>) { IsWord(line, "elif") || IsWord(line, "else") }

  predicate Closes(line: seq<Token>) { IsWord(line, "endif") }

  /** `#ifdef` and `#ifndef` name a macro. */
  predicate NamesItsMacro(line: seq<Token>) {
    IsWord(line, "ifdef") || IsWord(line, "ifndef") ==> |line| > 2 && line[2].klass.Identifier?
  }

  /** The machine reads the words as they are spelled. */
  lemma WordsOf(line: seq<Token>)
    ensures IsWord(line, "if") <==> IsDirective(line) && DirectiveOf(line[1].text).If?
    ensures IsWord(line, "ifdef") <==> IsDirective(line) && DirectiveOf(line[1].text).Ifdef?
    ensures IsWord(line, "ifndef") <==> IsDirective(line) && DirectiveOf(line[1].text).Ifndef?
    ensures IsWord(line, "elif") <==> IsDirective(line) && DirectiveOf(line[1].text).Elif?
    ensures IsWord(line, "else") <==> IsDirective(line) && DirectiveOf(line[1].text).Else?
    ensures IsWord(line, "endif") <==> IsDirective(line) && DirectiveOf(line[1].text).Endif?
    ensures IsWord(line, "include") <==> IsDirective(line) && DirectiveOf(line[1].text).Include?
  {
  }

  /** No two adjacent branches of a group are both active. */
  lemma NextBranchIsInactive<E>(host: Host<E>, c: Conds<E>, directive: seq<Token>)
    requires Invariant(c) && c.stack != [] && Active(c.stack) && !Top(c).seenElse && Continues(directive)
    ensures !Active(DispatchDirective(host, c, directive).stack)
  {
    hide DirectiveOf, IsWord;
    WordsOf(directive);
    assert EntryInvariant(Top(c));
  }

  // ---------------------------------------------------------------------------------------
  // Nesting depth
  // ---------------------------------------------------------------------------------------

  /** The nesting depth behind some lines; an `#endif` too many does not count. */
  function DepthAfter(depth: nat, lines: seq<seq<Token>>): nat
    decreases |lines|
  {
    if lines == [] then depth else DepthAfter(DepthBehind(depth, lines[0]), lines[1..])
  }

  function DepthOf<E>(c: Conds<E>): nat { |c.stack| + c.skipped }

  function DepthBehind(depth: nat, line: seq<Token>): nat {
    if Opens(line) then depth + 1 else if Closes(line) && depth > 0 then depth - 1 else depth
  }

  lemma StepCountsDepth<E>(host: Host<E>, c: Conds<E>, line: seq<Token>)
    ensures DepthOf(StepLine(host, c, line)) == DepthBehind(DepthOf(c), line)
            <==> NamesItsMacro(line) || !Active(c.stack)
  {
    hide DirectiveOf, FeedText, IsWord;
    WordsOf(line);
  }

  /** Behind each of the first `n` lines, the stack and the counter of skipped conditionals together
      are the nesting depth. */
  predicate CountsDepth<E>(host: Host<E>, c: Conds<E>, lines: seq<seq<Token>>, n: nat)
    requires n <= |lines|
  {
    forall k :: 0 <= k <= n ==> DepthOf(RunLines(host, c, lines[..k])) == DepthAfter(DepthOf(c), lines[..k])
  }

  /** An `#ifdef` or `#ifndef` without a name opens nothing, but only where it is processed. */
  predicate MissesNoName<E>(host: Host<E>, c: Conds<E>, lines: seq<seq<Token>>, n: nat)
    requires n <= |lines|
  {
    forall k :: 0 <= k < n ==> NamesItsMacro(lines[k]) || !Active(RunLines(host, c, lines[..k]).stack)
  }

  lemma {:induction false} DepthAfterSnoc(depth: nat, lines: seq<seq<Token>>, line: seq<Token>)
    ensures DepthAfter(depth, lines + [line]) == DepthBehind(DepthAfter(depth, lines), line)
    decreases |lines|
  {
    hide DepthBehind;
    if lines == [] {
      assert lines + [line] == [line] && [line][1..] == [];
    } else {
      DepthAfterSnoc(DepthBehind(depth, lines[0]), lines[1..], line);
      assert (lines + [line])[1..] == lines[1..] + [line];
    }
  }

  /** All along a run, the stack and the counter of skipped conditionals together measure the nesting
      depth, exactly if no `#ifdef` or `#ifndef` without a name is met in an active region. */
  lemma {:induction false} StackAndSkippedAreTheDepthIff<E>(host: Host<E>, c: Conds<E>, lines: seq<seq<Token>>, n: nat)
    requires n <= |lines|
    ensures CountsDepth(host, c, lines, n) <==> MissesNoName(host, c, lines, n)
    decreases n
  {
    hide DirectiveOf, StepLine, DepthBehind, NamesItsMacro, DepthOf, RunLines, DepthAfter;
    if n == 0 {
      assert lines[..0] == [];
      assert CountsDepth(host, c, lines, 0) by { RunNothing(host, c); }
    } else {
      var before, line := lines[..n - 1], lines[n - 1];
      StackAndSkippedAreTheDepthIff(host, c, lines, n - 1);
      assert lines[..n] == before + [line];
      RunLinesAppend(host, c, before, [line]);
      RunOne(host, RunLines(host, c, before), line);
      DepthAfterSnoc(DepthOf(c), before, line);
      StepCountsDepth(host, RunLines(host, c, before), line);
      assert CountsDepth(host, c, lines, n) <==>
        CountsDepth(host, c, lines, n - 1)
        && DepthOf(RunLines(host, c, lines[..n])) == DepthAfter(DepthOf(c), lines[..n]);
    }
  }

  lemma RunNothing<E>(host: Host<E>, c: Conds<E>)
    ensures RunLines(host, c, []) == c && DepthAfter(DepthOf(c), []) == DepthOf(c)
  {
  }

  // ---------------------------------------------------------------------------------------
  // Nested groups
  // ---------------------------------------------------------------------------------------

  /** A balanced text: lines, and groups from `#if` to `#endif` with any `#elif` and `#else`
      in between, even behind an `#else`. */
  datatype Text =
    | Nothing
    | Line(line: seq<Token>, rest: Text)
    | Group(head: seq<Token>, body: Text, tail: Tail, rest: Text)

  datatype Tail = EndGroup(endif: seq<Token>) | Branch(directive: seq<Token>, body: Text, rest: Tail)

  predicate WellFormed(t: Text) {
    match t
    case Nothing => true
    case Line(line, rest) =>
      && IsLine(line) && !Opens(line) && !Continues(line) && !Closes(line)
      && WellFormed(rest)
    case Group(head, body, tail, rest) =>
      && IsLine(head) && Opens(head) && NamesItsMacro(head)
      && WellFormed(body) && WellFormedTail(tail) && WellFormed(rest)
  }

  predicate WellFormedTail(t: Tail) {
    match t
    case EndGroup(endif) => IsLine(endif) && Closes(endif)
    case Branch(d, body, rest) =>
      && IsLine(d) && Continues(d)
      && WellFormed(body) && WellFormedTail(rest)
  }

  function Lines(t: Text): (r: seq<seq<Token>>)
    requires WellFormed(t)
    ensures forall l <- r :: IsLine(l)
  {
    match t
    case Nothing => []
    case Line(line, rest) => [line] + Lines(rest)
    case Group(head, body, tail, rest) => [head] + Lines(body) + TailLines(tail) + Lines(rest)
  }

  function TailLines(t: Tail): (r: seq<seq<Token>>)
    requires WellFormedTail(t)
    ensures forall l <- r :: IsLine(l)
  {
    match t
    case EndGroup(endif) => [endif]
    case Branch(d, body, rest) => [d] + Lines(body) + TailLines(rest)
  }

  /** The condition of `#if`, `#ifdef` or `#ifndef`. */
  function HeadCondition<E>(host: Host<E>, env: E, head: seq<Token>): bool
    requires Opens(head) && NamesItsMacro(head)
  {
    if IsWord(head, "ifdef") then host.isDefined(env, head[2].text)
    else if IsWord(head, "ifndef") then !host.isDefined(env, head[2].text)
    else host.evaluate(env, head[2..])
  }

  /** What a line that is processed does. */
  function ProcessLine<E>(host: Host<E>, env: E, line: seq<Token>): E
    requires line != []
  {
    if line[0].klass.Hash? then if |line| > 1 then host.execute(env, line[1..]) else env
    else FeedText(host, env, line)
  }

  /** The next branch of a group, as the code selects it: an `#elif` remembers only itself. */
  function NextBranch<E>(host: Host<E>, env: E, e: Entry, directive: seq<Token>): Entry
    requires IsDirective(directive)
  {
    if e.seenElse then e
    else if IsWord(directive, "elif") then
      var active := !e.seenActiveBranch && host.evaluate(env, directive[2..]);
      Entry(active, active, false)
    else Entry(!e.seenActiveBranch, true, true)
  }

  /** The meaning of nested groups: a line is processed exactly if every group around it has selected
      the branch that the line is in. */
  function Meaning<E>(host: Host<E>, env: E, t: Text): E
    requires WellFormed(t)
    decreases t
  {
    match t
    case Nothing => env
    case Line(line, rest) => Meaning(host, ProcessLine(host, env, line), rest)
    case Group(head, body, tail, rest) =>
      var active := HeadCondition(host, env, head);
      var env1 := if active then Meaning(host, env, body) else env;
      Meaning(host, TailMeaning(host, env1, Entry(active, active, false), tail), rest)
  }

  function TailMeaning<E>(host: Host<E>, env: E, e: Entry, t: Tail): E
    requires WellFormedTail(t)
    decreases t
  {
    match t
    case EndGroup(_) => env
    case Branch(d, body, rest) =>
      var e1 := NextBranch(host, env, e, d);
      TailMeaning(host, if e1.active then Meaning(host, env, body) else env, e1, rest)
  }

  lemma {:induction false} RunLinesAppend<E>(host: Host<E>, c: Conds<E>, a: seq<seq<Token>>, b: seq<seq<Token>>)
    ensures RunLines(host, c, a + b) == RunLines(host, RunLines(host, c, a), b)
    decreases |a|
  {
    hide StepLine;
    if a == [] {
      assert a + b == b;
    } else {
      RunLinesAppend(host, StepLine(host, c, a[0]), a[1..], b);
      assert (a + b)[1..] == a[1..] + b;
    }
  }

  lemma RunOne<E>(host: Host<E>, c: Conds<E>, line: seq<Token>)
    ensures RunLines(host, c, [line]) == StepLine(host, c, line)
  {
    assert RunLines(host, StepLine(host, c, line), []) == StepLine(host, c, line);
  }

  /** Running a group: the head, the body, the other branches, then what follows. */
  lemma RunGroup<E>(host: Host<E>, c: Conds<E>, head: seq<Token>, body: seq<seq<Token>>, tail: seq<seq<Token>>,
    rest: seq<seq<Token>>)
    ensures RunLines(host, c, [head] + body + tail + rest)
         == RunLines(host, RunLines(host, RunLines(host, StepLine(host, c, head), body), tail), rest)
  {
    hide StepLine, RunLines;
    RunOne(host, c, head);
    RunLinesAppend(host, c, [head], body);
    RunLinesAppend(host, c, [head] + body, tail);
    RunLinesAppend(host, c, [head] + body + tail, rest);
  }

  /** In an inactive region a balanced text changes nothing, not even the conditionals. */
  lemma {:induction false} InactiveTextIsSkipped<E>(host: Host<E>, c: Conds<E>, t: Text)
    requires WellFormed(t) && !Active(c.stack)
    ensures RunLines(host, c, Lines(t)) == c
    decreases t
  {
    hide DirectiveOf, FeedText, IsWord;
    match t
    case Nothing =>
    case Line(line, rest) =>
      WordsOf(line);
      RunOne(host, c, line);
      RunLinesAppend(host, c, [line], Lines(rest));
      InactiveTextIsSkipped(host, c, rest);
    case Group(head, body, tail, rest) =>
      WordsOf(head);
      RunGroup(host, c, head, Lines(body), TailLines(tail), Lines(rest));
      var c1 := c.(skipped := c.skipped + 1);
      assert StepLine(host, c, head) == c1;
      InactiveTextIsSkipped(host, c1, body);
      SkippedTail(host, c1, tail);
      InactiveTextIsSkipped(host, c, rest);
  }

  lemma {:induction false} SkippedTail<E>(host: Host<E>, c: Conds<E>, t: Tail)
    requires WellFormedTail(t) && !Active(c.stack) && c.skipped > 0
    ensures RunLines(host, c, TailLines(t)) == c.(skipped := c.skipped - 1)
    decreases t
  {
    hide DirectiveOf, FeedText, IsWord;
    match t
    case EndGroup(endif) => RunOne(host, c, endif); WordsOf(endif);
    case Branch(d, body, rest) =>
      WordsOf(d);
      RunGroup(host, c, d, Lines(body), TailLines(rest), []);
      assert [d] + Lines(body) + TailLines(rest) + [] == TailLines(t);
      InactiveTextIsSkipped(host, c, body);
      SkippedTail(host, c, rest);
  }

  /** The main refinement: in an active region, running the lines of a balanced text with the stack
      and the skip counter gives the meaning of its nested groups, and leaves the conditionals as
      they were. */
  lemma {:induction false} StackRefinesGroups<E>(host: Host<E>, c: Conds<E>, t: Text)
    requires WellFormed(t) && Active(c.stack) && c.skipped == 0
    ensures RunLines(host, c, Lines(t)) == c.(env := Meaning(host, c.env, t))
    decreases t
  {
    hide DirectiveOf, FeedText, IsWord;
    match t
    case Nothing =>
    case Line(line, rest) =>
      WordsOf(line);
      RunOne(host, c, line);
      RunLinesAppend(host, c, [line], Lines(rest));
      StackRefinesGroups(host, c.(env := ProcessLine(host, c.env, line)), rest);
    case Group(head, body, tail, rest) =>
      WordsOf(head);
      RunGroup(host, c, head, Lines(body), TailLines(tail), Lines(rest));
      var active := HeadCondition(host, c.env, head);
      var c1 := Open(c, active);
      assert StepLine(host, c, head) == c1;
      var c2 := c1.(env := if active then Meaning(host, c.env, body) else c.env);
      if active { StackRefinesGroups(host, c1, body); } else { InactiveTextIsSkipped(host, c1, body); }
      TailRefinesGroups(host, c2, tail);
      assert c2.stack[..|c2.stack| - 1] == c.stack;
      StackRefinesGroups(host, c.(env := TailMeaning(host, c2.env, Top(c2), tail)), rest);
  }

  lemma {:induction false} TailRefinesGroups<E>(host: Host<E>, c: Conds<E>, t: Tail)
    requires WellFormedTail(t) && c.stack != [] && c.skipped == 0
    ensures RunLines(host, c, TailLines(t))
         == c.(stack := c.stack[..|c.stack| - 1], env := TailMeaning(host, c.env, Top(c), t))
    decreases t
  {
    hide DirectiveOf, FeedText, IsWord;
    match t
    case EndGroup(endif) => RunOne(host, c, endif); WordsOf(endif);
    case Branch(d, body, rest) =>
      WordsOf(d);
      RunGroup(host, c, d, Lines(body), TailLines(rest), []);
      assert [d] + Lines(body) + TailLines(rest) + [] == TailLines(t);
      var e := NextBranch(host, c.env, Top(c), d);
      var c1 := SetTop(c, e);
      assert StepLine(host, c, d) == c1 by { assert SetTop(c, Top(c)) == c; }
      var c2 := c1.(env := if e.active then Meaning(host, c.env, body) else c.env);
      if e.active { StackRefinesGroups(host, c1, body); } else { InactiveTextIsSkipped(host, c1, body); }
      TailRefinesGroups(host, c2, rest);
      assert c2.stack[..|c2.stack| - 1] == c.stack[..|c.stack| - 1];
  }

  /** In an active region `#ifdef X` opens a conditional that is active exactly if X is defined, and
      `#ifndef X` one that is active exactly if it is not. */
  lemma {:induction false} IfdefOpensIff<E>(host: Host<E>, c: Conds<E>, line: seq<Token>)
    requires Active(c.stack) && |line| > 2 && line[0].klass.Hash? && line[2].klass.Identifier?
    requires line[1].text == "ifdef" || line[1].text == "ifndef"
    ensures StepLine(host, c, line).stack != [] && StepLine(host, c, line).env == c.env
    ensures StepLine(host, c, line).stack[..|c.stack|] == c.stack
    ensures |StepLine(host, c, line).stack| == |c.stack| + 1
    ensures line[1].text == "ifdef" ==>
              (Active(StepLine(host, c, line).stack) <==> host.isDefined(c.env, line[2].text))
    ensures line[1].text == "ifndef" ==>
              (Active(StepLine(host, c, line).stack) <==> !host.isDefined(c.env, line[2].text))
  {
    hide DirectiveOf, FeedText;
    WordsOf(line);
  }
}
