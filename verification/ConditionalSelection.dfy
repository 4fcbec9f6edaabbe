/** Which branches of a group are processed, compared with what the language prescribes, and whole
    files. */
module ConditionalSelection {
  import opened Tokens
  import opened Conditionals
  import opened ConditionalLines
  import opened ConditionalGroups

  // ---------------------------------------------------------------------------------------
  // Selecting branches
  // ---------------------------------------------------------------------------------------

  /** Whether each branch of a group is active, given the values of its conditions: the code looks at
      the branch just before. */
  function CodedBranches(conditions: seq<bool>): (r: seq<bool>)
    ensures |r| == |conditions|
  {
    if conditions == [] then []
    else
      var last := |conditions| - 1;
      var before := CodedBranches(conditions[..last]);
      before + [conditions[last] && (last == 0 || !before[last - 1])]
  }

  /** The language prescribes the first branch whose condition is true. */
  function PrescribedBranches(conditions: seq<bool>): (r: seq<bool>)
    ensures |r| == |conditions|
    ensures forall i :: 0 <= i < |r| ==> (r[i] <==> conditions[i] && forall j :: 0 <= j < i ==> !conditions[j])
  {
    if conditions == [] then []
    else
      var last := |conditions| - 1;
      var before := PrescribedBranches(conditions[..last]);
      assert forall i :: 0 <= i < last ==> conditions[..last][i] == conditions[i];
      before + [conditions[last] && forall j :: 0 <= j < last ==> !conditions[j]]
  }

  /** Whether an `#else` behind these branches is processed. */
  function CodedElse(conditions: seq<bool>): bool { conditions == [] || !CodedBranches(conditions)[|conditions| - 1] }

  predicate PrescribedElse(conditions: seq<bool>) { forall j :: 0 <= j < |conditions| ==> !conditions[j] }

  /** No true condition comes two or more branches behind another one; and in front of an `#else`
      only the last condition can be true. */
  predicate Harmless(conditions: seq<bool>, hasElse: bool) {
    && (forall i, j :: 0 <= i && i + 2 <= j < |conditions| ==> !(conditions[i] && conditions[j]))
    && (hasElse ==> forall i :: 0 <= i < |conditions| - 1 ==> !conditions[i])
  }

  /** A branch is active exactly if its condition holds and the branch before it is not active. */
  lemma {:induction false} CodedBranchAt(conditions: seq<bool>, i: nat)
    requires i < |conditions|
    ensures CodedBranches(conditions)[i] <==> conditions[i] && (i == 0 || !CodedBranches(conditions)[i - 1])
    decreases |conditions|
  {
    var last := |conditions| - 1;
    if i < last {
      CodedBranchAt(conditions[..last], i);
    }
  }

  /** Up to the branch behind the first true condition, both selections agree. */
  lemma {:induction false} CodedIsPrescribed(conditions: seq<bool>, i: nat)
    requires i < |conditions|
    requires forall j, k :: 0 <= j && j + 2 <= k <= i ==> !(conditions[j] && conditions[k])
    ensures CodedBranches(conditions)[i] == PrescribedBranches(conditions)[i]
    decreases i
  {
    CodedBranchAt(conditions, i);
    if i > 0 {
      CodedIsPrescribed(conditions, i - 1);
      if conditions[i] {
        assert forall j :: 0 <= j && j + 2 <= i ==> !conditions[j];
      }
    }
  }

  /** A least index from which the selections differ. */
  lemma {:induction false} CodedDiffers(conditions: seq<bool>, i: nat, j: nat)
    requires i + 2 <= j < |conditions| && conditions[i] && conditions[j]
    ensures CodedBranches(conditions) != PrescribedBranches(conditions)
    decreases j
  {
    if k, l :| 0 <= k && k + 2 <= l < j && conditions[k] && conditions[l] {
      CodedDiffers(conditions, k, l);
    } else {
      CodedBranchAt(conditions, j);
      CodedIsPrescribed(conditions, j - 1);
    }
  }

  /** The code selects the branches that the language prescribes exactly for harmless conditions. */
  lemma {:induction false} SelectionIsPrescribedIff(conditions: seq<bool>, hasElse: bool)
    requires conditions != []
    ensures (&& CodedBranches(conditions) == PrescribedBranches(conditions)
             && (hasElse ==> CodedElse(conditions) == PrescribedElse(conditions)))
            <==> Harmless(conditions, hasElse)
  {
    var coded, prescribed := CodedBranches(conditions), PrescribedBranches(conditions);
    if i, j :| 0 <= i && i + 2 <= j < |conditions| && conditions[i] && conditions[j] {
      CodedDiffers(conditions, i, j);
    } else {
      forall i | 0 <= i < |conditions| ensures coded[i] == prescribed[i] {
        CodedIsPrescribed(conditions, i);
      }
      assert coded == prescribed;
    }
  }

  /** With `#if 1`, `#elif 0`, `#else`, the first branch and the last are processed. */
  lemma TakenBranchIsForgotten()
    ensures CodedBranches([true, false]) == [true, false] && CodedElse([true, false])
    ensures !PrescribedElse([true, false])
  {
    CodedBranchAt([true, false], 0);
    CodedBranchAt([true, false], 1);
    assert [true, false][0];
  }

  // ---------------------------------------------------------------------------------------
  // Whole texts
  // ---------------------------------------------------------------------------------------

  /** `#else` comes last in every group. */
  predicate Proper(t: Text)
    requires WellFormed(t)
  {
    match t
    case Nothing => true
    case Line(_, rest) => Proper(rest)
    case Group(_, body, tail, rest) => Proper(body) && ProperTail(tail) && Proper(rest)
  }

  predicate ProperTail(t: Tail)
    requires WellFormedTail(t)
  {
    match t
    case EndGroup(_) => true
    case Branch(d, body, rest) =>
      Proper(body) && ProperTail(rest) && (IsWord(d, "else") ==> rest.EndGroup?)
  }

  /** The meaning that the language prescribes: in each group the first branch whose condition holds,
      or else the `#else`, and conditions behind a taken branch are not evaluated. */
  function PrescribedMeaning<E>(host: Host<E>, env: E, t: Text): E
    requires WellFormed(t)
    decreases t
  {
    match t
    case Nothing => env
    case Line(line, rest) => PrescribedMeaning(host, ProcessLine(host, env, line), rest)
    case Group(head, body, tail, rest) =>
      var active := HeadCondition(host, env, head);
      var env1 := if active then PrescribedMeaning(host, env, body) else env;
      PrescribedMeaning(host, PrescribedTail(host, env1, active, tail), rest)
  }

  function PrescribedTail<E>(host: Host<E>, env: E, taken: bool, t: Tail): E
    requires WellFormedTail(t)
    decreases t
  {
    match t
    case EndGroup(_) => env
    case Branch(d, body, rest) =>
      var active := !taken && (IsWord(d, "else") || host.evaluate(env, d[2..]));
      PrescribedTail(host, if active then PrescribedMeaning(host, env, body) else env, taken || active, rest)
  }

  /** Every group that is reached has harmless conditions. */
  predicate HarmlessText<E>(host: Host<E>, env: E, t: Text)
    requires WellFormed(t)
    decreases t
  {
    match t
    case Nothing => true
    case Line(line, rest) => HarmlessText(host, ProcessLine(host, env, line), rest)
    case Group(head, body, tail, rest) =>
      var active := HeadCondition(host, env, head);
      var env1 := if active then Meaning(host, env, body) else env;
      && (active ==> HarmlessText(host, env, body))
      && HarmlessTail(host, env1, [active], tail)
      && HarmlessText(host, TailMeaning(host, env1, Entry(active, active, false), tail), rest)
  }

  /** `conditions` are the values of the conditions of the branches before. */
  predicate HarmlessTail<E>(host: Host<E>, env: E, conditions: seq<bool>, t: Tail)
    requires WellFormedTail(t) && conditions != []
    decreases t
  {
    match t
    case EndGroup(_) => Harmless(conditions, false)
    case Branch(d, body, rest) =>
      if IsWord(d, "else") then
        Harmless(conditions, true) && (CodedElse(conditions) ==> HarmlessText(host, env, body))
      else
        var cs := conditions + [host.evaluate(env, d[2..])];
        var active := CodedBranches(cs)[|conditions|];
        && (active ==> HarmlessText(host, env, body))
        && HarmlessTail(host, if active then Meaning(host, env, body) else env, cs, rest)
  }

  /** What an entry remembers after branches with these conditions. */
  function EntryAfter(conditions: seq<bool>): Entry
    requires conditions != []
  {
    var active := CodedBranches(conditions)[|conditions| - 1];
    Entry(active, active, false)
  }

  /** The stack entry follows the selection. */
  lemma NextBranchFollows<E>(host: Host<E>, env: E, conditions: seq<bool>, d: seq<Token>)
    requires conditions != [] && IsDirective(d)
    ensures IsWord(d, "elif") ==>
      NextBranch(host, env, EntryAfter(conditions), d) == EntryAfter(conditions + [host.evaluate(env, d[2..])])
    ensures IsWord(d, "else") ==>
      NextBranch(host, env, EntryAfter(conditions), d).active == CodedElse(conditions)
  {
    hide DirectiveOf, IsWord;
    WordsOf(d);
    var cs := conditions + [host.evaluate(env, d[2..])];
    assert cs[..|conditions|] == conditions;
  }

  lemma {:induction false} HarmlessSoFar<E>(host: Host<E>, env: E, conditions: seq<bool>, t: Tail)
    requires WellFormedTail(t) && conditions != [] && HarmlessTail(host, env, conditions, t)
    ensures Harmless(conditions, false)
    decreases t
  {
    hide IsWord;
    if t.Branch? && !IsWord(t.directive, "else") {
      WordsOf(t.directive);
      var cs := conditions + [host.evaluate(env, t.directive[2..])];
      var active := CodedBranches(cs)[|conditions|];
      HarmlessSoFar(host, if active then Meaning(host, env, t.body) else env, cs, t.rest);
      assert forall i :: 0 <= i < |conditions| ==> cs[i] == conditions[i];
    }
  }

  /** A text whose groups all have harmless conditions means what the language prescribes. */
  lemma {:induction false} HarmlessTextIsPrescribed<E>(host: Host<E>, env: E, t: Text)
    requires WellFormed(t) && Proper(t) && HarmlessText(host, env, t)
    ensures Meaning(host, env, t) == PrescribedMeaning(host, env, t)
    decreases t
  {
    hide IsWord, FeedText;
    match t
    case Nothing =>
    case Line(line, rest) =>
      HarmlessTextIsPrescribed(host, ProcessLine(host, env, line), rest);
    case Group(head, body, tail, rest) =>
      var active := HeadCondition(host, env, head);
      var env1 := if active then Meaning(host, env, body) else env;
      if active { HarmlessTextIsPrescribed(host, env, body); }
      CodedBranchAt([active], 0);
      HarmlessTailIsPrescribed(host, env1, [active], tail);
      assert EntryAfter([active]) == Entry(active, active, false);
      assert PrescribedElse([active]) == !active by { assert [active][0] == active; }
      HarmlessTextIsPrescribed(host, TailMeaning(host, env1, Entry(active, active, false), tail), rest);
  }

  lemma {:induction false} HarmlessTailIsPrescribed<E>(host: Host<E>, env: E, conditions: seq<bool>, t: Tail)
    requires WellFormedTail(t) && ProperTail(t) && conditions != [] && HarmlessTail(host, env, conditions, t)
    ensures TailMeaning(host, env, EntryAfter(conditions), t)
         == PrescribedTail(host, env, !PrescribedElse(conditions), t)
    decreases t
  {
    hide IsWord, CodedBranches, PrescribedBranches;
    match t
    case EndGroup(_) =>
    case Branch(d, body, rest) =>
      WordsOf(d);
      NextBranchFollows(host, env, conditions, d);
      if IsWord(d, "else") {
        SelectionIsPrescribedIff(conditions, true);
        if CodedElse(conditions) { HarmlessTextIsPrescribed(host, env, body); }
      } else {
        var value := host.evaluate(env, d[2..]);
        var cs := conditions + [value];
        var active := CodedBranches(cs)[|conditions|];
        var env1 := if active then Meaning(host, env, body) else env;
        HarmlessSoFar(host, env1, cs, rest);
        SelectionIsPrescribedIff(cs, false);
        assert forall i :: 0 <= i < |conditions| ==> cs[i] == conditions[i];
        assert cs[|conditions|] == value;
        assert active == (value && PrescribedElse(conditions));
        assert PrescribedElse(cs) == (PrescribedElse(conditions) && !value);
        if active { HarmlessTextIsPrescribed(host, env, body); }
        HarmlessTailIsPrescribed(host, env1, cs, rest);
      }
  }

  // ---------------------------------------------------------------------------------------
  // A group in which two branches are processed
  // ---------------------------------------------------------------------------------------

  function DirectiveLine(name: string, args: seq<Token>): seq<Token> {
    [Token(Hash, "#", 0, 0, true, false), Token(Identifier, name, 0, 0, false, false)] + args
  }

  /** `#if` with the condition `one`, the line `x`, `#elif` with the condition `zero`, `#else`, the
      line `y`, `#endif`. */
  function ForgetfulGroup(one: seq<Token>, x: Token, zero: seq<Token>, y: Token): Text {
    Group(DirectiveLine("if", one), Line([x], Nothing),
      Branch(DirectiveLine("elif", zero), Nothing,
        Branch(DirectiveLine("else", []), Line([y], Nothing), EndGroup(DirectiveLine("endif", [])))),
      Nothing)
  }

  predicate IsTail(toks: seq<Token>) { forall t <- toks :: !t.klass.Eof? && !t.isFirstTokenOfLine }

  /** With `#if 1`, `#elif 0` and `#else`, the lines of the first branch and of the last are processed,
      where the language prescribes the first only. */
  lemma {:induction false} TwoBranchesAreProcessed<E>(host: Host<E>, env: E, one: seq<Token>, x: Token,
    zero: seq<Token>, y: Token)
    requires IsTail(one) && IsTail(zero) && IsLine([x]) && IsLine([y]) && !x.klass.Hash? && !y.klass.Hash?
    requires host.evaluate(env, one) && !host.evaluate(host.feed(env, x), zero)
    ensures var t := ForgetfulGroup(one, x, zero, y);
            && WellFormed(t)
            && RunLines(host, Conds([], 0, env), Lines(t)) == Conds([], 0, host.feed(host.feed(env, x), y))
            && PrescribedMeaning(host, env, t) == host.feed(env, x)
  {
    var t := ForgetfulGroup(one, x, zero, y);
    DirectiveFacts("if", one);
    DirectiveFacts("elif", zero);
    DirectiveFacts("else", []);
    DirectiveFacts("endif", []);
    TextOfToken(host, env, x);
    TextOfToken(host, host.feed(env, x), y);
    hide FeedText, DirectiveLine, DirectiveOf, IsWord;
    var end := EndGroup(DirectiveLine("endif", []));
    var inElse, inIf := Line([y], Nothing), Line([x], Nothing);
    var last := Branch(DirectiveLine("else", []), inElse, end);
    var tail := Branch(DirectiveLine("elif", zero), Nothing, last);
    assert WellFormed(inElse) && WellFormed(inIf) && WellFormedTail(end);
    assert WellFormedTail(last);
    assert WellFormedTail(tail);
    var env1 := host.feed(env, x);
    assert Meaning(host, env, inIf) == env1 && PrescribedMeaning(host, env, inIf) == env1;
    assert Meaning(host, env1, inElse) == host.feed(env1, y);
    assert TailMeaning(host, host.feed(env1, y), Entry(true, true, true), end) == host.feed(env1, y);
    assert TailMeaning(host, env1, Entry(false, false, false), last) == host.feed(env1, y);
    assert TailMeaning(host, env1, Entry(true, true, false), tail) == host.feed(env1, y);
    assert PrescribedTail(host, env1, true, last) == env1;
    assert PrescribedTail(host, env1, true, tail) == env1;
    StackRefinesGroups(host, Conds([], 0, env), t);
  }

  lemma DirectiveFacts(name: string, args: seq<Token>)
    requires IsTail(args)
    ensures var line := DirectiveLine(name, args);
            && IsLine(line) && IsDirective(line) && IsWord(line, name) && line[2..] == args
            && (name != "ifdef" && name != "ifndef" ==> NamesItsMacro(line))
            && (IsWord(line, "elif") ==> !IsWord(line, "else"))
  {
    WordsOf(DirectiveLine(name, args));
  }

  lemma TextOfToken<E>(host: Host<E>, env: E, x: Token)
    ensures FeedText(host, env, [x]) == host.feed(env, x)
  {
    assert [x][1..] == [];
  }

  // ---------------------------------------------------------------------------------------
  // Whole files
  // ---------------------------------------------------------------------------------------

  function Concat(lines: seq<seq<Token>>): (r: seq<Token>)
    requires forall l <- lines :: IsLine(l)
    ensures forall t <- r :: !t.klass.Eof?
  {
    if lines == [] then []
    else
      assert IsLine(lines[0]);
      lines[0] + Concat(lines[1..])
  }

  /** Feeding the tokens of some lines is running the lines. */
  lemma {:induction false} FeedLines<E>(host: Host<E>, m: Machine<E>, lines: seq<seq<Token>>)
    requires Sound(m) && !m.state.Halt? && forall l <- lines :: IsLine(l)
    ensures Settled(host, FeedAll(host, m, Concat(lines))) == RunLines(host, Settled(host, m), lines)
    decreases |lines|
  {
    hide StepLine, Settled;
    if lines != [] {
      FeedLine(host, m, lines[0]);
      FeedAllAppend(host, m, lines[0], Concat(lines[1..]));
      FeedLines(host, FeedAll(host, m, lines[0]), lines[1..]);
    }
  }

  /** The machine before the first token. */
  function Initial<E>(env: E): Machine<E> { Machine(Default, [], Conds([], 0, env)) }

  /** At the end of any file, the assertion that the machine rests in the default state in front of
      the halt holds exactly if the innermost conditional is active. */
  lemma {:induction false} EndAssertionIff<E>(host: Host<E>, env: E, lines: seq<seq<Token>>, eof: Token)
    requires (forall l <- lines :: IsLine(l)) && eof.klass.Eof?
    ensures Dispatch(host, FeedAll(host, Initial(env), Concat(lines)), eof).state.Default?
            <==> Active(RunLines(host, Conds([], 0, env), lines).stack)
  {
    FeedLines(host, Initial(env), lines);
    DispatchStart(host, FeedAll(host, Initial(env), Concat(lines)), eof);
  }

  /** A file with nothing but `#if 0`: the assertion fails. */
  lemma {:induction false} UnclosedGroupFailsTheAssertion<E>(host: Host<E>, env: E, zero: seq<Token>, eof: Token)
    requires IsTail(zero) && !host.evaluate(env, zero) && eof.klass.Eof?
    ensures IsLine(DirectiveLine("if", zero))
    ensures !Dispatch(host, FeedAll(host, Initial(env), Concat([DirectiveLine("if", zero)])), eof).state.Default?
  {
    var line := DirectiveLine("if", zero);
    assert line[2..] == zero;
    RunOne(host, Conds([], 0, env), line);
    EndAssertionIff(host, env, [line], eof);
  }

  /** A balanced file ends in the halt state with no conditional left, all of it having been
      processed by its nested groups, then macro expansion finalized, and one end-of-file token
      put out after that. */
  lemma {:induction false} BalancedFile<E>(host: Host<E>, env: E, t: Text, eof: Token)
    requires WellFormed(t) && eof.klass.Eof?
    ensures var m := FeedAll(host, Initial(env), Concat(Lines(t)));
            && Dispatch(host, m, eof).state.Default?
            && FeedPPToken(host, m, eof).state.Halt?
            && FeedPPToken(host, m, eof).conds
               == Conds([], 0, host.output(host.finish(Meaning(host, env, t)), eof))
  {
    hide FeedAll, Lines, Meaning, Concat;
    FeedLines(host, Initial(env), Lines(t));
    StackRefinesGroups(host, Conds([], 0, env), t);
    DispatchStart(host, FeedAll(host, Initial(env), Concat(Lines(t))), eof);
  }
}
