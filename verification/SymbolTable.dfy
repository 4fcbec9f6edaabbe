/** The symbol table: levels of declarations, lookup of names from the innermost level outwards, and
    lookup of functions in the global levels. */
module SymbolTables {
  import opened Tokens
  import opened Types
  import opened Typing
  import opened Overload

  // ---------------------------------------------------------------------------------------
  // The outcome of overload resolution
  // ---------------------------------------------------------------------------------------

  ghost function FirstExact(cs: seq<FunctionEntry>, args: seq<Type>): (k: nat)
    requires HasExact(cs, args)
    ensures k < |cs| && IsExact(cs[k], args) && forall j :: 0 <= j < k ==> !IsExact(cs[j], args)
  {
    if IsExact(cs[0], args) then 0 else FirstExact(cs[1..], args) + 1
  }

  /** The declaration that a call resolves to. */
  ghost function Resolution(cs: seq<FunctionEntry>, args: seq<Type>, requireExactMatch: bool): Option<nat>
    requires WellFormedArgs(args) && WellFormedEntries(cs)
  {
    if HasExact(cs, args) then Some(cs[FirstExact(cs, args)].decl)
    else if requireExactMatch then None
    else if exists k :: 0 <= k < |cs| && IsBest(cs, args, k) then
      var k :| 0 <= k < |cs| && IsBest(cs, args, k);
      Some(cs[k].decl)
    else None
  }

  lemma BestResolves(cs: seq<FunctionEntry>, args: seq<Type>, k: nat)
    requires WellFormedArgs(args) && WellFormedEntries(cs) && !HasExact(cs, args)
    requires k < |cs| && IsBest(cs, args, k)
    ensures Resolution(cs, args, false) == Some(cs[k].decl)
  {
    var j :| 0 <= j < |cs| && IsBest(cs, args, j) && Resolution(cs, args, false) == Some(cs[j].decl);
    BestIsUnique(cs, args, j, k);
  }

  function Without<T>(s: seq<T>, k: nat): seq<T>
    requires k < |s|
  {
    s[..k] + s[k + 1..]
  }

  lemma WithoutOne<T>(s: seq<T>, k: nat)
    requires k < |s|
    ensures multiset(Without(s, k)) == multiset(s) - multiset{s[k]}
    ensures forall j :: 0 <= j < |s| && j != k ==> s[j] in Without(s, k)
    ensures forall m :: 0 <= m < |s| - 1 ==> Without(s, k)[m] == s[if m < k then m else m + 1]
  {
    assert s == s[..k] + [s[k]] + s[k + 1..];
    forall j | 0 <= j < |s| && j != k ensures s[j] in Without(s, k) {
      assert Without(s, k)[if j < k then j else j - 1] == s[j];
    }
  }

  /** In a permutation, different positions of one list have different counterparts in the other. */
  lemma Counterpart<T>(cs: seq<T>, ds: seq<T>, k: nat, l: nat, j: nat) returns (i: nat)
    requires multiset(cs) == multiset(ds) && k < |cs| && l < |ds| && j < |ds|
    requires cs[k] == ds[l] && j != l
    ensures i < |cs| && i != k && cs[i] == ds[j]
  {
    WithoutOne(cs, k);
    WithoutOne(ds, l);
    var others := Without(cs, k);
    assert |others| == |cs| - 1;
    assert ds[j] in multiset(Without(ds, l)) && multiset(Without(ds, l)) == multiset(others);
    var m :| 0 <= m < |others| && others[m] == ds[j];
    i := if m < k then m else m + 1;
  }

  lemma BestAcross(cs: seq<FunctionEntry>, ds: seq<FunctionEntry>, args: seq<Type>, k: nat) returns (l: nat)
    requires WellFormedArgs(args) && WellFormedEntries(cs) && WellFormedEntries(ds)
    requires multiset(cs) == multiset(ds) && k < |cs| && IsBest(cs, args, k)
    ensures l < |ds| && ds[l] == cs[k] && IsBest(ds, args, l)
  {
    hide Better, IsViable;
    assert cs[k] in multiset(ds);
    l :| 0 <= l < |ds| && ds[l] == cs[k];
    forall j | 0 <= j < |ds| && j != l && IsViable(ds[j], args) ensures Better(ds[l], ds[j], args) {
      var i := Counterpart(cs, ds, k, l, j);
    }
  }

  /** Without an exact match, the order of the candidates does not matter. */
  lemma {:induction false} ResolutionIgnoresOrder(cs: seq<FunctionEntry>, ds: seq<FunctionEntry>, args: seq<Type>,
    requireExactMatch: bool)
    requires WellFormedArgs(args) && WellFormedEntries(cs) && WellFormedEntries(ds)
    requires multiset(cs) == multiset(ds) && !HasExact(cs, args)
    ensures Resolution(cs, args, requireExactMatch) == Resolution(ds, args, requireExactMatch)
  {
    hide IsExact;
    assert !HasExact(ds, args) by {
      forall i | 0 <= i < |ds| ensures !IsExact(ds[i], args) {
        assert ds[i] in multiset(cs);
        var j :| 0 <= j < |cs| && cs[j] == ds[i];
      }
    }
    if k :| 0 <= k < |cs| && IsBest(cs, args, k) {
      var l := BestAcross(cs, ds, args, k);
      BestResolves(cs, args, k);
      BestResolves(ds, args, l);
    } else if l :| 0 <= l < |ds| && IsBest(ds, args, l) {
      var k := BestAcross(ds, cs, args, l);
    }
  }

  /** For functions with input parameters only, the sole exact match is also the best candidate. */
  lemma {:induction false} SoleExactMatchIsBest(cs: seq<FunctionEntry>, args: seq<Type>, e: nat)
    requires WellFormedArgs(args) && WellFormedEntries(cs)
    requires forall k, i :: 0 <= k < |cs| && 0 <= i < |cs[k].params| ==>
      cs[k].params[i].isInput && !cs[k].params[i].isOutput
    requires e < |cs| && IsExact(cs[e], args)
    requires forall j :: 0 <= j < |cs| && j != e ==> !IsExact(cs[j], args)
    ensures IsBest(cs, args, e)
  {
    hide KindRank, ConvertsKind, SameType;
    forall i | 0 <= i < |args| ensures SameType(args[i], cs[e].params[i].ty) {
      SameTypeSymmetric(args[i], cs[e].params[i].ty);
    }
    assert IsViable(cs[e], args);
    forall j | 0 <= j < |cs| && j != e && IsViable(cs[j], args) ensures Better(cs[e], cs[j], args) {
      var i :| 0 <= i < |args| && !SameType(cs[j].params[i].ty, args[i]);
      SameTypeSymmetric(args[i], cs[j].params[i].ty);
      assert BetterAt(cs[e], cs[j], args, i);
    }
  }

  // ---------------------------------------------------------------------------------------
  // The table
  // ---------------------------------------------------------------------------------------

  class SymbolTableLevel<D> {
    var funcDeclLookup: map<string, seq<FunctionEntry>>
    var declLookup: map<string, D>
    var freezed: bool

    constructor ()
      ensures funcDeclLookup == map[] && declLookup == map[] && !freezed
    {
      funcDeclLookup, declLookup, freezed := map[], map[], false;
    }

    function Candidates(name: string): seq<FunctionEntry>
      reads this
    {
      if name in funcDeclLookup then funcDeclLookup[name] else []
    }

    method AddFunctionDecl(name: string, entry: FunctionEntry)
      modifies this`funcDeclLookup
      ensures name == "" ==> funcDeclLookup == old(funcDeclLookup)
      ensures name != "" ==> Candidates(name) == old(Candidates(name)) + [entry]
      ensures forall other :: other != name ==> Candidates(other) == old(Candidates(other))
    {
      if name != "" {
        funcDeclLookup := funcDeclLookup[name := Candidates(name) + [entry]];
      }
    }

    /** The first declaration of a name in a level stays. */
    method TryAddSymbol(name: string, symbolDecl: D) returns (success: bool)
      modifies this`declLookup
      ensures success == (!old(freezed) && name != "" && name !in old(declLookup))
      ensures declLookup == if success then old(declLookup)[name := symbolDecl] else old(declLookup)
    {
      if freezed || name == "" || name in declLookup { return false; }
      declLookup := declLookup[name := symbolDecl];
      return true;
    }

    /** The struct that the type of a variable declaration declares, if any, and then its declarators
        in order. */
    method AddVariableDecl(structDecl: Option<(string, D)>, names: seq<string>, decls: seq<D>)
      requires |names| == |decls|
      modifies this`declLookup
      ensures declLookup ==
        if freezed then old(declLookup) else AddAll(WithStruct(old(declLookup), structDecl), names, decls)
    {
      if structDecl.Some? {
        var _ := TryAddSymbol(structDecl.value.0, structDecl.value.1);
      }
      ghost var start := declLookup;
      assert names[..0] == [] && decls[..0] == [];
      for i := 0 to |names|
        invariant declLookup == if freezed then start else AddAll(start, names[..i], decls[..i])
      {
        var _ := TryAddSymbol(names[i], decls[i]);
        assert names[..i + 1][..i] == names[..i] && decls[..i + 1][..i] == decls[..i];
      }
      assert names[..|names|] == names && decls[..|decls|] == decls;
    }
  }

  /** The first declaration of a name in a level stays; what has no name is not declared. */
  function AddAll<D>(decls: map<string, D>, names: seq<string>, added: seq<D>): map<string, D>
    requires |names| == |added|
  {
    if added == [] then decls
    else
      var n := |added| - 1;
      var before := AddAll(decls, names[..n], added[..n]);
      if names[n] == "" || names[n] in before then before else before[names[n] := added[n]]
  }

  function WithStruct<D>(decls: map<string, D>, structDecl: Option<(string, D)>): map<string, D> {
    match structDecl
    case None => decls
    case Some(d) => if d.0 == "" || d.0 in decls then decls else decls[d.0 := d.1]
  }

  /** Names that were not declared in the level and are declared by the additions. */
  predicate IsAdded<D>(decls: map<string, D>, names: seq<string>, name: string) {
    name != "" && name !in decls && name in names
  }

  /** A level after additions: new names refer to the first declaration added, all others stay. */
  lemma {:induction false} AddAllAdds<D>(decls: map<string, D>, names: seq<string>, added: seq<D>, name: string)
    requires |names| == |added|
    ensures var after := AddAll(decls, names, added);
            if IsAdded(decls, names, name) then
              exists i :: 0 <= i < |added| && name in after && after[name] == added[i] && names[i] == name
            else (name in after <==> name in decls) && (name in decls ==> after[name] == decls[name])
    decreases |added|
  {
    if added != [] {
      var n := |added| - 1;
      AddAllAdds(decls, names[..n], added[..n], name);
      assert names == names[..n] + [names[n]];
    }
  }

  /** The declarations of some levels, outermost first. */
  ghost function Decls<D>(levels: seq<SymbolTableLevel<D>>): (r: seq<map<string, D>>)
    reads levels
    ensures |r| == |levels| && forall i :: 0 <= i < |levels| ==> r[i] == levels[i].declLookup
  {
    if levels == [] then [] else Decls(levels[..|levels| - 1]) + [levels[|levels| - 1].declLookup]
  }

  /** The declaration that a name refers to: that of the innermost level. */
  function Visible<D>(levels: seq<map<string, D>>, name: string): Option<D> {
    if levels == [] then None
    else
      var innermost := levels[|levels| - 1];
      if name in innermost then Some(innermost[name]) else Visible(levels[..|levels| - 1], name)
  }

  ghost function AllCandidates<D>(levels: seq<SymbolTableLevel<D>>, name: string): seq<FunctionEntry>
    reads levels
  {
    if levels == [] then []
    else AllCandidates(levels[..|levels| - 1], name) + levels[|levels| - 1].Candidates(name)
  }

  class SymbolTable<D> {
    const importedLevelCount: nat
    var levels: seq<SymbolTableLevel<D>>

    ghost predicate Valid()
      reads this
    {
      |levels| > importedLevelCount
    }

    /** A table on top of the global levels of a preamble. */
    constructor (preamble: seq<SymbolTableLevel<D>>)
      ensures Valid() && importedLevelCount == |preamble|
      ensures levels[..importedLevelCount] == preamble && |levels| == importedLevelCount + 1
      ensures fresh(levels[importedLevelCount]) && levels[importedLevelCount].declLookup == map[]
    {
      importedLevelCount := |preamble|;
      var level := new SymbolTableLevel();
      levels := preamble + [level];
    }

    method PushLevel()
      requires Valid()
      modifies this
      ensures Valid() && |levels| == |old(levels)| + 1 && levels[..|old(levels)|] == old(levels)
      ensures fresh(levels[|old(levels)|]) && levels[|old(levels)|].declLookup == map[]
    {
      var level := new SymbolTableLevel();
      levels := levels + [level];
    }

    /** The global levels cannot be popped. */
    method PopLevel()
      requires Valid()
      modifies this
      ensures Valid()
      ensures levels == if |old(levels)| > importedLevelCount + 1 then old(levels)[..|old(levels)| - 1] else old(levels)
    {
      if |levels| > importedLevelCount + 1 {
        levels := levels[..|levels| - 1];
      }
    }

    method FindSymbol(name: string) returns (r: Option<D>)
      ensures r == Visible(Decls(levels), name)
    {
      var i := |levels|;
      ghost var decls := Decls(levels);
      assert decls[..i] == decls;
      while i > 0
        invariant 0 <= i <= |levels|
        invariant Visible(decls, name) == Visible(decls[..i], name)
      {
        i := i - 1;
        assert decls[..i + 1][..i] == decls[..i];
        if name in levels[i].declLookup { return Some(levels[i].declLookup[name]); }
      }
      return None;
    }

    /** Functions are looked up in the global levels only. */
    method FindFunction(name: string, args: seq<Type>, requireExactMatch: bool) returns (r: Option<nat>)
      requires Valid() && WellFormedArgs(args)
      requires WellFormedEntries(AllCandidates(levels[..importedLevelCount + 1], name))
      ensures r == Resolution(AllCandidates(levels[..importedLevelCount + 1], name), args, requireExactMatch)
    {
      hide IsExact, IsBest;
      var cs := [];
      for i := 0 to importedLevelCount + 1
        invariant cs == AllCandidates(levels[..i], name)
      {
        assert levels[..i + 1][..i] == levels[..i];
        cs := cs + levels[i].Candidates(name);
      }
      var exact, viable := FilterCandidates(cs, args, requireExactMatch);
      if exact.Some? { return Some(cs[exact.value].decl); }
      if requireExactMatch { return None; }
      var best := SelectBest(cs, args, viable);
      if best.Some? {
        BestResolves(cs, args, best.value);
        return Some(cs[best.value].decl);
      }
      return None;
    }
  }
}
