/** What declaring a function more than once does to overload resolution. */
module Redeclarations {
  import opened Tokens
  import opened Types
  import opened Typing
  import opened Overload
  import opened SymbolTables

  /** A function that is declared twice is never found by converting arguments. */
  lemma DeclaredTwiceIsNeverBest(cs: seq<FunctionEntry>, args: seq<Type>, j: nat, k: nat)
    requires WellFormedArgs(args) && WellFormedEntries(cs)
    requires j < |cs| && k < |cs| && j != k && cs[j].params == cs[k].params
    ensures !IsBest(cs, args, j) && !IsBest(cs, args, k)
  {
    hide Rank;
    if IsViable(cs[j], args) {
      assert IsViable(cs[k], args);
      forall i | 0 <= i < |args| ensures !BetterAt(cs[j], cs[k], args, i) && !BetterAt(cs[k], cs[j], args, i) {
        assert ParamFits(cs[j].params[i], args[i]);
      }
    }
  }

  predicate IsDeclared(cs: seq<FunctionEntry>, params: seq<Param>) {
    exists j :: 0 <= j < |cs| && cs[j].params == params
  }

  /** The candidates with different parameters, each with its first declaration. */
  function Distinct(cs: seq<FunctionEntry>): seq<FunctionEntry> {
    if cs == [] then []
    else
      var last := cs[|cs| - 1];
      var before := Distinct(cs[..|cs| - 1]);
      if IsDeclared(before, last.params) then before else before + [last]
  }

  lemma {:induction false} Origin(cs: seq<FunctionEntry>, j: nat) returns (k: nat)
    requires j < |Distinct(cs)|
    ensures k < |cs| && cs[k] == Distinct(cs)[j]
  {
    var n := |cs| - 1;
    if j < |Distinct(cs[..n])| {
      k := Origin(cs[..n], j);
    } else {
      k := n;
    }
  }

  lemma {:induction false} FirstDeclaration(cs: seq<FunctionEntry>, k: nat) returns (j: nat)
    requires k < |cs|
    ensures j < |Distinct(cs)| && Distinct(cs)[j].params == cs[k].params
  {
    var n := |cs| - 1;
    var before := Distinct(cs[..n]);
    if k < n {
      j := FirstDeclaration(cs[..n], k);
    } else if IsDeclared(before, cs[n].params) {
      j :| 0 <= j < |before| && before[j].params == cs[n].params;
    } else {
      j := |before|;
    }
  }

  lemma {:induction false} DistinctParams(cs: seq<FunctionEntry>, i: nat, j: nat)
    requires i < j < |Distinct(cs)|
    ensures Distinct(cs)[i].params != Distinct(cs)[j].params
  {
    var n := |cs| - 1;
    var before := Distinct(cs[..n]);
    if j < |before| {
      DistinctParams(cs[..n], i, j);
    } else {
      assert before[i].params != cs[n].params;
    }
  }

  /** A parameter list is declared at most once. */
  predicate OccursOnce(cs: seq<FunctionEntry>, params: seq<Param>) {
    forall i, j :: 0 <= i < |cs| && 0 <= j < |cs| && cs[i].params == params && cs[j].params == params ==> i == j
  }

  /** Only the parameters of candidates are compared. */
  lemma BetterByParams(c: FunctionEntry, d: FunctionEntry, c1: FunctionEntry, d1: FunctionEntry, args: seq<Type>)
    requires WellFormedArgs(args) && WellFormedEntry(c) && WellFormedEntry(d)
    requires WellFormedEntry(c1) && WellFormedEntry(d1)
    requires IsViable(c, args) && IsViable(d, args) && Better(c, d, args)
    requires c.params == c1.params && d.params == d1.params
    ensures IsViable(c1, args) && IsViable(d1, args) && Better(c1, d1, args)
  {
    hide Rank, ParamFits;
    assert forall i :: 0 <= i < |args| ==>
      BetterAt(c, d, args, i) == BetterAt(c1, d1, args, i) && BetterAt(d, c, args, i) == BetterAt(d1, c1, args, i);
  }

  /** What is best among all candidates is declared once, and best among the distinct ones. */
  lemma {:induction false} BestIsDistinct(cs: seq<FunctionEntry>, args: seq<Type>, k: nat) returns (l: nat)
    requires WellFormedArgs(args) && WellFormedEntries(cs) && WellFormedEntries(Distinct(cs))
    requires k < |cs| && IsBest(cs, args, k)
    ensures l < |Distinct(cs)| && Distinct(cs)[l] == cs[k] && IsBest(Distinct(cs), args, l)
    ensures OccursOnce(cs, cs[k].params)
  {
    hide Better, IsViable, WellFormedEntry, WellFormedArgs, Distinct;
    var ds := Distinct(cs);
    forall j | 0 <= j < |cs| && cs[j].params == cs[k].params ensures j == k {
      if j != k { DeclaredTwiceIsNeverBest(cs, args, j, k); }
    }
    l := FirstDeclaration(cs, k);
    var o := Origin(cs, l);
    assert o == k;
    forall j | 0 <= j < |ds| && j != l && IsViable(ds[j], args) ensures Better(ds[l], ds[j], args) {
      var m := Origin(cs, j);
      DistinctParams(cs, if j < l then j else l, if j < l then l else j);
    }
  }

  /** What is best among the distinct candidates is best among all if it is declared once. */
  lemma {:induction false} DistinctIsBest(cs: seq<FunctionEntry>, args: seq<Type>, l: nat) returns (k: nat)
    requires WellFormedArgs(args) && WellFormedEntries(cs) && WellFormedEntries(Distinct(cs))
    requires l < |Distinct(cs)| && IsBest(Distinct(cs), args, l) && OccursOnce(cs, Distinct(cs)[l].params)
    ensures k < |cs| && cs[k] == Distinct(cs)[l] && IsBest(cs, args, k)
  {
    hide Better, WellFormedEntry, WellFormedArgs, ParamFits, Distinct;
    var ds := Distinct(cs);
    k := Origin(cs, l);
    forall m | 0 <= m < |cs| && m != k && IsViable(cs[m], args) ensures Better(cs[k], cs[m], args) {
      var j := FirstDeclaration(cs, m);
      assert j != l;
      assert IsViable(ds[j], args);
      BetterByParams(ds[l], ds[j], cs[k], cs[m], args);
    }
  }

  lemma DistinctIsWellFormed(cs: seq<FunctionEntry>, args: seq<Type>)
    requires WellFormedEntries(cs)
    ensures WellFormedEntries(Distinct(cs))
    ensures HasExact(Distinct(cs), args) ==> HasExact(cs, args)
  {
    hide WellFormedEntry, IsExact, Distinct;
    forall i | 0 <= i < |Distinct(cs)| ensures exists k :: 0 <= k < |cs| && cs[k] == Distinct(cs)[i] {
      var k := Origin(cs, i);
    }
  }

  /** A call without an exact match resolves as if every function were declared once exactly if the
      function that it would then resolve to is declared once. */
  lemma {:induction false} RedeclarationIsHarmlessIff(cs: seq<FunctionEntry>, args: seq<Type>)
    requires WellFormedArgs(args) && WellFormedEntries(cs) && !HasExact(cs, args)
    ensures WellFormedEntries(Distinct(cs)) && !HasExact(Distinct(cs), args)
    ensures Resolution(cs, args, false) == Resolution(Distinct(cs), args, false) <==>
            forall l :: 0 <= l < |Distinct(cs)| && IsBest(Distinct(cs), args, l) ==>
              OccursOnce(cs, Distinct(cs)[l].params)
  {
    DistinctIsWellFormed(cs, args);
    hide Distinct, OccursOnce, IsBest, WellFormedEntry, WellFormedArgs, IsExact;
    var ds := Distinct(cs);
    if l :| 0 <= l < |ds| && IsBest(ds, args, l) {
      SoleBest(ds, args, l);
      if OccursOnce(cs, ds[l].params) {
        var k := DistinctIsBest(cs, args, l);
        BestResolves(cs, args, k);
      } else {
        forall k | 0 <= k < |cs| ensures !IsBest(cs, args, k) {
          if IsBest(cs, args, k) {
            var m := BestIsDistinct(cs, args, k);
          }
        }
        assert Resolution(cs, args, false) == None;
      }
    } else {
      forall k | 0 <= k < |cs| ensures !IsBest(cs, args, k) {
        if IsBest(cs, args, k) {
          var m := BestIsDistinct(cs, args, k);
        }
      }
      assert Resolution(cs, args, false) == None && Resolution(ds, args, false) == None;
    }
  }

  lemma SoleBest(cs: seq<FunctionEntry>, args: seq<Type>, l: nat)
    requires WellFormedArgs(args) && WellFormedEntries(cs) && !HasExact(cs, args)
    requires l < |cs| && IsBest(cs, args, l)
    ensures Resolution(cs, args, false) == Some(cs[l].decl)
    ensures forall m :: 0 <= m < |cs| && IsBest(cs, args, m) ==> m == l
  {
    hide IsBest;
    BestResolves(cs, args, l);
    forall m | 0 <= m < |cs| && IsBest(cs, args, m) ensures m == l { BestIsUnique(cs, args, l, m); }
  }

  /** `f(float)`, declared and then defined, is not found for `f(1)`. */
  lemma {:induction false} PrototypeHidesDefinition()
    ensures
      var f := [Param(Scalar(Float), true, false)];
      var cs, args := [FunctionEntry(0, f), FunctionEntry(1, f)], [Scalar(Int)];
      && WellFormedArgs(args) && WellFormedEntries(cs) && WellFormedEntries(cs[..1])
      && Resolution(cs, args, false) == None
      && Resolution(cs[..1], args, false) == Some(0)
  {
    var f := [Param(Scalar(Float), true, false)];
    var one := FunctionEntry(0, f);
    var cs, args := [one, FunctionEntry(1, f)], [Scalar(Int)];
    assert cs[..1] == [one];
    forall c <- cs ensures !IsExact(c, args) && IsViable(c, args) {
      assert !SameType(c.params[0].ty, args[0]);
      assert ParamFits(c.params[0], args[0]);
    }
    assert forall i :: 0 <= i < |cs| ==> cs[i] in cs;
    assert one in cs;
    BestResolves(cs[..1], args, 0);
    DeclaredTwiceIsNeverBest(cs, args, 0, 1);
  }
}
