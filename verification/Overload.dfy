/** Overload resolution: the first exact match, or else the one viable candidate that is better than
    every other. */
module Overload {
  import opened Tokens
  import opened Types
  import opened Typing

  datatype Param = Param(ty: Type, isInput: bool, isOutput: bool)

  datatype FunctionEntry = FunctionEntry(decl: nat, params: seq<Param>)

  predicate WellFormedArgs(args: seq<Type>) { forall i :: 0 <= i < |args| ==> WellFormed(args[i]) }

  predicate WellFormedEntry(c: FunctionEntry) { forall i :: 0 <= i < |c.params| ==> WellFormed(c.params[i].ty) }

  predicate WellFormedEntries(cs: seq<FunctionEntry>) { forall i :: 0 <= i < |cs| ==> WellFormedEntry(cs[i]) }

  // ---------------------------------------------------------------------------------------
  // What the search is for
  // ---------------------------------------------------------------------------------------

  predicate IsExact(c: FunctionEntry, args: seq<Type>) {
    |c.params| == |args| && forall i :: 0 <= i < |args| ==> SameType(c.params[i].ty, args[i])
  }

  predicate ParamFits(p: Param, arg: Type) {
    (p.isInput ==> Converts(arg, p.ty)) && (p.isOutput ==> Converts(p.ty, arg))
  }

  predicate IsViable(c: FunctionEntry, args: seq<Type>) {
    |c.params| == |args| && forall i :: 0 <= i < |args| ==> ParamFits(c.params[i], args[i])
  }

  /** The conversion of argument `i` is better for `c` than for `d`; only inputs are compared. */
  predicate BetterAt(c: FunctionEntry, d: FunctionEntry, args: seq<Type>, i: nat)
    requires WellFormedArgs(args) && WellFormedEntry(c) && WellFormedEntry(d)
    requires IsViable(c, args) && IsViable(d, args) && i < |args|
  {
    && c.params[i].isInput && d.params[i].isInput
    && Rank(args[i], c.params[i].ty) < Rank(args[i], d.params[i].ty)
  }

  /** No conversion is worse, and at least one is better. */
  predicate Better(c: FunctionEntry, d: FunctionEntry, args: seq<Type>)
    requires WellFormedArgs(args) && WellFormedEntry(c) && WellFormedEntry(d)
    requires IsViable(c, args) && IsViable(d, args)
  {
    && (exists i :: 0 <= i < |args| && BetterAt(c, d, args, i))
    && (forall i :: 0 <= i < |args| ==> !BetterAt(d, c, args, i))
  }

  predicate HasExact(cs: seq<FunctionEntry>, args: seq<Type>) { exists i :: 0 <= i < |cs| && IsExact(cs[i], args) }

  /** Candidate `k` is viable and better than every other viable one. */
  predicate IsBest(cs: seq<FunctionEntry>, args: seq<Type>, k: nat)
    requires WellFormedArgs(args) && WellFormedEntries(cs) && k < |cs|
  {
    && IsViable(cs[k], args)
    && forall j :: 0 <= j < |cs| && j != k && IsViable(cs[j], args) ==> Better(cs[k], cs[j], args)
  }

  lemma BetterIsAsymmetric(c: FunctionEntry, d: FunctionEntry, args: seq<Type>)
    requires WellFormedArgs(args) && WellFormedEntry(c) && WellFormedEntry(d)
    requires IsViable(c, args) && IsViable(d, args) && Better(c, d, args)
    ensures !Better(d, c, args)
  {
  }

  /** At most one candidate can be best, so the search is never ambiguous. */
  lemma BestIsUnique(cs: seq<FunctionEntry>, args: seq<Type>, j: nat, k: nat)
    requires WellFormedArgs(args) && WellFormedEntries(cs) && j < |cs| && k < |cs|
    requires IsBest(cs, args, j) && IsBest(cs, args, k)
    ensures j == k
  {
    if j != k {
      BetterIsAsymmetric(cs[j], cs[k], args);
    }
  }

  // ---------------------------------------------------------------------------------------
  // The search
  // ---------------------------------------------------------------------------------------

  method IsExactMatch(c: FunctionEntry, args: seq<Type>) returns (r: bool)
    requires |c.params| == |args|
    ensures r == IsExact(c, args)
  {
    for i := 0 to |args|
      invariant forall j :: 0 <= j < i ==> SameType(c.params[j].ty, args[j])
    {
      SameNameIffSameType(c.params[i].ty, args[i]);
      if !IsSameWith(c.params[i].ty, args[i]) { return false; }
    }
    return true;
  }

  method IsConvertible(c: FunctionEntry, args: seq<Type>) returns (convertible: bool)
    requires |c.params| == |args|
    ensures convertible == IsViable(c, args)
  {
    for i := 0 to |args|
      invariant forall j :: 0 <= j < i ==> ParamFits(c.params[j], args[j])
    {
      ConvertibleIff(args[i], c.params[i].ty);
      ConvertibleIff(c.params[i].ty, args[i]);
      if c.params[i].isInput && !IsConvertibleTo(args[i], c.params[i].ty) {
        assert !ParamFits(c.params[i], args[i]);
        return false;
      }
      if c.params[i].isOutput && !IsConvertibleTo(c.params[i].ty, args[i]) {
        assert !ParamFits(c.params[i], args[i]);
        return false;
      }
    }
    return true;
  }

  lemma BetterAtIff(c: FunctionEntry, d: FunctionEntry, args: seq<Type>, i: nat)
    requires WellFormedArgs(args) && WellFormedEntry(c) && WellFormedEntry(d)
    requires IsViable(c, args) && IsViable(d, args) && i < |args|
    ensures |c.params| == |d.params| == |args|
    ensures if c.params[i].isInput && d.params[i].isInput then
              && WellFormed(args[i]) && WellFormed(c.params[i].ty) && WellFormed(d.params[i].ty)
              && IsConvertibleTo(args[i], c.params[i].ty) && IsConvertibleTo(args[i], d.params[i].ty)
              && (BetterAt(c, d, args, i) <==> HasBetterConversion(args[i], c.params[i].ty, d.params[i].ty))
            else !BetterAt(c, d, args, i)
  {
    hide Converts, Rank, HasBetterConversion, IsConvertibleTo;
    assert ParamFits(c.params[i], args[i]) && ParamFits(d.params[i], args[i]);
    if c.params[i].isInput && d.params[i].isInput {
      BetterIffLowerRank(args[i], c.params[i].ty, d.params[i].ty);
    }
  }

  /** Count the arguments whose conversion is better for one candidate and for the other. */
  method IsBetter(c: FunctionEntry, d: FunctionEntry, args: seq<Type>) returns (r: bool)
    requires WellFormedArgs(args) && WellFormedEntry(c) && WellFormedEntry(d)
    requires IsViable(c, args) && IsViable(d, args)
    ensures r == Better(c, d, args)
  {
    hide BetterAt, IsViable, WellFormedArgs, WellFormedEntry;
    var numCandidateBetter, numOtherCandidateBetter := 0, 0;
    for i := 0 to |args|
      invariant numCandidateBetter >= 0 && numOtherCandidateBetter >= 0
      invariant numCandidateBetter > 0 <==> exists j :: 0 <= j < i && BetterAt(c, d, args, j)
      invariant numOtherCandidateBetter > 0 <==> exists j :: 0 <= j < i && BetterAt(d, c, args, j)
    {
      BetterAtIff(c, d, args, i);
      BetterAtIff(d, c, args, i);
      if c.params[i].isInput && d.params[i].isInput {
        if HasBetterConversion(args[i], c.params[i].ty, d.params[i].ty) {
          numCandidateBetter := numCandidateBetter + 1;
        }
        if HasBetterConversion(args[i], d.params[i].ty, c.params[i].ty) {
          numOtherCandidateBetter := numOtherCandidateBetter + 1;
        }
      }
    }
    return !(numCandidateBetter == 0 || numOtherCandidateBetter > 0);
  }

  lemma NeedsAsManyParams(c: FunctionEntry, args: seq<Type>)
    requires |c.params| != |args|
    ensures !IsExact(c, args) && !IsViable(c, args)
  {
  }

  /** Positions of viable candidates among the first `n`, in order. */
  predicate AreViable(cs: seq<FunctionEntry>, args: seq<Type>, viable: seq<nat>, n: nat)
    requires n <= |cs|
  {
    && (forall m :: 0 <= m < |viable| ==> viable[m] < n && IsViable(cs[viable[m]], args))
    && (forall l, m :: 0 <= l < m < |viable| ==> viable[l] < viable[m])
  }

  predicate AllViable(cs: seq<FunctionEntry>, args: seq<Type>, viable: seq<nat>, n: nat)
    requires n <= |cs|
  {
    forall k :: 0 <= k < n && IsViable(cs[k], args) ==> exists m :: 0 <= m < |viable| && viable[m] == k
  }

  lemma PushViable(cs: seq<FunctionEntry>, args: seq<Type>, viable: seq<nat>, n: nat)
    requires n < |cs| && AllViable(cs, args, viable, n)
    ensures AllViable(cs, args, viable + [n], n + 1)
  {
    var more := viable + [n];
    forall k | 0 <= k < n + 1 && IsViable(cs[k], args) ensures exists m :: 0 <= m < |more| && more[m] == k {
      if k == n {
        assert more[|viable|] == k;
      } else {
        var m :| 0 <= m < |viable| && viable[m] == k;
        assert more[m] == k;
      }
    }
  }

  /** The viable candidates of a list, by their positions, unless one matches exactly. */
  method FilterCandidates(cs: seq<FunctionEntry>, args: seq<Type>, requireExactMatch: bool)
    returns (exact: Option<nat>, viable: seq<nat>)
    ensures exact.Some? ==> exact.value < |cs| && IsExact(cs[exact.value], args)
    ensures exact.Some? ==> forall j :: 0 <= j < exact.value ==> !IsExact(cs[j], args)
    ensures exact.None? <==> !HasExact(cs, args)
    ensures AreViable(cs, args, viable, |cs|)
    ensures exact.None? ==> if requireExactMatch then viable == [] else AllViable(cs, args, viable, |cs|)
  {
    hide IsViable, IsExact;
    viable := [];
    for n := 0 to |cs|
      invariant forall j :: 0 <= j < n ==> !IsExact(cs[j], args)
      invariant AreViable(cs, args, viable, n)
      invariant if requireExactMatch then viable == [] else AllViable(cs, args, viable, n)
    {
      var candidate := cs[n];
      if |candidate.params| == |args| {
        var isExact := IsExactMatch(candidate, args);
        if isExact { return Some(n), viable; }
        var convertible := IsConvertible(candidate, args);
        if convertible && !requireExactMatch {
          PushViable(cs, args, viable, n);
          viable := viable + [n];
        }
      } else {
        NeedsAsManyParams(candidate, args);
      }
    }
    return None, viable;
  }

  /** A candidate that is better than all others, if there is exactly one. */
  method SelectBest(cs: seq<FunctionEntry>, args: seq<Type>, viable: seq<nat>) returns (best: Option<nat>)
    requires WellFormedArgs(args) && WellFormedEntries(cs)
    requires AreViable(cs, args, viable, |cs|) && AllViable(cs, args, viable, |cs|)
    ensures best.Some? ==> best.value < |cs| && IsBest(cs, args, best.value)
    ensures best.None? ==> forall k :: 0 <= k < |cs| ==> !IsBest(cs, args, k)
  {
    hide Better, IsViable;
    best := None;
    for n := 0 to |viable|
      invariant best.Some? ==>
        best.value < |cs| && IsBest(cs, args, best.value) && exists m :: 0 <= m < n && viable[m] == best.value
      invariant forall m :: 0 <= m < n && IsBest(cs, args, viable[m]) ==> best == Some(viable[m])
    {
      var candidate := viable[n];
      var isAlwaysBetter := IsAlwaysBetter(cs, args, viable, candidate);
      if isAlwaysBetter {
        if best.Some? {
          // Ambiguous: this does not happen.
          BestIsUnique(cs, args, best.value, candidate);
          assert false;
        }
        best := Some(candidate);
      }
    }
  }

  method IsAlwaysBetter(cs: seq<FunctionEntry>, args: seq<Type>, viable: seq<nat>, candidate: nat) returns (r: bool)
    requires WellFormedArgs(args) && WellFormedEntries(cs)
    requires AreViable(cs, args, viable, |cs|) && AllViable(cs, args, viable, |cs|)
    requires candidate < |cs| && IsViable(cs[candidate], args)
    ensures r == IsBest(cs, args, candidate)
  {
    hide Better, IsViable;
    for m := 0 to |viable|
      invariant forall l :: 0 <= l < m && viable[l] != candidate ==> Better(cs[candidate], cs[viable[l]], args)
    {
      var other := viable[m];
      if other != candidate {
        var better := IsBetter(cs[candidate], cs[other], args);
        if !better { return false; }
      }
    }
    return true;
  }
}
