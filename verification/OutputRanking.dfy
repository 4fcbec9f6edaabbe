/** Conversions of output parameters are not ranked, although section 6.1 of the standard ranks the
    conversions of all arguments. */
module OutputRanking {
  import opened Tokens
  import opened Types
  import opened Typing
  import opened Overload
  import opened SymbolTables

  predicate HasOutputsOnly(c: FunctionEntry) { forall i :: 0 <= i < |c.params| ==> !c.params[i].isInput }

  /** Among functions whose parameters are all outputs, one that is not matched exactly is found
      exactly if it is the only viable one. */
  lemma {:induction false} OutputsResolveIffAlone(cs: seq<FunctionEntry>, args: seq<Type>, k: nat)
    requires WellFormedArgs(args) && WellFormedEntries(cs) && k < |cs| && IsViable(cs[k], args)
    requires forall i :: 0 <= i < |cs| ==> HasOutputsOnly(cs[i])
    ensures IsBest(cs, args, k) <==> forall j :: 0 <= j < |cs| && j != k ==> !IsViable(cs[j], args)
  {
    hide Rank, ParamFits;
    forall j | 0 <= j < |cs| && j != k && IsViable(cs[j], args) ensures !Better(cs[k], cs[j], args) {
      assert HasOutputsOnly(cs[k]);
    }
  }

  /** Section 6.1 for two conversions to the type of the argument: an exact match is better than any
      conversion, and then `float` to `double` is better than any other. */
  predicate IsBetterInto(to: ScalarKind, lhsFrom: ScalarKind, rhsFrom: ScalarKind) {
    if lhsFrom == to || rhsFrom == to then lhsFrom == to && rhsFrom != to
    else lhsFrom.Float? && to.Double? && !rhsFrom.Float?
  }

  /** `f(out int)` and `f(out float)`, called with a `double`: the conversion from `float` is better,
      but neither function is found. */
  lemma {:induction false} FloatOutputIsNotPreferred()
    ensures
      var f := FunctionEntry(0, [Param(Scalar(Int), false, true)]);
      var g := FunctionEntry(1, [Param(Scalar(Float), false, true)]);
      var cs, args := [f, g], [Scalar(Double)];
      && WellFormedArgs(args) && WellFormedEntries(cs)
      && IsBetterInto(Double, Float, Int) && !IsBetterInto(Double, Int, Float)
      && Resolution(cs, args, false) == None
  {
    var f := FunctionEntry(0, [Param(Scalar(Int), false, true)]);
    var g := FunctionEntry(1, [Param(Scalar(Float), false, true)]);
    var cs, args := [f, g], [Scalar(Double)];
    forall i | 0 <= i < 2 ensures !IsExact(cs[i], args) && IsViable(cs[i], args) && HasOutputsOnly(cs[i]) {
      assert !SameType(cs[i].params[0].ty, args[0]) && ParamFits(cs[i].params[0], args[0]);
    }
    hide IsExact, IsViable, IsBest;
    OutputsResolveIffAlone(cs, args, 0);
    OutputsResolveIffAlone(cs, args, 1);
    assert IsViable(cs[0], args) && IsViable(cs[1], args);
    assert !IsBest(cs, args, 0) && !IsBest(cs, args, 1);
  }
}
