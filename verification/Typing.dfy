/** Implicit conversions between types, and which of two conversions is better. */
module Typing {
  import opened Types

  predicate IsIntegralPromotion(from: ScalarKind, to: ScalarKind) {
    to.Int? && (from.Int8? || from.Int16? || from.Uint8? || from.Uint16?)
  }

  predicate IsFPPromotion(from: ScalarKind, to: ScalarKind) { to.Double? && (from.Float16? || from.Float?) }

  predicate IsScalarPromotion(from: ScalarKind, to: ScalarKind) {
    IsIntegralPromotion(from, to) || IsFPPromotion(from, to)
  }

  predicate IsIntegralConversion(from: ScalarKind, to: ScalarKind) {
    match from
    case Int => to.Uint? || to.Int64? || to.Uint64?
    case Uint => to.Int64? || to.Uint64?
    case Int8 => to.Uint8? || to.Int16? || to.Uint16? || to.Uint? || to.Int64? || to.Uint64?
    case Int16 => to.Uint16? || to.Uint? || to.Int64? || to.Uint64?
    case Int64 => to.Uint64?
    case Uint8 => to.Int16? || to.Uint16? || to.Uint? || to.Int64? || to.Uint64?
    case Uint16 => to.Uint? || to.Int64? || to.Uint64?
    case _ => false
  }

  predicate IsFPConversion(from: ScalarKind, to: ScalarKind) { to.Float? && from.Float16? }

  predicate IsFPIntegralConversion(from: ScalarKind, to: ScalarKind) {
    match from
    case Int => to.Float? || to.Double?
    case Uint => to.Float? || to.Double?
    case Int8 => to.Float16? || to.Float? || to.Double?
    case Uint8 => to.Float16? || to.Float? || to.Double?
    case Int16 => to.Float16? || to.Float? || to.Double?
    case Uint16 => to.Float16? || to.Float? || to.Double?
    case _ => false
  }

  predicate IsScalarConversion(from: ScalarKind, to: ScalarKind) {
    IsIntegralConversion(from, to) || IsFPConversion(from, to) || IsFPIntegralConversion(from, to)
  }

  predicate IsConvertibleScalar(from: ScalarKind, to: ScalarKind) {
    IsScalarPromotion(from, to) || IsScalarConversion(from, to)
  }

  /** The builtin types have matrices of floating-point scalars only. */
  predicate WellFormed(t: Type) { t.Matrix? ==> t.kind.Float? || t.kind.Double? || t.kind.Float16? }

  predicate IsConvertibleTo(from: Type, to: Type) {
    || IsSameWith(from, to)
    || from.Error?
    || (from.Scalar? && to.Scalar? && IsConvertibleScalar(from.kind, to.kind))
    || (from.Vector? && to.Vector? && from.size == to.size && IsConvertibleScalar(from.kind, to.kind))
    || (from.Matrix? && to.Matrix? && from.dimCol == to.dimCol && from.dimRow == to.dimRow && to.kind.Double?)
  }

  /** The ranking of two conversions of scalars.  The last check of the source looks at the left
      conversion twice; the assertion behind it is never reached. */
  function HasBetterConversionAux(from: ScalarKind, lhsTo: ScalarKind, rhsTo: ScalarKind): bool
    requires from != lhsTo && from != rhsTo
    requires IsConvertibleScalar(from, lhsTo) && IsConvertibleScalar(from, rhsTo)
  {
    if IsScalarPromotion(from, lhsTo) then !IsScalarPromotion(from, rhsTo)
    else if IsScalarPromotion(from, rhsTo) then false
    else if IsIntegralConversion(from, lhsTo) || IsFPConversion(from, lhsTo) then
      !(IsIntegralConversion(from, rhsTo) || IsFPConversion(from, rhsTo))
    else if IsIntegralConversion(from, rhsTo) || IsFPConversion(from, rhsTo) then false
    else if IsFPIntegralConversion(from, lhsTo) && IsFPIntegralConversion(from, lhsTo) then
      lhsTo.Float? && !rhsTo.Float?
    else
      assert false;
      false
  }

  lemma ConvertibleKinds(from: Type, to: Type)
    requires WellFormed(from) && WellFormed(to) && IsConvertibleTo(from, to)
    requires !IsSameWith(from, to) && !from.Error?
    ensures || (from.Scalar? && to.Scalar?)
            || (from.Vector? && to.Vector?)
            || (from.Matrix? && to.Matrix?)
    ensures from.kind != to.kind && IsConvertibleScalar(from.kind, to.kind)
  {
    SameNameIffSameType(from, to);
  }

  function HasBetterConversion(from: Type, lhsTo: Type, rhsTo: Type): bool
    requires WellFormed(from) && WellFormed(lhsTo) && WellFormed(rhsTo)
    requires IsConvertibleTo(from, lhsTo) && IsConvertibleTo(from, rhsTo)
  {
    if IsSameWith(from, lhsTo) then !IsSameWith(from, rhsTo)
    else if IsSameWith(from, rhsTo) then false
    else if from.Error? then false
    else
      ConvertibleKinds(from, lhsTo);
      ConvertibleKinds(from, rhsTo);
      HasBetterConversionAux(from.kind, lhsTo.kind, rhsTo.kind)
  }

  // ---------------------------------------------------------------------------------------
  // What converts into what
  // ---------------------------------------------------------------------------------------

  /** The implicit conversions of scalars in section 4.1.10 of the OpenGL Shading Language 4.60
      specification, and those of the scalars that extensions add, as the code has them. */
  predicate ConvertsKind(from: ScalarKind, to: ScalarKind) {
    match from
    case Int => to.Uint? || to.Float? || to.Double? || to.Int64? || to.Uint64?
    case Uint => to.Float? || to.Double? || to.Int64? || to.Uint64?
    case Float => to.Double?
    case Bool => false
    case Double => false
    case Int8 =>
      || to.Int? || to.Uint? || to.Float? || to.Double?
      || to.Uint8? || to.Int16? || to.Uint16? || to.Int64? || to.Uint64? || to.Float16?
    case Uint8 =>
      || to.Int? || to.Uint? || to.Float? || to.Double?
      || to.Int16? || to.Uint16? || to.Int64? || to.Uint64? || to.Float16?
    case Int16 =>
      || to.Int? || to.Uint? || to.Float? || to.Double?
      || to.Uint16? || to.Int64? || to.Uint64? || to.Float16?
    case Uint16 =>
      to.Int? || to.Uint? || to.Float? || to.Double? || to.Int64? || to.Uint64? || to.Float16?
    case Int64 => to.Uint64?
    case Uint64 => false
    case Float16 => to.Float? || to.Double?
  }

  /** A type converts to itself, a scalar, vector or matrix to one of the same shape whose scalars its
      own convert to; matrices to those of `double` only.  An error converts to everything. */
  predicate Converts(from: Type, to: Type) {
    || SameType(from, to)
    || from.Error?
    || match (from, to)
       case (Scalar(f), Scalar(t)) => ConvertsKind(f, t)
       case (Vector(f, m), Vector(t, n)) => m == n && ConvertsKind(f, t)
       case (Matrix(_, r, c), Matrix(t, rows, columns)) => r == rows && c == columns && t.Double?
       case _ => false
  }

  lemma SameTypeSymmetric(a: Type, b: Type)
    ensures SameType(a, b) <==> SameType(b, a)
  {
    SameNameIffSameType(a, b);
    SameNameIffSameType(b, a);
  }

  lemma ConvertsKindIff(from: ScalarKind, to: ScalarKind)
    ensures IsConvertibleScalar(from, to) <==> ConvertsKind(from, to)
  {
  }

  lemma ConvertibleIff(from: Type, to: Type)
    ensures IsConvertibleTo(from, to) <==> Converts(from, to)
  {
    hide IsSameWith, IsConvertibleScalar, ConvertsKind;
    SameNameIffSameType(from, to);
    if (from.Scalar? && to.Scalar?) || (from.Vector? && to.Vector?) { ConvertsKindIff(from.kind, to.kind); }
  }

  /** Matrices that exist convert as their scalars do, to `double`. */
  lemma MatrixConvertsIff(from: Type, to: Type)
    requires WellFormed(from) && WellFormed(to) && from.Matrix? && from != to
    ensures Converts(from, to)
            <==> && to.Matrix? && from.dimRow == to.dimRow && from.dimCol == to.dimCol
                 && to.kind.Double? && ConvertsKind(from.kind, to.kind)
  {
  }

  /** How good a conversion is: nothing to convert, a promotion, a conversion that stays integral or
      floating, a conversion of an integer to `float`, any other. */
  function KindRank(from: ScalarKind, to: ScalarKind): (r: nat)
    ensures r > 0
  {
    match to
    case Int => 1
    case Double => if from.Float? || from.Float16? then 1 else 4
    case Float => if from.Float16? then 2 else 3
    case Float16 => 4
    case _ => 2
  }

  function Rank(from: Type, to: Type): nat {
    if SameType(from, to) then 0
    else
      match (from, to)
      case (Scalar(f), Scalar(t)) => KindRank(f, t)
      case (Vector(f, _), Vector(t, _)) => KindRank(f, t)
      case (Matrix(f, _, _), Matrix(t, _, _)) => KindRank(f, t)
      case _ => 1
  }

  predicate IsCoreKind(k: ScalarKind) { k.Bool? || k.Int? || k.Uint? || k.Float? || k.Double? }

  /** Section 6.1: an exact match is better than any conversion; then `float` to `double` is better than any other;
      then `float` is a better target than `double` for integers.  Nothing else is ordered. */
  predicate IsPrescribedBetter(from: ScalarKind, lhsTo: ScalarKind, rhsTo: ScalarKind) {
    if from == lhsTo || from == rhsTo then from == lhsTo && from != rhsTo
    else if from.Float? && lhsTo.Double? then !rhsTo.Double?
    else (from.Int? || from.Uint?) && lhsTo.Float? && rhsTo.Double?
  }

  /** On the scalars without extensions, the code ranks two conversions as the standard does, except
      that it prefers `int` to `uint` over conversions to floating-point numbers. */
  lemma RankingIsPrescribedIff(from: ScalarKind, lhsTo: ScalarKind, rhsTo: ScalarKind)
    requires IsCoreKind(from) && IsCoreKind(lhsTo) && IsCoreKind(rhsTo)
    requires IsConvertibleTo(Scalar(from), Scalar(lhsTo)) && IsConvertibleTo(Scalar(from), Scalar(rhsTo))
    ensures HasBetterConversion(Scalar(from), Scalar(lhsTo), Scalar(rhsTo)) == IsPrescribedBetter(from, lhsTo, rhsTo)
            <==> !(from.Int? && lhsTo.Uint? && (rhsTo.Float? || rhsTo.Double?))
  {
    SameNameIffSameType(Scalar(from), Scalar(lhsTo));
    SameNameIffSameType(Scalar(from), Scalar(rhsTo));
    hide CanonicalName;
  }

  lemma RankByTable(from: ScalarKind, to: ScalarKind)
    requires from != to && IsConvertibleScalar(from, to)
    ensures KindRank(from, to)
         == if IsScalarPromotion(from, to) then 1
            else if IsIntegralConversion(from, to) || IsFPConversion(from, to) then 2
            else if to.Float? then 3
            else 4
  {
  }

  /** For conversions, the coded comparison is one of ranks. */
  lemma AuxIffLowerRank(from: ScalarKind, lhsTo: ScalarKind, rhsTo: ScalarKind)
    requires from != lhsTo && from != rhsTo
    requires IsConvertibleScalar(from, lhsTo) && IsConvertibleScalar(from, rhsTo)
    ensures HasBetterConversionAux(from, lhsTo, rhsTo) <==> KindRank(from, lhsTo) < KindRank(from, rhsTo)
    ensures KindRank(from, lhsTo) > 0
  {
    hide KindRank, IsScalarPromotion, IsIntegralConversion, IsFPConversion, IsFPIntegralConversion;
    RankByTable(from, lhsTo);
    RankByTable(from, rhsTo);
  }

  /** Better conversions are those of lower rank; in particular they are strictly and weakly ordered. */
  lemma BetterIffLowerRank(from: Type, lhsTo: Type, rhsTo: Type)
    requires WellFormed(from) && WellFormed(lhsTo) && WellFormed(rhsTo)
    requires Converts(from, lhsTo) && Converts(from, rhsTo)
    ensures IsConvertibleTo(from, lhsTo) && IsConvertibleTo(from, rhsTo)
    ensures HasBetterConversion(from, lhsTo, rhsTo) <==> Rank(from, lhsTo) < Rank(from, rhsTo)
  {
    hide CanonicalName, IsSameWith, IsConvertibleScalar, ConvertsKind, HasBetterConversionAux, KindRank;
    ConvertibleIff(from, lhsTo);
    ConvertibleIff(from, rhsTo);
    SameNameIffSameType(from, lhsTo);
    SameNameIffSameType(from, rhsTo);
    if !from.Error? {
      if !IsSameWith(from, lhsTo) {
        ConvertibleKinds(from, lhsTo);
        AuxIffLowerRank(from.kind, lhsTo.kind, lhsTo.kind);
      }
      if !IsSameWith(from, rhsTo) {
        ConvertibleKinds(from, rhsTo);
        AuxIffLowerRank(from.kind, rhsTo.kind, rhsTo.kind);
      }
      if !IsSameWith(from, lhsTo) && !IsSameWith(from, rhsTo) {
        AuxIffLowerRank(from.kind, lhsTo.kind, rhsTo.kind);
      }
    }
  }
}
