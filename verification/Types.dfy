/** Types and their canonical names.  Two types are the same when their canonical names are equal, so
    everything hangs on the mangling being injective. */
module Types {

  datatype ScalarKind =
    | Bool | Int | Uint | Float | Double
    | Int8 | Int16 | Int64 | Uint8 | Uint16 | Uint64 | Float16

  datatype SamplingDim = One | Two | Three | Rect | Cube | Buffer

  /** Where a struct was declared: its name, which may be empty, the translation unit and the index of
      the first token of the declaration. */
  datatype Linkage = Linkage(name: string, tu: nat, token: nat)

  datatype Member = Member(name: string, ty: Type)

  datatype Type =
    | Error
    | Void
    | Scalar(kind: ScalarKind)
    | Vector(kind: ScalarKind, size: nat)
    | Matrix(kind: ScalarKind, dimRow: nat, dimCol: nat)
    | Sampler(dim: SamplingDim)
    | Array(elem: Type, dimSize: nat)
    | Struct(linkage: Linkage, members: seq<Member>)

  // ---------------------------------------------------------------------------------------
  // Decimal numbers
  // ---------------------------------------------------------------------------------------

  function DigitChar(d: nat): char
    requires d < 10
  {
    "0123456789"[d]
  }

  function DigitValue(c: char): nat { if '0' <= c <= '9' then c as int - '0' as int else 0 }

  predicate IsDigit(c: char) { '0' <= c <= '9' }

  predicate AllDigits(s: string) { forall c <- s :: IsDigit(c) }

  function Decimal(n: nat): (r: string)
    ensures r != [] && AllDigits(r)
  {
    if n < 10 then [DigitChar(n)] else Decimal(n / 10) + [DigitChar(n % 10)]
  }

  function Number(s: string): nat {
    if s == [] then 0 else 10 * Number(s[..|s| - 1]) + DigitValue(s[|s| - 1])
  }

  lemma {:induction false} NumberOfDecimal(n: nat)
    ensures Number(Decimal(n)) == n
  {
    var s := Decimal(n);
    if n < 10 {
      assert s[..0] == [] && Number(s[..0]) == 0;
    } else {
      NumberOfDecimal(n / 10);
      assert s[..|s| - 1] == Decimal(n / 10);
    }
  }

  lemma DecimalInjective(m: nat, n: nat)
    ensures Decimal(m) == Decimal(n) <==> m == n
  {
    NumberOfDecimal(m);
    NumberOfDecimal(n);
  }

  // ---------------------------------------------------------------------------------------
  // Names
  // ---------------------------------------------------------------------------------------

  function ScalarName(k: ScalarKind): string {
    match k
    case Bool => "b" case Int => "i" case Uint => "u" case Float => "f" case Double => "d"
    case Int8 => "i8" case Int16 => "i16" case Int64 => "i64"
    case Uint8 => "u8" case Uint16 => "u16" case Uint64 => "u64"
    case Float16 => "f16"
  }

  function SamplerName(d: SamplingDim): string {
    match d
    case One => "s1" case Two => "s2" case Three => "s3"
    case Rect => "srect" case Cube => "scube" case Buffer => "sbuffer"
  }

  function LinkageName(l: Linkage): string { l.name + "@" + Decimal(l.tu) + "_" + Decimal(l.token) }

  function CanonicalName(t: Type): string {
    match t
    case Error => "e"
    case Void => "v"
    case Scalar(k) => ScalarName(k)
    case Vector(k, n) => ScalarName(k) + "v" + Decimal(n)
    case Matrix(k, r, c) => ScalarName(k) + "m" + Decimal(r) + "x" + Decimal(c)
    case Sampler(d) => SamplerName(d)
    case Array(e, n) => CanonicalName(e) + "[" + Decimal(n) + "]"
    case Struct(l, _) => "#" + LinkageName(l)
  }

  predicate IsSameWith(a: Type, b: Type) { CanonicalName(a) == CanonicalName(b) }

  /** Structural equality, with structs compared by where they were declared. */
  predicate SameType(a: Type, b: Type) {
    match a
    case Array(e, n) => b.Array? && n == b.dimSize && SameType(e, b.elem)
    case Struct(l, _) => b.Struct? && l == b.linkage
    case _ => a == b
  }

  // ---------------------------------------------------------------------------------------
  // The last character that is not a digit splits a name in only one way
  // ---------------------------------------------------------------------------------------

  predicate SplitsAs(s: string, front: string, c: char, digits: string) {
    s == front + [c] + digits && !IsDigit(c) && AllDigits(digits)
  }

  lemma DigitsBehind(s: string, front: string, c: char, digits: string)
    requires SplitsAs(s, front, c, digits)
    ensures |s| == |front| + 1 + |digits| && s[|front|] == c
    ensures forall i :: |front| < i < |s| ==> IsDigit(s[i])
  {
    forall i | |front| < i < |s| ensures IsDigit(s[i]) {
      assert s[i] == digits[i - |front| - 1];
    }
  }

  lemma SplitUnique(s: string, f1: string, c1: char, d1: string, f2: string, c2: char, d2: string)
    requires SplitsAs(s, f1, c1, d1) && SplitsAs(s, f2, c2, d2)
    ensures f1 == f2 && c1 == c2 && d1 == d2
  {
    DigitsBehind(s, f1, c1, d1);
    DigitsBehind(s, f2, c2, d2);
    assert |f1| == |f2|;
    assert f1 == s[..|f1|] && f2 == s[..|f2|];
    assert d1 == s[|f1| + 1..] && d2 == s[|f2| + 1..];
  }

  /** The name of a type, split at its last character that is not a digit. */
  function Front(t: Type): string {
    match t
    case Error => ""
    case Void => ""
    case Scalar(_) => ""
    case Vector(k, _) => ScalarName(k)
    case Matrix(k, r, _) => ScalarName(k) + "m" + Decimal(r)
    case Sampler(d) => (match d case Rect => "srec" case Cube => "scub" case Buffer => "sbuffe" case _ => "")
    case Array(e, n) => CanonicalName(e) + "[" + Decimal(n)
    case Struct(l, _) => "#" + l.name + "@" + Decimal(l.tu)
  }

  function Last(t: Type): char {
    match t
    case Error => 'e'
    case Void => 'v'
    case Scalar(k) => ScalarName(k)[0]
    case Vector(_, _) => 'v'
    case Matrix(_, _, _) => 'x'
    case Sampler(d) => (match d case Rect => 't' case Cube => 'e' case Buffer => 'r' case _ => 's')
    case Array(_, _) => ']'
    case Struct(_, _) => '_'
  }

  function Digits(t: Type): string {
    match t
    case Scalar(k) => ScalarName(k)[1..]
    case Vector(_, n) => Decimal(n)
    case Matrix(_, _, c) => Decimal(c)
    case Sampler(d) => (match d case One => "1" case Two => "2" case Three => "3" case _ => "")
    case Struct(l, _) => Decimal(l.token)
    case _ => ""
  }

  lemma NameSplits(t: Type)
    ensures SplitsAs(CanonicalName(t), Front(t), Last(t), Digits(t))
  {
    hide Decimal;
    match t
    case Scalar(k) =>
      assert ScalarName(k) == [ScalarName(k)[0]] + ScalarName(k)[1..];
    case Sampler(d) => SamplerSplits(d);
    case Struct(l, _) =>
      assert "#" + (l.name + "@" + Decimal(l.tu) + "_" + Decimal(l.token))
          == "#" + l.name + "@" + Decimal(l.tu) + ['_'] + Decimal(l.token);
    case _ =>
  }

  lemma SamplerSplits(d: SamplingDim)
    ensures SplitsAs(SamplerName(d), Front(Sampler(d)), Last(Sampler(d)), Digits(Sampler(d)))
  {
  }

  lemma ScalarNameInjective(k: ScalarKind, l: ScalarKind)
    requires ScalarName(k) == ScalarName(l)
    ensures k == l
  {
    assert |ScalarName(k)| == |ScalarName(l)|;
    assert ScalarName(k)[0] == ScalarName(l)[0];
    if |ScalarName(k)| > 1 { assert ScalarName(k)[1] == ScalarName(l)[1]; }
  }

  /** Two parts with a number behind a letter or a bracket. */
  lemma NumberedInjective(f: string, c: char, m: nat, g: string, n: nat)
    requires !IsDigit(c) && f + [c] + Decimal(m) == g + [c] + Decimal(n)
    ensures f == g && m == n
  {
    SplitUnique(f + [c] + Decimal(m), f, c, Decimal(m), g, c, Decimal(n));
    DecimalInjective(m, n);
  }

  /** Canonical names identify types exactly, however deeply arrays are nested. */
  lemma {:induction false} SameNameIffSameType(a: Type, b: Type)
    ensures IsSameWith(a, b) <==> SameType(a, b)
    decreases a
  {
    if IsSameWith(a, b) {
      NameSplits(a);
      NameSplits(b);
      SplitUnique(CanonicalName(a), Front(a), Last(a), Digits(a), Front(b), Last(b), Digits(b));
      SameSplitSameType(a, b);
    } else if a.Array? && b.Array? {
      SameNameIffSameType(a.elem, b.elem);
    }
  }

  lemma {:induction false} SameSplitSameType(a: Type, b: Type)
    requires Front(a) == Front(b) && Last(a) == Last(b) && Digits(a) == Digits(b)
    ensures SameType(a, b)
    decreases a, 0
  {
    SameConstructor(a, b);
    match a
    case Scalar(k) =>
      assert ScalarName(k) == [Last(a)] + Digits(a) == ScalarName(b.kind);
      ScalarNameInjective(k, b.kind);
    case Vector(k, n) =>
      ScalarNameInjective(k, b.kind);
      DecimalInjective(n, b.size);
    case Matrix(k, r, c) =>
      NumberedInjective(ScalarName(k), 'm', r, ScalarName(b.kind), b.dimRow);
      ScalarNameInjective(k, b.kind);
      DecimalInjective(c, b.dimCol);
    case Array(e, n) =>
      NumberedInjective(CanonicalName(e), '[', n, CanonicalName(b.elem), b.dimSize);
      SameNameIffSameType(e, b.elem);
    case Struct(l, _) =>
      NumberedInjective("#" + l.name, '@', l.tu, "#" + b.linkage.name, b.linkage.tu);
      assert ("#" + l.name)[1..] == l.name && ("#" + b.linkage.name)[1..] == b.linkage.name;
      DecimalInjective(l.token, b.linkage.token);
    case _ =>
  }

  /** The last character that is not a digit tells the sorts of types apart. */
  lemma SameConstructor(a: Type, b: Type)
    requires Front(a) == Front(b) && Last(a) == Last(b) && Digits(a) == Digits(b)
    ensures a.Error? == b.Error? && a.Void? == b.Void? && a.Scalar? == b.Scalar? && a.Vector? == b.Vector?
    ensures a.Matrix? == b.Matrix? && a.Sampler? == b.Sampler? && a.Array? == b.Array? && a.Struct? == b.Struct?
    ensures a.Sampler? ==> a == b
  {
    assert a.Vector? ==> Digits(a) != "";
  }

  /** Declarations that start at different tokens, or in different translation units, have different
      linkage names, whatever they are called. */
  lemma {:induction false} LinkageNameInjective(l: Linkage, m: Linkage)
    ensures LinkageName(l) == LinkageName(m) <==> l == m
  {
    if LinkageName(l) == LinkageName(m) {
      var f, g := l.name + "@" + Decimal(l.tu), m.name + "@" + Decimal(m.tu);
      assert LinkageName(l) == f + ['_'] + Decimal(l.token) && LinkageName(m) == g + ['_'] + Decimal(m.token);
      NumberedInjective(f, '_', l.token, g, m.token);
      NumberedInjective(l.name, '@', l.tu, m.name, m.tu);
    }
  }

  // ---------------------------------------------------------------------------------------
  // Array types
  // ---------------------------------------------------------------------------------------

  /** The type of an array declared with sizes in brackets, as the code folds them: the first size is
      the innermost.  There are no arrays of the error type. */
  function ArrayOf(t: Type, dims: seq<nat>): Type {
    if t.Error? || dims == [] then t else Array(ArrayOf(t, dims[..|dims| - 1]), dims[|dims| - 1])
  }

  /** The language makes the first size the outermost: `int a[2][3]` has two elements. */
  function PrescribedArrayOf(t: Type, dims: seq<nat>): Type {
    if t.Error? || dims == [] then t else Array(PrescribedArrayOf(t, dims[1..]), dims[0])
  }

  function Brackets(dims: seq<nat>): string {
    if dims == [] then "" else Brackets(dims[..|dims| - 1]) + "[" + Decimal(dims[|dims| - 1]) + "]"
  }

  function Reversed(dims: seq<nat>): (r: seq<nat>)
    ensures |r| == |dims| && forall i :: 0 <= i < |dims| ==> r[i] == dims[|dims| - 1 - i]
  {
    if dims == [] then [] else Reversed(dims[1..]) + [dims[0]]
  }

  /** The name of an array type spells its sizes in the order of the source. */
  lemma {:induction false} ArrayNameSpellsSizes(t: Type, dims: seq<nat>)
    requires !t.Error?
    ensures CanonicalName(ArrayOf(t, dims)) == CanonicalName(t) + Brackets(dims)
  {
    hide Decimal;
    if dims == [] {
      assert CanonicalName(t) + "" == CanonicalName(t);
    } else {
      var n := |dims| - 1;
      ArrayNameSpellsSizes(t, dims[..n]);
      assert CanonicalName(t) + (Brackets(dims[..n]) + "[" + Decimal(dims[n]) + "]")
          == CanonicalName(t) + Brackets(dims[..n]) + "[" + Decimal(dims[n]) + "]";
    }
  }

  lemma {:induction false} PrescribedIsReversed(t: Type, dims: seq<nat>)
    ensures PrescribedArrayOf(t, dims) == ArrayOf(t, Reversed(dims))
  {
    if dims != [] && !t.Error? {
      PrescribedIsReversed(t, dims[1..]);
      var r := Reversed(dims);
      assert r[..|dims| - 1] == Reversed(dims[1..]) && r[|dims| - 1] == dims[0];
    }
  }

  function Depth(t: Type): nat { if t.Array? then 1 + Depth(t.elem) else 0 }

  lemma {:induction false} ArrayOfInjective(t: Type, dims: seq<nat>, other: seq<nat>)
    requires !t.Error?
    ensures Depth(ArrayOf(t, dims)) == Depth(t) + |dims|
    ensures ArrayOf(t, dims) == ArrayOf(t, other) ==> dims == other
    decreases |dims| + |other|
  {
    if dims != [] { ArrayOfInjective(t, dims[..|dims| - 1], []); }
    if other != [] { ArrayOfInjective(t, other[..|other| - 1], []); }
    if dims != [] && other != [] && ArrayOf(t, dims) == ArrayOf(t, other) {
      ArrayOfInjective(t, dims[..|dims| - 1], other[..|other| - 1]);
      assert dims == dims[..|dims| - 1] + [dims[|dims| - 1]];
      assert other == other[..|other| - 1] + [other[|other| - 1]];
    }
  }

  /** The type is what the language prescribes exactly if the sizes read the same backwards. */
  lemma {:induction false} ArrayAsPrescribedIff(t: Type, dims: seq<nat>)
    requires !t.Error?
    ensures ArrayOf(t, dims) == PrescribedArrayOf(t, dims) <==> dims == Reversed(dims)
  {
    PrescribedIsReversed(t, dims);
    ArrayOfInjective(t, dims, Reversed(dims));
  }

  /** An `int a[2][3]` comes out as three elements of two. */
  lemma SizesAreReversed()
    ensures ArrayOf(Scalar(Int), [2, 3]) == Array(Array(Scalar(Int), 2), 3)
    ensures PrescribedArrayOf(Scalar(Int), [2, 3]) == Array(Array(Scalar(Int), 3), 2)
  {
    assert [2, 3][..1] == [2] && [2][..0] == [] && [2, 3][1..] == [3] && [3][1..] == [];
    assert ArrayOf(Scalar(Int), [2]) == Array(ArrayOf(Scalar(Int), []), 2);
    assert PrescribedArrayOf(Scalar(Int), [3]) == Array(PrescribedArrayOf(Scalar(Int), []), 3);
  }
}
