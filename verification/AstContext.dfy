/** Type objects, and the cache of array types. */
module AstContexts {
  import opened Types

  // ---------------------------------------------------------------------------------------
  // Type objects
  // ---------------------------------------------------------------------------------------

  class TypeObject {
    const desc: Type

    constructor (desc: Type)
      ensures this.desc == desc
    {
      this.desc := desc;
    }
  }

  type int32 = i: int | -0x8000_0000 <= i < 0x8000_0000

  /** An `int` in C++ as a `size_t`. */
  function ToSizeT(i: int32): (r: nat)
    ensures r < 0x1_0000_0000_0000_0000 && (r - i) % 0x1_0000_0000_0000_0000 == 0
  {
    if i < 0 then i + 0x1_0000_0000_0000_0000 else i
  }

  function Sizes(sizes: seq<int32>): seq<nat> { seq(|sizes|, i requires 0 <= i < |sizes| => ToSizeT(sizes[i])) }

  /** Array types are made once for each element type and size. */
  class AstContext {
    var arrayTypeCache: map<(TypeObject, nat), TypeObject>

    ghost predicate Valid()
      reads this
    {
      forall k <- arrayTypeCache :: arrayTypeCache[k].desc == Array(k.0.desc, k.1)
    }

    constructor ()
      ensures Valid() && arrayTypeCache == map[]
    {
      arrayTypeCache := map[];
    }

    method GetArrayType(elementType: TypeObject, dimSize: nat) returns (r: TypeObject)
      requires Valid()
      modifies this
      ensures Valid()
      ensures elementType.desc.Error? ==> r == elementType && arrayTypeCache == old(arrayTypeCache)
      ensures !elementType.desc.Error? ==>
        && r.desc == Array(elementType.desc, dimSize)
        && (elementType, dimSize) in arrayTypeCache && arrayTypeCache[(elementType, dimSize)] == r
        && arrayTypeCache == old(arrayTypeCache)[(elementType, dimSize) := r]
      ensures (elementType, dimSize) in old(arrayTypeCache) && !elementType.desc.Error? ==>
        r == old(arrayTypeCache)[(elementType, dimSize)]
    {
      if elementType.desc.Error? { return elementType; }
      var key := (elementType, dimSize);
      if key !in arrayTypeCache {
        var made := new TypeObject(Array(elementType.desc, dimSize));
        arrayTypeCache := arrayTypeCache[key := made];
      }
      return arrayTypeCache[key];
    }

    /** The sizes are values of constant expressions; what is not an `int` counts as zero. */
    method GetArrayTypeOfSpec(elementType: TypeObject, sizes: seq<int32>) returns (r: TypeObject)
      requires Valid()
      modifies this
      ensures Valid() && r.desc == ArrayOf(elementType.desc, Sizes(sizes))
      ensures forall k <- old(arrayTypeCache) :: k in arrayTypeCache && arrayTypeCache[k] == old(arrayTypeCache)[k]
    {
      ghost var dims := Sizes(sizes);
      r := elementType;
      if elementType.desc.Error? { return; }
      for i := 0 to |sizes|
        invariant Valid() && r.desc == ArrayOf(elementType.desc, dims[..i]) && !r.desc.Error?
        invariant forall k <- old(arrayTypeCache) :: k in arrayTypeCache && arrayTypeCache[k] == old(arrayTypeCache)[k]
      {
        assert dims[..i + 1][..i] == dims[..i];
        r := GetArrayType(r, ToSizeT(sizes[i]));
      }
      assert dims[..|sizes|] == dims;
    }
  }
}
