/** Interned strings: an atom is a pointer to a C string in the arena, and equal strings have the same
    pointer. */
module AtomTables {
  import opened Arenas

  predicate NulFree(s: string) { '\0' !in s }

  /** What a string reads like through a pointer to its first character. */
  function CString(s: string): (r: string)
    ensures NulFree(r) && r <= s && (NulFree(s) <==> r == s)
    ensures |r| < |s| ==> s[|r|] == '\0'
  {
    if s == [] || s[0] == '\0' then [] else [s[0]] + CString(s[1..])
  }

  lemma {:induction false} CStringPrefix(w: string, s: string)
    requires s <= w && |s| < |w| && w[|s|] == '\0' && NulFree(s)
    ensures CString(w) == s
    decreases |s|
  {
    if s != [] {
      assert w[0] == s[0] && s[0] in s;
      CStringPrefix(w[1..], s[1..]);
    }
  }

  /** The characters of `s` and a NUL lie at `offset`. */
  predicate StoredIn(bytes: seq<char>, offset: nat, s: string) {
    && offset + |s| < |bytes|
    && s <= bytes[offset..]
    && bytes[offset + |s|] == '\0'
  }

  ghost predicate Stored(p: Pointer, s: string)
    reads p.page.bytes
  {
    StoredIn(p.page.bytes[..], p.offset, s)
  }

  /** Writing elsewhere does not change a stored string. */
  lemma WriteElsewhere(bytes: seq<char>, offset: nat, s: string, k: nat, c: char)
    requires StoredIn(bytes, offset, s) && k < |bytes|
    requires offset + |s| < k || k < offset
    ensures StoredIn(bytes[k := c], offset, s)
  {
    var after := bytes[k := c];
    assert after[offset..][..|s|] == bytes[offset..][..|s|];
  }

  /** A pointer determines the string behind it. */
  lemma StoredUnique(p: Pointer, s: string, t: string)
    requires Stored(p, s) && Stored(p, t) && NulFree(s) && NulFree(t)
    ensures s == t
  {
    CStringPrefix(p.page.bytes[..][p.offset..], s);
    CStringPrefix(p.page.bytes[..][p.offset..], t);
  }

  /** A string that is stored is stored up to its first NUL. */
  lemma StoredCString(p: Pointer, s: string)
    requires Stored(p, s)
    ensures Stored(p, CString(s))
  {
    var w := p.page.bytes[..][p.offset..];
    var r := CString(s);
    assert r <= s <= w;
    if |r| < |s| { assert w[|r|] == s[|r|]; }
  }

  class AtomTable {
    const arena: MemoryArena
    var atomLookup: map<string, Pointer>

    /** The bytes of the atoms of the preamble. */
    ghost const Imported: set<object>

    ghost predicate Valid()
      reads this, arena, arena.Repr, Imported
    {
      && arena.Valid()
      && this !in arena.Repr && this !in Imported && arena !in Imported
      && Imported !! arena.Repr
      && forall s <- atomLookup :: IsAtom(atomLookup[s], s)
    }

    /** A NUL-free string behind a pointer, within the preamble or an allocation of the arena. */
    ghost predicate IsAtom(p: Pointer, s: string)
      reads this, arena, arena.Repr, Imported
    {
      && NulFree(s)
      && (p.page.bytes in Imported || OwnAtom(p, s))
      && p.page.bytes in Imported + arena.Repr
      && Stored(p, s)
    }

    ghost predicate OwnAtom(p: Pointer, s: string)
      reads this, arena
    {
      exists i :: 0 <= i < |arena.Blocks| && Holds(arena.Blocks[i], p, s)
    }

    /** On top of the atoms of a preamble, which must not change any more. */
    constructor (preamble: AtomTable?)
      requires preamble != null ==> preamble.Valid()
      ensures Valid() && fresh(arena) && fresh(arena.Repr)
      ensures atomLookup == if preamble == null then map[] else preamble.atomLookup
    {
      arena := new MemoryArena();
      if preamble == null {
        atomLookup := map[];
        Imported := {};
      } else {
        atomLookup := preamble.atomLookup;
        Imported := preamble.Imported + preamble.arena.Repr;
      }
    }

    /** The atom of a string.  A string is registered as it reads through its pointer. */
    method GetAtom(s: string) returns (r: Pointer)
      requires Valid()
      modifies this, arena, arena.Repr
      ensures Valid() && fresh(arena.Repr - old(arena.Repr))
      ensures s in old(atomLookup) ==> r == old(atomLookup)[s] && atomLookup == old(atomLookup)
      ensures s !in old(atomLookup) ==> atomLookup == old(atomLookup)[CString(s) := r]
      ensures s !in old(atomLookup) ==> forall t <- old(atomLookup) :: old(atomLookup)[t] != r
    {
      if s in atomLookup { return atomLookup[s]; }
      r := AddAtom(s);
      atomLookup := atomLookup[CString(s) := r];
    }

    method AddAtom(s: string) returns (p: Pointer)
      requires Valid()
      modifies arena, arena.Repr
      ensures Valid() && fresh(arena.Repr - old(arena.Repr))
      ensures IsAtom(p, CString(s))
      ensures forall t <- atomLookup :: atomLookup[t] != p
    {
      hide StoredIn, CString;
      ghost var blocks, n := arena.Blocks, |arena.Blocks|;
      assert forall t <- atomLookup :: OwnAtom(atomLookup[t], t) || atomLookup[t].page.bytes in Imported;
      p := arena.Allocate(|s| + 1);
      assert arena.InPage(arena.Blocks[n]);
      forall t | t in atomLookup ensures KeepsAtom(atomLookup[t], t, n) && Apart(atomLookup[t], t, p, s) {
        var q := atomLookup[t];
        if q.page.bytes !in Imported {
          var i :| 0 <= i < |blocks| && Holds(blocks[i], q, t);
          assert arena.Blocks[i] == blocks[i];
          assert arena.InPage(arena.Blocks[i]) && Disjoint(arena.Blocks[i], arena.Blocks[n]);
        }
      }
      WriteString(p, s, atomLookup);
      StoredCString(p, s);
      assert Holds(arena.Blocks[n], p, CString(s));
    }

    /** An atom whose own allocation is among the first `n`. */
    ghost predicate KeepsAtom(q: Pointer, t: string, n: nat)
      reads this, arena, arena.Repr, Imported
    {
      && IsAtom(q, t)
      && (q.page.bytes in Imported || exists i :: 0 <= i < n <= |arena.Blocks| && Holds(arena.Blocks[i], q, t))
    }

    /** The characters and the NUL behind them; strings stored elsewhere stay. */
    static method WriteString(p: Pointer, s: string, ghost others: map<string, Pointer>)
      requires p.offset + |s| < p.page.bytes.Length
      requires forall t <- others :: Stored(others[t], t) && Apart(others[t], t, p, s)
      modifies p.page.bytes
      ensures Stored(p, s)
      ensures forall t <- others :: Stored(others[t], t)
    {
      for i := 0 to |s|
        invariant p.page.bytes[p.offset..p.offset + i] == s[..i]
        invariant forall t <- others :: Stored(others[t], t)
      {
        WriteChar(p, p.offset + i, s[i], s, others);
      }
      WriteChar(p, p.offset + |s|, '\0', s, others);
      assert p.page.bytes[..][p.offset..][..|s|] == s;
    }

    static method WriteChar(p: Pointer, k: nat, c: char, s: string, ghost others: map<string, Pointer>)
      requires p.offset <= k <= p.offset + |s| < p.page.bytes.Length
      requires forall t <- others :: Stored(others[t], t) && Apart(others[t], t, p, s)
      modifies p.page.bytes
      ensures p.page.bytes[..] == old(p.page.bytes[..])[k := c]
      ensures forall t <- others :: Stored(others[t], t)
    {
      ghost var before := p.page.bytes[..];
      p.page.bytes[k] := c;
      assert p.page.bytes[..] == before[k := c];
      forall t | t in others ensures Stored(others[t], t) {
        if others[t].page.bytes == p.page.bytes {
          WriteElsewhere(before, others[t].offset, t, k, c);
        }
      }
    }
  }

  /** The allocation was made for a string of this length. */
  predicate Holds(b: Block, p: Pointer, s: string) { b.page == p.page && b.offset == p.offset && |s| < b.size }

  /** Two strings with their NULs do not overlap. */
  predicate Apart(q: Pointer, t: string, p: Pointer, s: string) {
    q.page.bytes != p.page.bytes || q.offset + |t| < p.offset || p.offset + |s| < q.offset
  }

  /** Interning is exact: whatever was interned before, the atoms of NUL-free strings are the same
      pointer exactly if the strings are equal, and each still reads as its string. */
  method GetAtoms(table: AtomTable, strings: seq<string>) returns (atoms: seq<Pointer>)
    requires table.Valid() && forall i :: 0 <= i < |strings| ==> NulFree(strings[i])
    modifies table, table.arena, table.arena.Repr
    ensures table.Valid() && |atoms| == |strings|
    ensures forall i, j :: 0 <= i < |strings| && 0 <= j < |strings| ==>
      (atoms[i] == atoms[j] <==> strings[i] == strings[j])
    ensures forall i :: 0 <= i < |strings| ==> Stored(atoms[i], strings[i])
    ensures forall t <- old(table.atomLookup) ::
      t in table.atomLookup && table.atomLookup[t] == old(table.atomLookup)[t] && Stored(table.atomLookup[t], t)
  {
    hide StoredIn, Stored;
    atoms := [];
    for n := 0 to |strings|
      invariant table.Valid() && fresh(table.arena.Repr - old(table.arena.Repr)) && |atoms| == n
      invariant forall i :: 0 <= i < n ==> strings[i] in table.atomLookup && table.atomLookup[strings[i]] == atoms[i]
      invariant forall t <- old(table.atomLookup) ::
        t in table.atomLookup && table.atomLookup[t] == old(table.atomLookup)[t]
    {
      var atom := table.GetAtom(strings[n]);
      assert CString(strings[n]) == strings[n];
      atoms := atoms + [atom];
    }
    forall i | 0 <= i < |strings| ensures Stored(atoms[i], strings[i]) {
      assert table.IsAtom(atoms[i], strings[i]);
    }
    forall i, j | 0 <= i < |strings| && 0 <= j < |strings| ensures atoms[i] == atoms[j] <==> strings[i] == strings[j] {
      if atoms[i] == atoms[j] { StoredUnique(atoms[i], strings[i], strings[j]); }
    }
  }

  /** Interning a string with a NUL moves the atom of the part before the NUL. */
  method NulMovesAtom(table: AtomTable) returns (before: Pointer, after: Pointer)
    requires table.Valid() && "a" !in table.atomLookup
    modifies table, table.arena, table.arena.Repr
    ensures before != after && "a" in table.atomLookup && table.atomLookup["a"] == after
  {
    var s := "a\0b";
    assert CString("a") == "a" && CString(s) == "a";
    hide StoredIn, Stored, CString;
    before := table.GetAtom("a");
    assert !NulFree(s) by { assert s[1] == '\0'; }
    assert s !in table.atomLookup && table.atomLookup["a"] == before;
    var other := table.GetAtom(s);
    after := table.GetAtom("a");
  }

  /** The table after interning a string that is not in it: existing atoms keep their pointers exactly
      if the string is NUL-free or its part before the NUL is new. */
  lemma AtomsKeptIff(before: map<string, Pointer>, s: string, r: Pointer)
    requires s !in before && forall t <- before :: before[t] != r
    ensures (forall t <- before :: before[CString(s) := r][t] == before[t]) <==> NulFree(s) || CString(s) !in before
  {
  }
}
