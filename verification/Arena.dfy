/** The monotonic memory arena: small objects are cut from pages of a fixed size, each large object
    has a page of its own. */
module Arenas {

  const ALIGNMENT: nat := 16
  const REGULAR_PAGE_SIZE: nat := 4096 * 4 - 128
  const LARGE_OBJECT_THRESHOLD: nat := 1024

  /** A page from the system.  Its bytes start at an aligned address, and different pages do not
      overlap. */
  class BufferPage {
    const next: BufferPage?
    const bytes: array<char>
    var used: nat

    constructor (next: BufferPage?, storeSize: nat)
      ensures this.next == next && fresh(bytes) && bytes.Length == storeSize && used == 0
    {
      this.next := next;
      bytes := new char[storeSize](_ => '\0');
      used := 0;
    }
  }

  datatype Pointer = Pointer(page: BufferPage, offset: nat)

  /** An allocation: the bytes from `offset` to `offset + size` of a page. */
  datatype Block = Block(page: BufferPage, offset: nat, size: nat)

  predicate Disjoint(a: Block, b: Block) {
    a.page != b.page || a.offset + a.size <= b.offset || b.offset + b.size <= a.offset
  }

  function AlignAllocationSize(size: nat): (r: nat)
    ensures r % ALIGNMENT == 0 && size <= r < size + ALIGNMENT
  {
    (size + ALIGNMENT - 1) / ALIGNMENT * ALIGNMENT
  }

  class MemoryArena {
    var regularPageHead: BufferPage?
    var largePageHead: BufferPage?

    /** All allocations so far, and all pages with their bytes. */
    ghost var Blocks: seq<Block>
    ghost var Pages: set<BufferPage>
    ghost var Repr: set<object>

    ghost predicate Valid()
      reads this, Repr
    {
      && this !in Repr
      && (forall p <- Pages :: p in Repr && p.bytes in Repr)
      && (forall p <- Pages :: p.used <= p.bytes.Length && p.used % ALIGNMENT == 0)
      && (forall p <- Pages, q <- Pages :: p != q ==> p.bytes != q.bytes)
      && (regularPageHead != null ==> regularPageHead in Pages)
      && (largePageHead != null ==> largePageHead in Pages)
      && (forall i :: 0 <= i < |Blocks| ==> InPage(Blocks[i]))
      && (forall i, j :: 0 <= i < j < |Blocks| ==> Disjoint(Blocks[i], Blocks[j]))
    }

    /** An allocation is aligned and within the used part of its page. */
    ghost predicate InPage(b: Block)
      reads this, Repr
    {
      b.page in Pages && b.page in Repr && b.offset % ALIGNMENT == 0 && b.offset + b.size <= b.page.used
    }

    constructor ()
      ensures Valid() && Blocks == [] && fresh(Repr)
    {
      regularPageHead, largePageHead := null, null;
      Blocks, Pages, Repr := [], {}, {};
    }

    /** The allocation is aligned, in bounds and disjoint from all earlier ones, and no byte of them
        changes. */
    method Allocate(size: nat) returns (r: Pointer)
      requires Valid()
      modifies this, Pages`used
      ensures Valid() && fresh(Repr - old(Repr)) && old(Repr) <= Repr && old(Pages) <= Pages
      ensures Blocks == old(Blocks) + [Block(r.page, r.offset, AlignAllocationSize(size))]
      ensures r.offset + size <= r.page.bytes.Length
    {
      var allocSize := AlignAllocationSize(size);
      if allocSize < LARGE_OBJECT_THRESHOLD {
        r := AllocateSmall(allocSize);
      } else {
        r := AllocateLarge(allocSize);
      }
    }

    method AllocateSmall(size: nat) returns (r: Pointer)
      requires Valid() && size < LARGE_OBJECT_THRESHOLD && size % ALIGNMENT == 0
      modifies this, Pages`used
      ensures Valid() && fresh(Repr - old(Repr)) && old(Repr) <= Repr && old(Pages) <= Pages
      ensures Blocks == old(Blocks) + [Block(r.page, r.offset, size)]
      ensures r.offset + size <= r.page.bytes.Length
      ensures regularPageHead == r.page && largePageHead == old(largePageHead)
      ensures
        var head := old(regularPageHead);
        if head != null && old(head.used) + size <= head.bytes.Length then r == Pointer(head, old(head.used))
        else fresh(r.page) && r.offset == 0 && r.page.bytes.Length == REGULAR_PAGE_SIZE && r.page.next == head
    {
      if regularPageHead == null || regularPageHead.used + size > regularPageHead.bytes.Length {
        regularPageHead := CreateBufferPage(regularPageHead, REGULAR_PAGE_SIZE);
      }
      r := Bump(size);
    }

    /** Cut a piece from the current page. */
    method Bump(size: nat) returns (r: Pointer)
      requires Valid() && size % ALIGNMENT == 0
      requires regularPageHead != null && regularPageHead.used + size <= regularPageHead.bytes.Length
      modifies this`Blocks, regularPageHead`used
      ensures Valid()
      ensures Blocks == old(Blocks) + [Block(r.page, r.offset, size)]
      ensures r == Pointer(regularPageHead, old(regularPageHead.used)) && r.offset + size <= r.page.bytes.Length
    {
      r := Pointer(regularPageHead, regularPageHead.used);
      regularPageHead.used := regularPageHead.used + size;
      Blocks := Blocks + [Block(r.page, r.offset, size)];
    }

    method AllocateLarge(size: nat) returns (r: Pointer)
      requires Valid() && size % ALIGNMENT == 0
      modifies this
      ensures Valid() && fresh(Repr - old(Repr)) && old(Repr) <= Repr && old(Pages) <= Pages
      ensures Blocks == old(Blocks) + [Block(r.page, r.offset, size)]
      ensures fresh(r.page) && r.offset == 0 && r.page.bytes.Length == size
      ensures largePageHead == r.page && r.page.next == old(largePageHead) && regularPageHead == old(regularPageHead)
    {
      largePageHead := CreateBufferPage(largePageHead, size);
      largePageHead.used := size;
      r := Pointer(largePageHead, 0);
      Blocks := Blocks + [Block(r.page, r.offset, size)];
    }

    method CreateBufferPage(head: BufferPage?, storeSize: nat) returns (page: BufferPage)
      requires Valid()
      modifies this`Pages, this`Repr
      ensures Valid() && fresh(Repr - old(Repr)) && old(Repr) <= Repr && old(Pages) <= Pages
      ensures fresh(page) && page in Pages && page.next == head && page.used == 0 && page.bytes.Length == storeSize
      ensures forall b <- Blocks :: b.page != page
    {
      page := new BufferPage(head, storeSize);
      Pages := Pages + {page};
      Repr := Repr + {page, page.bytes};
    }
  }
}
