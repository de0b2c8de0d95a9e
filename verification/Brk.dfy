/**
 The program break (api/src/syscall/mm/brk.rs): the heap grows and shrinks by whole pages beyond a
 region that is mapped when the program is loaded (core/src/mm.rs).
 */
module Brk {

  const PAGE_SIZE := 4096
  const USER_HEAP_BASE := 0x4000_0000
  const USER_HEAP_SIZE := 0x1_0000
  const USER_HEAP_SIZE_MAX := 0x2000_0000
  const HEAP_LIMIT := USER_HEAP_BASE + USER_HEAP_SIZE_MAX
  const INITIAL_END := USER_HEAP_BASE + USER_HEAP_SIZE

  function AlignUp(a: nat): nat { (a + PAGE_SIZE - 1) / PAGE_SIZE * PAGE_SIZE }

  function Max(a: nat, b: nat): nat { if a < b then b else a }

  predicate Aligned(a: nat) { a % PAGE_SIZE == 0 }

  predicate PageIn(p: nat, lo: nat, hi: nat) { lo / PAGE_SIZE <= p < hi / PAGE_SIZE }

  /** The numbers of the pages in [lo, hi). */
  function Pages(lo: nat, hi: nat): set<nat> { set p: nat | p < hi / PAGE_SIZE && PageIn(p, lo, hi) }

  /** The end of the mapped heap when the break is at `top`. */
  function MappedEnd(top: nat): nat { Max(INITIAL_END, AlignUp(top)) }

  lemma AlignUpIs(a: nat)
    ensures Aligned(AlignUp(a)) && a <= AlignUp(a) < a + PAGE_SIZE
  {
  }

  /** The least page boundary at or above the address. */
  lemma AlignUpLeast(a: nat, b: nat)
    requires Aligned(b) && a <= b
    ensures AlignUp(a) <= b
  {
    AlignUpIs(a);
    assert AlignUp(a) / PAGE_SIZE <= b / PAGE_SIZE;
  }

  lemma PagesJoin(a: nat, b: nat, c: nat)
    requires a <= b <= c
    ensures Pages(a, b) + Pages(b, c) == Pages(a, c) && Pages(a, b) !! Pages(b, c)
  {
    assert a / PAGE_SIZE <= b / PAGE_SIZE <= c / PAGE_SIZE;
  }

  class Heap {
    var top: nat
    var mapped: set<nat>

    /** Exactly the pages up to the break, and at least the initial region, are mapped. */
    ghost predicate Valid()
      reads this
    {
      USER_HEAP_BASE <= top <= HEAP_LIMIT && mapped == Pages(USER_HEAP_BASE, MappedEnd(top))
    }

    constructor ()
      ensures Valid() && top == USER_HEAP_BASE
    {
      top := USER_HEAP_BASE;
      mapped := Pages(USER_HEAP_BASE, INITIAL_END);
    }

    /** Mapping is all or nothing, and never over a page that is mapped already. */
    method MapArea(start: nat, size: nat, ok: bool)
      requires Aligned(start) && Aligned(size) && size > 0
      requires Pages(start, start + size) !! mapped
      modifies this`mapped
      ensures mapped == if ok then old(mapped) + Pages(start, start + size) else old(mapped)
    {
      if ok { mapped := mapped + Pages(start, start + size); }
    }

    /** Unmapping is all or nothing, and only of pages that are mapped. */
    method UnmapArea(start: nat, size: nat, ok: bool)
      requires Aligned(start) && Aligned(size) && size > 0
      requires Pages(start, start + size) <= mapped
      modifies this`mapped
      ensures mapped == if ok then old(mapped) - Pages(start, start + size) else old(mapped)
    {
      if ok { mapped := mapped - Pages(start, start + size); }
    }

    /** `ok` is whether the address space can map or unmap, if it is asked to. */
    method Brk(address: nat, ok: bool) returns (r: nat)
      requires Valid()
      modifies this
      ensures Valid() && r == top
      ensures top == if USER_HEAP_BASE <= address <= HEAP_LIMIT && (ok || MappedEnd(address) == MappedEnd(old(top)))
                     then address else old(top)
    {
      var currentTop := top;
      if address == 0 { return currentTop; }
      if address < USER_HEAP_BASE || address > HEAP_LIMIT { return currentTop; }
      var newAligned := AlignUp(address);
      var currentAligned := AlignUp(currentTop);
      AlignUpIs(address);
      AlignUpIs(currentTop);
      if newAligned > currentAligned {
        var start := Max(INITIAL_END, currentAligned);
        if newAligned > start {
          PagesJoin(USER_HEAP_BASE, start, newAligned);
          MapArea(start, newAligned - start, ok);
          if !ok { return currentTop; }
        }
      } else if newAligned < currentAligned {
        var start := Max(INITIAL_END, newAligned);
        if currentAligned > start {
          PagesJoin(USER_HEAP_BASE, start, currentAligned);
          UnmapArea(start, currentAligned - start, ok);
          if !ok { return currentTop; }
        }
      }
      top := address;
      r := address;
    }
  }

  /** What the invariant means for the program: an address is mapped exactly when it lies in the initial
      region or its page holds a byte below the break, and never beyond the limit. */
  lemma HeapIsExact(top: nat, a: nat)
    requires USER_HEAP_BASE <= top <= HEAP_LIMIT
    ensures a / PAGE_SIZE in Pages(USER_HEAP_BASE, MappedEnd(top)) <==>
            USER_HEAP_BASE <= a && (a < INITIAL_END || a - a % PAGE_SIZE < top)
    ensures a / PAGE_SIZE in Pages(USER_HEAP_BASE, MappedEnd(top)) ==> a < HEAP_LIMIT
  {
    AlignUpIs(top);
    AlignUpLeast(top, HEAP_LIMIT);
  }
}
