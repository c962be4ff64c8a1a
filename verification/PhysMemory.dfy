/** Physical memory and the kernel's page allocator. */
module PhysMemory {
  import opened Paging

  const MEMSIZE_PHYSICAL := 0x20_0000
  const NPAGES := 512
  const KERNEL_START_ADDR := 0x4_0000
  const KERNEL_STACK_TOP := 0x8_0000
  const IOPHYSMEM := 0xA_0000
  const EXTPHYSMEM := 0x10_0000

  // memset(page, 0xCC, PAGESIZE)
  const CC_WORD := Word(0xC_CCCC_CCCC_CCCC, {2, 3, 6, 7, 10, 11})

  predicate Reserved(pa: nat) {
    pa < PAGESIZE || IOPHYSMEM <= pa < EXTPHYSMEM
  }

  // `kernelEnd` is the end of the kernel image rounded up to a page.
  predicate Allocatable(kernelEnd: nat, pa: nat) {
    && !Reserved(pa)
    && (pa < KERNEL_START_ADDR || pa >= kernelEnd)
    && (pa < KERNEL_STACK_TOP - PAGESIZE || pa >= KERNEL_STACK_TOP)
    && pa < MEMSIZE_PHYSICAL
  }

  // What is left for allocation: below the kernel image, between it and its stack, up to the I/O hole, and above it.
  lemma AllocatableRanges(kernelEnd: nat, pa: nat)
    requires KERNEL_START_ADDR <= kernelEnd <= KERNEL_STACK_TOP - PAGESIZE
    ensures Allocatable(kernelEnd, pa) <==>
      || 0x1000 <= pa < 0x4_0000 || kernelEnd <= pa < 0x7_F000 || 0x8_0000 <= pa < 0xA_0000
      || 0x10_0000 <= pa < 0x20_0000
  {
  }

  class Machine {
    var mem: Memory
    const refcount: array<nat>
    var nextAllocPa: nat
    const kernelEnd: nat

    constructor (mem: Memory, kernelEnd: nat)
      ensures Valid() && fresh(refcount)
      ensures this.mem == mem && this.kernelEnd == kernelEnd
      ensures forall p: nat :: Free(p) <==> Allocatable(kernelEnd, p * PAGESIZE)
    {
      this.mem, this.kernelEnd := mem, kernelEnd;
      refcount, nextAllocPa := new nat[NPAGES](i => 0), 0;
    }

    ghost predicate Valid()
      reads this
    {
      refcount.Length == NPAGES && nextAllocPa % PAGESIZE == 0
    }

    // A page the allocator may still hand out: allocatable, unused and not yet passed over.
    ghost predicate Free(page: nat)
      requires Valid()
      reads this, refcount
    {
      && Allocatable(kernelEnd, page * PAGESIZE)
      && refcount[page] == 0
      && nextAllocPa <= page * PAGESIZE
    }

    ghost function FreePages(): set<nat>
      requires Valid()
      reads this, refcount
    {
      set p: nat | p < NPAGES && Free(p)
    }

    // The result is the first free page, which stops being free together with all pages below it;
    // 0 means there was none, or that the request exceeds a page.
    method Kalloc(sz: nat) returns (pa: nat)
      requires Valid()
      modifies this, refcount
      ensures Valid()
      ensures pa == 0 ==> mem == old(mem) && (sz <= PAGESIZE ==> forall p: nat :: !old(Free(p)))
      ensures pa == 0 || sz > PAGESIZE ==> refcount[..] == old(refcount[..])
      ensures sz > PAGESIZE ==> pa == 0 && nextAllocPa == old(nextAllocPa)
      ensures pa != 0 ==>
        var page := pa / PAGESIZE;
        && pa == page * PAGESIZE && page < NPAGES
        && old(Free(page)) && (forall p: nat :: p < page ==> !old(Free(p)))
        && mem == old(mem)[page := Filled(CC_WORD)]
        && refcount[..] == old(refcount[..])[page := 1]
      ensures forall p: nat :: Free(p) <==> old(Free(p)) && !(pa != 0 && p == pa / PAGESIZE)
      ensures sz <= PAGESIZE ==> (pa == 0 <==> old(FreePages()) == {})
      ensures FreePages() == if pa == 0 then old(FreePages()) else old(FreePages()) - {pa / PAGESIZE}
    {
      if sz > PAGESIZE {
        return 0;
      }
      while nextAllocPa < MEMSIZE_PHYSICAL
        invariant Valid() && mem == old(mem) && refcount[..] == old(refcount[..])
        invariant forall p: nat :: Free(p) <==> old(Free(p))
        decreases MEMSIZE_PHYSICAL - nextAllocPa
      {
        pa := nextAllocPa;
        ghost var page := pa / PAGESIZE;
        nextAllocPa := nextAllocPa + PAGESIZE;
        if Allocatable(kernelEnd, pa) && refcount[pa / PAGESIZE] == 0 {
          assert old(Free(page)) && page in old(FreePages());
          refcount[pa / PAGESIZE] := 1;
          mem := mem[pa / PAGESIZE := Filled(CC_WORD)];
          assert refcount[..] == old(refcount[..])[page := 1];
          return;
        }
      }
      pa := 0;
    }
  }
}
