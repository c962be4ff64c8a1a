/** The kernel's own page table: how it is set up at boot, and the identity map with an inaccessible null page. */
module KernelBoot {
  import opened Basics
  import opened Paging
  import opened PhysMemory
  import opened PageEdits
  import opened VirtualMemory

  // ---- The identity map ----

  // All addresses of physical memory lie under one level-1 entry, so their walks stop at the same level.
  lemma SameLevel(m: Memory, root: nat, x: nat, y: nat)
    requires x < MEMSIZE_PHYSICAL && y < MEMSIZE_PHYSICAL
    ensures Walk(m, root, x).level == Walk(m, root, y).level
  {
    var l := Walk(m, root, x).level;
    assert Shift(x, 1) == 0 == Shift(y, 1);
    SameRegionUp(x, y, 1, if l == 0 then 1 else l);
    if l == 0 {
      WalkPrefix(m, root, x, y);
    } else {
      WalkSameRegion(m, root, x, y);
    }
  }

  // What address x of physical memory translates to; the null page stays as it was unless it is cleared.
  function Identity(x: nat, clearNull: bool, before: Translation): Translation {
    if x >= PAGESIZE then Mapped(x, PWU) else if clearNull then Unmapped else before
  }

  // Memory below n is mapped to itself, everything else is as in m0, and all of physical memory is still mappable.
  ghost predicate MappedUpTo(m0: Memory, m: Memory, root: nat, n: nat, clearNull: bool) {
    && (forall x: nat :: x < n ==> Translate(m, root, x) == Identity(x, clearNull, Translate(m0, root, x)))
    && (forall x: nat :: n <= x < TWO_64 ==> Translate(m, root, x) == Translate(m0, root, x))
    && (forall x: nat :: x < MEMSIZE_PHYSICAL ==> Mappable(m, root, x))
  }

  // The page at va now translates as the identity map says, and no other page has changed.
  ghost predicate PageMapped(m: Memory, m': Memory, root: nat, va: nat, clearNull: bool) {
    && (forall x: nat :: va <= x < va + PAGESIZE ==>
          Translate(m', root, x) == Identity(x, clearNull, Translate(m, root, x)))
    && (forall x: nat :: x < TWO_64 && x / PAGESIZE != va / PAGESIZE ==>
          Translate(m', root, x) == Translate(m, root, x))
    && (forall x: nat :: x < TWO_64 && Mappable(m, root, x) ==> Mappable(m', root, x))
  }

  lemma MappedOneMore(m0: Memory, m: Memory, m': Memory, root: nat, va: nat, clearNull: bool)
    requires MappedUpTo(m0, m, root, va, clearNull) && va < MEMSIZE_PHYSICAL && va % PAGESIZE == 0
    requires PageMapped(m, m', root, va, clearNull)
    ensures MappedUpTo(m0, m', root, va + PAGESIZE, clearNull)
  {
  }

  lemma RequestedSelf(va: nat, x: nat)
    requires va % PAGESIZE == 0 && va <= x
    ensures Requested(Word(va / PAGESIZE, {}), PWU, x - va) == Mapped(x, PWU)
  {
    assert PWU * PWU == PWU;
  }

  // it.map(it.va(), PTE_P | PTE_W | PTE_U)
  method MapPage(it: VmIter, ghost clearNull: bool) returns (ok: bool)
    requires it.Valid() && it.Owned() && Mappable(it.machine.mem, it.root, it.va)
    requires 0 < it.va < MEMSIZE_PHYSICAL && it.va % PAGESIZE == 0
    modifies it`slot, it`level, it`perm, it`panicked, it.machine, it.machine.refcount
    ensures it.Valid() && it.Owned()
    ensures ok <==> old(it.level) <= |old(it.machine.FreePages())|
    ensures ok ==> it.level == 0 && PageMapped(old(it.machine.mem), it.machine.mem, it.root, it.va, clearNull)
  {
    var pa := Word(it.va / PAGESIZE, {});
    assert it.MayMap(pa, PWU);
    var r := it.TryMap(pa, PWU);
    ok := r == 0;
    assert it.va >= PAGESIZE;
    if ok {
      forall x: nat | it.va <= x < it.va + PAGESIZE
        ensures Translate(it.machine.mem, it.root, x) == Mapped(x, PWU)
      {
        RequestedSelf(it.va, x);
      }
    }
  }

  // it.map(0, 0)
  method ClearPage(it: VmIter) returns (ok: bool)
    requires it.Valid() && it.Owned() && Mappable(it.machine.mem, it.root, it.va) && it.va == 0
    modifies it`slot, it`level, it`perm, it`panicked, it.machine, it.machine.refcount
    ensures it.Valid() && it.Owned()
    ensures ok && it.level == old(it.level) && |it.machine.FreePages()| == |old(it.machine.FreePages())|
    ensures PageMapped(old(it.machine.mem), it.machine.mem, it.root, it.va, true)
  {
    var r := it.TryMap(ZERO_WORD, {});
    ok := r == 0;
  }

  // The loop body: maps the iterator's page to itself; the null page is unmapped, or left alone.
  method MapToItself(it: VmIter, clearNull: bool, ghost m0: Memory) returns (ok: bool)
    requires it.Valid() && it.Owned() && it.va % PAGESIZE == 0 && it.va < MEMSIZE_PHYSICAL
    requires MappedUpTo(m0, it.machine.mem, it.root, it.va, clearNull)
    modifies it`slot, it`level, it`perm, it`panicked, it.machine, it.machine.refcount
    ensures it.Valid() && it.Owned()
    ensures ok <==> it.va == 0 || old(it.level) <= |old(it.machine.FreePages())|
    ensures ok ==> it.level == if it.va == 0 then old(it.level) else 0
    ensures it.va == 0 ==> |it.machine.FreePages()| == |old(it.machine.FreePages())|
    ensures ok ==> MappedUpTo(m0, it.machine.mem, it.root, it.va + PAGESIZE, clearNull)
  {
    assert Mappable(it.machine.mem, it.root, it.va);
    ok := true;
    if it.va != 0 {
      ok := MapPage(it, clearNull);
    } else if clearNull {
      ok := ClearPage(it);
    }
    if ok {
      MappedOneMore(m0, old(it.machine.mem), it.machine.mem, it.root, it.va, clearNull);
    }
  }

  // it += PAGESIZE
  method NextPage(it: VmIter)
    requires it.Valid() && it.va < MEMSIZE_PHYSICAL && it.va % PAGESIZE == 0
    modifies it`slot, it`level, it`perm, it`panicked, it`va
    ensures it.Valid() && it.va == old(it.va) + PAGESIZE <= MEMSIZE_PHYSICAL && it.va % PAGESIZE == 0
    ensures it.va < MEMSIZE_PHYSICAL ==> it.level == Walk(it.machine.mem, it.root, 0).level
  {
    it.Advance(PAGESIZE);
    if it.va < MEMSIZE_PHYSICAL {
      SameLevel(it.machine.mem, it.root, it.va, 0);
    }
  }

  // The loops in init_kernel_memory(), which skips the null page, and in kernel(), which clears it. `ok` is false when
  // a map() call failed, which halts the kernel: exactly when fewer pages are free than the walk lacks tables.
  method IdentityMap(machine: Machine, root: nat, clearNull: bool) returns (ok: bool)
    requires OwnsTables(machine, root)
    requires forall x: nat :: x < MEMSIZE_PHYSICAL ==> Mappable(machine.mem, root, x)
    modifies machine, machine.refcount
    ensures OwnsTables(machine, root)
    ensures ok <==> old(Walk(machine.mem, root, 0).level <= |machine.FreePages()|)
    ensures ok ==> Walk(machine.mem, root, 0).level == 0
    ensures ok ==> MappedUpTo(old(machine.mem), machine.mem, root, MEMSIZE_PHYSICAL, clearNull)
  {
    var it := new VmIter(machine, root, 0);
    ghost var needed, free := it.level, |machine.FreePages()|;
    while it.va < MEMSIZE_PHYSICAL
      invariant it.Valid() && it.Owned() && it.machine == machine && it.root == root
      invariant it.va <= MEMSIZE_PHYSICAL && it.va % PAGESIZE == 0
      invariant if it.va <= PAGESIZE then it.level == needed && |machine.FreePages()| == free
                else needed <= free && Walk(machine.mem, root, 0).level == 0
      invariant MappedUpTo(old(machine.mem), machine.mem, root, it.va, clearNull)
      decreases MEMSIZE_PHYSICAL - it.va
    {
      SameLevel(machine.mem, root, it.va, 0);
      ok := MapToItself(it, clearNull, old(machine.mem));
      if !ok {
        return;
      }
      SameLevel(machine.mem, root, it.va, 0);
      NextPage(it);
    }
    ok := true;
  }

  // ---- The boot-time tables ----

  const GIGABYTE := 0x4000_0000

  // The large-page entry for gigabyte i, for the kernel only.
  function Giga(i: nat): Word {
    Word(i * 0x4_0000, {P, W, PS})
  }

  // The five pages from page k on hold the kernel's tables as init_kernel_memory first fills them.
  ghost predicate BootTables(m: Memory, k: nat) {
    var zeros := Filled(ZERO_WORD);
    && Content(m, k) == zeros[0 := Word(k + 1, PWU)]
    && Content(m, k + 1) == zeros[0 := Word(k + 2, PWU)][1 := Giga(1)][2 := Giga(2)][3 := Giga(3)]
    && Content(m, k + 2) == zeros[0 := Word(k + 3, PWU)][1 := Word(k + 4, PWU)]
    && Content(m, k + 3) == zeros && Content(m, k + 4) == zeros
  }

  // They are the only tables, each used once.
  lemma BootTableAt(m: Memory, root: nat, l: nat, k: nat)
    requires BootTables(m, root) && root + 5 <= NPAGES && l <= 3
    ensures TableAt(m, root, l, k)
         == if k == 0 then Some(root + 3 - l) else if l == 0 && k == 1 then Some(root + 4) else None
    decreases 3 - l
  {
    if l < 3 {
      BootTableAt(m, root, l + 1, k / 512);
    }
  }

  // The kernel's tables lie in the kernel image.
  ghost predicate InKernelImage(machine: Machine, root: nat)
    reads machine
  {
    KERNEL_START_ADDR <= root * PAGESIZE && (root + 5) * PAGESIZE <= machine.kernelEnd <= MEMSIZE_PHYSICAL
  }

  lemma BootOwned(machine: Machine, root: nat)
    requires machine.Valid() && InKernelImage(machine, root) && BootTables(machine.mem, root)
    ensures OwnsTables(machine, root)
  {
    forall l: nat, k: nat | l <= 3
      ensures TableAt(machine.mem, root, l, k)
           == if k == 0 then Some(root + 3 - l) else if l == 0 && k == 1 then Some(root + 4) else None
    {
      BootTableAt(machine.mem, root, l, k);
    }
  }

  // What they map: the three gigabytes of devices, and nothing else.
  function BootMap(x: nat): Translation {
    if GIGABYTE <= x < 4 * GIGABYTE then Mapped(x, {P, W}) else Unmapped
  }

  // Addresses beyond the first 512 GB use other root entries.
  lemma RootIndex(x: nat)
    requires x < TWO_64 && Canonical(x)
    ensures Index(x, 3) == 0 <==> x < 0x80_0000_0000
    ensures x < 0x80_0000_0000 ==> Index(x, 2) == x / GIGABYTE && Shift(x, 2) == x / GIGABYTE
    ensures x < GIGABYTE ==> Index(x, 1) == x / MEMSIZE_PHYSICAL
  {
    var s0, s1, s2, s3 := Shift(x, 0), Shift(x, 1), Shift(x, 2), Shift(x, 3);
    assert s0 == x / 0x1000 && s1 == s0 / 512 && s2 == s1 / 512 && s3 == s2 / 512;
  }

  // From the level-2 table on, for addresses below 512 GB.
  lemma BootWalkBelow(m: Memory, root: nat, x: nat) returns (c: Cursor, e: Word)
    requires BootTables(m, root) && root + 5 <= NPAGES && x < 0x80_0000_0000
    ensures c == WalkFrom(m, root + 1, 2, x, PWU) && e == Read(m, c.slot) && c.perm == PWU
    ensures if GIGABYTE <= x < 4 * GIGABYTE then c.level == 2 && e == Giga(x / GIGABYTE) else e == ZERO_WORD
    ensures x < MEMSIZE_PHYSICAL ==> c.level == 0
  {
    RootIndex(x);
    var i := x / GIGABYTE;
    c := WalkFrom(m, root + 1, 2, x, PWU);
    e := Read(m, c.slot);
    if i == 0 {
      assert Content(m, root + 1)[0] == Word(root + 2, PWU);
      assert c == WalkFrom(m, root + 2, 1, x, PWU * PWU);
      var j := x / MEMSIZE_PHYSICAL;
      if j <= 1 {
        assert Content(m, root + 2)[j] == Word(root + 3 + j, PWU);
        assert c == WalkFrom(m, root + 3 + j, 0, x, PWU * PWU * PWU);
      } else {
        assert Content(m, root + 2)[j] == ZERO_WORD;
      }
    } else {
      assert Content(m, root + 1)[i] == if i <= 3 then Giga(i) else ZERO_WORD;
    }
  }

  lemma BootWalk(m: Memory, root: nat, x: nat)
    requires BootTables(m, root) && root + 5 <= NPAGES && x < TWO_64
    ensures Translate(m, root, x) == BootMap(x)
    ensures x < MEMSIZE_PHYSICAL ==> Mappable(m, root, x) && Walk(m, root, x).level == 0
    ensures GIGABYTE <= x < 4 * GIGABYTE ==> Walk(m, root, x).level == 2
  {
    if Canonical(x) {
      RootIndex(x);
      if x < 0x80_0000_0000 {
        assert Content(m, root)[0] == Word(root + 1, PWU);
        assert ALL_FLAGS * PWU == PWU;
        var c, e := BootWalkBelow(m, root, x);
        assert Walk(m, root, x) == c;
        SpanConstants();
        if e != ZERO_WORD {
          assert Giga(x / GIGABYTE).low * PWU * PWU == {P, W};
        }
      } else {
        assert Content(m, root)[Index(x, 3)] == ZERO_WORD;
      }
    }
  }

  // The tables of init_kernel_memory(): cleared, linked, and the device gigabytes entered.
  method FillTables(machine: Machine, root: nat)
    requires machine.Valid() && InKernelImage(machine, root)
    modifies machine`mem
    ensures machine.Valid() && BootTables(machine.mem, root)
  {
    var zeros := Filled(ZERO_WORD);
    var m: Memory := machine.mem[root := zeros][root + 1 := zeros][root + 2 := zeros];
    m := m[root + 3 := zeros][root + 4 := zeros];
    m := Write(m, root, 0, Word(root + 1, PWU));
    m := Write(m, root + 1, 0, Word(root + 2, PWU));
    m := Write(m, root + 2, 0, Word(root + 3, PWU));
    m := Write(m, root + 2, 1, Word(root + 4, PWU));
    m := Write(m, root + 1, 1, Giga(1));
    m := Write(m, root + 1, 2, Giga(2));
    m := Write(m, root + 1, 3, Giga(3));
    machine.mem := m;
  }

  // The kernel's address space once it has booted: physical memory for everyone except the null page, the devices for
  // the kernel, and nothing else.
  function KernelMap(x: nat): Translation {
    if PAGESIZE <= x < MEMSIZE_PHYSICAL then Mapped(x, PWU) else BootMap(x)
  }

  // The page-table part of init_kernel_memory(). No map() call can fail, whatever memory held before.
  method InitKernelMemory(machine: Machine, root: nat) returns (ok: bool)
    requires machine.Valid() && InKernelImage(machine, root)
    modifies machine, machine.refcount
    ensures ok && OwnsTables(machine, root) && Walk(machine.mem, root, 0).level == 0
    ensures forall x: nat :: x < TWO_64 ==> Translate(machine.mem, root, x) == KernelMap(x)
    ensures forall x: nat :: x < MEMSIZE_PHYSICAL ==> Mappable(machine.mem, root, x)
  {
    FillTables(machine, root);
    BootOwned(machine, root);
    forall x: nat | x < TWO_64
      ensures Translate(machine.mem, root, x) == BootMap(x)
      ensures x < MEMSIZE_PHYSICAL ==> Mappable(machine.mem, root, x) && Walk(machine.mem, root, x).level == 0
    {
      BootWalk(machine.mem, root, x);
    }
    ok := IdentityMap(machine, root, false);
  }

  // Both passes over the kernel's page table.
  method Boot(machine: Machine, root: nat) returns (ok: bool)
    requires machine.Valid() && InKernelImage(machine, root)
    modifies machine, machine.refcount
    ensures ok && OwnsTables(machine, root)
    ensures forall x: nat :: x < TWO_64 ==> Translate(machine.mem, root, x) == KernelMap(x)
  {
    ok := InitKernelMemory(machine, root);
    ok := IdentityMap(machine, root, true);
  }

  // In the boot-time tables, unmapping a page of a device gigabyte succeeds and unmaps nothing.
  method LargePageStays(machine: Machine, root: nat) returns (r: int)
    requires machine.Valid() && InKernelImage(machine, root)
    modifies machine, machine.refcount
    ensures r == 0 && Translate(machine.mem, root, GIGABYTE) == Mapped(GIGABYTE, {P, W})
  {
    FillTables(machine, root);
    BootOwned(machine, root);
    BootWalk(machine.mem, root, GIGABYTE);
    var it := new VmIter(machine, root, GIGABYTE);
    r := it.TryMap(ZERO_WORD, {});
  }
}
