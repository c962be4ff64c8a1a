/** The memory viewer's usage map, computed by walking page tables with both iterators. */
module MemoryUsage {
  import opened Basics
  import opened Paging
  import opened PhysMemory
  import opened VirtualMemory
  import opened PageTablePages

  const TRACKED_PAGES := 1024   // memusage::maxpa / PAGESIZE

  const F_KERNEL: Flags := {0}
  const F_USER: Flags := {1}

  // 2U << pid, and 2U << 31, which is 0 in 32 bits, for large pids.
  function FProcess(pid: int): Flags {
    if pid >= 30 then {} else if pid >= 1 then {pid + 1} else {}
  }

  const PU := Word(0, {P, U})

  // ---- Naive enumeration ----

  // Address x is user-accessible and lies in physical page q.
  ghost predicate UserAt(m: Memory, root: nat, x: nat, q: nat) {
    && HasPerm(m, root, x, PU)
    && Translate(m, root, x).Mapped? && Translate(m, root, x).pa / PAGESIZE == q
  }

  ghost predicate UserBelow(m: Memory, root: nat, limit: nat, q: nat) {
    exists x: nat :: x < limit && UserAt(m, root, x, q)
  }

  ghost function If(b: bool, f: Flags): Flags {
    if b then f else {}
  }

  // The flags one address space gives to page q.
  ghost function SpaceFlags(m: Memory, root: nat, pid: int, q: nat): Flags {
    If(IsTable(m, root, q), F_KERNEL + FProcess(pid)) + If(UserBelow(m, root, VA_LOWEND, q), F_USER + FProcess(pid))
  }

  datatype Proc = Proc(free: bool, pagetable: Option<nat>)

  // A live process with its own page table.
  predicate Separate(p: Proc, kernelRoot: nat) {
    !p.free && p.pagetable.Some? && p.pagetable.value != kernelRoot
  }

  // The flags given to page q by the kernel's tables and by processes 1 .. n-1.
  ghost function FlagsUpTo(m: Memory, kernelRoot: nat, procs: seq<Proc>, n: nat, q: nat): Flags
    requires n <= |procs|
  {
    if n <= 1 then If(IsTable(m, kernelRoot, q), F_KERNEL)
    else
      FlagsUpTo(m, kernelRoot, procs, n - 1, q)
      + ProcessFlags(m, kernelRoot, procs, n - 1, q)
  }

  // Process pid uses page q as a table, or maps it user-accessible at a low address.
  ghost predicate Uses(m: Memory, kernelRoot: nat, procs: seq<Proc>, pid: nat, q: nat) {
    && 1 <= pid < |procs| && Separate(procs[pid], kernelRoot)
    && (IsTable(m, procs[pid].pagetable.value, q) || UserBelow(m, procs[pid].pagetable.value, VA_LOWEND, q))
  }

  ghost predicate MapsUser(m: Memory, kernelRoot: nat, procs: seq<Proc>, pid: nat, q: nat) {
    && 1 <= pid < |procs| && Separate(procs[pid], kernelRoot)
    && UserBelow(m, procs[pid].pagetable.value, VA_LOWEND, q)
  }

  ghost predicate HasTable(m: Memory, kernelRoot: nat, procs: seq<Proc>, pid: nat, q: nat) {
    && 1 <= pid < |procs| && Separate(procs[pid], kernelRoot)
    && IsTable(m, procs[pid].pagetable.value, q)
  }

  // f_user is set exactly on the pages some process maps user-accessible at a low address.
  lemma {:induction false} UserFlagMeans(m: Memory, kernelRoot: nat, procs: seq<Proc>, n: nat, q: nat)
    requires n <= |procs|
    ensures F_USER <= FlagsUpTo(m, kernelRoot, procs, n, q) <==>
      exists pid: nat :: pid < n && MapsUser(m, kernelRoot, procs, pid, q)
  {
    if n > 1 {
      UserFlagMeans(m, kernelRoot, procs, n - 1, q);
      ProcessFlagsMean(m, kernelRoot, procs, n - 1, q);
    }
  }

  // f_kernel is set exactly on the table pages.
  lemma {:induction false} KernelFlagMeans(m: Memory, kernelRoot: nat, procs: seq<Proc>, n: nat, q: nat)
    requires n <= |procs|
    ensures F_KERNEL <= FlagsUpTo(m, kernelRoot, procs, n, q) <==>
      IsTable(m, kernelRoot, q) || exists pid: nat :: pid < n && HasTable(m, kernelRoot, procs, pid, q)
  {
    if n > 1 {
      KernelFlagMeans(m, kernelRoot, procs, n - 1, q);
      ProcessFlagsMean(m, kernelRoot, procs, n - 1, q);
    }
  }

  // f_process(pid) is set exactly on the pages process pid maps or uses as tables.
  lemma {:induction false} ProcessFlagMeans(m: Memory, kernelRoot: nat, procs: seq<Proc>, n: nat, q: nat, pid: nat)
    requires n <= |procs| && 1 <= pid < 30
    ensures FProcess(pid) <= FlagsUpTo(m, kernelRoot, procs, n, q) <==> pid < n && Uses(m, kernelRoot, procs, pid, q)
  {
    if n > 1 {
      ProcessFlagMeans(m, kernelRoot, procs, n - 1, q, pid);
      ProcessFlagsMean(m, kernelRoot, procs, n - 1, q);
    }
  }

  // The flags process n gives to page q.
  ghost function ProcessFlags(m: Memory, kernelRoot: nat, procs: seq<Proc>, n: nat, q: nat): Flags
    requires n < |procs|
  {
    if Separate(procs[n], kernelRoot) then SpaceFlags(m, procs[n].pagetable.value, n, q) else {}
  }

  lemma ProcessFlagsMean(m: Memory, kernelRoot: nat, procs: seq<Proc>, n: nat, q: nat)
    requires 1 <= n < |procs|
    ensures F_KERNEL <= ProcessFlags(m, kernelRoot, procs, n, q) <==> HasTable(m, kernelRoot, procs, n, q)
    ensures F_USER <= ProcessFlags(m, kernelRoot, procs, n, q) <==> MapsUser(m, kernelRoot, procs, n, q)
    ensures forall pid: nat :: 1 <= pid < 30 ==>
      (FProcess(pid) <= ProcessFlags(m, kernelRoot, procs, n, q) <==> pid == n && Uses(m, kernelRoot, procs, n, q))
  {
  }

  // ---- Without separate page tables ----

  const PROC_START_ADDR := 0x10_0000

  // f_user | f_process((pa - PROC_START_ADDR) / 0x40000 + 1) for page q. Below PROC_START_ADDR the unsigned arithmetic
  // wraps to a process number that is not positive, as here.
  function OwnerFlags(q: nat): Flags {
    F_USER + FProcess((q - PROC_START_ADDR / PAGESIZE) / 0x40 + 1)
  }

  // Process pid's share of physical memory when all processes use the kernel's page table.
  predicate InShare(pid: nat, q: nat) {
    PROC_START_ADDR + (pid - 1) * 0x4_0000 <= q * PAGESIZE < PROC_START_ADDR + pid * 0x4_0000
  }

  // A page is marked for the process in whose share it lies, and below the shares for none.
  lemma OwnerFlagsMean(q: nat, pid: nat)
    requires 1 <= pid < 30
    ensures F_USER <= OwnerFlags(q) && !(F_KERNEL <= OwnerFlags(q))
    ensures FProcess(pid) <= OwnerFlags(q) <==> InShare(pid, q)
    ensures InShare(pid, q) ==> OwnerFlags(q) == F_USER + FProcess(pid)
    ensures q * PAGESIZE < PROC_START_ADDR ==> OwnerFlags(q) == F_USER
  {
    var owner := (q - PROC_START_ADDR / PAGESIZE) / 0x40;
    assert InShare(pid, q) <==> owner == pid - 1;
  }

  // Address x is user-accessible and maps to a used page of physical memory.
  ghost predicate Claimable(m: Memory, refs: seq<nat>, root: nat, x: nat) {
    && HasPerm(m, root, x, PU) && Translate(m, root, x).Mapped?
    && var q := Translate(m, root, x).pa / PAGESIZE;
    q < NPAGES && q < |refs| && refs[q] != 0
  }

  // The walk to x stops at an entry that covers y too.
  predicate SameEntry(m: Memory, root: nat, x: nat, y: nat) {
    Shift(x, Walk(m, root, x).level) == Shift(y, Walk(m, root, x).level)
  }

  // The loop leaves an entry at its first address that is not claimable.
  ghost predicate Claims(m: Memory, refs: seq<nat>, root: nat, x: nat, q: nat) {
    && Claimable(m, refs, root, x) && Translate(m, root, x).pa / PAGESIZE == q
    && forall y: nat :: y < x && SameEntry(m, root, x, y) ==> Claimable(m, refs, root, y)
  }

  ghost predicate ClaimedBelow(m: Memory, refs: seq<nat>, root: nat, limit: nat, q: nat) {
    exists x: nat :: x < limit && Claims(m, refs, root, x, q)
  }

  // Every address of va's entry before va is claimable.
  ghost predicate EntryClaimed(m: Memory, refs: seq<nat>, root: nat, va: nat) {
    forall y: nat :: y < va && SameEntry(m, root, va, y) ==> Claimable(m, refs, root, y)
  }

  // Addresses of one page are claimable together.
  lemma PageClaimable(m: Memory, refs: seq<nat>, root: nat, x: nat, y: nat)
    requires x < TWO_64 && y < TWO_64 && Shift(x, 0) == Shift(y, 0)
    ensures Walk(m, root, x) == Walk(m, root, y)
    ensures Translate(m, root, x).Mapped? ==>
      Translate(m, root, y).Mapped? && Translate(m, root, x).pa / PAGESIZE == Translate(m, root, y).pa / PAGESIZE
    ensures Claimable(m, refs, root, x) ==> Claimable(m, refs, root, y)
  {
    var c := Walk(m, root, x);
    SameRegionUp(x, y, 0, c.level);
    WalkSameRegion(m, root, x, y);
    SamePhysicalPage(Read(m, c.slot), c.level, x, y);
  }

  // Without user-accessible large pages the loop marks exactly the used pages user-accessible at a low address.
  lemma ClaimsAreNaive(m: Memory, refs: seq<nat>, root: nat, q: nat)
    requires forall x: nat :: x < VA_LOWEND && HasPerm(m, root, x, PU) ==> Walk(m, root, x).level == 0
    ensures ClaimedBelow(m, refs, root, VA_LOWEND, q)
       <==> UserBelow(m, root, VA_LOWEND, q) && q < NPAGES && q < |refs| && refs[q] != 0
  {
    if UserBelow(m, root, VA_LOWEND, q) && q < NPAGES && q < |refs| && refs[q] != 0 {
      var x: nat :| x < VA_LOWEND && UserAt(m, root, x, q);
      forall y: nat | y < x && SameEntry(m, root, x, y)
        ensures Claimable(m, refs, root, y)
      {
        PageClaimable(m, refs, root, x, y);
      }
      assert Claims(m, refs, root, x, q);
    }
    if ClaimedBelow(m, refs, root, VA_LOWEND, q) {
      var x: nat :| x < VA_LOWEND && Claims(m, refs, root, x, q);
      assert UserAt(m, root, x, q);
    }
  }

  // Addresses between two of one region are in that region.
  lemma Between(x: nat, y: nat, z: nat, level: nat)
    requires x <= y <= z && Shift(x, level) == Shift(z, level)
    ensures Shift(y, level) == Shift(x, level)
  {
    RegionBounds(x, level);
    RegionBounds(z, level);
    InRegion(y, Shift(x, level), level);
  }

  // One page further inside a claimable stretch.
  lemma ClaimedFurther(m: Memory, refs: seq<nat>, root: nat, va: nat)
    requires va < VA_LOWEND && Claimable(m, refs, root, va) && EntryClaimed(m, refs, root, va)
    ensures EntryClaimed(m, refs, root, RegionLimit(va, 0))
    ensures forall x: nat :: va <= x < RegionLimit(va, 0) ==> EntryClaimed(m, refs, root, x)
  {
    RegionLimitFacts(va, 0);
    forall x: nat, y: nat | va <= x <= RegionLimit(va, 0) && y < x && SameEntry(m, root, x, y)
      ensures Claimable(m, refs, root, y)
    {
      if va <= y {
        PageClaimable(m, refs, root, va, y);
      } else {
        Between(y, va, x, Walk(m, root, x).level);
        WalkSameRegion(m, root, x, va);
        assert SameEntry(m, root, va, y);
      }
    }
  }

  lemma ClaimsHere(m: Memory, refs: seq<nat>, root: nat, va: nat, x: nat, q: nat)
    requires va < TWO_64 && x < TWO_64 && Shift(va, 0) == Shift(x, 0)
    requires Claimable(m, refs, root, va) && EntryClaimed(m, refs, root, x)
    ensures Claims(m, refs, root, x, q) <==> q == Translate(m, root, va).pa / PAGESIZE
  {
    PageClaimable(m, refs, root, va, x);
  }

  lemma ClaimStep(m: Memory, refs: seq<nat>, root: nat, va: nat, q: nat)
    requires va < VA_LOWEND && Claimable(m, refs, root, va) && EntryClaimed(m, refs, root, va)
    ensures ClaimedBelow(m, refs, root, RegionLimit(va, 0), q)
       <==> ClaimedBelow(m, refs, root, va, q) || q == Translate(m, root, va).pa / PAGESIZE
  {
    RegionLimitFacts(va, 0);
    ClaimedFurther(m, refs, root, va);
    if q == Translate(m, root, va).pa / PAGESIZE {
      ClaimsHere(m, refs, root, va, va, q);
    } else if ClaimedBelow(m, refs, root, RegionLimit(va, 0), q) {
      var x: nat :| x < RegionLimit(va, 0) && Claims(m, refs, root, x, q);
      if va <= x {
        ClaimsHere(m, refs, root, va, x, q);
      }
    }
  }

  // The rest of an entry is skipped from its first address that is not claimable.
  lemma SkipStep(m: Memory, refs: seq<nat>, root: nat, va: nat, q: nat)
    requires va < VA_LOWEND && !Claimable(m, refs, root, va)
    ensures
      var limit := RegionLimit(va, Walk(m, root, va).level);
      ClaimedBelow(m, refs, root, limit, q) <==> ClaimedBelow(m, refs, root, va, q)
  {
    var l := Walk(m, root, va).level;
    RegionLimitFacts(va, l);
    RangeSharesEntry(m, root, va);
    forall x: nat | va <= x < RegionLimit(va, l)
      ensures !Claims(m, refs, root, x, q)
    {
      assert SameEntry(m, root, x, va);
    }
  }

  // The address after an entry starts the next one.
  lemma EntryStarts(m: Memory, root: nat, va: nat, y: nat)
    requires va < VA_LOWEND && y < RegionLimit(va, Walk(m, root, va).level)
    ensures !SameEntry(m, root, RegionLimit(va, Walk(m, root, va).level), y)
  {
    var l := Walk(m, root, va).level;
    var limit := RegionLimit(va, l);
    var last := limit - 1;
    RegionLimitFacts(va, l);
    RegionBounds(limit, l);
    if SameEntry(m, root, limit, y) {
      Between(y, last, limit, Walk(m, root, limit).level);
      WalkSameRegion(m, root, limit, last);
      WalkSameRegion(m, root, va, last);
    }
  }

  // The flags are those of the claims below the limit.
  ghost predicate ClaimsMarked(now: seq<Flags>, before: seq<Flags>, m: Memory, refs: seq<nat>, root: nat, limit: nat) {
    && |now| == |before|
    && forall q :: 0 <= q < |now| ==> now[q] == before[q] + If(ClaimedBelow(m, refs, root, limit, q), OwnerFlags(q))
  }

  lemma MarkedClaim(now: seq<Flags>, mid: seq<Flags>, before: seq<Flags>, m: Memory, refs: seq<nat>, root: nat, va: nat)
    requires va < VA_LOWEND && Claimable(m, refs, root, va) && EntryClaimed(m, refs, root, va)
    requires ClaimsMarked(mid, before, m, refs, root, va)
    requires
      var p := Translate(m, root, va).pa / PAGESIZE;
      |now| == |mid| && forall q :: 0 <= q < |now| ==> now[q] == mid[q] + If(q == p, OwnerFlags(p))
    ensures ClaimsMarked(now, before, m, refs, root, RegionLimit(va, 0))
    ensures EntryClaimed(m, refs, root, RegionLimit(va, 0))
  {
    ClaimedFurther(m, refs, root, va);
    forall q: nat | q < |now| {
      ClaimStep(m, refs, root, va, q);
    }
  }

  lemma MarkedSkip(now: seq<Flags>, before: seq<Flags>, m: Memory, refs: seq<nat>, root: nat, va: nat)
    requires va < VA_LOWEND && !Claimable(m, refs, root, va) && ClaimsMarked(now, before, m, refs, root, va)
    ensures ClaimsMarked(now, before, m, refs, root, RegionLimit(va, Walk(m, root, va).level))
    ensures EntryClaimed(m, refs, root, RegionLimit(va, Walk(m, root, va).level))
  {
    forall q: nat | q < |now| {
      SkipStep(m, refs, root, va, q);
    }
    forall y: nat | y < RegionLimit(va, Walk(m, root, va).level) {
      EntryStarts(m, root, va, y);
    }
  }

  // ---- The whole map ----

  // What refresh leaves in page q's flags: the flags of all address spaces, and the viewer's own page if some process
  // has its own page table, or the pages claimed by address if none has.
  ghost function FinalFlags(m: Memory, refs: seq<nat>, kernelRoot: nat, procs: seq<Proc>, own: nat, q: nat): Flags {
    FlagsUpTo(m, kernelRoot, procs, |procs|, q)
    + if AnySeparate(kernelRoot, procs) then If(q == own, F_KERNEL)
      else If(ClaimedBelow(m, refs, kernelRoot, VA_LOWEND, q), OwnerFlags(q))
  }

  ghost predicate AnySeparate(kernelRoot: nat, procs: seq<Proc>) {
    exists pid: nat :: 1 <= pid < |procs| && Separate(procs[pid], kernelRoot)
  }

  // The bit of a process: the process uses the page, or owns it by address when no process has its own page table.
  lemma FinalProcessFlag(m: Memory, refs: seq<nat>, kernelRoot: nat, procs: seq<Proc>, own: nat, q: nat, pid: nat)
    requires 1 <= pid < 30
    ensures FProcess(pid) <= FinalFlags(m, refs, kernelRoot, procs, own, q) <==>
      if AnySeparate(kernelRoot, procs) then Uses(m, kernelRoot, procs, pid, q)
      else InShare(pid, q) && ClaimedBelow(m, refs, kernelRoot, VA_LOWEND, q)
  {
    ProcessFlagMeans(m, kernelRoot, procs, |procs|, q, pid);
    OwnerFlagsMean(q, pid);
  }

  // The user bit: some process maps the page user-accessible at a low address, or it is claimed by address.
  lemma FinalUserFlag(m: Memory, refs: seq<nat>, kernelRoot: nat, procs: seq<Proc>, own: nat, q: nat)
    ensures F_USER <= FinalFlags(m, refs, kernelRoot, procs, own, q) <==>
      if AnySeparate(kernelRoot, procs) then exists pid: nat :: MapsUser(m, kernelRoot, procs, pid, q)
      else ClaimedBelow(m, refs, kernelRoot, VA_LOWEND, q)
  {
    UserFlagMeans(m, kernelRoot, procs, |procs|, q);
    OwnerFlagsMean(q, 1);
  }

  // The kernel bit: a table page, or the viewer's own page if some process has its own page table.
  lemma FinalKernelFlag(m: Memory, refs: seq<nat>, kernelRoot: nat, procs: seq<Proc>, own: nat, q: nat)
    ensures F_KERNEL <= FinalFlags(m, refs, kernelRoot, procs, own, q) <==>
      || IsTable(m, kernelRoot, q) || (exists pid: nat :: HasTable(m, kernelRoot, procs, pid, q))
      || (AnySeparate(kernelRoot, procs) && q == own)
  {
    KernelFlagMeans(m, kernelRoot, procs, |procs|, q);
    OwnerFlagsMean(q, 1);
  }

  // marked_pid(v) is lsb(v >> 2): the position of the lowest bit set from bit 2 on, bit 2 counting as 1, or 0.
  ghost predicate IsMarkedPid(v: Flags, pid: nat) {
    if pid == 0 then forall b :: b in v ==> b < 2
    else pid + 1 in v && forall b :: b in v && b >= 2 ==> pid + 1 <= b
  }

  // It finds the process of a flag again, and in general the lowest process marked.
  lemma MarkedPidInverts(v: Flags, pid: nat)
    requires v <= F_KERNEL + F_USER && 1 <= pid < 30
    ensures IsMarkedPid(v + FProcess(pid), pid) && IsMarkedPid(v, 0)
  {
  }

  lemma MarkedPidIsLowest(m: Memory, refs: seq<nat>, kernelRoot: nat, procs: seq<Proc>, own: nat, q: nat, pid: nat)
    requires 1 <= pid < 30 && IsMarkedPid(FinalFlags(m, refs, kernelRoot, procs, own, q), pid)
    requires AnySeparate(kernelRoot, procs)
    ensures Uses(m, kernelRoot, procs, pid, q)
    ensures forall other: nat :: 1 <= other < pid ==> !Uses(m, kernelRoot, procs, other, q)
  {
    FinalProcessFlag(m, refs, kernelRoot, procs, own, q, pid);
    forall other: nat | 1 <= other < pid
      ensures !Uses(m, kernelRoot, procs, other, q)
    {
      FinalProcessFlag(m, refs, kernelRoot, procs, own, q, other);
    }
  }

  // ---- Lemmas on the two loops ----

  // Addresses of one page translate into one physical page.
  lemma SamePhysicalPage(e: Word, level: nat, x: nat, y: nat)
    requires level <= 3 && x / PAGESIZE == y / PAGESIZE
    ensures Physical(e, level, x) / PAGESIZE == Physical(e, level, y) / PAGESIZE
  {
    SameRegionUp(x, y, 0, level);
    var k := WholePages(Shift(x, level), level);
    var d := (if level > 0 then Frame(e) / 2 * 2 else Frame(e)) - k;
    PagesApart(Physical(e, level, x), x, d);
    PagesApart(Physical(e, level, y), y, d);
  }

  lemma WholePages(n: nat, level: nat) returns (k: nat)
    ensures n * Span(level) == PAGESIZE * k
  {
    SpanIsPages(level);
    var c: nat :| Span(level) == PAGESIZE * c;
    k := n * c;
    assert n * (PAGESIZE * c) == PAGESIZE * (n * c);
  }

  lemma PagesApart(pa: nat, x: nat, d: int)
    requires pa == PAGESIZE * d + x
    ensures pa / PAGESIZE == d + x / PAGESIZE
  {
  }

  // One page further: only the current page is added.
  lemma UserPageStep(m: Memory, root: nat, va: nat, q: nat)
    requires va < VA_LOWEND && HasPerm(m, root, va, PU) && Translate(m, root, va).Mapped?
    ensures UserBelow(m, root, RegionLimit(va, 0), q)
       <==> UserBelow(m, root, va, q) || q == Translate(m, root, va).pa / PAGESIZE
  {
    RegionLimitFacts(va, 0);
    var c := Walk(m, root, va);
    forall x: nat | va <= x < RegionLimit(va, 0)
      ensures UserAt(m, root, x, q) <==> q == Translate(m, root, va).pa / PAGESIZE
    {
      SameRegionUp(va, x, 0, c.level);
      WalkSameRegion(m, root, va, x);
      SamePhysicalPage(Read(m, c.slot), c.level, va, x);
    }
    if q == Translate(m, root, va).pa / PAGESIZE {
      assert UserAt(m, root, va, q);
    } else if UserBelow(m, root, RegionLimit(va, 0), q) {
      var x: nat :| x < RegionLimit(va, 0) && UserAt(m, root, x, q);
      assert x < va;
    }
  }

  // A range that is not user-accessible adds nothing.
  lemma RangeStep(m: Memory, root: nat, va: nat, q: nat)
    requires va < VA_LOWEND && !HasPerm(m, root, va, PU)
    ensures UserBelow(m, root, RegionLimit(va, Walk(m, root, va).level), q) <==> UserBelow(m, root, va, q)
  {
    RegionLimitFacts(va, Walk(m, root, va).level);
    RangeSharesEntry(m, root, va);
  }

  // The flags were added to exactly the given pages.
  ghost predicate Added(now: seq<Flags>, before: seq<Flags>, pages: set<nat>, flags: Flags) {
    |now| == |before| && forall q :: 0 <= q < |now| ==> now[q] == before[q] + If(q in pages, flags)
  }

  lemma AddedMore(now: seq<Flags>, mid: seq<Flags>, before: seq<Flags>, pages: set<nat>, p: nat, flags: Flags)
    requires Added(mid, before, pages, flags) && Added(now, mid, {p}, flags)
    ensures Added(now, before, pages + {p}, flags)
  {
  }

  // The pages of the first n tables of the post-order.
  ghost function FirstTables(m: Memory, root: nat, n: nat): set<nat> {
    var order := PostOrder(Tables(m, root));
    Pages(m, root, if n <= |order| then order[..n] else order)
  }

  lemma FirstTablesEnds(m: Memory, root: nat)
    ensures FirstTables(m, root, 0) == {}
    ensures FirstTables(m, root, |PostOrder(Tables(m, root))|) == Pages(m, root, PostOrder(Tables(m, root)))
  {
    var order := PostOrder(Tables(m, root));
    assert order[..0] == [] && order[..|order|] == order;
  }

  lemma WalkedLength(it: PtIter, n: nat)
    requires Walked(it, n)
    ensures n <= |PostOrder(Tables(it.orig, it.root))|
    ensures it.Active() <==> n < |PostOrder(Tables(it.orig, it.root))|
  {
  }

  class MemUsage {
    const machine: Machine
    const v: array<Flags>
    var vPa: nat              // physical address of the flag array, 0 before the first refresh

    constructor (machine: Machine)
      ensures v.Length == TRACKED_PAGES && fresh(v) && this.machine == machine && vPa == 0
    {
      this.machine := machine;
      v, vPa := new Flags[TRACKED_PAGES](i => {}), 0;
    }

    // Safe to call for every physical address.
    method Mark(pa: nat, flags: Flags)
      requires v.Length == TRACKED_PAGES
      modifies v
      ensures forall q :: 0 <= q < TRACKED_PAGES ==> v[q] == old(v[q]) + If(q == pa / PAGESIZE, flags)
    {
      if pa < TRACKED_PAGES * PAGESIZE {
        v[pa / PAGESIZE] := v[pa / PAGESIZE] + flags;
      }
    }

    method MarkPage(page: nat, flags: Flags)
      requires v.Length == TRACKED_PAGES
      modifies v
      ensures Added(v[..], old(v[..]), {page}, flags)
    {
      assert page * PAGESIZE / PAGESIZE == page;
      Mark(page * PAGESIZE, flags);
    }

    // mark(it.pa(), flags) and it.next().
    method MarkCurrent(it: PtIter, flags: Flags, ghost n: nat, ghost before: seq<Flags>)
      requires v.Length == TRACKED_PAGES && Walked(it, n) && it.Active()
      requires Added(v[..], before, FirstTables(it.orig, it.root, n), flags)
      modifies v, it`slot, it`level, it`va, it`touched
      ensures Walked(it, n + 1) && Added(v[..], before, FirstTables(it.orig, it.root, n + 1), flags)
    {
      ghost var mid := v[..];
      WalkedLength(it, n);
      var page := PageAndNext(it, n);
      MarkPage(page, flags);
      AddedMore(v[..], mid, before, FirstTables(it.orig, it.root, n), page, flags);
    }

    // Marks every table page the iterator delivers.
    method MarkDelivered(it: PtIter, flags: Flags)
      requires v.Length == TRACKED_PAGES && Walked(it, 0)
      modifies v, it`slot, it`level, it`va, it`touched
      ensures Added(v[..], old(v[..]), Pages(it.orig, it.root, PostOrder(Tables(it.orig, it.root))), flags)
    {
      ghost var n, before, len := 0, v[..], |PostOrder(Tables(it.orig, it.root))|;
      FirstTablesEnds(it.orig, it.root);
      while it.Active()
        invariant Walked(it, n) && n <= len && Added(v[..], before, FirstTables(it.orig, it.root, n), flags)
        decreases len - n
      {
        WalkedLength(it, n);
        MarkCurrent(it, flags, n, before);
        n := n + 1;
      }
      WalkedLength(it, n);
    }

    // Marks every table page of an address space.
    method MarkTables(root: nat, flags: Flags)
      requires v.Length == TRACKED_PAGES
      modifies v
      ensures forall q :: 0 <= q < TRACKED_PAGES ==> v[q] == old(v[q]) + If(IsTable(machine.mem, root, q), flags)
    {
      var it := new PtIter(machine, root, 0);
      MarkDelivered(it, flags);
      MarkPage(root, flags);
      forall q: nat {
        TablePages(machine.mem, root, q);
      }
    }

    // Marks every physical page that is user-accessible at a low address.
    method MarkUser(root: nat, flags: Flags)
      requires v.Length == TRACKED_PAGES
      modifies v
      ensures forall q :: 0 <= q < TRACKED_PAGES ==>
        v[q] == old(v[q]) + If(UserBelow(machine.mem, root, VA_LOWEND, q), flags)
    {
      var it := new VmIter(machine, root, 0);
      ghost var m := machine.mem;
      while it.va < VA_LOWEND
        invariant it.Valid() && it.machine == machine && it.root == root && machine.mem == m
        invariant it.va <= VA_LOWEND
        invariant forall q :: 0 <= q < TRACKED_PAGES ==> v[q] == old(v[q]) + If(UserBelow(m, root, it.va, q), flags)
        decreases VA_LOWEND - it.va
      {
        RegionEndFacts(it.va, 0);
        RegionEndFacts(it.va, it.level);
        RegionLimitFacts(it.va, 0);
        RegionLimitFacts(it.va, it.level);
        if it.HasAll(PU) {
          forall q: nat {
            UserPageStep(m, root, it.va, q);
          }
          Mark(it.Pa().value, flags);
          it.Next();
        } else {
          forall q: nat {
            RangeStep(m, root, it.va, q);
          }
          it.NextRange();
        }
      }
    }

    // Does the fallback mark the page the iterator is at?
    predicate OwnedPage(it: VmIter)
      requires it.Valid() && machine.Valid() && it.machine == machine
      reads it, machine, machine.refcount
      ensures OwnedPage(it) <==> Claimable(machine.mem, machine.refcount[..], it.root, it.va)
    {
      it.HasAll(PU) && it.Pa().Some? && it.Pa().value < MEMSIZE_PHYSICAL
      && machine.refcount[it.Pa().value / PAGESIZE] != 0
    }

    // mark(it.pa(), f_user | f_process(owner + 1))
    method MarkOwner(pa: nat)
      requires v.Length == TRACKED_PAGES
      modifies v
      ensures forall q :: 0 <= q < TRACKED_PAGES ==>
        v[q] == old(v[q]) + If(q == pa / PAGESIZE, OwnerFlags(pa / PAGESIZE))
    {
      var owner := (pa - PROC_START_ADDR) / 0x4_0000;
      assert owner == (pa / PAGESIZE - PROC_START_ADDR / PAGESIZE) / 0x40;
      Mark(pa, F_USER + FProcess(owner + 1));
    }

    // The loop taken when no process has its own page table.
    method MarkByAddress(root: nat)
      requires v.Length == TRACKED_PAGES && machine.Valid()
      modifies v
      ensures ClaimsMarked(v[..], old(v[..]), machine.mem, machine.refcount[..], root, VA_LOWEND)
    {
      var it := new VmIter(machine, root, 0);
      ghost var m, refs := machine.mem, machine.refcount[..];
      while it.va < VA_LOWEND
        invariant it.Valid() && it.machine == machine && it.root == root
        invariant it.va <= VA_LOWEND && EntryClaimed(m, refs, root, it.va)
        invariant ClaimsMarked(v[..], old(v[..]), m, refs, root, it.va)
        decreases VA_LOWEND - it.va
      {
        RegionLimitFacts(it.va, it.level);
        RegionLimitFacts(it.va, 0);
        RegionEndFacts(it.va, it.level);
        RegionEndFacts(it.va, 0);
        if OwnedPage(it) {
          ghost var mid, va := v[..], it.va;
          MarkOwner(it.Pa().value);
          MarkedClaim(v[..], mid, old(v[..]), m, refs, root, va);
          it.Next();
        } else {
          MarkedSkip(v[..], old(v[..]), m, refs, root, it.va);
          it.NextRange();
        }
      }
    }

    // The part of refresh that handles one process.
    method MarkSpace(root: nat, pid: int)
      requires v.Length == TRACKED_PAGES
      modifies v
      ensures forall q :: 0 <= q < TRACKED_PAGES ==> v[q] == old(v[q]) + SpaceFlags(machine.mem, root, pid, q)
    {
      MarkTables(root, F_KERNEL + FProcess(pid));
      MarkUser(root, F_USER + FProcess(pid));
    }

    // memset(v_, 0, ...)
    method ClearFlags()
      requires v.Length == TRACKED_PAGES
      modifies v
      ensures forall q :: 0 <= q < TRACKED_PAGES ==> v[q] == {}
    {
      for i := 0 to TRACKED_PAGES
        invariant forall q :: 0 <= q < i ==> v[q] == {}
      {
        v[i] := {};
      }
    }

    // The loop over processes.
    method MarkProcesses(kernelRoot: nat, procs: seq<Proc>) returns (any: bool)
      requires v.Length == TRACKED_PAGES
      requires forall q :: 0 <= q < TRACKED_PAGES ==> v[q] == If(IsTable(machine.mem, kernelRoot, q), F_KERNEL)
      modifies v
      ensures any <==> exists pid: nat :: 1 <= pid < |procs| && Separate(procs[pid], kernelRoot)
      ensures forall q :: 0 <= q < TRACKED_PAGES ==>
        v[q] == FlagsUpTo(machine.mem, kernelRoot, procs, |procs|, q)
    {
      any := false;
      var pid := 1;
      while pid < |procs|
        invariant 1 <= pid && (pid <= |procs| || |procs| <= 1)
        invariant any <==> exists i: nat :: 1 <= i < pid && i < |procs| && Separate(procs[i], kernelRoot)
        invariant forall q :: 0 <= q < TRACKED_PAGES ==>
          v[q] == FlagsUpTo(machine.mem, kernelRoot, procs, if pid <= |procs| then pid else |procs|, q)
      {
        var p := procs[pid];
        if Separate(p, kernelRoot) {
          any := true;
          MarkSpace(p.pagetable.value, pid);
        }
        pid := pid + 1;
      }
    }

    // The whole map. `any` tells whether some process has its own page table.
    method Refresh(kernelRoot: nat, procs: seq<Proc>) returns (any: bool)
      requires v.Length == TRACKED_PAGES && machine.Valid()
      requires vPa != 0 || exists p: nat :: machine.Free(p)
      modifies this`vPa, v, machine, machine.refcount
      ensures machine.Valid() && vPa != 0 && (old(vPa) != 0 ==> vPa == old(vPa) && machine.mem == old(machine.mem))
      ensures any <==> AnySeparate(kernelRoot, procs)
      ensures forall q :: 0 <= q < TRACKED_PAGES ==>
        v[q] == FinalFlags(machine.mem, machine.refcount[..], kernelRoot, procs, vPa / PAGESIZE, q)
      ensures !any ==> forall q, pid: nat :: 0 <= q < TRACKED_PAGES && 1 <= pid < 30 ==>
        (FProcess(pid) <= v[q] <==>
         InShare(pid, q) && ClaimedBelow(machine.mem, machine.refcount[..], kernelRoot, VA_LOWEND, q))
      ensures any ==> forall q, pid: nat :: 0 <= q < TRACKED_PAGES && 1 <= pid < 30 ==>
        (FProcess(pid) <= v[q] <==> Uses(machine.mem, kernelRoot, procs, pid, q))
    {
      if vPa == 0 {
        vPa := machine.Kalloc(PAGESIZE);
      }
      ClearFlags();
      MarkTables(kernelRoot, F_KERNEL);
      any := MarkProcesses(kernelRoot, procs);
      if !any {
        MarkByAddress(kernelRoot);
      }
      if any {
        Mark(vPa, F_KERNEL);
      }
      forall q: nat, pid: nat | q < TRACKED_PAGES && 1 <= pid < 30 {
        FinalProcessFlag(machine.mem, machine.refcount[..], kernelRoot, procs, vPa / PAGESIZE, q, pid);
      }
    }
  }

  lemma ListedIsTable(m: Memory, root: nat, q: nat)
    requires q in Pages(m, root, PostOrder(Tables(m, root)))
    ensures IsTable(m, root, q)
  {
    var order := PostOrder(Tables(m, root));
    var i := PagesFrom(m, root, order, q);
    assert TableAt(m, root, order[i].level, order[i].k) == Some(q);
  }

  lemma TableIsListed(m: Memory, root: nat, q: nat)
    requires IsTable(m, root, q) && q != root
    ensures q in Pages(m, root, PostOrder(Tables(m, root)))
  {
    var order := PostOrder(Tables(m, root));
    TablesRooted(m, root);
    PostOrderIsComplete(Tables(m, root));
    var l: nat, k: nat :| l <= 3 && TableAt(m, root, l, k) == Some(q);
    var nd := Node(l, k);
    assert nd in Tables(m, root) && nd in order;
    var i :| 0 <= i < |order| && order[i] == nd;
    PagesHas(m, root, order, i);
  }

  // The table pages are the root and the pages of the post-order.
  lemma TablePages(m: Memory, root: nat, q: nat)
    ensures IsTable(m, root, q) <==> q == root || q in Pages(m, root, PostOrder(Tables(m, root)))
  {
    assert TableAt(m, root, 3, 0) == Some(root);
    if q in Pages(m, root, PostOrder(Tables(m, root))) {
      ListedIsTable(m, root, q);
    }
    if IsTable(m, root, q) && q != root {
      TableIsListed(m, root, q);
    }
  }
}
