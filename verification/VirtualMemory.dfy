/** The virtual-memory iterator: a cached position in a page table that always agrees with the plain walk. */
module VirtualMemory {
  import opened Basics
  import opened Paging
  import opened PageEdits
  import opened PhysMemory

  // Continues a walk from a position whose slot is already chosen.
  function Resume(m: Memory, c: Cursor, va: nat): Cursor {
    match c.slot
    case ZeroEntry => c
    case InTable(t, _) => WalkFrom(m, t, c.level, va, c.perm)
  }

  // Restarting in the table where the walk to `va` stopped is as good as restarting at the root.
  lemma {:induction false} WalkFromPrefix(m: Memory, t: nat, level: nat, va: nat, va': nat, perm: Flags)
    requires
      var c := WalkFrom(m, t, level, va, perm);
      forall l: nat :: c.level < l <= level ==> Index(va, l) == Index(va', l)
    ensures WalkFrom(m, t, level, va', perm) == Resume(m, WalkFrom(m, t, level, va, perm), va')
    decreases level
  {
    var e := Content(m, t)[Index(va, level)];
    if level > 0 && Branch(e) {
      WalkFromPrefix(m, Frame(e), level - 1, va, va', perm * e.low);
    }
  }

  lemma WalkPrefix(m: Memory, root: nat, va: nat, va': nat)
    requires va < TWO_64 && va' < TWO_64
    requires
      var c := Walk(m, root, va);
      c.level < 3 && Shift(va, c.level + 1) == Shift(va', c.level + 1)
    ensures Walk(m, root, va') == Resume(m, Walk(m, root, va), va')
  {
    var c := Walk(m, root, va);
    forall l: nat | c.level < l <= 3
      ensures Shift(va, l) == Shift(va', l) && Index(va, l) == Index(va', l)
    {
      SameRegionUp(va, va', c.level + 1, l);
    }
    CanonicalByRegion(va);
    CanonicalByRegion(va');
    WalkFromPrefix(m, root, 3, va, va', ALL_FLAGS);
  }

  // Every entry above the one where a walk stops is present, so P survives in the walk's permissions.
  lemma {:induction false} WalkFromKeepsP(m: Memory, t: nat, level: nat, va: nat, perm: Flags)
    requires P in perm
    ensures P in WalkFrom(m, t, level, va, perm).perm
    decreases level
  {
    var e := Content(m, t)[Index(va, level)];
    if level > 0 && Branch(e) {
      WalkFromKeepsP(m, Frame(e), level - 1, va, perm * e.low);
    }
  }

  // The level whose region `next` skips: the whole entry when it is absent, otherwise one page.
  function SkipLevel(m: Memory, root: nat, va: nat): nat {
    var c := Walk(m, root, va);
    if c.level > 0 && !Present(Read(m, c.slot)) then c.level else 0
  }

  // The address space is a tree of tables none of which the allocator could hand out again.
  ghost predicate OwnsTables(machine: Machine, root: nat)
    reads machine, machine.refcount
  {
    && machine.Valid() && Tree(machine.mem, root)
    && forall page: nat :: IsTable(machine.mem, root, page) ==> !machine.Free(page)
  }

  // One call on an iterator.
  datatype Op =
    | FindOp(target: nat)
    | AdvanceOp(delta: int)
    | NextOp
    | NextRangeOp
    | TryMapOp(pa: Word, rights: Flags)

  // The address in an entry is 4 GB or more.
  predicate TooHigh(e: Word) {
    Frame(e) * PAGESIZE >= 0x1_0000_0000
  }

  class VmIter {
    const machine: Machine
    const root: nat
    var slot: Slot
    var level: nat
    var perm: Flags
    var va: nat
    var panicked: bool   // down() has met an entry beyond 4 GB; the kernel halts there

    // The cached position is the one a fresh walk from the root would reach.
    ghost predicate Valid()
      reads this, machine
    {
      va < TWO_64 && Cursor(level, slot, perm) == Walk(machine.mem, root, va)
    }

    constructor (machine: Machine, root: nat, va: nat)
      requires va < TWO_64
      ensures Valid() && this.va == va && this.machine == machine && this.root == root
      ensures panicked <==> TooHigh(LeafEntry(machine.mem, root, va))
    {
      this.machine, this.root := machine, root;
      slot, level, perm, panicked := InTable(root, 0), 3, ALL_FLAGS, false;
      this.va := 0;
      new;
      RealFind(va);
    }

    // Follows present, non-large entries to the bottom.
    method Down()
      requires level <= 3 && (slot.InTable? ==> slot.index == Index(va, level))
      modifies this`slot, this`level, this`perm, this`panicked
      ensures Cursor(level, slot, perm) == old(Resume(machine.mem, Cursor(level, slot, perm), va))
      ensures panicked <==> old(panicked) || TooHigh(Read(machine.mem, slot))
    {
      while level > 0 && Branch(Read(machine.mem, slot))
        invariant slot.InTable? ==> slot.index == Index(va, level)
        invariant panicked == old(panicked)
        invariant Resume(machine.mem, Cursor(level, slot, perm), va)
               == old(Resume(machine.mem, Cursor(level, slot, perm), va))
        decreases level
      {
        var e := Read(machine.mem, slot);
        perm := perm * e.low;
        level := level - 1;
        slot := InTable(Frame(e), Index(va, level));
      }
      if Frame(Read(machine.mem, slot)) >= 0x10_0000 {
        panicked := true;
      }
    }

    // Restarts from the root only when the cached table does not cover the new address.
    method RealFind(newVa: nat)
      requires newVa < TWO_64 && (level == 3 || Valid())
      modifies this`slot, this`level, this`perm, this`panicked, this`va
      ensures Valid() && va == newVa
      ensures panicked <==> old(panicked) || TooHigh(LeafEntry(machine.mem, root, va))
    {
      if level == 3 || Shift(va, level + 1) != Shift(newVa, level + 1) {
        level := 3;
        if Canonical(newVa) {
          perm := ALL_FLAGS;
          slot := InTable(root, Index(newVa, level));
        } else {
          perm := {};
          slot := ZeroEntry;
        }
      } else {
        WalkPrefix(machine.mem, root, va, newVa);
        slot := slot.(index := slot.index + (Index(newVa, level) - slot.index));
      }
      va := newVa;
      Down();
    }

    method Find(newVa: nat)
      requires newVa < TWO_64 && Valid()
      modifies this`slot, this`level, this`perm, this`panicked, this`va
      ensures Valid() && va == newVa
      ensures panicked <==> old(panicked) || TooHigh(LeafEntry(machine.mem, root, va))
    {
      RealFind(newVa);
    }

    // operator+= and operator-=: signed displacement, 64-bit wrap-around.
    method Advance(delta: int)
      requires Valid()
      modifies this`slot, this`level, this`perm, this`panicked, this`va
      ensures Valid() && va == (old(va) + delta) % TWO_64
      ensures panicked <==> old(panicked) || TooHigh(LeafEntry(machine.mem, root, va))
    {
      Find((va + delta) % TWO_64);
    }

    function Perm(): Flags
      requires Valid()
      reads this, machine
    {
      if Present(Read(machine.mem, slot)) then Read(machine.mem, slot).low * perm else {}
    }

    // perm(p): every bit of p is set in the entry and in all entries above it.
    predicate HasAll(p: Word)
      requires Valid()
      reads this, machine
      ensures HasAll(p) <==> HasPerm(machine.mem, root, va, p)
    {
      p.page == 0 && p.low <= Read(machine.mem, slot).low * perm
    }

    // pa(): None stands for the all-ones result.
    function Pa(): (r: Option<nat>)
      requires Valid()
      reads this, machine
      ensures r == match Translate(machine.mem, root, va) case Unmapped => None case Mapped(pa, _) => Some(pa)
    {
      if Present(Read(machine.mem, slot)) then Some(Physical(Read(machine.mem, slot), level, va)) else None
    }

    // Moves to a page boundary; no page strictly in between is present.
    method Next()
      requires Valid()
      modifies this`slot, this`level, this`perm, this`panicked, this`va
      ensures Valid() && va == RegionEnd(old(va), SkipLevel(machine.mem, root, old(va))) && va % PAGESIZE == 0
      ensures !old(Present(Read(machine.mem, slot))) ==> va == RegionEnd(old(va), old(level))
      ensures old(Present(Read(machine.mem, slot))) ==> va == RegionEnd(old(va), 0)
      ensures panicked <==> old(panicked) || TooHigh(LeafEntry(machine.mem, root, va))
      ensures forall x: nat ::
        old(va) <= x < RegionLimit(old(va), SkipLevel(machine.mem, root, old(va))) && Shift(x, 0) != Shift(old(va), 0)
        ==> Translate(machine.mem, root, x) == Unmapped
    {
      if Canonical(va) {
        WalkFromKeepsP(machine.mem, root, 3, va, ALL_FLAGS);
      }
      var l := 0;
      if level > 0 && Perm() == {} {
        l := level;
      }
      assert Present(Read(machine.mem, slot)) ==> P in Perm();
      NextSkipsOnlyAbsent(machine.mem, root, va);
      RegionEndFacts(va, l);
      RealFind(RegionEnd(va, l));
    }

    // Moves to last_va(); all addresses in between share the current entry.
    method NextRange()
      requires Valid()
      modifies this`slot, this`level, this`perm, this`panicked, this`va
      ensures Valid() && va == RegionEnd(old(va), old(level))
      ensures panicked <==> old(panicked) || TooHigh(LeafEntry(machine.mem, root, va))
      ensures forall x: nat :: old(va) <= x < RegionLimit(old(va), old(level)) ==>
        Walk(machine.mem, root, x) == old(Walk(machine.mem, root, va))
    {
      RangeSharesEntry(machine.mem, root, va);
      RealFind(RegionEnd(va, level));
    }

    // perm(last_va, p): tests one address per entry, yet decides every address of the range, unless the range ends
    // inside the last entry of the address space: then next_range wraps to address 0 and the answer is false.
    // With no bits asked for, that case would loop for ever.
    method PermRange(lastVa: nat, p: Word) returns (r: bool)
      requires Valid() && lastVa < TWO_64
      requires p == ZERO_WORD ==> lastVa <= LastEntryStart(machine.mem, root)
      modifies this`slot, this`level, this`perm, this`panicked, this`va
      ensures Valid()
      ensures r <==>
        || old(va) >= lastVa
        || (lastVa <= LastEntryStart(machine.mem, root) &&
            forall x: nat :: old(va) <= x < lastVa ==> HasPerm(machine.mem, root, x, p))
    {
      ghost var wrapped := false;
      LastEntryIsHigh(machine.mem, root);
      while va < lastVa
        invariant Valid()
        invariant !wrapped ==> old(va) <= va && (va == old(va) || va <= LastEntryStart(machine.mem, root))
        invariant !wrapped ==> forall x: nat :: old(va) <= x < va && x < lastVa ==> HasPerm(machine.mem, root, x, p)
        invariant wrapped ==> old(va) < lastVa && LastEntryStart(machine.mem, root) < lastVa && va <= VA_LOWEND
        decreases !wrapped, TWO_64 - va
      {
        if !HasAll(p) {
          return false;
        }
        if va == VA_LOWEND {
          HoleHasNoPerm(machine.mem, root, p);
        }
        RangeHasPerm(machine.mem, root, va, p);
        RangeEnd(machine.mem, root, va);
        wrapped := wrapped || RegionLimit(va, level) == TWO_64;
        NextRange();
      }
      return true;
    }

    method LowPerm(first: nat, last: nat, p: Word) returns (r: bool)
      requires Valid() && first < TWO_64 && last < TWO_64
      modifies this`slot, this`level, this`perm, this`panicked, this`va
      ensures Valid()
      ensures r <==>
        first <= last <= VA_LOWEND && forall x: nat :: first <= x < last ==> HasPerm(machine.mem, root, x, p)
    {
      if !(first <= last && last <= VA_LOWEND) {
        return false;
      }
      if first == last {
        return true;
      }
      Find(first);
      r := PermRange(last, p);
    }

    // The sum first + size is taken only after it is known not to wrap.
    method LowPermSize(first: nat, size: nat, p: Word) returns (r: bool)
      requires Valid() && first < TWO_64 && size < TWO_64
      modifies this`slot, this`level, this`perm, this`panicked, this`va
      ensures Valid()
      ensures r <==>
        first + size <= VA_LOWEND && forall x: nat :: first <= x < first + size ==> HasPerm(machine.mem, root, x, p)
    {
      if !(first <= VA_LOWEND && size <= VA_LOWEND - first) {
        return false;
      }
      if size == 0 {
        return true;
      }
      Find(first);
      r := PermRange((first + size) % TWO_64, p);
    }

    ghost predicate Owned()
      reads this, machine, machine.refcount
    {
      OwnsTables(machine, root)
    }

    // The assertions in try_map's body, as a test on the state it is called in.
    predicate MayMap(pa: Word, newPerm: Flags)
      requires Valid()
      reads this, machine
    {
      && va % PAGESIZE == 0
      && (if P in newPerm then pa.low == {} && pa.page < 0x100_0000_0000
          else (pa == ALL_ONES && newPerm == {}) || P !in pa.low)
      && newPerm * PWU <= perm
      && (newPerm != {} ==> slot.InTable? && (level > 0 ==> !Present(Read(machine.mem, slot))))
    }

    // One round of try_map's loop: allocates, clears and links a table below the current entry.
    method LinkTable() returns (ok: bool)
      requires Valid() && Owned()
      requires slot.InTable? && level > 0 && !Present(Read(machine.mem, slot))
      modifies this`slot, this`level, this`perm, this`panicked, machine, machine.refcount
      ensures Valid() && Owned()
      ensures ok <==> old(machine.FreePages()) != {}
      ensures |machine.FreePages()| == |old(machine.FreePages())| - if ok then 1 else 0
      ensures !ok ==> level == old(level) && slot == old(slot) && perm == old(perm) && machine.mem == old(machine.mem)
      ensures ok ==> level == old(level) - 1 && perm == old(perm) * PWU
      ensures ok ==> slot.InTable? && !Present(Read(machine.mem, slot))
      ensures forall x: nat :: x < TWO_64 ==> Translate(machine.mem, root, x) == old(Translate(machine.mem, root, x))
      ensures forall x: nat :: x < TWO_64 && old(Mappable(machine.mem, root, x)) ==> Mappable(machine.mem, root, x)
      ensures forall page: nat :: !old(IsTable(machine.mem, root, page)) && !old(machine.Free(page)) ==>
        Content(machine.mem, page) == old(Content(machine.mem, page)) && !IsTable(machine.mem, root, page)
      ensures forall page: nat :: machine.Free(page) ==> old(machine.Free(page))
    {
      WalkTable(machine.mem, root, va);
      var pa := machine.Kalloc(PAGESIZE);
      if pa == 0 {
        return false;
      }
      ghost var free := machine.FreePages();
      ClearAndLink(pa / PAGESIZE, old(machine.mem));
      assert machine.FreePages() == free;
      Down();
      ok := true;
    }

    // The two memory updates of one round; the page has just been allocated from the state with memory m.
    method ClearAndLink(page: nat, ghost m: Memory)
      requires va < TWO_64 && Canonical(va) && Cursor(level, slot, perm) == Walk(m, root, va) && Tree(m, root)
      requires level > 0 && !Present(Read(m, slot)) && page < 0x100_0000_0000 && !IsTable(m, root, page)
      requires machine.mem == m[page := Filled(CC_WORD)]
      modifies machine`mem
      ensures Linked(m, machine.mem, root, va, page)
    {
      machine.mem := machine.mem[page := Filled(ZERO_WORD)];
      machine.mem := Write(machine.mem, slot.table, slot.index, Word(page, PWU));
      LinkIsInvisible(m, machine.mem, root, va, page);
    }

    // try_map's loop: links tables until the current entry is a level-0 one.
    method Grow() returns (ok: bool)
      requires Valid() && Owned()
      requires slot.InTable? && (level > 0 ==> !Present(Read(machine.mem, slot)))
      modifies this`slot, this`level, this`perm, this`panicked, machine, machine.refcount
      ensures Valid() && Owned() && slot.InTable?
      ensures ok <==> old(level) <= |old(machine.FreePages())|
      ensures |machine.FreePages()| == if ok then |old(machine.FreePages())| - old(level) else 0
      ensures ok ==> level == 0
      ensures perm * PWU == old(perm) * PWU
      ensures forall x: nat :: x < TWO_64 ==> Translate(machine.mem, root, x) == old(Translate(machine.mem, root, x))
      ensures forall x: nat :: x < TWO_64 && old(Mappable(machine.mem, root, x)) ==> Mappable(machine.mem, root, x)
      ensures forall page: nat :: !old(IsTable(machine.mem, root, page)) && !old(machine.Free(page)) ==>
        Content(machine.mem, page) == old(Content(machine.mem, page)) && !IsTable(machine.mem, root, page)
      ensures forall page: nat :: machine.Free(page) ==> old(machine.Free(page))
    {
      while level > 0
        invariant Valid() && Owned()
        invariant slot.InTable? && (level > 0 ==> !Present(Read(machine.mem, slot)))
        invariant level <= old(level) && |machine.FreePages()| == |old(machine.FreePages())| - (old(level) - level)
        invariant perm * PWU == old(perm) * PWU
        invariant forall x: nat :: x < TWO_64 ==>
          Translate(machine.mem, root, x) == old(Translate(machine.mem, root, x))
        invariant forall x: nat :: x < TWO_64 && old(Mappable(machine.mem, root, x)) ==>
          Mappable(machine.mem, root, x)
        invariant forall page: nat :: !old(IsTable(machine.mem, root, page)) && !old(machine.Free(page)) ==>
          Content(machine.mem, page) == old(Content(machine.mem, page)) && !IsTable(machine.mem, root, page)
        invariant forall page: nat :: machine.Free(page) ==> old(machine.Free(page))
        decreases level
      {
        ok := LinkTable();
        if !ok {
          return;
        }
      }
      ok := true;
    }

    // The final store of try_map, through a level-0 entry.
    method StoreLeaf(w: Word)
      requires Valid() && Owned() && level == 0
      modifies machine`mem
      ensures Valid() && Owned() && Read(machine.mem, slot) == w && machine.FreePages() == old(machine.FreePages())
      ensures forall x: nat :: x < TWO_64 && x / PAGESIZE != va / PAGESIZE ==>
        Translate(machine.mem, root, x) == old(Translate(machine.mem, root, x))
      ensures forall x: nat :: x < TWO_64 && old(Mappable(machine.mem, root, x)) ==> Mappable(machine.mem, root, x)
      ensures forall page: nat :: !old(IsTable(machine.mem, root, page)) ==>
        Content(machine.mem, page) == old(Content(machine.mem, page)) && !IsTable(machine.mem, root, page)
      ensures forall page: nat :: machine.Free(page) ==> old(machine.Free(page))
    {
      ghost var m := machine.mem;
      machine.mem := Write(machine.mem, slot.table, slot.index, w);
      LeafStore(m, machine.mem, root, va, w);
    }

    // Address spaces that share no table with this one, and whose tables are not free pages, stay as they were.
    twostate lemma OthersKept()
      requires old(machine.Valid()) && machine.Valid()
      requires forall page: nat :: !old(IsTable(machine.mem, root, page)) && !old(machine.Free(page)) ==>
        Content(machine.mem, page) == old(Content(machine.mem, page)) && !IsTable(machine.mem, root, page)
      requires forall page: nat :: machine.Free(page) ==> old(machine.Free(page))
      ensures forall other: nat :: old(OwnsTables(machine, other)) && Disjoint(old(machine.mem), root, other) ==>
        && OwnsTables(machine, other) && Disjoint(machine.mem, root, other)
        && SpaceKept(old(machine.mem), machine.mem, other)
    {
      forall other: nat | old(OwnsTables(machine, other)) && Disjoint(old(machine.mem), root, other)
        ensures OwnsTables(machine, other) && Disjoint(machine.mem, root, other)
        ensures SpaceKept(old(machine.mem), machine.mem, other)
      {
        OtherSpaceKept(old(machine.mem), machine.mem, root, other, old(machine.FreePages()));
      }
    }

    // Maps the current page. Success gives the requested translation, except that perm 0 inside a large page
    // leaves the large page in place; failure changes no translation; no other page is ever affected.
    method TryMap(pa: Word, newPerm: Flags) returns (r: int)
      requires Valid() && Owned() && MayMap(pa, newPerm)
      modifies this`slot, this`level, this`perm, this`panicked, machine, machine.refcount
      ensures Valid() && Owned()
      ensures r == if newPerm != {} && |old(machine.FreePages())| < old(level) then -1 else 0
      ensures r == 0 ==> level == if newPerm != {} then 0 else old(level)
      ensures newPerm == {} && old(level) > 0 ==> machine.mem == old(machine.mem)
      ensures |machine.FreePages()| ==
        if r == -1 then 0 else |old(machine.FreePages())| - if newPerm != {} then old(level) else 0
      ensures forall x: nat :: x < TWO_64 && x / PAGESIZE != va / PAGESIZE ==>
        Translate(machine.mem, root, x) == old(Translate(machine.mem, root, x))
      ensures forall x: nat :: x < TWO_64 && old(Mappable(machine.mem, root, x)) ==> Mappable(machine.mem, root, x)
      ensures r == -1 ==> forall x: nat :: x < TWO_64 ==>
        Translate(machine.mem, root, x) == old(Translate(machine.mem, root, x))
      ensures r == 0 ==> forall x: nat :: va <= x < va + PAGESIZE ==>
        (Translate(machine.mem, root, x) == Requested(pa, newPerm, x - va)
         <==> !(newPerm == {} && old(level) > 0 && old(Present(Read(machine.mem, slot)))))
      ensures forall page: nat :: !old(IsTable(machine.mem, root, page)) && !old(machine.Free(page)) ==>
        Content(machine.mem, page) == old(Content(machine.mem, page)) && !IsTable(machine.mem, root, page)
      ensures forall page: nat :: machine.Free(page) ==> old(machine.Free(page))
      ensures forall other: nat :: old(OwnsTables(machine, other)) && Disjoint(old(machine.mem), root, other) ==>
        && OwnsTables(machine, other) && Disjoint(machine.mem, root, other)
        && SpaceKept(old(machine.mem), machine.mem, other)
    {
      var w := if pa == ALL_ONES && newPerm == {} then ZERO_WORD else pa;
      if newPerm != {} {
        var ok := Grow();
        if !ok {
          OthersKept();
          return -1;
        }
      }
      if level == 0 {
        RightsKept(newPerm, old(perm), perm);
        StoreLeaf(Word(w.page, w.low + newPerm));
        LeafTranslation(machine.mem, root, va, pa, w, newPerm);
      } else {
        WholePage(machine.mem, root, va);
      }
      OthersKept();
      return 0;
    }

    // Any sequence of calls on one iterator, up to a failed assertion, keeps the cached position exact.
    method Run(ops: seq<Op>) returns (done: nat)
      requires Valid() && Owned() && forall op :: op in ops && op.FindOp? ==> op.target < TWO_64
      modifies this, machine, machine.refcount
      ensures Valid() && Owned()
      ensures done <= |ops| && (done < |ops| ==> ops[done].TryMapOp? && !MayMap(ops[done].pa, ops[done].rights))
    {
      done := 0;
      while done < |ops|
        invariant Valid() && Owned() && done <= |ops|
      {
        match ops[done] {
          case FindOp(target) => Find(target);
          case AdvanceOp(delta) => Advance(delta);
          case NextOp => Next();
          case NextRangeOp => NextRange();
          case TryMapOp(pa, rights) =>
            if !MayMap(pa, rights) {
              return;
            }
            var _ := TryMap(pa, rights);
        }
        done := done + 1;
      }
    }
  }

  lemma RightsKept(rights: Flags, before: Flags, after: Flags)
    requires rights * PWU <= before && after * PWU == before * PWU
    ensures rights * PWU <= after
  {
    forall b | b in rights * PWU
      ensures b in after
    {
      assert b in before * PWU;
    }
  }

  // Two address spaces with no table in common.
  ghost predicate Disjoint(m: Memory, root: nat, other: nat) {
    forall page: nat :: IsTable(m, root, page) ==> !IsTable(m, other, page)
  }

  // Writing only to one space's tables and to pages that were free leaves a disjoint space as it was, and disjoint.
  lemma OtherSpaceKept(m: Memory, m': Memory, root: nat, other: nat, free: set<nat>)
    requires Disjoint(m, root, other) && forall page: nat :: IsTable(m, other, page) ==> page !in free
    requires forall page: nat :: !IsTable(m, root, page) && page !in free ==>
      Content(m', page) == Content(m, page) && !IsTable(m', root, page)
    ensures SpaceKept(m, m', other) && Disjoint(m', root, other)
  {
    assert forall level: nat, k: nat :: level <= 3 && TableAt(m, other, level, k).Some? ==>
      IsTable(m, other, TableAt(m, other, level, k).value);
    KeptTablesKeepSpace(m, m', other);
  }

  // All addresses of a page share its walk.
  lemma WholePage(m: Memory, root: nat, va: nat)
    requires va < TWO_64 && va % PAGESIZE == 0
    ensures forall x: nat :: va <= x < va + PAGESIZE ==>
      x < TWO_64 && Walk(m, root, x) == Walk(m, root, va) && Offset(x, 0) == x - va
  {
    forall x: nat | va <= x < va + PAGESIZE
      ensures x < TWO_64 && Walk(m, root, x) == Walk(m, root, va) && Offset(x, 0) == x - va
    {
      assert Shift(x, 0) == Shift(va, 0);
      SameRegionUp(va, x, 0, Walk(m, root, va).level);
      WalkSameRegion(m, root, va, x);
    }
  }

  // The word try_map stores in a level-0 entry means what was asked for.
  lemma LeafTranslation(m: Memory, root: nat, va: nat, pa: Word, w: Word, newPerm: Flags)
    requires va < TWO_64 && va % PAGESIZE == 0 && newPerm * PWU <= Walk(m, root, va).perm
    requires Walk(m, root, va).level == 0 && LeafEntry(m, root, va) == Word(w.page, w.low + newPerm)
    requires P in newPerm ==> w == pa && pa.low == {} && pa.page < 0x100_0000_0000
    requires P !in newPerm ==> P !in w.low
    ensures forall x: nat :: va <= x < va + PAGESIZE ==> Translate(m, root, x) == Requested(pa, newPerm, x - va)
  {
    WholePage(m, root, va);
    if P in newPerm {
      assert (w.low + newPerm) * Walk(m, root, va).perm * PWU == newPerm * PWU;
    }
  }

  // What a successful try_map should make an address of the current page translate to.
  function Requested(pa: Word, newPerm: Flags, offset: nat): Translation {
    if P in newPerm then Mapped(pa.page * PAGESIZE + offset, newPerm * PWU) else Unmapped
  }

  lemma RangeSharesEntry(m: Memory, root: nat, va: nat)
    requires va < TWO_64
    ensures forall x: nat :: va <= x < RegionLimit(va, Walk(m, root, va).level) ==>
      Walk(m, root, x) == Walk(m, root, va)
  {
    var c := Walk(m, root, va);
    RegionLimitFacts(va, c.level);
    forall x: nat | va <= x < RegionLimit(va, c.level)
      ensures Walk(m, root, x) == c
    {
      WalkSameRegion(m, root, va, x);
    }
  }

  lemma RangeHasPerm(m: Memory, root: nat, va: nat, p: Word)
    requires va < TWO_64 && HasPerm(m, root, va, p)
    ensures va < RegionLimit(va, Walk(m, root, va).level)
    ensures forall x: nat :: va <= x < RegionLimit(va, Walk(m, root, va).level) ==> HasPerm(m, root, x, p)
  {
    RegionLimitFacts(va, Walk(m, root, va).level);
    RangeSharesEntry(m, root, va);
  }

  // The region of the last entry of the address space starts here.
  function LastEntryStart(m: Memory, root: nat): int {
    TWO_64 - Span(Walk(m, root, TWO_64 - 1).level)
  }

  lemma LastEntryIsHigh(m: Memory, root: nat)
    ensures VA_LOWEND < LastEntryStart(m, root)
  {
    SpanConstants();
  }

  // The hole after the low addresses has no permission.
  lemma HoleHasNoPerm(m: Memory, root: nat, p: Word)
    requires HasPerm(m, root, VA_LOWEND, p)
    ensures p == ZERO_WORD
  {
    assert Walk(m, root, VA_LOWEND) == Cursor(3, ZeroEntry, {});
  }

  // The entry at va is the last one and ends with the address space, or it ends at or before the last one's start; a
  // low address's entry ends at or before VA_LOWEND.
  lemma RangeEnd(m: Memory, root: nat, va: nat)
    requires va < TWO_64
    ensures
      var limit := RegionLimit(va, Walk(m, root, va).level);
      && va < limit <= TWO_64 && (va < VA_LOWEND ==> limit <= VA_LOWEND)
      && RegionEnd(va, Walk(m, root, va).level) == (if limit == TWO_64 then 0 else limit)
      && (if limit == TWO_64 then LastEntryStart(m, root) <= va else limit <= LastEntryStart(m, root))
  {
    var top := TWO_64 - 1;
    var l, l' := Walk(m, root, va).level, Walk(m, root, top).level;
    var limit := RegionLimit(va, l);
    RegionLimitFacts(va, l);
    RegionEndFacts(va, l);
    RegionLimitFacts(top, l');
    RegionBounds(va, l);
    RegionBounds(top, l');
    var x := limit - 1;
    WalkSameRegion(m, root, va, x);
    if limit == TWO_64 {
      assert x == top;
    } else if limit > LastEntryStart(m, root) {
      LastRegion(m, root, x);
    }
  }

  lemma LastRegion(m: Memory, root: nat, x: nat)
    requires LastEntryStart(m, root) <= x < TWO_64
    ensures Walk(m, root, x) == Walk(m, root, TWO_64 - 1)
    ensures RegionLimit(x, Walk(m, root, x).level) == TWO_64
  {
    var top := TWO_64 - 1;
    var l := Walk(m, root, top).level;
    RegionLimitFacts(top, l);
    assert RegionLimit(top, l) == Shift(top, l) * Span(l) + Span(l);
    InRegion(x, Shift(top, l), l);
    WalkSameRegion(m, root, top, x);
  }

  // One large page covers the last 512 GB: every address there is present, yet the range of all but one is refused.
  method TopRangeIsRefused(machine: Machine, root: nat) returns (r: bool)
    modifies machine`mem
    ensures !r
    ensures forall x: nat :: TWO_64 - 0x80_0000_0000 <= x < TWO_64 - 1 ==>
      HasPerm(machine.mem, root, x, Word(0, {P}))
  {
    machine.mem := machine.mem[root := Filled(ZERO_WORD)[511 := Word(0, {P, PS})]];
    var first := TWO_64 - 0x80_0000_0000;
    SpanConstants();
    InRegion(TWO_64 - 1, 0x1FF_FFFF, 3);
    assert Walk(machine.mem, root, TWO_64 - 1) == Cursor(3, InTable(root, 511), ALL_FLAGS);
    forall x: nat | first <= x < TWO_64 - 1
      ensures HasPerm(machine.mem, root, x, Word(0, {P}))
    {
      LastRegion(machine.mem, root, x);
    }
    var it := new VmIter(machine, root, first);
    r := it.PermRange(TWO_64 - 1, Word(0, {P}));
  }

  lemma NextSkipsOnlyAbsent(m: Memory, root: nat, va: nat)
    requires va < TWO_64
    ensures forall x: nat ::
      va <= x < RegionLimit(va, SkipLevel(m, root, va)) && Shift(x, 0) != Shift(va, 0)
      ==> Translate(m, root, x) == Unmapped
  {
    RangeSharesEntry(m, root, va);
    RegionLimitFacts(va, 0);
  }
}
