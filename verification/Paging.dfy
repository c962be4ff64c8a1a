/** Four-level x86-64 paging: words, tables, addresses and the plain root-to-leaf walk. */
module Paging {
  import opened Basics

  // The low 12 bits of a word, as the set of positions of its 1 bits: & is *, | is +.
  type Flags = set<nat>

  // A 64-bit word split at bit 12: page holds bits 12-63, low holds bits 0-11.
  datatype Word = Word(page: nat, low: Flags)

  const ZERO_WORD := Word(0, {})
  const ALL_FLAGS: Flags := {0, 1, 2, 3, 4, 5, 6, 7, 8, 9, 10, 11}
  const ALL_ONES := Word(0xF_FFFF_FFFF_FFFF, ALL_FLAGS)

  const P := 0
  const W := 1
  const U := 2
  const PS := 7
  const PWU: Flags := {P, W, U}

  const PAGESIZE := 0x1000
  const VA_LOWEND := 0x8000_0000_0000
  const VA_HIGHMIN := 0xFFFF_8000_0000_0000
  const VA_NONCANONEND := 0x1_0000_0000_0000

  predicate Present(e: Word) {
    P in e.low
  }

  // A present entry without the large-page bit: it points to a lower table.
  predicate Branch(e: Word) {
    P in e.low && PS !in e.low
  }

  // The page number in bits 12-51 (PTE_PAMASK).
  function Frame(e: Word): nat {
    e.page % 0x100_0000_0000
  }

  // ---- Tables and memory ----

  type Table = s: seq<Word> | |s| == 512 witness seq(512, i => ZERO_WORD)

  // Physical memory by page number; a page that is not a key holds zeros.
  type Memory = map<nat, Table>

  function Filled(w: Word): Table {
    seq(512, i => w)
  }

  function Content(m: Memory, page: nat): Table {
    if page in m then m[page] else Filled(ZERO_WORD)
  }

  // ZeroEntry is the iterator's private constant entry for non-canonical addresses.
  datatype Slot = ZeroEntry | InTable(table: nat, index: nat)

  predicate InRange(s: Slot) {
    s.InTable? ==> s.index < 512
  }

  function Read(m: Memory, s: Slot): Word
    requires InRange(s)
  {
    match s
    case ZeroEntry => ZERO_WORD
    case InTable(t, i) => Content(m, t)[i]
  }

  function Write(m: Memory, t: nat, i: nat, w: Word): Memory
    requires i < 512
  {
    m[t := Content(m, t)[i := w]]
  }

  // ---- Addresses ----

  // va >> (12 + 9 * level): the number of the level-`level` region that holds `va`.
  function Shift(va: nat, level: nat): nat {
    if level == 0 then va / PAGESIZE else Shift(va, level - 1) / 512
  }

  // Bytes covered by one entry at a level: 1 << (12 + 9 * level).
  function Span(level: nat): (s: nat)
    ensures s >= PAGESIZE
  {
    if level == 0 then PAGESIZE else Span(level - 1) * 512
  }

  function Index(va: nat, level: nat): (i: nat)
    ensures i < 512
  {
    Shift(va, level) % 512
  }

  predicate Canonical(va: nat) {
    va < VA_LOWEND || va >= VA_HIGHMIN
  }

  // Drops the sign extension of a high canonical address.
  function Fold(va: nat): nat {
    if va >= VA_HIGHMIN then va - (VA_HIGHMIN - VA_LOWEND) else va
  }

  // The number of the level-`level` entry that covers `va`, counted from the root's first.
  function EntryNo(va: nat, level: nat): nat {
    Shift(Fold(va), level)
  }

  // (va | pageoffmask(level)) + 1 in 64-bit arithmetic.
  function RegionEnd(va: nat, level: nat): nat {
    RegionLimit(va, level) % TWO_64
  }

  lemma EntryNoParts(va: nat, level: nat)
    requires level <= 3 && va < TWO_64
    ensures EntryNo(va, level) / 512 == EntryNo(va, level + 1)
    ensures EntryNo(va, level) % 512 == Index(va, level)
    ensures Canonical(va) ==> EntryNo(va, 4) == 0
  {
    var d := 0xF_FFF0_0000_0000;
    if va >= VA_HIGHMIN {
      assert Shift(va, 0) == Shift(Fold(va), 0) + d;
      assert Shift(va, 1) == Shift(Fold(va), 1) + d / 512;
      assert Shift(va, 2) == Shift(Fold(va), 2) + d / 0x4_0000;
      assert Shift(va, 3) == Shift(Fold(va), 3) + d / 0x800_0000;
    }
    var f := Fold(va);
    if Canonical(va) {
      assert f < VA_NONCANONEND;
      assert Shift(f, 0) < 0x10_0000_0000;
      assert Shift(f, 1) < 0x800_0000;
      assert Shift(f, 2) < 0x4_0000;
      assert Shift(f, 3) < 512;
      assert Shift(f, 4) == 0;
    }
  }

  // Canonicality is decided by the level-3 region.
  lemma CanonicalByRegion(va: nat)
    requires va < TWO_64
    ensures Canonical(va) <==> (Shift(va, 3) < 256 || Shift(va, 3) >= 0x1FF_FF00)
  {
    var s0, s1, s2 := Shift(va, 0), Shift(va, 1), Shift(va, 2);
    assert Shift(va, 3) == s2 / 512;
  }

  lemma SameRegionUp(va: nat, va': nat, low: nat, high: nat)
    requires low <= high && Shift(va, low) == Shift(va', low)
    ensures Shift(va, high) == Shift(va', high)
  {
    if low < high {
      SameRegionUp(va, va', low, high - 1);
    }
  }

  lemma MulCancel(a: int, b: int, c: int)
    requires c > 0 && a * c < b * c
    ensures a < b
  {
  }

  lemma MulLe(a: nat, b: nat, s: nat)
    requires a <= b
    ensures a * s <= b * s
  {
  }

  lemma NestedBounds(y: int, z: int, s: int)
    requires s > 0 && z * 512 <= y < (z + 1) * 512
    ensures z * (s * 512) <= y * s && (y + 1) * s <= (z + 1) * (s * 512)
  {
    var d, e := y - z * 512, (z + 1) * 512 - (y + 1);
    assert 0 <= d * s && 0 <= e * s;
    assert y * s == z * (s * 512) + d * s;
    assert (z + 1) * (s * 512) == (y + 1) * s + e * s;
  }

  lemma {:induction false} RegionBounds(va: nat, level: nat)
    ensures Shift(va, level) * Span(level) <= va < (Shift(va, level) + 1) * Span(level)
  {
    if level > 0 {
      RegionBounds(va, level - 1);
      NestedBounds(Shift(va, level - 1), Shift(va, level), Span(level - 1));
    }
  }

  // A region is exactly the interval [n * Span, (n + 1) * Span).
  lemma InRegion(va: nat, n: nat, level: nat)
    requires n * Span(level) <= va < (n + 1) * Span(level)
    ensures Shift(va, level) == n
  {
    RegionBounds(va, level);
    MulCancel(n, Shift(va, level) + 1, Span(level));
    MulCancel(Shift(va, level), n + 1, Span(level));
  }

  // One past the region of `va`, before truncation to 64 bits.
  function RegionLimit(va: nat, level: nat): nat {
    (Shift(va, level) + 1) * Span(level)
  }

  // A bound that is a whole number of regions bounds the end of the region too.
  lemma RegionInside(va: nat, level: nat, q: nat)
    requires va < q * Span(level)
    ensures RegionLimit(va, level) <= q * Span(level)
  {
    RegionBounds(va, level);
    MulCancel(Shift(va, level), q, Span(level));
    MulLe(Shift(va, level) + 1, q, Span(level));
  }

  lemma SpanIsPages(level: nat)
    ensures exists c: nat :: Span(level) == PAGESIZE * c
  {
    if level == 0 {
      assert Span(level) == PAGESIZE * 1;
    } else {
      SpanIsPages(level - 1);
      var c: nat :| Span(level - 1) == PAGESIZE * c;
      assert Span(level) == PAGESIZE * (c * 512);
    }
  }

  lemma RegionAligned(va: nat, level: nat)
    ensures RegionLimit(va, level) % PAGESIZE == 0
  {
    SpanIsPages(level);
    var c: nat :| Span(level) == PAGESIZE * c;
    var n := Shift(va, level) + 1;
    assert n * (PAGESIZE * c) == PAGESIZE * (n * c);
  }

  lemma RegionLimitFacts(va: nat, level: nat)
    requires va < TWO_64 && level <= 3
    ensures va < RegionLimit(va, level) <= TWO_64
    ensures va < VA_LOWEND ==> RegionLimit(va, level) <= VA_LOWEND
    ensures RegionLimit(va, level) % PAGESIZE == 0
    ensures forall x: nat :: va <= x < RegionLimit(va, level) ==> Shift(x, level) == Shift(va, level)
    ensures Shift(RegionLimit(va, level), level) == Shift(va, level) + 1
  {
    InRegion(RegionLimit(va, level), Shift(va, level) + 1, level);
    RegionBounds(va, level);
    RegionAligned(va, level);
    forall x: nat | va <= x < RegionLimit(va, level)
      ensures Shift(x, level) == Shift(va, level)
    {
      InRegion(x, Shift(va, level), level);
    }
    SpanConstants();
    var q := if level == 0 then 0x10_0000_0000_0000 else if level == 1 then 0x800_0000_0000
             else if level == 2 then 0x4_0000_0000 else 0x200_0000;
    assert q * Span(level) == TWO_64;
    RegionInside(va, level, q);
    if va < VA_LOWEND {
      assert q / 0x2_0000 * Span(level) == VA_LOWEND;
      RegionInside(va, level, q / 0x2_0000);
    }
  }

  lemma Truncate(x: nat)
    requires x <= TWO_64
    ensures x % TWO_64 == if x == TWO_64 then 0 else x
  {
  }

  lemma RegionEndFacts(va: nat, level: nat)
    requires va < TWO_64 && level <= 3
    ensures RegionEnd(va, level) < TWO_64 && RegionEnd(va, level) % PAGESIZE == 0
    ensures RegionEnd(va, level) == if RegionLimit(va, level) == TWO_64 then 0 else RegionLimit(va, level)
    ensures va < VA_LOWEND ==> RegionEnd(va, level) == RegionLimit(va, level)
  {
    RegionLimitFacts(va, level);
    Truncate(RegionLimit(va, level));
  }

  lemma SpanConstants()
    ensures Span(0) == 0x1000 && Span(1) == 0x20_0000 && Span(2) == 0x4000_0000 && Span(3) == 0x80_0000_0000
  {
    assert Span(1) == Span(0) * 512;
    assert Span(2) == Span(1) * 512;
    assert Span(3) == Span(2) * 512;
  }

  // The page number and canonicality determine the address's page.
  lemma SamePage(va: nat, va': nat)
    requires va < TWO_64 && va' < TWO_64 && Canonical(va) && Canonical(va')
    requires EntryNo(va, 0) == EntryNo(va', 0)
    ensures va / PAGESIZE == va' / PAGESIZE
  {
  }

  // ---- The plain walk ----

  datatype Cursor = Cursor(level: nat, slot: Slot, perm: Flags)

  function WalkFrom(m: Memory, t: nat, level: nat, va: nat, perm: Flags): (c: Cursor)
    ensures c.level <= level && c.slot.InTable? && c.slot.index == Index(va, c.level)
    decreases level, m
  {
    var e := Content(m, t)[Index(va, level)];
    if level > 0 && Branch(e) then WalkFrom(m, Frame(e), level - 1, va, perm * e.low)
    else Cursor(level, InTable(t, Index(va, level)), perm)
  }

  function Walk(m: Memory, root: nat, va: nat): (c: Cursor)
    ensures c.level <= 3 && InRange(c.slot)
  {
    if Canonical(va) then WalkFrom(m, root, 3, va, ALL_FLAGS)
    else Cursor(3, ZeroEntry, {})
  }

  function LeafEntry(m: Memory, root: nat, va: nat): Word {
    Read(m, Walk(m, root, va).slot)
  }

  // Does the conjunction of all entries on the walk to `va` contain every bit of `p`?
  predicate HasPerm(m: Memory, root: nat, va: nat, p: Word) {
    p.page == 0 && p.low <= LeafEntry(m, root, va).low * Walk(m, root, va).perm
  }

  // What the processor sees at an address: nothing, or a physical address with P/W/U rights.
  datatype Translation = Unmapped | Mapped(pa: nat, rights: Flags)

  // va & pageoffmask(level)
  function Offset(va: nat, level: nat): (r: nat)
    ensures r < Span(level)
  {
    RegionBounds(va, level);
    va - Shift(va, level) * Span(level)
  }

  // Large-page entries use bit 12 for something else, so it is cleared.
  function Physical(e: Word, level: nat, va: nat): nat {
    (if level > 0 then Frame(e) / 2 * 2 else Frame(e)) * PAGESIZE + Offset(va, level)
  }

  function Translate(m: Memory, root: nat, va: nat): Translation {
    var c := Walk(m, root, va);
    var e := Read(m, c.slot);
    if Present(e) then Mapped(Physical(e, c.level, va), e.low * c.perm * PWU) else Unmapped
  }

  // A page that can be given any rights: no large page covers it and no entry above restricts P, W or U.
  predicate Mappable(m: Memory, root: nat, va: nat) {
    var c := Walk(m, root, va);
    Canonical(va) && PWU <= c.perm && (c.level > 0 ==> !Present(Read(m, c.slot)))
  }

  // ---- The tables of an address space ----

  // The table whose 512 entries are numbers 512*k .. 512*k+511 at this level, if there is one.
  function TableAt(m: Memory, root: nat, level: nat, k: nat): Option<nat>
    requires level <= 3
    decreases 3 - level, m
  {
    if level == 3 then if k == 0 then Some(root) else None
    else
      match TableAt(m, root, level + 1, k / 512)
      case None => None
      case Some(t) =>
        var e := Content(m, t)[k % 512];
        if Branch(e) then Some(Frame(e)) else None
  }

  ghost predicate IsTable(m: Memory, root: nat, page: nat) {
    exists level: nat, k: nat :: level <= 3 && TableAt(m, root, level, k) == Some(page)
  }

  // No table page is used twice: the tables form a tree.
  ghost predicate Tree(m: Memory, root: nat) {
    forall l: nat, k: nat, l': nat, k': nat ::
      l <= 3 && l' <= 3 && TableAt(m, root, l, k).Some? && TableAt(m, root, l', k') == TableAt(m, root, l, k)
      ==> l == l' && k == k'
  }

  // A branch entry on the way to `va` leads to the next table that covers `va`.
  lemma TableBelow(m: Memory, root: nat, t: nat, level: nat, va: nat)
    requires 1 <= level <= 3 && va < TWO_64 && TableAt(m, root, level, EntryNo(va, level + 1)) == Some(t)
    requires Branch(Content(m, t)[Index(va, level)])
    ensures TableAt(m, root, level - 1, EntryNo(va, level)) == Some(Frame(Content(m, t)[Index(va, level)]))
  {
    EntryNoParts(va, level);
  }

  // The walk visits exactly the tables that cover its address.
  lemma {:induction false} WalkFromTable(m: Memory, root: nat, t: nat, level: nat, va: nat, perm: Flags)
    requires level <= 3 && va < TWO_64 && TableAt(m, root, level, EntryNo(va, level + 1)) == Some(t)
    ensures
      var c := WalkFrom(m, t, level, va, perm);
      TableAt(m, root, c.level, EntryNo(va, c.level + 1)) == Some(c.slot.table)
    decreases level
  {
    var e := Content(m, t)[Index(va, level)];
    if level > 0 && Branch(e) {
      TableBelow(m, root, t, level, va);
      WalkFromTable(m, root, Frame(e), level - 1, va, perm * e.low);
    }
  }

  lemma WalkTable(m: Memory, root: nat, va: nat)
    requires va < TWO_64 && Canonical(va)
    ensures
      var c := Walk(m, root, va);
      && c.slot.InTable? && TableAt(m, root, c.level, EntryNo(va, c.level + 1)) == Some(c.slot.table)
      && IsTable(m, root, c.slot.table)
  {
    EntryNoParts(va, 3);
    WalkFromTable(m, root, root, 3, va, ALL_FLAGS);
  }

  // A walk reads the address only through its indexes from the top level down to where it stops.
  lemma {:induction false} WalkFromSameIndexes(m: Memory, t: nat, level: nat, va: nat, va': nat, perm: Flags)
    requires
      var c := WalkFrom(m, t, level, va, perm);
      forall l: nat :: c.level <= l <= level ==> Index(va, l) == Index(va', l)
    ensures WalkFrom(m, t, level, va', perm) == WalkFrom(m, t, level, va, perm)
    decreases level
  {
    var e := Content(m, t)[Index(va, level)];
    if level > 0 && Branch(e) {
      WalkFromSameIndexes(m, Frame(e), level - 1, va, va', perm * e.low);
    }
  }

  // Addresses that share the entry where the walk stops share the whole cursor.
  lemma WalkSameRegion(m: Memory, root: nat, va: nat, va': nat)
    requires va < TWO_64 && va' < TWO_64
    requires
      var c := Walk(m, root, va);
      Shift(va, c.level) == Shift(va', c.level)
    ensures Walk(m, root, va') == Walk(m, root, va)
  {
    var c := Walk(m, root, va);
    SameRegionUp(va, va', c.level, 3);
    CanonicalByRegion(va);
    CanonicalByRegion(va');
    if Canonical(va) {
      forall l: nat | c.level <= l <= 3
        ensures Index(va, l) == Index(va', l)
      {
        SameRegionUp(va, va', c.level, l);
      }
      WalkFromSameIndexes(m, root, 3, va, va', ALL_FLAGS);
    }
  }

  // ---- What the permissions of a walk mean ----

  // The entry that covers `va` at a level, if there is a table for it.
  function EntryAt(m: Memory, root: nat, va: nat, level: nat): Option<Word>
    requires level <= 3
  {
    match TableAt(m, root, level, EntryNo(va, level + 1))
    case None => None
    case Some(t) => Some(Content(m, t)[Index(va, level)])
  }

  // All entries that cover `va` at levels lo .. hi exist and have the bits of `f`.
  ghost predicate AllHave(m: Memory, root: nat, va: nat, lo: nat, hi: nat, f: Flags)
    requires hi <= 3
  {
    forall l: nat :: lo <= l <= hi ==> EntryAt(m, root, va, l).Some? && f <= EntryAt(m, root, va, l).value.low
  }

  lemma {:induction false} WalkFromPerm(m: Memory, root: nat, t: nat, level: nat, va: nat, perm: Flags, f: Flags)
    requires level <= 3 && va < TWO_64 && TableAt(m, root, level, EntryNo(va, level + 1)) == Some(t)
    ensures
      var c := WalkFrom(m, t, level, va, perm);
      f <= Read(m, c.slot).low * c.perm <==> f <= perm && AllHave(m, root, va, c.level, level, f)
    decreases level
  {
    var e := Content(m, t)[Index(va, level)];
    var c := WalkFrom(m, t, level, va, perm);
    assert EntryAt(m, root, va, level) == Some(e);
    if level > 0 && Branch(e) {
      TableBelow(m, root, t, level, va);
      WalkFromPerm(m, root, Frame(e), level - 1, va, perm * e.low, f);
      assert AllHave(m, root, va, c.level, level, f) <==> f <= e.low && AllHave(m, root, va, c.level, level - 1, f);
    } else {
      assert AllHave(m, root, va, level, level, f) <==> f <= e.low;
    }
  }

  // The walk follows branch entries as far as they go.
  lemma WalkStops(m: Memory, root: nat, va: nat)
    requires va < TWO_64 && Canonical(va)
    ensures
      var c := Walk(m, root, va);
      EntryAt(m, root, va, c.level) == Some(LeafEntry(m, root, va)) && (c.level > 0 ==> !Branch(LeafEntry(m, root, va)))
  {
    WalkTable(m, root, va);
    WalkFromStops(m, root, 3, va, ALL_FLAGS);
  }

  lemma {:induction false} WalkFromStops(m: Memory, t: nat, level: nat, va: nat, perm: Flags)
    ensures
      var c := WalkFrom(m, t, level, va, perm);
      c.level > 0 ==> !Branch(Read(m, c.slot))
    decreases level
  {
    var e := Content(m, t)[Index(va, level)];
    if level > 0 && Branch(e) {
      WalkFromStops(m, Frame(e), level - 1, va, perm * e.low);
    }
  }

  // perm(p) holds at an address exactly when every entry from the root table down to where the walk stops has all bits
  // of p; at a non-canonical address only for p = 0.
  lemma PermMeans(m: Memory, root: nat, va: nat, p: Word)
    requires va < TWO_64
    ensures HasPerm(m, root, va, p) <==>
      && p.page == 0
      && if Canonical(va) then p.low <= ALL_FLAGS && AllHave(m, root, va, Walk(m, root, va).level, 3, p.low)
         else p.low == {}
  {
    if Canonical(va) {
      EntryNoParts(va, 3);
      WalkFromPerm(m, root, root, 3, va, ALL_FLAGS, p.low);
    }
  }

  // For P, W and U that is what the processor checks: the address is mapped with these rights.
  lemma PermIsRights(m: Memory, root: nat, va: nat, p: Word)
    requires p.page == 0 && P in p.low && p.low <= PWU
    ensures HasPerm(m, root, va, p) <==>
      Translate(m, root, va).Mapped? && p.low <= Translate(m, root, va).rights
  {
  }

  // The rights of a mapping are the rights of P, W and U that all entries of the walk have.
  lemma RightsMean(m: Memory, root: nat, va: nat, b: nat)
    requires va < TWO_64 && b in PWU && Translate(m, root, va).Mapped?
    ensures b in Translate(m, root, va).rights <==>
      Canonical(va) && AllHave(m, root, va, Walk(m, root, va).level, 3, {b})
  {
    PermMeans(m, root, va, Word(0, {b}));
    assert HasPerm(m, root, va, Word(0, {b})) <==> {b} <= LeafEntry(m, root, va).low * Walk(m, root, va).perm;
    assert {b} <= LeafEntry(m, root, va).low * Walk(m, root, va).perm
      <==> b in LeafEntry(m, root, va).low * Walk(m, root, va).perm;
  }
}
