/** What storing one page-table entry does to the walks of an address space whose tables form a tree. */
module PageEdits {
  import opened Basics
  import opened Paging
  import opened PhysMemory

  // Storing `word` in one entry; the pages in `scratch` may end up with any contents.
  datatype Store = Store(table: nat, index: nat, word: Word, scratch: set<nat>)

  ghost predicate Stored(m: Memory, m': Memory, s: Store) {
    && s.index < 512 && s.table !in s.scratch
    && Content(m', s.table) == Content(m, s.table)[s.index := s.word]
    && forall q: nat :: q != s.table && q !in s.scratch ==> Content(m', q) == Content(m, q)
  }

  // None of the pages is a table of this address space.
  ghost predicate Unlinked(m: Memory, root: nat, pages: set<nat>) {
    forall level: nat, k: nat ::
      level <= 3 && TableAt(m, root, level, k).Some? ==> TableAt(m, root, level, k).value !in pages
  }

  // The entry is number n at its level.
  ghost predicate Numbered(m: Memory, root: nat, s: Store, level: nat, n: nat) {
    level <= 3 && TableAt(m, root, level, n / 512) == Some(s.table) && n % 512 == s.index
  }

  // A store to entry n of a tree of tables, with scratch pages outside the tree.
  ghost predicate TreeStore(m: Memory, m': Memory, root: nat, s: Store, level: nat, n: nat) {
    && Tree(m, root) && Unlinked(m, root, s.scratch)
    && Numbered(m, root, s, level, n) && Stored(m, m', s)
  }

  // An address outside the stored entry's region reads its entries as before.
  lemma ReadElsewhere(m: Memory, m': Memory, root: nat, s: Store, level: nat, n: nat, t: nat, l: nat, x: nat)
    requires TreeStore(m, m', root, s, level, n)
    requires l <= 3 && x < TWO_64 && TableAt(m, root, l, EntryNo(x, l + 1)) == Some(t)
    requires EntryNo(x, level) != n
    ensures Content(m', t)[Index(x, l)] == Content(m, t)[Index(x, l)]
  {
    EntryNoParts(x, l);
  }

  // An address that does not use the stored entry is walked as before.
  lemma {:induction false} WalkFromElsewhere(m: Memory, m': Memory, root: nat, s: Store, level: nat, n: nat,
                                             t: nat, l: nat, x: nat, perm: Flags)
    requires TreeStore(m, m', root, s, level, n)
    requires l <= 3 && x < TWO_64 && TableAt(m, root, l, EntryNo(x, l + 1)) == Some(t)
    requires EntryNo(x, level) != n
    ensures WalkFrom(m', t, l, x, perm) == WalkFrom(m, t, l, x, perm)
    ensures Read(m', WalkFrom(m, t, l, x, perm).slot) == Read(m, WalkFrom(m, t, l, x, perm).slot)
    decreases l
  {
    ReadElsewhere(m, m', root, s, level, n, t, l, x);
    var e := Content(m, t)[Index(x, l)];
    if l > 0 && Branch(e) {
      TableBelow(m, root, t, l, x);
      WalkFromElsewhere(m, m', root, s, level, n, Frame(e), l - 1, x, perm * e.low);
    }
  }

  lemma WalkElsewhere(m: Memory, m': Memory, root: nat, s: Store, level: nat, n: nat, x: nat)
    requires TreeStore(m, m', root, s, level, n)
    requires x < TWO_64 && (Canonical(x) ==> EntryNo(x, level) != n)
    ensures Walk(m', root, x) == Walk(m, root, x) && LeafEntry(m', root, x) == LeafEntry(m, root, x)
    ensures Translate(m', root, x) == Translate(m, root, x)
  {
    if Canonical(x) {
      EntryNoParts(x, 3);
      WalkFromElsewhere(m, m', root, s, level, n, root, 3, x, ALL_FLAGS);
    }
  }

  // ---- Storing a level-0 entry ----

  lemma {:induction false} LeafKeepsTableAt(m: Memory, m': Memory, root: nat, s: Store, n: nat, l: nat, k: nat)
    requires TreeStore(m, m', root, s, 0, n) && s.scratch == {} && l <= 3
    ensures TableAt(m', root, l, k) == TableAt(m, root, l, k)
    decreases 3 - l
  {
    if l < 3 {
      LeafKeepsTableAt(m, m', root, s, n, l + 1, k / 512);
      var parent := TableAt(m, root, l + 1, k / 512);
      assert parent.Some? ==> parent.value != s.table;
    }
  }

  lemma LeafKeepsTree(m: Memory, m': Memory, root: nat, s: Store, n: nat)
    requires TreeStore(m, m', root, s, 0, n) && s.scratch == {}
    ensures Tree(m', root)
    ensures forall page: nat :: IsTable(m', root, page) <==> IsTable(m, root, page)
  {
    forall l: nat, k: nat | l <= 3
      ensures TableAt(m', root, l, k) == TableAt(m, root, l, k)
    {
      LeafKeepsTableAt(m, m', root, s, n, l, k);
    }
  }

  // ---- Linking a new zeroed table below an absent entry ----

  // The store links page p, now all zeros, into an entry that was absent.
  ghost predicate Link(m: Memory, m': Memory, root: nat, s: Store, level: nat, n: nat, p: nat) {
    && TreeStore(m, m', root, s, level, n) && level > 0
    && !Present(Content(m, s.table)[s.index])
    && s.scratch == {p} && s.word == Word(p, PWU) && p < 0x100_0000_0000
    && Content(m', p) == Filled(ZERO_WORD)
  }

  // The table below one parent entry.
  function Child(m: Memory, parent: Option<nat>, j: nat): Option<nat>
    requires j < 512
  {
    if parent.Some? && Branch(Content(m, parent.value)[j]) then Some(Frame(Content(m, parent.value)[j])) else None
  }

  lemma ChildTable(m: Memory, root: nat, l: nat, k: nat)
    requires l < 3
    ensures TableAt(m, root, l, k) == Child(m, TableAt(m, root, l + 1, k / 512), k % 512)
  {
  }

  lemma {:induction false} LinkTableAt(m: Memory, m': Memory, root: nat, s: Store, level: nat, n: nat, p: nat,
                                       l: nat, k: nat)
    requires Link(m, m', root, s, level, n, p) && l <= 3
    ensures TableAt(m', root, l, k) == if l == level - 1 && k == n then Some(p) else TableAt(m, root, l, k)
    decreases 3 - l
  {
    if l < 3 {
      var k', j := k / 512, k % 512;
      LinkTableAt(m, m', root, s, level, n, p, l + 1, k');
      ChildTable(m, root, l, k);
      ChildTable(m', root, l, k);
      var parent, parent' := TableAt(m, root, l + 1, k'), TableAt(m', root, l + 1, k');
      if l + 1 == level - 1 && k' == n {
        ChildTable(m, root, level - 1, n);
        assert Child(m', Some(p), j) == None;
      } else if parent == Some(s.table) {
        assert l + 1 == level && k' == n / 512;
        LinkChild(m, m', root, s, level, n, p, j);
        assert k == n <==> j == s.index;
      } else {
        assert parent' == parent && (parent.Some? ==> parent.value != p);
        assert Child(m', parent, j) == Child(m, parent, j);
      }
    }
  }

  lemma LinkChild(m: Memory, m': Memory, root: nat, s: Store, level: nat, n: nat, p: nat, j: nat)
    requires Link(m, m', root, s, level, n, p) && j < 512
    ensures Child(m', Some(s.table), j) == if j == s.index then Some(p) else Child(m, Some(s.table), j)
  {
  }

  lemma LinkKeepsTree(m: Memory, m': Memory, root: nat, s: Store, level: nat, n: nat, p: nat)
    requires Link(m, m', root, s, level, n, p)
    ensures Tree(m', root)
    ensures forall page: nat :: IsTable(m', root, page) ==> IsTable(m, root, page) || page == p
  {
    forall l: nat, k: nat | l <= 3
      ensures TableAt(m', root, l, k) == if l == level - 1 && k == n then Some(p) else TableAt(m, root, l, k)
    {
      LinkTableAt(m, m', root, s, level, n, p, l, k);
    }
  }

  // A walk that stopped at the entry now continues into the new table and stops there.
  lemma {:induction false} WalkFromLinked(m: Memory, m': Memory, root: nat, s: Store, level: nat, n: nat, p: nat,
                                          t: nat, l: nat, x: nat, perm: Flags)
    requires Link(m, m', root, s, level, n, p)
    requires t != p && l <= 3 && x < TWO_64 && TableAt(m, root, l, EntryNo(x, l + 1)) == Some(t)
    requires WalkFrom(m, t, l, x, perm).slot == InTable(s.table, s.index) && WalkFrom(m, t, l, x, perm).level == level
    ensures WalkFrom(m', t, l, x, perm)
         == Cursor(level - 1, InTable(p, Index(x, level - 1)), WalkFrom(m, t, l, x, perm).perm * PWU)
    decreases l
  {
    EntryNoParts(x, l);
    var j := Index(x, l);
    var e := Content(m, t)[j];
    if l > level {
      assert Branch(e) && Content(m', t)[j] == e;
      assert TableAt(m, root, l - 1, EntryNo(x, l)) == Some(Frame(e));
      WalkFromLinked(m, m', root, s, level, n, p, Frame(e), l - 1, x, perm * e.low);
    } else {
      assert Content(m', t)[j] == s.word && Branch(s.word) && Frame(s.word) == p;
      assert Content(m', p)[Index(x, level - 1)] == ZERO_WORD;
    }
  }

  // Page `page` has become a table below the entry where the walk to `va` stopped, and no translation has changed.
  ghost predicate Linked(m: Memory, m': Memory, root: nat, va: nat, page: nat)
    requires Walk(m, root, va).level > 0 && Walk(m, root, va).slot.InTable?
  {
    var c := Walk(m, root, va);
    && Tree(m', root)
    && (forall q: nat :: IsTable(m', root, q) ==> IsTable(m, root, q) || q == page)
    && (forall x: nat :: x < TWO_64 ==> Translate(m', root, x) == Translate(m, root, x))
    && (forall x: nat :: x < TWO_64 && Mappable(m, root, x) ==> Mappable(m', root, x))
    && Walk(m', root, va) == Cursor(c.level - 1, InTable(page, Index(va, c.level - 1)), c.perm * PWU)
    && WalkFrom(m', c.slot.table, c.level, va, c.perm) == Walk(m', root, va)
    && LeafEntry(m', root, va) == ZERO_WORD
    && (forall q: nat :: !IsTable(m, root, q) && q != page ==> Content(m', q) == Content(m, q))
  }

  // Linking a zeroed page below the absent entry that `va` stops at changes no translation.
  lemma LinkIsInvisible(m: Memory, m': Memory, root: nat, va: nat, page: nat)
    requires va < TWO_64 && Canonical(va) && Tree(m, root) && !IsTable(m, root, page)
    requires Walk(m, root, va).level > 0 && !Present(LeafEntry(m, root, va)) && page < 0x100_0000_0000
    requires
      var slot := Walk(m, root, va).slot;
      m' == Write(m[page := Filled(CC_WORD)][page := Filled(ZERO_WORD)], slot.table, slot.index, Word(page, PWU))
    ensures Linked(m, m', root, va, page)
  {
    var c := Walk(m, root, va);
    var s := Store(c.slot.table, c.slot.index, Word(page, PWU), {page});
    var n := EntryNo(va, c.level);
    LinkHolds(m, m', root, va, page, s);
    LinkKeepsTree(m, m', root, s, c.level, n, page);
    LinkKeepsTranslations(m, m', root, va, page, s);
    WalkLinked(m, m', root, s, c.level, n, page, va);
  }

  lemma LinkHolds(m: Memory, m': Memory, root: nat, va: nat, page: nat, s: Store)
    requires va < TWO_64 && Canonical(va) && Tree(m, root) && !IsTable(m, root, page)
    requires Walk(m, root, va).level > 0 && !Present(LeafEntry(m, root, va)) && page < 0x100_0000_0000
    requires Walk(m, root, va).slot == InTable(s.table, s.index) && s.word == Word(page, PWU) && s.scratch == {page}
    requires m' == Write(m[page := Filled(CC_WORD)][page := Filled(ZERO_WORD)], s.table, s.index, s.word)
    ensures Link(m, m', root, s, Walk(m, root, va).level, EntryNo(va, Walk(m, root, va).level), page)
    ensures IsTable(m, root, s.table)
  {
    WalkTable(m, root, va);
    EntryNoParts(va, Walk(m, root, va).level);
  }

  lemma LinkKeepsTranslations(m: Memory, m': Memory, root: nat, va: nat, page: nat, s: Store)
    requires va < TWO_64 && Canonical(va)
    requires Link(m, m', root, s, Walk(m, root, va).level, EntryNo(va, Walk(m, root, va).level), page)
    requires Walk(m, root, va).slot == InTable(s.table, s.index)
    ensures forall x: nat :: x < TWO_64 ==> Translate(m', root, x) == Translate(m, root, x)
    ensures forall x: nat :: x < TWO_64 && Mappable(m, root, x) ==> Mappable(m', root, x)
  {
    var c := Walk(m, root, va);
    var n := EntryNo(va, c.level);
    forall x: nat | x < TWO_64
      ensures Translate(m', root, x) == Translate(m, root, x)
      ensures Mappable(m, root, x) ==> Mappable(m', root, x)
    {
      if Canonical(x) && EntryNo(x, c.level) == n {
        SameEntrySameWalk(m, root, va, x);
        WalkLinked(m, m', root, s, c.level, n, page, x);
      } else {
        WalkElsewhere(m, m', root, s, c.level, n, x);
      }
    }
  }

  lemma WalkLinked(m: Memory, m': Memory, root: nat, s: Store, level: nat, n: nat, page: nat, x: nat)
    requires Link(m, m', root, s, level, n, page)
    requires x < TWO_64 && Canonical(x)
    requires Walk(m, root, x).slot == InTable(s.table, s.index) && Walk(m, root, x).level == level
    ensures Walk(m', root, x) == Cursor(level - 1, InTable(page, Index(x, level - 1)), Walk(m, root, x).perm * PWU)
    ensures LeafEntry(m', root, x) == ZERO_WORD
    ensures WalkFrom(m', s.table, level, x, Walk(m, root, x).perm) == Walk(m', root, x)
  {
    EntryNoParts(x, 3);
    assert TableAt(m, root, 3, 0) == Some(root);
    WalkFromLinked(m, m', root, s, level, n, page, root, 3, x, ALL_FLAGS);
    assert Content(m', s.table)[s.index] == s.word;
    assert Content(m', page)[Index(x, level - 1)] == ZERO_WORD;
  }

  // Canonical addresses under the same entry number share the walk that stops there.
  lemma SameEntrySameWalk(m: Memory, root: nat, va: nat, x: nat)
    requires va < TWO_64 && x < TWO_64 && Canonical(va) && Canonical(x)
    requires EntryNo(x, Walk(m, root, va).level) == EntryNo(va, Walk(m, root, va).level)
    ensures Walk(m, root, x) == Walk(m, root, va)
  {
    var c := Walk(m, root, va);
    forall l: nat | c.level <= l <= 3
      ensures Index(x, l) == Index(va, l)
    {
      SameRegionUp(Fold(va), Fold(x), c.level, l);
      EntryNoParts(va, l);
      EntryNoParts(x, l);
    }
    WalkFromSameIndexes(m, root, 3, va, x, ALL_FLAGS);
  }

  // Storing w in the level-0 entry of `va` changes the translation of that page only.
  lemma LeafStore(m: Memory, m': Memory, root: nat, va: nat, w: Word)
    requires va < TWO_64 && Canonical(va) && Tree(m, root) && Walk(m, root, va).level == 0
    requires m' == Write(m, Walk(m, root, va).slot.table, Walk(m, root, va).slot.index, w)
    ensures Tree(m', root) && IsTable(m, root, Walk(m, root, va).slot.table)
    ensures forall page: nat :: IsTable(m', root, page) <==> IsTable(m, root, page)
    ensures Walk(m', root, va) == Walk(m, root, va) && LeafEntry(m', root, va) == w
    ensures forall x: nat :: x < TWO_64 && x / PAGESIZE != va / PAGESIZE ==>
      Translate(m', root, x) == Translate(m, root, x)
    ensures forall x: nat :: x < TWO_64 && Mappable(m, root, x) ==> Mappable(m', root, x)
  {
    var c := Walk(m, root, va);
    var s := Store(c.slot.table, c.slot.index, w, {});
    var n := EntryNo(va, 0);
    WalkTable(m, root, va);
    EntryNoParts(va, 0);
    EntryNoParts(va, 3);
    assert TreeStore(m, m', root, s, 0, n);
    LeafKeepsTree(m, m', root, s, n);
    WalkFromLeafStored(m, m', root, s, n, root, 3, va, ALL_FLAGS);
    forall x: nat | x < TWO_64
      ensures x / PAGESIZE != va / PAGESIZE ==> Translate(m', root, x) == Translate(m, root, x)
      ensures Mappable(m, root, x) ==> Mappable(m', root, x)
    {
      if Canonical(x) && EntryNo(x, 0) == n {
        SamePage(x, va);
        SameEntrySameWalk(m, root, va, x);
        SameEntrySameWalk(m', root, va, x);
      } else {
        WalkElsewhere(m, m', root, s, 0, n, x);
      }
    }
  }

  lemma {:induction false} WalkFromLeafStored(m: Memory, m': Memory, root: nat, s: Store, n: nat,
                                              t: nat, l: nat, x: nat, perm: Flags)
    requires TreeStore(m, m', root, s, 0, n) && s.scratch == {}
    requires l <= 3 && x < TWO_64 && TableAt(m, root, l, EntryNo(x, l + 1)) == Some(t)
    ensures WalkFrom(m', t, l, x, perm) == WalkFrom(m, t, l, x, perm)
    decreases l
  {
    if l > 0 {
      EntryNoParts(x, l);
      assert t != s.table;
      var e := Content(m, t)[Index(x, l)];
      if Branch(e) {
        assert TableAt(m, root, l - 1, EntryNo(x, l)) == Some(Frame(e));
        WalkFromLeafStored(m, m', root, s, n, Frame(e), l - 1, x, perm * e.low);
      }
    }
  }

  // ---- Other address spaces ----

  // Nothing changed in the tables of this address space.
  ghost predicate TablesKept(m: Memory, m': Memory, root: nat) {
    forall level: nat, k: nat :: level <= 3 && TableAt(m, root, level, k).Some? ==>
      Content(m', TableAt(m, root, level, k).value) == Content(m, TableAt(m, root, level, k).value)
  }

  lemma {:induction false} WalkFromKept(m: Memory, m': Memory, root: nat, t: nat, level: nat, va: nat, perm: Flags)
    requires TablesKept(m, m', root)
    requires level <= 3 && va < TWO_64 && TableAt(m, root, level, EntryNo(va, level + 1)) == Some(t)
    ensures WalkFrom(m', t, level, va, perm) == WalkFrom(m, t, level, va, perm)
    ensures Read(m', WalkFrom(m, t, level, va, perm).slot) == Read(m, WalkFrom(m, t, level, va, perm).slot)
    decreases level
  {
    var e := Content(m, t)[Index(va, level)];
    assert Content(m', t)[Index(va, level)] == e;
    if level > 0 && Branch(e) {
      TableBelow(m, root, t, level, va);
      WalkFromKept(m, m', root, Frame(e), level - 1, va, perm * e.low);
    }
  }

  // An address space whose tables are untouched translates every address as before.
  lemma OtherSpaceUnchanged(m: Memory, m': Memory, root: nat, va: nat)
    requires TablesKept(m, m', root) && va < TWO_64
    ensures Walk(m', root, va) == Walk(m, root, va) && Translate(m', root, va) == Translate(m, root, va)
  {
    if Canonical(va) {
      EntryNoParts(va, 3);
      WalkFromKept(m, m', root, root, 3, va, ALL_FLAGS);
    }
  }

  lemma {:induction false} TableAtKept(m: Memory, m': Memory, root: nat, level: nat, k: nat)
    requires TablesKept(m, m', root) && level <= 3
    ensures TableAt(m', root, level, k) == TableAt(m, root, level, k)
    decreases 3 - level
  {
    if level < 3 {
      TableAtKept(m, m', root, level + 1, k / 512);
    }
  }

  // Everything about the address space is as before: its tables, their shape and all translations.
  ghost predicate SpaceKept(m: Memory, m': Memory, root: nat) {
    && (Tree(m, root) ==> Tree(m', root))
    && (forall page: nat :: IsTable(m', root, page) <==> IsTable(m, root, page))
    && (forall x: nat :: x < TWO_64 ==> Translate(m', root, x) == Translate(m, root, x))
  }

  lemma KeptTablesKeepSpace(m: Memory, m': Memory, root: nat)
    requires TablesKept(m, m', root)
    ensures SpaceKept(m, m', root)
  {
    forall level: nat, k: nat | level <= 3
      ensures TableAt(m', root, level, k) == TableAt(m, root, level, k)
    {
      TableAtKept(m, m', root, level, k);
    }
    forall x: nat | x < TWO_64
      ensures Translate(m', root, x) == Translate(m, root, x)
    {
      OtherSpaceUnchanged(m, m', root, x);
    }
  }
}
