/** The page-table-page iterator: a stackless depth-first traversal that restarts at the root to climb. */
module PageTablePages {
  import opened Basics
  import opened Paging
  import opened PhysMemory

  // Table number `k` at a level.
  datatype Node = Node(level: nat, k: nat)

  // ---- The reference traversal: post-order by recursion over a set of tables ----

  // The tables below entries n..hi-1 of a level-l table, each after everything below it.
  ghost function Entries(ts: iset<Node>, l: nat, n: nat, hi: nat): seq<Node>
    requires l > 0
    decreases l, 1, hi - n, ts
  {
    if n >= hi then [] else Subtree(ts, l - 1, n) + Entries(ts, l, n + 1, hi)
  }

  // Table (l, k) and everything below it, the table last.
  ghost function Subtree(ts: iset<Node>, l: nat, k: nat): seq<Node>
    decreases l + 1, 0, 0, ts
  {
    if Node(l, k) !in ts then []
    else if l == 0 then [Node(l, k)]
    else Entries(ts, l, k * 512, (k + 1) * 512) + [Node(l, k)]
  }

  ghost function PostOrder(ts: iset<Node>): seq<Node> {
    Entries(ts, 3, 0, 512)
  }

  // What is left of the post-order once everything below table (l, k) is done.
  ghost function Rest(ts: iset<Node>, l: nat, k: nat): seq<Node>
    requires l <= 3
    decreases 3 - l, ts
  {
    if l == 3 then []
    else [Node(l, k)] + Entries(ts, l + 1, k + 1, (k / 512 + 1) * 512) + Rest(ts, l + 1, k / 512)
  }

  // ---- Post-order facts ----

  // One past the last address below a table.
  function End(nd: Node): nat {
    (nd.k + 1) * Span(nd.level + 1)
  }

  // Post-order on tables: by end address, and inside equal ends the deeper table first.
  predicate Before(a: Node, b: Node) {
    End(a) < End(b) || (End(a) == End(b) && a.level < b.level)
  }

  predicate Sorted(s: seq<Node>) {
    forall i, j :: 0 <= i < j < |s| ==> Before(s[i], s[j])
  }

  predicate Within(s: seq<Node>, level: nat, lo: nat, hi: nat) {
    forall i :: 0 <= i < |s| ==> s[i].level < level && lo < End(s[i]) <= hi
  }

  lemma SortedConcat(a: seq<Node>, b: seq<Node>, level: nat, lo: nat, mid: nat, hi: nat)
    requires Sorted(a) && Sorted(b) && Within(a, level, lo, mid) && Within(b, level, mid, hi) && lo <= mid <= hi
    ensures Sorted(a + b) && Within(a + b, level, lo, hi)
  {
    forall i, j | 0 <= i < j < |a + b|
      ensures Before((a + b)[i], (a + b)[j])
    {
      if i < |a| <= j {
        assert End(a[i]) <= mid < End(b[j - |a|]);
      }
    }
  }

  lemma {:induction false} EntriesSorted(ts: iset<Node>, l: nat, n: nat, hi: nat)
    requires l > 0 && n <= hi
    ensures Sorted(Entries(ts, l, n, hi)) && Within(Entries(ts, l, n, hi), l, n * Span(l), hi * Span(l))
    decreases l, 1, hi - n
  {
    if n < hi {
      SubtreeSorted(ts, l - 1, n);
      EntriesSorted(ts, l, n + 1, hi);
      MulLe(n, n + 1, Span(l));
      MulLe(n + 1, hi, Span(l));
      SortedConcat(Subtree(ts, l - 1, n), Entries(ts, l, n + 1, hi), l, n * Span(l), (n + 1) * Span(l), hi * Span(l));
    }
  }

  lemma {:induction false} SubtreeSorted(ts: iset<Node>, l: nat, k: nat)
    ensures Sorted(Subtree(ts, l, k)) && Within(Subtree(ts, l, k), l + 1, k * Span(l + 1), (k + 1) * Span(l + 1))
    decreases l + 1, 0, 0
  {
    var lo, hi := k * Span(l + 1), (k + 1) * Span(l + 1);
    assert lo < hi == End(Node(l, k)) by {
      assert hi == lo + Span(l + 1);
    }
    if Node(l, k) in ts && l > 0 {
      EntriesSorted(ts, l, k * 512, (k + 1) * 512);
      SpanUp(l, k);
      SpanUp(l, k + 1);
      var a := Entries(ts, l, k * 512, (k + 1) * 512);
      assert Within(a, l, lo, hi);
      assert Sorted(a + [Node(l, k)]);
    }
  }

  lemma SpanUp(l: nat, k: nat)
    ensures (k * 512) * Span(l) == k * Span(l + 1)
  {
    var s := Span(l);
    assert (k * 512) * s == k * (s * 512);
  }

  // A table comes after each table below it.
  lemma ParentAfterChild(l: nat, k: nat)
    ensures Before(Node(l, k), Node(l + 1, k / 512))
  {
    SpanUp(l + 1, k / 512 + 1);
    MulLe(k + 1, (k / 512 + 1) * 512, Span(l + 1));
  }

  // Nothing but existing tables is listed.
  lemma {:induction false} EntriesSound(ts: iset<Node>, l: nat, n: nat, hi: nat)
    requires l > 0
    ensures forall nd :: nd in Entries(ts, l, n, hi) ==> nd in ts && nd.level < l
    decreases l, hi - n
  {
    if n < hi {
      EntriesSound(ts, l, n + 1, hi);
      if l > 1 {
        EntriesSound(ts, l - 1, n * 512, (n + 1) * 512);
      }
    }
  }

  lemma {:induction false} EntriesHaveSubtree(ts: iset<Node>, l: nat, n: nat, j: nat, hi: nat)
    requires l > 0 && n <= j < hi
    ensures forall nd :: nd in Subtree(ts, l - 1, j) ==> nd in Entries(ts, l, n, hi)
    decreases j - n
  {
    if n < j {
      EntriesHaveSubtree(ts, l, n + 1, j, hi);
    }
  }

  // Every table of the set hangs below table 0 of level 3.
  ghost predicate Rooted(ts: iset<Node>) {
    forall nd :: nd in ts ==>
      nd.level <= 3 && (if nd.level == 3 then nd.k == 0 else Node(nd.level + 1, nd.k / 512) in ts)
  }

  lemma {:induction false} SubtreeListed(ts: iset<Node>, l: nat, k: nat)
    requires Rooted(ts) && l <= 2 && Node(l, k) in ts
    ensures forall nd :: nd in Subtree(ts, l, k) ==> nd in PostOrder(ts)
    decreases 3 - l
  {
    var k' := k / 512;
    assert Node(l + 1, k') in ts;
    if l == 2 {
      EntriesHaveSubtree(ts, 3, 0, k, 512);
    } else {
      EntriesHaveSubtree(ts, l + 1, k' * 512, k, (k' + 1) * 512);
      SubtreeListed(ts, l + 1, k');
      assert Subtree(ts, l + 1, k') == Entries(ts, l + 1, k' * 512, (k' + 1) * 512) + [Node(l + 1, k')];
      forall nd | nd in Subtree(ts, l, k)
        ensures nd in PostOrder(ts)
      {
        assert nd in Subtree(ts, l + 1, k');
      }
    }
  }

  // The reference traversal lists every table but the root exactly once, children first.
  lemma PostOrderIsComplete(ts: iset<Node>)
    requires Rooted(ts)
    ensures Sorted(PostOrder(ts))
    ensures forall nd :: nd in PostOrder(ts) <==> nd in ts && nd.level <= 2
  {
    EntriesSorted(ts, 3, 0, 512);
    EntriesSound(ts, 3, 0, 512);
    forall nd: Node | nd in ts && nd.level <= 2
      ensures nd in PostOrder(ts)
    {
      SubtreeListed(ts, nd.level, nd.k);
      assert nd in Subtree(ts, nd.level, nd.k);
    }
  }

  // ---- The tables of an address space as such a set ----

  ghost function Tables(m: Memory, root: nat): iset<Node> {
    iset nd: Node | nd.level <= 3 && TableAt(m, root, nd.level, nd.k).Some?
  }

  ghost function PageOf(m: Memory, root: nat, nd: Node): nat
    requires nd in Tables(m, root)
  {
    TableAt(m, root, nd.level, nd.k).value
  }

  lemma TablesRooted(m: Memory, root: nat)
    ensures Rooted(Tables(m, root))
  {
  }

  // The tables above an existing one exist.
  lemma {:induction false} TablesAbove(ts: iset<Node>, va: nat, l: nat, l': nat)
    requires Rooted(ts) && l <= l' <= 3 && Node(l, Shift(va, l + 1)) in ts
    ensures Node(l', Shift(va, l' + 1)) in ts
    decreases l' - l
  {
    if l < l' {
      assert Shift(va, l + 2) == Shift(va, l + 1) / 512;
      TablesAbove(ts, va, l + 1, l');
    }
  }

  // ---- How the remaining post-order unfolds along the iterator's moves ----

  // The rest of the traversal after entry n of a level-l table and everything below it.
  ghost function After(ts: iset<Node>, l: nat, n: nat): seq<Node>
    requires 1 <= l <= 3
  {
    Entries(ts, l, n + 1, (n / 512 + 1) * 512) + Rest(ts, l, n / 512)
  }

  // The same, with entry n still to be done.
  ghost function From(ts: iset<Node>, l: nat, n: nat): seq<Node>
    requires 1 <= l <= 3
  {
    Entries(ts, l, n, (n / 512 + 1) * 512) + Rest(ts, l, n / 512)
  }

  lemma FromAbsent(ts: iset<Node>, l: nat, n: nat)
    requires 1 <= l <= 3 && Node(l - 1, n) !in ts
    ensures From(ts, l, n) == After(ts, l, n)
  {
    var hi := (n / 512 + 1) * 512;
    assert Subtree(ts, l - 1, n) == [];
    assert Entries(ts, l, n, hi) == [] + Entries(ts, l, n + 1, hi);
  }

  lemma FromPresent(ts: iset<Node>, l: nat, n: nat)
    requires 1 <= l <= 3 && Node(l - 1, n) in ts
    ensures l == 1 ==> From(ts, l, n) == [Node(0, n)] + After(ts, l, n)
    ensures l > 1 ==> From(ts, l, n) == From(ts, l - 1, n * 512)
  {
    var hi := (n / 512 + 1) * 512;
    var a, c := Entries(ts, l, n + 1, hi), Rest(ts, l, n / 512);
    assert Entries(ts, l, n, hi) == Subtree(ts, l - 1, n) + a;
    if l > 1 {
      var b := Entries(ts, l - 1, n * 512, (n + 1) * 512);
      assert (n * 512) / 512 == n;
      assert Rest(ts, l - 1, n) == [Node(l - 1, n)] + a + c;
      assert (b + [Node(l - 1, n)]) + a + c == b + ([Node(l - 1, n)] + a + c);
    }
  }

  lemma AfterInTable(ts: iset<Node>, l: nat, n: nat)
    requires 1 <= l <= 3
    ensures if n % 512 == 511 then After(ts, l, n) == Rest(ts, l, n / 512) else After(ts, l, n) == From(ts, l, n + 1)
  {
    assert n % 512 != 511 ==> (n + 1) / 512 == n / 512;
  }

  lemma RestUp(ts: iset<Node>, l: nat, k: nat)
    requires l <= 2
    ensures Rest(ts, l, k) == [Node(l, k)] + After(ts, l + 1, k)
  {
    assert [Node(l, k)] + Entries(ts, l + 1, k + 1, (k / 512 + 1) * 512) + Rest(ts, l + 1, k / 512)
        == [Node(l, k)] + (Entries(ts, l + 1, k + 1, (k / 512 + 1) * 512) + Rest(ts, l + 1, k / 512));
  }

  // The rest of the traversal for a cursor standing at `va` in a level-l table, nothing skipped.
  ghost function Onward(ts: iset<Node>, l: nat, va: nat): seq<Node>
    requires 1 <= l <= 3
    decreases l, ts
  {
    var n := Shift(va, l);
    if Node(l - 1, n) !in ts then After(ts, l, n)
    else if l == 1 then [Node(0, n)] + After(ts, l, n)
    else Onward(ts, l - 1, va)
  }

  // At the first address of an entry that is the entry and everything after it.
  lemma {:induction false} OnwardAligned(ts: iset<Node>, l: nat, va: nat)
    requires 1 <= l <= 3 && va == Shift(va, l) * Span(l)
    ensures Onward(ts, l, va) == From(ts, l, Shift(va, l))
    decreases l
  {
    var n := Shift(va, l);
    if Node(l - 1, n) in ts {
      FromPresent(ts, l, n);
      if l > 1 {
        FirstEntryBelow(va, l);
        OnwardAligned(ts, l - 1, va);
      }
    } else {
      FromAbsent(ts, l, n);
    }
  }

  lemma {:induction false} OnwardHasPath(ts: iset<Node>, va: nat, l: nat, l': nat)
    requires 1 <= l <= l' <= 2
    ensures Node(l', Shift(va, l' + 1)) in Onward(ts, l, va)
    decreases l
  {
    var n := Shift(va, l);
    if Node(l - 1, n) !in ts || l == 1 {
      assert Shift(va, l + 1) == n / 512;
      RestHasPath(ts, va, l, l');
    } else {
      OnwardHasPath(ts, va, l - 1, l');
    }
  }

  // Every table on the path above is still to come.
  lemma {:induction false} RestHasPath(ts: iset<Node>, va: nat, l: nat, l': nat)
    requires l <= l' <= 2
    ensures Node(l', Shift(va, l' + 1)) in Rest(ts, l, Shift(va, l + 1))
    decreases l' - l
  {
    if l < l' {
      RestHasPath(ts, va, l + 1, l');
      assert Shift(va, l + 2) == Shift(va, l + 1) / 512;
    }
  }

  // ---- Moves on addresses ----

  lemma NextAddress(va: nat, l: nat)
    requires va < VA_NONCANONEND && 1 <= l <= 3
    ensures
      var v := RegionLimit(va, l);
      && Shift(v, l) == Shift(va, l) + 1 && v == Shift(v, l) * Span(l) && va < v
      && (Shift(v, l + 1) == Shift(va, l + 1) <==> Shift(va, l) % 512 != 511)
      && (Shift(v, l + 1) == Shift(va, l + 1) ==> v < VA_NONCANONEND)
      && RegionEnd(va, l) == v
  {
    var v, n := RegionLimit(va, l), Shift(va, l);
    RegionBounds(va, l);
    SpanConstants();
    assert v == n * Span(l) + Span(l) && v < TWO_64;
    assert v < (n + 2) * Span(l) by {
      assert (n + 2) * Span(l) == v + Span(l);
    }
    InRegion(v, n + 1, l);
    assert Shift(v, l + 1) == (n + 1) / 512;
    if Shift(v, l + 1) == Shift(va, l + 1) {
      SameRegionUp(va, v, l + 1, 4);
      TopRegion(va);
      TopRegion(v);
    }
  }

  // Addresses below 2^48 are those the root table covers.
  lemma TopRegion(va: nat)
    ensures va < VA_NONCANONEND <==> Shift(va, 4) == 0
  {
    SpanConstants();
    RegionBounds(va, 4);
    assert Span(4) == Span(3) * 512;
    if Shift(va, 4) >= 1 {
      MulLe(1, Shift(va, 4), Span(4));
    }
  }

  lemma FirstEntryBelow(va: nat, l: nat)
    requires 1 <= l && va == Shift(va, l) * Span(l)
    ensures Shift(va, l - 1) == Shift(va, l) * 512 && va == Shift(va, l - 1) * Span(l - 1)
  {
    var n := Shift(va, l);
    SpanUp(l - 1, n);
    assert (n * 512 + 1) * Span(l - 1) == (n * 512) * Span(l - 1) + Span(l - 1);
    InRegion(va, n * 512, l - 1);
  }

  // ---- One round of the iterator's loop, on positions ----

  // The cursor is at `level` over `va`, and `todo` is what remains. With stop == 1 the loop searches forward
  // from the current entry; with stop > 1 it walks down again to the table it has just finished.
  ghost predicate OnTrack(ts: iset<Node>, todo: seq<Node>, level: nat, va: nat, skip: bool, stop: nat) {
    && Rooted(ts) && 1 <= stop <= level <= 3 && va < VA_NONCANONEND && Node(level, Shift(va, level + 1)) in ts
    && (stop == 1 && skip ==> todo == After(ts, level, Shift(va, level)))
    && (stop == 1 && !skip ==> todo == Onward(ts, level, va))
    && (stop > 1 ==> !skip && Node(stop - 1, Shift(va, stop)) in ts && todo == Rest(ts, stop - 1, Shift(va, stop)))
  }

  // The table under the cursor is the root or has not been delivered yet.
  lemma TrackTable(ts: iset<Node>, todo: seq<Node>, level: nat, va: nat, skip: bool, stop: nat)
    requires OnTrack(ts, todo, level, va, skip, stop)
    ensures if level == 3 then Shift(va, 4) == 0 else Node(level, Shift(va, level + 1)) in todo
  {
    TopRegion(va);
    if level < 3 {
      if stop == 1 && !skip {
        OnwardHasPath(ts, va, level, level);
      } else {
        RestHasPath(ts, va, if stop == 1 then level else stop - 1, level);
      }
    }
  }

  lemma TrackPresent(ts: iset<Node>, todo: seq<Node>, level: nat, va: nat, stop: nat)
    requires OnTrack(ts, todo, level, va, false, stop)
    requires Node(level - 1, Shift(va, level)) in ts
    ensures if level == stop then todo == [Node(level - 1, Shift(va, level))] + After(ts, level, Shift(va, level))
            else OnTrack(ts, todo, level - 1, va, false, stop)
  {
    if stop > 1 {
      RestUp(ts, stop - 1, Shift(va, stop));
    }
  }

  lemma TrackAbsent(ts: iset<Node>, todo: seq<Node>, level: nat, va: nat, skip: bool, stop: nat)
    requires OnTrack(ts, todo, level, va, skip, stop)
    requires skip || Node(level - 1, Shift(va, level)) !in ts
    ensures stop == 1
    ensures
      var v := RegionEnd(va, level);
      if Shift(v, level + 1) == Shift(va, level + 1) then
        OnTrack(ts, todo, level, v, false, 1) && va < v && Index(v, level) == Index(va, level) + 1
      else if level == 3 then todo == []
      else OnTrack(ts, todo, 3, va, false, level + 1)
  {
    var n := Shift(va, level);
    if stop > 1 {
      TablesAbove(ts, va, stop - 1, level - 1);
    } else {
      AfterInTable(ts, level, n);
      NextAddress(va, level);
      OnwardAligned(ts, level, RegionLimit(va, level));
      TablesAbove(ts, va, level, 3);
    }
  }

  // The entry under the cursor points to a table exactly when that table exists.
  lemma ChildOf(m: Memory, root: nat, level: nat, va: nat)
    requires 1 <= level <= 3 && Node(level, Shift(va, level + 1)) in Tables(m, root)
    ensures
      var e := Content(m, PageOf(m, root, Node(level, Shift(va, level + 1))))[Index(va, level)];
      && (Branch(e) <==> Node(level - 1, Shift(va, level)) in Tables(m, root))
      && (Branch(e) ==> PageOf(m, root, Node(level - 1, Shift(va, level))) == Frame(e))
  {
    assert Shift(va, level + 1) == Shift(va, level) / 512;
  }

  // The pages of the listed tables.
  ghost function Pages(m: Memory, root: nat, list: seq<Node>): set<nat> {
    if list == [] then {}
    else (if list[0] in Tables(m, root) then {PageOf(m, root, list[0])} else {}) + Pages(m, root, list[1..])
  }

  lemma {:induction false} PagesHas(m: Memory, root: nat, list: seq<Node>, i: nat)
    requires i < |list| && list[i] in Tables(m, root)
    ensures PageOf(m, root, list[i]) in Pages(m, root, list)
  {
    if i > 0 {
      PagesHas(m, root, list[1..], i - 1);
    }
  }

  lemma {:induction false} PagesFrom(m: Memory, root: nat, list: seq<Node>, p: nat) returns (i: nat)
    requires p in Pages(m, root, list)
    ensures i < |list| && list[i] in Tables(m, root) && PageOf(m, root, list[i]) == p
  {
    if list[0] in Tables(m, root) && PageOf(m, root, list[0]) == p {
      i := 0;
    } else {
      i := PagesFrom(m, root, list[1..], p);
      i := i + 1;
    }
  }

  // The table under the cursor is one of the root and the pages still to come.
  lemma TrackPage(m: Memory, root: nat, todo: seq<Node>, level: nat, va: nat, skip: bool, stop: nat)
    requires OnTrack(Tables(m, root), todo, level, va, skip, stop)
    ensures PageOf(m, root, Node(level, Shift(va, level + 1))) in {root} + Pages(m, root, todo)
  {
    TrackTable(Tables(m, root), todo, level, va, skip, stop);
    var nd := Node(level, Shift(va, level + 1));
    if level < 3 {
      var i :| 0 <= i < |todo| && todo[i] == nd;
      PagesHas(m, root, todo, i);
    }
  }

  // The root table covers every starting address.
  lemma Start(m: Memory, root: nat, va: nat)
    requires va < VA_NONCANONEND
    ensures Shift(va, 4) == 0 && Node(3, 0) in Tables(m, root) && PageOf(m, root, Node(3, 0)) == root
    ensures OnTrack(Tables(m, root), Onward(Tables(m, root), 3, va), 3, va, false, 1)
  {
    TopRegion(va);
    TablesRooted(m, root);
  }

  // From address 0 the whole post-order is to come.
  lemma OnwardFromZero(ts: iset<Node>)
    ensures Onward(ts, 3, 0) == PostOrder(ts)
  {
    assert Shift(0, 0) == 0 && Shift(0, 1) == 0 && Shift(0, 2) == 0 && Shift(0, 3) == 0;
    OnwardAligned(ts, 3, 0);
    assert Rest(ts, 3, 0) == [];
    assert From(ts, 3, 0) == Entries(ts, 3, 0, 512) + [];
  }

  lemma {:induction false} EntriesSplit(ts: iset<Node>, l: nat, lo: nat, mid: nat, hi: nat)
    requires l > 0 && lo <= mid <= hi
    ensures Entries(ts, l, lo, hi) == Entries(ts, l, lo, mid) + Entries(ts, l, mid, hi)
    decreases mid - lo
  {
    if lo < mid {
      EntriesSplit(ts, l, lo + 1, mid, hi);
    }
  }

  // Every listed table ends at or before va, or every one ends after it.
  predicate UpTo(s: seq<Node>, va: nat) {
    forall i :: 0 <= i < |s| ==> End(s[i]) <= va
  }

  predicate Beyond(s: seq<Node>, va: nat) {
    forall i :: 0 <= i < |s| ==> End(s[i]) > va
  }

  // The entries of its table before the one that covers va end at or before va.
  lemma EarlierEntries(ts: iset<Node>, l: nat, va: nat) returns (first: seq<Node>)
    requires 1 <= l <= 3
    ensures UpTo(first, va) && From(ts, l, Shift(va, l + 1) * 512) == first + From(ts, l, Shift(va, l))
  {
    var n, k := Shift(va, l), Shift(va, l + 1);
    first := Entries(ts, l, k * 512, n);
    assert k == n / 512 == k * 512 / 512 && k * 512 <= n <= (k + 1) * 512;
    EntriesSplit(ts, l, k * 512, n, (k + 1) * 512);
    EntriesSorted(ts, l, k * 512, n);
    RegionBounds(va, l);
  }

  lemma Joined(first: seq<Node>, rest: seq<Node>, tail: seq<Node>, va: nat)
    requires UpTo(first, va) && UpTo(rest, va)
    ensures UpTo(first + rest, va) && first + (rest + tail) == (first + rest) + tail
  {
  }

  // Everything from the start of the table that covers va divides at va.
  lemma {:induction false} OnwardSplits(ts: iset<Node>, l: nat, va: nat) returns (pre: seq<Node>)
    requires 1 <= l <= 3
    ensures From(ts, l, Shift(va, l + 1) * 512) == pre + Onward(ts, l, va) && UpTo(pre, va)
    decreases l
  {
    var n := Shift(va, l);
    pre := EarlierEntries(ts, l, va);
    if Node(l - 1, n) !in ts {
      FromAbsent(ts, l, n);
    } else {
      FromPresent(ts, l, n);
      if l > 1 {
        var rest := OnwardSplits(ts, l - 1, va);
        Joined(pre, rest, Onward(ts, l - 1, va), va);
        pre := pre + rest;
      }
    }
  }

  lemma {:induction false} RestBeyond(ts: iset<Node>, l: nat, va: nat)
    requires l <= 3
    ensures Beyond(Rest(ts, l, Shift(va, l + 1)), va)
    decreases 3 - l, 0
  {
    if l < 3 {
      RegionBounds(va, l + 1);
      RestUp(ts, l, Shift(va, l + 1));
      AfterBeyond(ts, l + 1, va);
    }
  }

  lemma {:induction false} AfterBeyond(ts: iset<Node>, l: nat, va: nat)
    requires 1 <= l <= 3
    ensures Beyond(After(ts, l, Shift(va, l)), va)
    decreases 3 - l, 1
  {
    var n := Shift(va, l);
    EntriesSorted(ts, l, n + 1, (n / 512 + 1) * 512);
    RegionBounds(va, l);
    assert Beyond(Entries(ts, l, n + 1, (n / 512 + 1) * 512), va);
    RestBeyond(ts, l, va);
  }

  lemma {:induction false} OnwardBeyond(ts: iset<Node>, l: nat, va: nat)
    requires 1 <= l <= 3
    ensures Beyond(Onward(ts, l, va), va)
    decreases l
  {
    AfterBeyond(ts, l, va);
    RegionBounds(va, l);
    if Node(l - 1, Shift(va, l)) in ts && l > 1 {
      OnwardBeyond(ts, l - 1, va);
    }
  }

  // A traversal that starts at va is the part of the post-order whose tables reach beyond va.
  lemma OnwardIsSuffix(ts: iset<Node>, va: nat) returns (pre: seq<Node>)
    requires va < VA_NONCANONEND
    ensures PostOrder(ts) == pre + Onward(ts, 3, va)
    ensures UpTo(pre, va) && Beyond(Onward(ts, 3, va), va)
  {
    TopRegion(va);
    pre := OnwardSplits(ts, 3, va);
    OnwardBeyond(ts, 3, va);
    assert From(ts, 3, 0) == PostOrder(ts) + [];
  }

  // m and cur agree on the given pages.
  ghost predicate Agree(m: Memory, cur: Memory, pages: set<nat>) {
    forall p :: p in pages ==> Content(cur, p) == Content(m, p)
  }

  // The slot covers `va` at this level of the original tables.
  ghost predicate PlacedAt(m: Memory, root: nat, slot: Slot, level: nat, va: nat) {
    && 1 <= level <= 3 && va < VA_NONCANONEND
    && Node(level, Shift(va, level + 1)) in Tables(m, root)
    && slot == InTable(PageOf(m, root, Node(level, Shift(va, level + 1))), Index(va, level))
  }

  // What the cursor reads is what the original tables hold.
  lemma ReadOnTrack(m: Memory, cur: Memory, root: nat, todo: seq<Node>, slot: Slot, level: nat, va: nat,
                    skip: bool, stop: nat)
    requires PlacedAt(m, root, slot, level, va) && OnTrack(Tables(m, root), todo, level, va, skip, stop)
    requires Agree(m, cur, {root} + Pages(m, root, todo))
    ensures
      var e := Read(cur, slot);
      && (Branch(e) <==> Node(level - 1, Shift(va, level)) in Tables(m, root))
      && (Branch(e) ==> PageOf(m, root, Node(level - 1, Shift(va, level))) == Frame(e))
  {
    TrackPage(m, root, todo, level, va, skip, stop);
    ChildOf(m, root, level, va);
  }

  // Entering the table under the cursor.
  lemma EnterOnTrack(m: Memory, cur: Memory, root: nat, todo: seq<Node>, slot: Slot, level: nat, va: nat, stop: nat)
    requires PlacedAt(m, root, slot, level, va) && OnTrack(Tables(m, root), todo, level, va, false, stop)
    requires Agree(m, cur, {root} + Pages(m, root, todo))
    requires stop < level && Branch(Read(cur, slot))
    ensures OnTrack(Tables(m, root), todo, level - 1, va, false, stop)
    ensures PlacedAt(m, root, InTable(Frame(Read(cur, slot)), Index(va, level - 1)), level - 1, va)
  {
    ReadOnTrack(m, cur, root, todo, slot, level, va, false, stop);
    TrackPresent(Tables(m, root), todo, level, va, stop);
  }

  // Leaving the current entry: the next entry of the table, or after the last one the climb from the root.
  lemma LeaveOnTrack(m: Memory, cur: Memory, root: nat, todo: seq<Node>, slot: Slot, level: nat, va: nat,
                     skip: bool, stop: nat)
    requires PlacedAt(m, root, slot, level, va) && OnTrack(Tables(m, root), todo, level, va, skip, stop)
    requires Agree(m, cur, {root} + Pages(m, root, todo))
    requires skip || !Branch(Read(cur, slot))
    ensures stop == 1
    ensures
      var v := RegionEnd(va, level);
      if Shift(v, level + 1) == Shift(va, level + 1) then
        && va < v && OnTrack(Tables(m, root), todo, level, v, false, 1)
        && PlacedAt(m, root, slot.(index := slot.index + 1), level, v)
      else if level == 3 then todo == []
      else
        && OnTrack(Tables(m, root), todo, 3, va, false, level + 1)
        && PlacedAt(m, root, InTable(root, Index(va, 3)), 3, va)
  {
    ReadOnTrack(m, cur, root, todo, slot, level, va, skip, stop);
    TrackAbsent(Tables(m, root), todo, level, va, skip, stop);
    TopRegion(va);
  }

  class PtIter {
    const machine: Machine
    const root: nat
    var slot: Slot
    var level: nat
    var va: nat
    ghost var orig: Memory        // memory when the traversal began
    ghost var touched: set<nat>   // table pages read by the latest move

    ghost predicate Placed()
      reads this
    {
      PlacedAt(orig, root, slot, level, va)
    }

    // The root and the given tables still hold what they held when the traversal began.
    ghost predicate Intact(list: seq<Node>)
      reads this, machine
    {
      Agree(orig, machine.mem, {root} + Pages(orig, root, list))
    }

    predicate Active()
      reads this
    {
      va < VA_NONCANONEND
    }

    // The table the iterator stands on.
    ghost function Current(): Node
      reads this
    {
      Node(if level > 0 then level - 1 else 0, Shift(va, level))
    }

    ghost predicate Valid()
      reads this
    {
      Active() ==> Placed() && Current() in Tables(orig, root)
    }

    // What the traversal has still to deliver, the current table first.
    ghost function Coming(): seq<Node>
      requires Valid()
      reads this
    {
      if Active() then [Current()] + After(Tables(orig, root), level, Shift(va, level)) else []
    }

    // pa(), as a page number.
    method Page() returns (p: nat)
      requires Valid() && Active() && Intact(Coming()[1..])
      ensures p == PageOf(orig, root, Current())
    {
      p := Frame(Read(machine.mem, slot));
      TablesRooted(orig, root);
      ghost var rest := After(Tables(orig, root), level, Shift(va, level));
      ReadOnTrack(orig, machine.mem, root, rest, slot, level, va, true, 1);
    }

    // Starts at the first table, in post-order, that reaches beyond `start`.
    constructor (machine: Machine, root: nat, start: nat)
      requires start < VA_NONCANONEND
      ensures Valid() && this.machine == machine && this.root == root && orig == machine.mem
      ensures Coming() == Onward(Tables(orig, root), 3, start) && touched <= {root} + Pages(orig, root, Coming())
      ensures start == 0 ==> Coming() == PostOrder(Tables(orig, root))
    {
      this.machine, this.root := machine, root;
      slot, level, va := InTable(root, Index(start, 3)), 3, start;
      orig, touched := machine.mem, {};
      new;
      Start(orig, root, start);
      OnwardFromZero(Tables(orig, root));
      Down(false, Onward(Tables(orig, root), 3, start));
    }

    // Moves to the next table in post-order; reads only the root and tables not yet delivered.
    method Next()
      requires Valid() && Active() && Intact(Coming()[1..])
      modifies this`slot, this`level, this`va, this`touched
      ensures Valid() && Coming() == old(Coming())[1..]
      ensures touched <= {root} + Pages(orig, root, Coming())
    {
      TablesRooted(orig, root);
      Down(true, Coming()[1..]);
    }

    // Records the page the cursor is about to read.
    ghost method Touch(todo: seq<Node>, skip: bool, stop: nat)
      requires Placed() && OnTrack(Tables(orig, root), todo, level, va, skip, stop)
      modifies this`touched
      ensures touched == old(touched) + {slot.table} && slot.table in {root} + Pages(orig, root, todo)
    {
      TrackPage(orig, root, todo, level, va, skip, stop);
      touched := touched + {slot.table};
    }

    // The loop stops at the next table of the post-order.
    lemma Arrive(todo: seq<Node>)
      requires Placed() && OnTrack(Tables(orig, root), todo, level, va, false, level) && Intact(todo)
      requires Branch(Read(machine.mem, slot))
      ensures Valid() && Active() && Coming() == todo
    {
      ReadOnTrack(orig, machine.mem, root, todo, slot, level, va, false, level);
      TrackPresent(Tables(orig, root), todo, level, va, level);
    }

    // Enters the table under the cursor.
    method Enter(ghost todo: seq<Node>, ghost stop: nat)
      requires Placed() && OnTrack(Tables(orig, root), todo, level, va, false, stop) && Intact(todo)
      requires stop < level && Branch(Read(machine.mem, slot))
      modifies this`slot, this`level
      ensures Placed() && OnTrack(Tables(orig, root), todo, level, va, false, stop) && level == old(level) - 1
    {
      EnterOnTrack(orig, machine.mem, root, todo, slot, level, va, stop);
      var e := Read(machine.mem, slot);
      level := level - 1;
      slot := InTable(Frame(e), Index(va, level));
    }

    // Leaves an entry that is absent or to be skipped: on to the next entry of the same table, or, after the last one,
    // back to the root so as to stop one level above. The traversal ends when this happens in the root itself.
    method Leave(ghost todo: seq<Node>, ghost skip: bool, stop: nat) returns (stop': nat)
      requires Placed() && OnTrack(Tables(orig, root), todo, level, va, skip, stop) && Intact(todo)
      requires skip || !Branch(Read(machine.mem, slot))
      modifies this`slot, this`level, this`va
      ensures va == VA_NONCANONEND ==> todo == []
      ensures va != VA_NONCANONEND ==> Placed() && OnTrack(Tables(orig, root), todo, level, va, false, stop')
      ensures stop == 1
      ensures va == VA_NONCANONEND || stop' > 1 || (stop' == 1 && old(va) < va)
    {
      LeaveOnTrack(orig, machine.mem, root, todo, slot, level, va, skip, stop);
      stop' := stop;
      var v := RegionEnd(va, level);
      if Shift(v, level + 1) != Shift(va, level + 1) {
        if level == 3 {
          va := VA_NONCANONEND;
          return;
        }
        stop' := level + 1;
        level := 3;
        slot := InTable(root, Index(va, level));
      } else {
        slot := slot.(index := slot.index + 1);
        va := v;
      }
    }

    method Down(skipFirst: bool, ghost todo: seq<Node>)
      requires Placed() && OnTrack(Tables(orig, root), todo, level, va, skipFirst, 1) && Intact(todo)
      modifies this`slot, this`level, this`va, this`touched
      ensures Valid() && Coming() == todo
      ensures touched <= {root} + Pages(orig, root, todo)
    {
      var skip: bool, stop: nat := skipFirst, 1;
      touched := {};
      while true
        invariant Placed() && OnTrack(Tables(orig, root), todo, level, va, skip, stop)
        invariant touched <= {root} + Pages(orig, root, todo)
        decreases if stop == 1 then 1 else 0, VA_NONCANONEND - va, level
      {
        Touch(todo, skip, stop);
        if Branch(Read(machine.mem, slot)) && !skip {
          if level == stop {
            Arrive(todo);
            return;
          }
          Enter(todo, stop);
        } else {
          stop := Leave(todo, skip, stop);
          if va == VA_NONCANONEND {
            return;
          }
          skip := false;
        }
      }
    }
  }

  // ---- Walking a page table that nobody changes ----

  // The iterator has delivered the first n tables of the post-order.
  ghost predicate Walked(it: PtIter, n: nat)
    reads it, it.machine
  {
    && it.Valid() && it.machine.mem == it.orig
    && n <= |PostOrder(Tables(it.orig, it.root))|
    && it.Coming() == PostOrder(Tables(it.orig, it.root))[n..]
  }

  lemma PagesExtend(m: Memory, root: nat, order: seq<Node>, n: nat)
    requires n < |order| && order[n] in Tables(m, root)
    ensures Pages(m, root, order[..n + 1]) == Pages(m, root, order[..n]) + {PageOf(m, root, order[n])}
  {
    PagesConcat(m, root, order[..n], order[n]);
    assert order[..n + 1] == order[..n] + [order[n]];
  }

  lemma {:induction false} PagesConcat(m: Memory, root: nat, list: seq<Node>, nd: Node)
    requires nd in Tables(m, root)
    ensures Pages(m, root, list + [nd]) == Pages(m, root, list) + {PageOf(m, root, nd)}
  {
    if list != [] {
      PagesConcat(m, root, list[1..], nd);
      assert (list + [nd])[1..] == list[1..] + [nd];
    }
  }

  // it.pa(); it.next()
  method PageAndNext(it: PtIter, ghost n: nat) returns (page: nat)
    requires Walked(it, n) && it.Active()
    modifies it`slot, it`level, it`va, it`touched
    ensures Walked(it, n + 1)
    ensures
      var order := PostOrder(Tables(it.orig, it.root));
      Pages(it.orig, it.root, order[..n + 1]) == Pages(it.orig, it.root, order[..n]) + {page}
  {
    assert it.Coming()[0] == PostOrder(Tables(it.orig, it.root))[n];
    PagesExtend(it.orig, it.root, PostOrder(Tables(it.orig, it.root)), n);
    page := it.Page();
    it.Next();
  }

  // ---- Freeing a page table while walking it ----

  // In a tree, different positions of the post-order are different pages, none of them the root.
  lemma DistinctPages(m: Memory, root: nat, i: nat, j: nat)
    requires Tree(m, root) && i < |PostOrder(Tables(m, root))| && j < |PostOrder(Tables(m, root))|
    ensures PostOrder(Tables(m, root))[i] in Tables(m, root) && PostOrder(Tables(m, root))[j] in Tables(m, root)
    ensures PageOf(m, root, PostOrder(Tables(m, root))[i]) != root
    ensures i != j ==>
      PageOf(m, root, PostOrder(Tables(m, root))[i]) != PageOf(m, root, PostOrder(Tables(m, root))[j])
  {
    var ts := Tables(m, root);
    TablesRooted(m, root);
    PostOrderIsComplete(ts);
    var order := PostOrder(ts);
    var a, b := order[i], order[j];
    assert a in order && b in order;
    assert TableAt(m, root, 3, 0) == Some(root);
    assert i < j ==> Before(a, b);
    assert j < i ==> Before(b, a);
  }

  // The list holds the pages of the first positions of the post-order.
  ghost predicate Delivered(m: Memory, root: nat, list: seq<nat>) {
    var order := PostOrder(Tables(m, root));
    && |list| <= |order|
    && forall i :: 0 <= i < |list| ==> order[i] in Tables(m, root) && list[i] == PageOf(m, root, order[i])
  }

  // The pages still to come are not among those already delivered.
  lemma ComingNotDelivered(m: Memory, root: nat, list: seq<nat>)
    requires Tree(m, root) && Delivered(m, root, list)
    ensures forall p :: p in {root} + Pages(m, root, PostOrder(Tables(m, root))[|list|..]) ==> p !in list
  {
    var order := PostOrder(Tables(m, root));
    forall p, i | p in {root} + Pages(m, root, order[|list|..]) && 0 <= i < |list|
      ensures p != list[i]
    {
      DistinctPages(m, root, i, i);
      if p != root {
        var j := PagesFrom(m, root, order[|list|..], p);
        DistinctPages(m, root, i, |list| + j);
      }
    }
  }

  // Move i, made after i pages were freed, reads none of them.
  ghost predicate NeverLooksBack(freed: seq<nat>, looked: seq<set<nat>>) {
    |looked| == |freed| + 1 && forall i, j :: 0 <= j < i < |looked| ==> freed[j] !in looked[i]
  }

  lemma LooksForward(freed: seq<nat>, looked: seq<set<nat>>, page: nat, touched: set<nat>)
    requires NeverLooksBack(freed, looked) && forall p :: p in touched ==> p !in freed + [page]
    ensures NeverLooksBack(freed + [page], looked + [touched])
  {
    var freed', looked' := freed + [page], looked + [touched];
    forall i, j | 0 <= j < i < |looked'|
      ensures freed'[j] !in looked'[i]
    {
      assert freed'[j] in freed';
    }
  }

  // The iterator has delivered `freed`, and nothing else has changed in memory since it started.
  ghost predicate Midway(it: PtIter, freed: seq<nat>)
    reads it, it.machine
  {
    && it.Valid() && Delivered(it.orig, it.root, freed)
    && it.Coming() == PostOrder(Tables(it.orig, it.root))[|freed|..]
    && forall p: nat :: p !in freed ==> Content(it.machine.mem, p) == Content(it.orig, p)
  }

  // kfree(it.kptr()); it.next() -- freeing leaves arbitrary contents in the page.
  method FreeAndNext(it: PtIter, ghost freed: seq<nat>) returns (page: nat)
    requires Tree(it.orig, it.root) && Midway(it, freed) && it.Active()
    modifies it`slot, it`level, it`va, it`touched, it.machine`mem
    ensures Midway(it, freed + [page])
    ensures forall p :: p in it.touched ==> p !in freed + [page]
  {
    ghost var m, root, order := it.orig, it.root, PostOrder(Tables(it.orig, it.root));
    ghost var rest := order[|freed| + 1..];
    assert it.Coming()[0] == order[|freed|] && it.Coming()[1..] == rest;
    ComingNotDelivered(m, root, freed);
    LaterPages(m, root, order, |freed|);
    page := it.Page();
    var junk: Table := *;
    it.machine.mem := it.machine.mem[page := junk];
    ComingNotDelivered(m, root, freed + [page]);
    assert forall p :: p in {root} + Pages(m, root, rest) ==> p !in freed + [page];
    it.Next();
  }

  // The documented loop: free each table as soon as the iterator delivers it.
  method FreeTables(machine: Machine, root: nat) returns (freed: seq<nat>, ghost looked: seq<set<nat>>)
    requires Tree(machine.mem, root)
    modifies machine`mem
    ensures Delivered(old(machine.mem), root, freed) && |freed| == |PostOrder(Tables(old(machine.mem), root))|
    ensures forall p: nat :: p in freed <==> old(IsTable(machine.mem, root, p)) && p != root
    ensures forall i, j :: 0 <= i < j < |freed| ==> freed[i] != freed[j]
    ensures forall p: nat :: p !in freed ==> Content(machine.mem, p) == old(Content(machine.mem, p))
    ensures NeverLooksBack(freed, looked)
  {
    var it := new PtIter(machine, root, 0);
    ghost var m := machine.mem;
    freed, looked := [], [it.touched];
    while it.Active()
      invariant it.machine == machine && it.root == root && it.orig == m
      invariant Midway(it, freed) && NeverLooksBack(freed, looked)
      decreases |PostOrder(Tables(m, root))| - |freed|
    {
      var page := FreeAndNext(it, freed);
      LooksForward(freed, looked, page, it.touched);
      freed, looked := freed + [page], looked + [it.touched];
    }
    DeliveredAll(m, root, freed);
  }

  lemma LaterPages(m: Memory, root: nat, order: seq<Node>, n: nat)
    requires n < |order|
    ensures Pages(m, root, order[n + 1..]) <= Pages(m, root, order[n..])
  {
    assert order[n..][1..] == order[n + 1..];
  }

  // Once the post-order is exhausted, the list holds all tables but the root, without repetition.
  lemma DeliveredAll(m: Memory, root: nat, list: seq<nat>)
    requires Tree(m, root) && Delivered(m, root, list) && |list| == |PostOrder(Tables(m, root))|
    ensures forall p: nat :: p in list <==> IsTable(m, root, p) && p != root
    ensures forall i, j :: 0 <= i < j < |list| ==> list[i] != list[j]
  {
    forall i, j | 0 <= i < |list| && 0 <= j < |list|
      ensures list[i] != root && IsTable(m, root, list[i]) && (i != j ==> list[i] != list[j])
    {
      DistinctPages(m, root, i, j);
    }
    forall p: nat | IsTable(m, root, p) && p != root
      ensures p in list
    {
      DeliveredTable(m, root, list, p);
    }
  }

  lemma DeliveredTable(m: Memory, root: nat, list: seq<nat>, p: nat)
    requires Delivered(m, root, list) && |list| == |PostOrder(Tables(m, root))|
    requires IsTable(m, root, p) && p != root
    ensures p in list
  {
    var order := PostOrder(Tables(m, root));
    var l: nat, k: nat :| l <= 3 && TableAt(m, root, l, k) == Some(p);
    TablesRooted(m, root);
    PostOrderIsComplete(Tables(m, root));
    assert Node(l, k) in order;
    var j :| 0 <= j < |order| && order[j] == Node(l, k);
    assert list[j] == p;
  }
}
