/** The base allocator: recycles freed blocks at random and never overwrites them behind the user's back. */
module BaseAlloc {

  // A freed block: its address and the size recorded for it.
  datatype Freed = Freed(ptr: nat, size: nat)

  // Two address ranges have no byte in common.
  predicate Apart(p: nat, m: nat, q: nat, n: nat) {
    p + m <= q || q + n <= p
  }

  ghost predicate Listed(frees: seq<Freed>, p: nat) {
    exists i :: 0 <= i < |frees| && frees[i].ptr == p
  }

  ghost predicate BlocksApart(blocks: map<nat, nat>) {
    && (forall p :: p in blocks ==> p > 0 && blocks[p] > 0)
    && (forall p, q :: p in blocks && q in blocks && p != q ==> Apart(p, blocks[p], q, blocks[q]))
  }

  // Active and freed blocks partition the blocks obtained from malloc (with their capacities);
  // recorded sizes fit; blocks do not overlap.
  ghost predicate Inv(allocs: map<nat, nat>, frees: seq<Freed>, blocks: map<nat, nat>) {
    && (forall p :: p in blocks ==> p in allocs || Listed(frees, p))
    && (forall i :: 0 <= i < |frees| ==> frees[i].ptr !in allocs)
    && (forall i, j :: 0 <= i < j < |frees| ==> frees[i].ptr != frees[j].ptr)
    && (forall p :: p in allocs ==> p in blocks && allocs[p] <= blocks[p])
    && (forall i :: 0 <= i < |frees| ==> frees[i].ptr in blocks && frees[i].size <= blocks[frees[i].ptr])
    && BlocksApart(blocks)
  }

  // Swap-and-pop.
  function Without(frees: seq<Freed>, i: nat): seq<Freed>
    requires i < |frees|
  {
    frees[i := frees[|frees| - 1]][..|frees| - 1]
  }

  // It removes exactly the element at i.
  lemma WithoutRemovesOne(frees: seq<Freed>, i: nat)
    requires i < |frees|
    ensures multiset(Without(frees, i)) == multiset(frees) - multiset{frees[i]}
  {
    var n := |frees| - 1;
    if i == n {
      assert frees == Without(frees, i) + [frees[n]];
    } else {
      assert frees == frees[..i] + [frees[i]] + frees[i + 1..n] + [frees[n]];
      assert Without(frees, i) == frees[..i] + [frees[n]] + frees[i + 1..n];
    }
  }

  lemma TakeKeepsInv(allocs: map<nat, nat>, frees: seq<Freed>, blocks: map<nat, nat>, i: nat, sz: nat)
    requires Inv(allocs, frees, blocks) && i < |frees| && sz <= frees[i].size
    ensures Inv(allocs[frees[i].ptr := sz], Without(frees, i), blocks)
  {
    var frees', n := Without(frees, i), |frees| - 1;
    assert forall j :: 0 <= j < n ==> frees'[j] == frees[if j == i then n else j];
    forall p | p in blocks && p !in allocs && p != frees[i].ptr
      ensures Listed(frees', p)
    {
      var j :| 0 <= j < |frees| && frees[j].ptr == p;
      assert frees'[if j == n then i else j].ptr == p;
    }
  }

  // What malloc may return: null, or a block apart from every block still in use.
  ghost predicate Obtainable(blocks: map<nat, nat>, ptr: nat, n: nat) {
    ptr != 0 ==> n > 0 && forall p :: p in blocks ==> p != ptr && Apart(p, blocks[p], ptr, n)
  }

  lemma AddKeepsInv(allocs: map<nat, nat>, frees: seq<Freed>, blocks: map<nat, nat>, ptr: nat, sz: nat, n: nat)
    requires Inv(allocs, frees, blocks) && ptr != 0 && Obtainable(blocks, ptr, n) && sz <= n
    ensures ptr !in allocs && Inv(allocs[ptr := sz], frees, blocks[ptr := n])
  {
    assert ptr !in blocks;
    var blocks' := blocks[ptr := n];
    forall p, q | p in blocks' && q in blocks' && p != q
      ensures Apart(p, blocks'[p], q, blocks'[q])
    {
      if p != ptr && q != ptr {
        assert Apart(p, blocks[p], q, blocks[q]);
      }
    }
  }

  lemma FreeKeepsInv(allocs: map<nat, nat>, frees: seq<Freed>, blocks: map<nat, nat>, ptr: nat)
    requires Inv(allocs, frees, blocks) && ptr in allocs
    ensures Inv(allocs - {ptr}, frees + [Freed(ptr, allocs[ptr])], blocks)
  {
    var frees' := frees + [Freed(ptr, allocs[ptr])];
    assert frees'[|frees|].ptr == ptr;
    forall p | p in blocks && !(p in allocs - {ptr})
      ensures Listed(frees', p)
    {
      if p != ptr {
        var j :| 0 <= j < |frees| && frees[j].ptr == p;
        assert frees'[j].ptr == p;
      }
    }
  }

  // No two active allocations share a byte.
  lemma ActiveApart(allocs: map<nat, nat>, frees: seq<Freed>, blocks: map<nat, nat>, p: nat, q: nat)
    requires Inv(allocs, frees, blocks) && p in allocs && q in allocs && p != q
    ensures Apart(p, allocs[p], q, allocs[q])
  {
    assert Apart(p, blocks[p], q, blocks[q]);
  }

  lemma NewApart(before: map<nat, nat>, allocs: map<nat, nat>, frees: seq<Freed>, blocks: map<nat, nat>,
                 ptr: nat, sz: nat)
    requires Inv(allocs, frees, blocks) && ptr !in before && allocs == before[ptr := sz]
    ensures forall p :: p in before ==> Apart(p, allocs[p], ptr, sz)
  {
    forall p | p in before
      ensures Apart(p, allocs[p], ptr, sz)
    {
      ActiveApart(allocs, frees, blocks, p, ptr);
    }
  }

  // What base_malloc asks of malloc.
  function Bytes(sz: nat): nat {
    if sz == 0 then 1 else sz
  }

  // Random number k draws a freed block of at least sz bytes; at most ten are drawn, and no more than there are blocks.
  predicate Fits(frees: seq<Freed>, picks: seq<nat>, sz: nat, k: nat) {
    k < 10 && k < |frees| && k < |picks| && frees[picks[k] % |frees|].size >= sz
  }

  // Block i is the first one drawn that is large enough.
  ghost predicate FirstFit(frees: seq<Freed>, picks: seq<nat>, sz: nat, i: nat) {
    && i < |frees| && sz <= frees[i].size
    && exists k: nat :: Fits(frees, picks, sz, k) && picks[k] % |frees| == i
                        && forall j: nat :: j < k ==> !Fits(frees, picks, sz, j)
  }

  // A block of exactly sz bytes or more drawn at any of the tries leads to a reuse, of it or of one drawn before.
  lemma {:induction false} DrawnIsReused(frees: seq<Freed>, picks: seq<nat>, sz: nat, k: nat) returns (i: nat)
    requires k < 10 && k < |frees| && k < |picks| && sz <= frees[picks[k] % |frees|].size
    ensures FirstFit(frees, picks, sz, i)
    ensures i == picks[k] % |frees| || exists j: nat :: j < k && frees[picks[j] % |frees|].size >= sz
    decreases k
  {
    if j: nat :| j < k && Fits(frees, picks, sz, j) {
      i := DrawnIsReused(frees, picks, sz, j);
    } else {
      i := picks[k] % |frees|;
      assert Fits(frees, picks, sz, k);
    }
  }

  class Allocator {
    var allocs: map<nat, nat>       // active pointer -> requested size
    var frees: seq<Freed>
    var disabled: int
    ghost var blocks: map<nat, nat> // every block obtained from malloc -> its capacity

    ghost predicate Valid()
      reads this
    {
      Inv(allocs, frees, blocks)
    }

    constructor ()
      ensures Valid() && allocs == map[] && frees == [] && blocks == map[] && disabled == 0
    {
      allocs, frees, blocks, disabled := map[], [], map[], 0;
    }

    // Makes the freed block at index i active again; the last freed block moves into its place.
    method TakeAt(i: nat, sz: nat)
      requires Valid() && i < |frees| && sz <= frees[i].size
      modifies this`allocs, this`frees
      ensures Valid() && allocs == old(allocs)[old(frees)[i].ptr := sz] && frees == Without(old(frees), i)
    {
      var f := frees[i];
      TakeKeepsInv(allocs, frees, blocks, i, sz);
      ghost var allocs', frees' := allocs[f.ptr := sz], Without(frees, i);
      allocs := allocs[f.ptr := f.size];
      frees := frees[i := frees[|frees| - 1]];
      frees := frees[..|frees| - 1];
      allocs := allocs[f.ptr := sz];
      assert allocs == allocs' && frees == frees';
    }

    // Looks for a freed block that is large enough, at most ten times; picks are the random numbers drawn.
    method Reuse(sz: nat, picks: seq<nat>) returns (ptr: nat, ghost taken: nat)
      requires Valid() && |picks| >= 10
      modifies this`allocs, this`frees
      ensures Valid()
      ensures ptr != 0 <==> exists k: nat :: Fits(old(frees), picks, sz, k)
      ensures ptr == 0 ==> allocs == old(allocs) && frees == old(frees)
      ensures ptr != 0 ==>
        && FirstFit(old(frees), picks, sz, taken) && ptr == old(frees)[taken].ptr
        && allocs == old(allocs)[ptr := sz] && frees == Without(old(frees), taken)
    {
      var ntries := 0;
      while ntries < 10 && ntries < |frees|
        invariant 0 <= ntries && Valid() && allocs == old(allocs) && frees == old(frees)
        invariant forall k: nat :: k < ntries ==> !Fits(frees, picks, sz, k)
        decreases 10 - ntries
      {
        var i := picks[ntries] % |frees|;
        var f := frees[i];
        if f.size >= sz {
          assert Fits(frees, picks, sz, ntries);
          TakeAt(i, sz);
          return f.ptr, i;
        }
        ntries := ntries + 1;
      }
      ptr, taken := 0, 0;
    }

    // Records what malloc returned, null included.
    method Obtain(sz: nat, obtained: nat)
      requires Valid() && Obtainable(blocks, obtained, Bytes(sz))
      modifies this`allocs, this`blocks
      ensures Valid()
      ensures obtained == 0 ==> allocs == old(allocs) && blocks == old(blocks)
      ensures obtained != 0 ==>
        && obtained !in old(allocs) && allocs == old(allocs)[obtained := sz]
        && blocks == old(blocks)[obtained := Bytes(sz)]
    {
      if obtained != 0 {
        AddKeepsInv(allocs, frees, blocks, obtained, sz, Bytes(sz));
        blocks := blocks[obtained := Bytes(sz)];
        allocs := allocs[obtained := sz];
      }
    }

    // base_malloc; r and picks are the random numbers drawn, `obtained` is what malloc returns if it is called.
    // A freed block is reused if and only if one of the blocks drawn is large enough, three times out of four.
    method Malloc(sz: nat, r: nat, picks: seq<nat>, obtained: nat) returns (ptr: nat, ghost taken: nat)
      requires Valid() && |picks| >= 10 && Obtainable(blocks, obtained, Bytes(sz))
      modifies this
      ensures Valid() && disabled == old(disabled)
      ensures disabled != 0 || ptr == 0 ==> allocs == old(allocs) && frees == old(frees) && blocks == old(blocks)
      ensures disabled != 0 ==> ptr == obtained
      ensures disabled == 0 && ptr != 0 ==>
        && ptr !in old(allocs) && allocs == old(allocs)[ptr := sz] && ptr in blocks && sz <= blocks[ptr]
        && forall p :: p in old(allocs) ==> Apart(p, allocs[p], ptr, sz)
      ensures disabled == 0 ==>
        if r % 4 != 0 && exists k: nat :: Fits(old(frees), picks, sz, k) then
          && FirstFit(old(frees), picks, sz, taken) && ptr == old(frees)[taken].ptr != 0
          && frees == Without(old(frees), taken) && blocks == old(blocks)
        else
          && ptr == obtained && frees == old(frees)
          && blocks == if ptr == 0 then old(blocks) else old(blocks)[ptr := Bytes(sz)]
    {
      taken := 0;
      if disabled != 0 {
        return obtained, 0;
      }
      disabled := disabled + 1;
      ptr := 0;
      if r % 4 != 0 {
        ptr, taken := Reuse(sz, picks);
      }
      if ptr == 0 {
        ptr := obtained;
        Obtain(sz, obtained);
      }
      disabled := disabled - 1;
      if ptr != 0 {
        NewApart(old(allocs), allocs, frees, blocks, ptr, sz);
      }
    }

    // base_free. Unknown pointers, among them those already freed, are ignored; a disabled allocator records nothing.
    method Free(ptr: nat)
      requires Valid()
      modifies this
      ensures Valid() && disabled == old(disabled) && blocks == old(blocks)
      ensures disabled != 0 || ptr !in old(allocs) ==> allocs == old(allocs) && frees == old(frees)
      ensures disabled == 0 && ptr in old(allocs) ==>
        allocs == old(allocs) - {ptr} && frees == old(frees) + [Freed(ptr, old(allocs)[ptr])]
    {
      if !(disabled != 0 || ptr == 0) {
        disabled := disabled + 1;
        if ptr in allocs {
          FreeKeepsInv(allocs, frees, blocks, ptr);
          frees := frees + [Freed(ptr, allocs[ptr])];
          allocs := allocs - {ptr};
        }
        disabled := disabled - 1;
      }
    }

    // At exit every freed block is returned to malloc once, and no active one is.
    method AtExit() returns (released: seq<nat>)
      requires Valid()
      ensures |released| == |frees| && (forall i, j :: 0 <= i < j < |released| ==> released[i] != released[j])
      ensures forall p :: p in released <==> p in blocks && p !in allocs
    {
      released := [];
      for i := 0 to |frees|
        invariant |released| == i && forall j :: 0 <= j < i ==> released[j] == frees[j].ptr
      {
        released := released + [frees[i].ptr];
      }
      forall p | p in blocks && p !in allocs
        ensures p in released
      {
        var i :| 0 <= i < |frees| && frees[i].ptr == p;
        assert released[i] == p;
      }
    }
  }
}
