/** stride_cat: copies a file in blocks taken column by column from its rows of `stride` bytes. */
module StrideCat {
  import opened Basics

  const SSIZE_END := 0x8000_0000_0000_0000   // sizes and strides come from ssize_t and long values

  // ---- Division by a variable ----

  lemma SmallMultiple(d: int, s: int)
    requires s > 0 && -s < d * s < s
    ensures d == 0
  {
  }

  lemma DivUnique(x: nat, s: nat, q: nat, r: nat)
    requires r < s && x == q * s + r
    ensures x / s == q && x % s == r
  {
    var d := q - x / s;
    assert d * s == q * s - x / s * s;
    SmallMultiple(d, s);
  }

  lemma DivLess(x: nat, s: nat, q: nat)
    requires s > 0 && x < q * s
    ensures x / s < q
  {
  }

  // ---- Sequences of distinct offsets ----

  ghost function Elements(s: seq<nat>): set<nat> {
    set x | x in s
  }

  lemma {:induction false} DistinctSize(s: seq<nat>)
    requires Distinct(s)
    ensures |Elements(s)| == |s|
    decreases |s|
  {
    if s != [] {
      var n := |s| - 1;
      DistinctSize(s[..n]);
      assert s == s[..n] + [s[n]];
      assert Elements(s) == Elements(s[..n]) + {s[n]};
      assert s[n] !in s[..n];
    }
  }

  ghost function Below(n: nat): (r: set<nat>)
    ensures forall x :: x in r <==> 0 <= x < n
  {
    if n == 0 then {} else Below(n - 1) + {n - 1}
  }

  lemma {:induction false} BelowSize(n: nat)
    ensures |Below(n)| == n
  {
    if n > 0 {
      BelowSize(n - 1);
    }
  }

  // n distinct numbers below n are all of them, and fewer are not.
  lemma Pigeonhole(s: seq<nat>, n: nat)
    requires Distinct(s) && forall x :: x in s ==> x < n
    ensures |s| <= n
    ensures |s| == n <==> forall x :: 0 <= x < n ==> x in s
  {
    DistinctSize(s);
    BelowSize(n);
    var e, b := Elements(s), Below(n);
    assert e <= b;
    assert |b - e| == |b| - |e|;
    if |s| == n {
      assert b - e == {};
      forall x | 0 <= x < n
        ensures x in s
      {
        assert x in b && x !in b - e;
      }
    } else {
      assert b - e != {};
      var x :| x in b - e;
      assert 0 <= x < n && x !in s;
    }
  }

  // Reading each offset once yields a permutation of the file.
  function Gather<T>(input: seq<T>, order: seq<nat>): seq<T>
    requires forall x :: x in order ==> x < |input|
  {
    seq(|order|, i requires 0 <= i < |order| => assert order[i] in order; input[order[i]])
  }

  lemma WithoutLast(order: seq<nat>, n: nat) returns (k: nat, rest: seq<nat>)
    requires Distinct(order) && |order| == n + 1 && forall x :: x in order ==> x < n + 1
    ensures k < |order| && order[k] == n && rest == order[..k] + order[k + 1..]
    ensures Distinct(rest) && forall x :: x in rest ==> x < n
  {
    Pigeonhole(order, n + 1);
    assert n in order;
    k :| 0 <= k < |order| && order[k] == n;
    rest := order[..k] + order[k + 1..];
    forall i | 0 <= i < |rest|
      ensures rest[i] < n
    {
      var j := if i < k then i else i + 1;
      assert rest[i] == order[j] && order[j] in order;
    }
  }

  lemma GatherSplit<T>(input: seq<T>, order: seq<nat>, k: nat, rest: seq<nat>)
    requires |input| > 0 && k < |order| && order[k] == |input| - 1 && rest == order[..k] + order[k + 1..]
    requires (forall x :: x in order ==> x < |input|) && forall x :: x in rest ==> x < |input| - 1
    ensures
      var g := Gather(input[..|input| - 1], rest);
      Gather(input, order) == g[..k] + [input[|input| - 1]] + g[k..]
  {
    var g := Gather(input[..|input| - 1], rest);
    forall i | 0 <= i < |rest|
      ensures rest[i] in rest && g[i] == input[order[if i < k then i else i + 1]]
    {
      assert rest[i] == order[if i < k then i else i + 1];
    }
    var whole := g[..k] + [input[|input| - 1]] + g[k..];
    forall i | 0 <= i < |order|
      ensures Gather(input, order)[i] == whole[i]
    {
      if i > k {
        assert whole[i] == g[i - 1];
      }
    }
  }

  lemma Inserted<T>(g: seq<T>, k: nat, x: T)
    requires k <= |g|
    ensures multiset(g[..k] + [x] + g[k..]) == multiset(g) + multiset{x}
  {
    assert g == g[..k] + g[k..];
  }

  lemma {:induction false} GatherPermutes<T>(input: seq<T>, order: seq<nat>)
    requires Distinct(order) && |order| == |input| && forall x :: x in order ==> x < |input|
    ensures multiset(Gather(input, order)) == multiset(input)
    decreases |input|
  {
    if input == [] {
      assert Gather(input, order) == [];
    } else {
      var n := |input| - 1;
      var k, rest := WithoutLast(order, n);
      GatherPermutes(input[..n], rest);
      GatherSplit(input, order, k, rest);
      Inserted(Gather(input[..n], rest), k, input[n]);
      assert input == input[..n] + [input[n]];
    }
  }

  // ---- The copy loop ----

  // Offset x lies in row x / stride and column x % stride. Columns below c are done in every row, and columns
  // c .. c + b - 1 in the rows before r.
  predicate Done(x: int, n: nat, stride: nat, c: nat, b: nat, r: nat)
    requires stride > 0
  {
    0 <= x < n && (x % stride < c || (x % stride < c + b && x / stride < r))
  }

  ghost predicate Covers(order: seq<nat>, n: nat, stride: nat, c: nat, b: nat, r: nat)
    requires stride > 0
  {
    Distinct(order) && forall x :: x in order <==> Done(x, n, stride, c, b, r)
  }

  // The offsets of one block.
  function Block(from: nat, len: nat): (s: seq<nat>)
    ensures |s| == len && forall i :: 0 <= i < len ==> s[i] == from + i
  {
    seq(len, i => from + i)
  }

  // Where offset x stands relative to the block at row r, which starts at pos.
  lemma BlockDone(x: nat, n: nat, stride: nat, c: nat, b: nat, r: nat, pos: nat)
    requires stride > 0 && c + b <= stride && x < n && pos == r * stride + c
    ensures Done(x, n, stride, c, b, r + 1) <==> Done(x, n, stride, c, b, r) || pos <= x < pos + b
    ensures pos <= x < pos + b ==> !Done(x, n, stride, c, b, r)
  {
    if pos <= x < pos + b {
      DivUnique(x, stride, r, x - r * stride);
    } else if x / stride == r {
      assert x == r * stride + x % stride;
    }
  }

  lemma InAppended(order: seq<nat>, pos: nat, amount: nat, x: int)
    ensures x in order + Block(pos, amount) <==> x in order || pos <= x < pos + amount
  {
    assert pos <= x < pos + amount ==> Block(pos, amount)[x - pos] == x;
  }

  lemma DistinctAppended(order: seq<nat>, pos: nat, amount: nat)
    requires Distinct(order) && forall x :: x in order ==> !(pos <= x < pos + amount)
    ensures Distinct(order + Block(pos, amount))
  {
    var order' := order + Block(pos, amount);
    forall i, j | 0 <= i < j < |order'|
      ensures order'[i] != order'[j]
    {
      if i < |order| <= j {
        assert order[i] in order && order'[j] == pos + (j - |order|);
      }
    }
  }

  lemma CoversBlock(order: seq<nat>, n: nat, stride: nat, c: nat, b: nat, r: nat, pos: nat, amount: nat)
    requires stride > 0 && c + b <= stride && Covers(order, n, stride, c, b, r)
    requires pos == r * stride + c <= n && amount == if b <= n - pos then b else n - pos
    ensures Covers(order + Block(pos, amount), n, stride, c, b, r + 1)
  {
    forall x
      ensures x in order + Block(pos, amount) <==> Done(x, n, stride, c, b, r + 1)
      ensures x in order ==> !(pos <= x < pos + amount)
    {
      InAppended(order, pos, amount, x);
      if 0 <= x < n {
        BlockDone(x, n, stride, c, b, r, pos);
      }
    }
    DistinctAppended(order, pos, amount);
  }

  // After the last row of a pass the whole column range is done.
  lemma PassDone(x: nat, n: nat, stride: nat, c: nat, b: nat, r: nat, b': nat)
    requires stride > 0 && c + b <= stride && (r + 1) * stride + c >= n
    ensures Done(x, n, stride, c, b, r + 1) <==> Done(x, n, stride, c + b, b', 0)
  {
    if x / stride >= r + 1 {
      RowStart(x, stride, r + 1);
    }
  }

  lemma CoversPass(order: seq<nat>, n: nat, stride: nat, c: nat, b: nat, r: nat, b': nat)
    requires stride > 0 && c + b <= stride && (r + 1) * stride + c >= n && Covers(order, n, stride, c, b, r + 1)
    ensures Covers(order, n, stride, c + b, b', 0)
  {
    forall x
      ensures x in order <==> Done(x, n, stride, c + b, b', 0)
    {
      if x >= 0 {
        PassDone(x, n, stride, c, b, r, b');
      }
    }
  }

  lemma RowStart(x: nat, stride: nat, q: nat)
    requires stride > 0 && x / stride >= q
    ensures x >= q * stride + x % stride
  {
    assert (x / stride - q) * stride >= 0;
  }

  // When the current column starts beyond the file, or no column is left, every offset is done.
  lemma NothingLeft(n: nat, stride: nat, c: nat, b: nat)
    requires stride > 0 && c <= stride && (c >= n || c == stride)
    ensures forall x :: 0 <= x < n ==> Done(x, n, stride, c, b, 0)
  {
    forall x | 0 <= x < n
      ensures x % stride < c
    {
      if c < stride {
        DivUnique(x, stride, 0, x);
      }
    }
  }

  // The order in which bytes are copied: by block of columns, and inside one block of columns by offset.
  predicate Earlier(x: nat, y: nat, stride: nat, block: nat)
    requires stride > 0 && block > 0
  {
    x % stride / block < y % stride / block || (x % stride / block == y % stride / block && x < y)
  }

  ghost predicate InOrder(order: seq<nat>, stride: nat, block: nat)
    requires stride > 0 && block > 0
  {
    forall i, j :: 0 <= i < j < |order| ==> Earlier(order[i], order[j], stride, block)
  }

  // Row and column block of an offset read in row r of column block m, whose part of the row starts at pos.
  lemma BlockElement(stride: nat, block: nat, m: nat, r: nat, pos: nat, j: nat)
    requires j < block && m * block + j < stride && pos == r * stride + m * block
    ensures (pos + j) / stride == r && (pos + j) % stride / block == m
  {
    DivUnique(pos + j, stride, r, m * block + j);
    DivUnique(m * block + j, block, m, j);
  }

  lemma DoneIsEarlier(x: nat, y: nat, n: nat, stride: nat, block: nat, m: nat, b: nat, r: nat)
    requires stride > 0 && 0 < b <= block && Done(x, n, stride, m * block, b, r)
    requires y / stride == r && y % stride / block == m
    ensures Earlier(x, y, stride, block)
  {
    if x % stride < m * block {
      DivLess(x % stride, block, m);
    } else {
      DivUnique(x % stride, block, m, x % stride - m * block);
      RowEnd(x, y, stride);
    }
  }

  // An element of the block follows everything done so far.
  lemma BlockFollows(order: seq<nat>, n: nat, stride: nat, block: nat, m: nat, b: nat, r: nat, pos: nat, i: nat, j: nat)
    requires stride > 0 && j < b <= block && m * block + b <= stride && pos == r * stride + m * block
    requires Covers(order, n, stride, m * block, b, r) && i < |order|
    ensures Earlier(order[i], pos + j, stride, block)
  {
    BlockElement(stride, block, m, r, pos, j);
    assert order[i] in order;
    DoneIsEarlier(order[i], pos + j, n, stride, block, m, b, r);
  }

  // A block that follows everything done so far keeps the order.
  lemma InOrderBlock(order: seq<nat>, n: nat, stride: nat, block: nat, m: nat, b: nat, r: nat, pos: nat, amount: nat)
    requires stride > 0 && amount <= b <= block && 0 < b && m * block + b <= stride && pos == r * stride + m * block
    requires Covers(order, n, stride, m * block, b, r) && InOrder(order, stride, block)
    ensures InOrder(order + Block(pos, amount), stride, block)
  {
    var order' := order + Block(pos, amount);
    forall i, j | 0 <= i < j < |order'|
      ensures Earlier(order'[i], order'[j], stride, block)
    {
      if j >= |order| {
        assert order'[j] == pos + (j - |order|);
        if i < |order| {
          BlockFollows(order, n, stride, block, m, b, r, pos, i, j - |order|);
        } else {
          assert order'[i] == pos + (i - |order|);
          BlockElement(stride, block, m, r, pos, i - |order|);
          BlockElement(stride, block, m, r, pos, j - |order|);
        }
      }
    }
  }

  lemma RowEnd(x: nat, y: nat, stride: nat)
    requires stride > 0 && x / stride < y / stride
    ensures x < y
  {
    assert (y / stride - x / stride - 1) * stride >= 0;
  }

  // The file position is row r of the column range c .. c + b - 1, which is block number m of the columns; the last
  // range may be narrower, and after it none is left.
  ghost predicate Tracks(n: nat, stride: nat, block: nat, pos: nat, b: nat, m: nat, c: nat, r: nat) {
    && pos == r * stride + c && c + b <= stride && (r > 0 ==> pos < n)
    && b <= block && (b < block ==> c + b == stride) && (b > 0 ==> c == m * block)
  }

  // The part of the loop that moves the input position to the next stride.
  method NextStride(n: nat, stride: nat, pos: nat, b: nat,
                    ghost block: nat, ghost order: seq<nat>, ghost m: nat, ghost c: nat, ghost r: nat)
      returns (pos': nat, b': nat, ghost m': nat, ghost c': nat, ghost r': nat)
    requires n < SSIZE_END && stride < SSIZE_END && pos < n
    requires 0 < b && 0 < stride && Tracks(n, stride, block, pos, b, m, c, r)
    requires Covers(order, n, stride, c, b, r + 1)
    ensures Tracks(n, stride, block, pos', b', m', c', r') && Covers(order, n, stride, c', b', r')
  {
    assert pos + stride < 2 * SSIZE_END;   // the unsigned sum does not wrap
    pos', b', m', c', r' := pos + stride, b, m, c, r + 1;
    assert pos' == (r + 1) * stride + c;
    if pos' >= n {
      DivUnique(pos', stride, r + 1, c);
      pos' := pos' % stride + b;
      if pos' + b > stride {
        b' := stride - pos';
      }
      CoversPass(order, n, stride, c, b, r, b');
      m', c', r' := m + 1, c + b, 0;
      assert b' > 0 ==> b == block && c' == (m + 1) * block;
    }
  }

  lemma NothingRead(n: nat, stride: nat, block: nat)
    requires stride > 0
    ensures Covers([], n, stride, 0, block, 0)
  {
    forall x: nat
      ensures !Done(x, n, stride, 0, block, 0)
    {
      assert x % stride >= 0 && x / stride >= 0;
    }
  }

  // Once as many offsets as there are have been read, the output is a permutation of the input.
  lemma Finished<T>(input: seq<T>, order: seq<nat>, stride: nat, c: nat, b: nat, r: nat)
    requires stride > 0 && Covers(order, |input|, stride, c, b, r) && |order| >= |input|
    ensures |order| == |input| && forall x :: x in order <==> 0 <= x < |input|
    ensures multiset(Gather(input, order)) == multiset(input)
  {
    assert forall x :: x in order ==> 0 <= x < |input|;
    Pigeonhole(order, |input|);
    GatherPermutes(input, order);
  }

  // A read that returns nothing means that everything has been read.
  lemma AllRead(order: seq<nat>, n: nat, stride: nat, block: nat, pos: nat, b: nat, m: nat, c: nat, r: nat)
    requires 0 < stride && 0 < block && Tracks(n, stride, block, pos, b, m, c, r) && Covers(order, n, stride, c, b, r)
    requires pos >= n || b == 0
    ensures |order| == n
  {
    if r == 0 || c == stride {
      NothingLeft(n, stride, c, b);
    }
    Pigeonhole(order, n);
  }

  // What reading the block at pos adds.
  lemma BlockRead(order: seq<nat>, n: nat, stride: nat, block: nat, pos: nat, b: nat, m: nat, c: nat, r: nat,
                  amount: nat)
    requires 0 < stride && 0 < block && pos < n && 0 < b && Tracks(n, stride, block, pos, b, m, c, r)
    requires Covers(order, n, stride, c, b, r) && InOrder(order, stride, block)
    requires amount == if b <= n - pos then b else n - pos
    ensures Covers(order + Block(pos, amount), n, stride, c, b, r + 1)
    ensures InOrder(order + Block(pos, amount), stride, block)
  {
    CoversBlock(order, n, stride, c, b, r, pos, amount);
    InOrderBlock(order, n, stride, block, m, b, r, pos, amount);
  }

  // Copies the whole file. `order` lists the offsets read.
  method Copy<T>(input: seq<T>, block: nat, stride: nat) returns (output: seq<T>, ghost order: seq<nat>)
    requires 1 <= block <= stride < SSIZE_END && |input| < SSIZE_END
    ensures Distinct(order) && |order| == |input| && (forall x :: x in order <==> 0 <= x < |input|)
    ensures output == Gather(input, order) && multiset(output) == multiset(input)
    ensures InOrder(order, stride, block)
  {
    var n := |input|;
    var pos: nat, written, blockSize: nat := 0, 0, block;
    output, order := [], [];
    ghost var m: nat, c: nat, r: nat := 0, 0, 0;
    NothingRead(n, stride, block);
    while written < n
      invariant Tracks(n, stride, block, pos, blockSize, m, c, r)
      invariant Covers(order, n, stride, c, blockSize, r) && InOrder(order, stride, block)
      invariant written == |order| && output == Gather(input, order)
      decreases n - written
    {
      var amount := if pos >= n then 0 else if blockSize <= n - pos then blockSize else n - pos;
      if amount <= 0 {
        AllRead(order, n, stride, block, pos, blockSize, m, c, r);
        break;
      }
      BlockRead(order, n, stride, block, pos, blockSize, m, c, r, amount);
      output := output + input[pos..pos + amount];
      GatherBlock(input, order, pos, amount);
      order := order + Block(pos, amount);
      written := written + amount;
      pos, blockSize, m, c, r := NextStride(n, stride, pos, blockSize, block, order, m, c, r);
    }
    Finished(input, order, stride, c, blockSize, r);
  }

  lemma GatherBlock<T>(input: seq<T>, order: seq<nat>, pos: nat, amount: nat)
    requires (forall x :: x in order ==> x < |input|) && pos + amount <= |input|
    ensures forall x :: x in order + Block(pos, amount) ==> x < |input|
    ensures Gather(input, order + Block(pos, amount)) == Gather(input, order) + input[pos..pos + amount]
  {
    forall x | x in order + Block(pos, amount)
      ensures x < |input|
    {
      assert x in order || x in Block(pos, amount);
    }
  }
}
