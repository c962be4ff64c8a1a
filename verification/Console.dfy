/** The scrolling console as a window at the end of an unbounded tape, on top of an overlapping memmove. */
module Console {

  const CONSOLE_ROWS := 25
  const CONSOLE_COLUMNS := 80
  const CONSOLE_SIZE := 2000

  // A screen cell: zero, or the word made of a character and a colour.
  datatype Cell = Blank | Glyph(ch: char, color: int)

  // ---- memmove ----

  // dst[i] becomes the old src[i] whatever the overlap, and nothing else changes.
  method Memmove<T>(a: array<T>, dst: nat, src: nat, n: nat)
    requires dst + n <= a.Length && src + n <= a.Length
    modifies a
    ensures forall i :: dst <= i < dst + n ==> a[i] == old(a[src + (i - dst)])
    ensures forall i :: 0 <= i < a.Length && !(dst <= i < dst + n) ==> a[i] == old(a[i])
  {
    if src < dst && src + n > dst {
      var k: nat := n;
      while k > 0
        invariant k <= n
        invariant forall i :: dst + k <= i < dst + n ==> a[i] == old(a[src + (i - dst)])
        invariant forall i :: 0 <= i < a.Length && !(dst + k <= i < dst + n) ==> a[i] == old(a[i])
      {
        k := k - 1;
        a[dst + k] := a[src + k];
      }
    } else {
      var k: nat := 0;
      while k < n
        invariant k <= n
        invariant forall i :: dst <= i < dst + k ==> a[i] == old(a[src + (i - dst)])
        invariant forall i :: 0 <= i < a.Length && !(dst <= i < dst + k) ==> a[i] == old(a[i])
      {
        a[dst + k] := a[src + k];
        k := k + 1;
      }
    }
  }

  // memset to zero
  method Clear(a: array<Cell>, from: nat, n: nat)
    requires from + n <= a.Length
    modifies a
    ensures forall i :: 0 <= i < a.Length ==> a[i] == if from <= i < from + n then Blank else old(a[i])
  {
    for k := 0 to n
      invariant forall i :: 0 <= i < a.Length ==> a[i] == if from <= i < from + k then Blank else old(a[i])
    {
      a[from + k] := Blank;
    }
  }

  // ---- The tape ----

  // Rows of 80 cells without end: a fresh blank row is there whenever the print position needs one.
  datatype Tape = Tape(cells: seq<Cell>, pos: nat)

  predicate WellFormed(t: Tape) {
    |t.cells| % CONSOLE_COLUMNS == 0 && t.pos <= |t.cells|
  }

  function BlankRow(): seq<Cell> {
    seq(CONSOLE_COLUMNS, i => Blank)
  }

  function RowEnd(pos: nat): nat {
    (pos / CONSOLE_COLUMNS + 1) * CONSOLE_COLUMNS
  }

  // The cells after printing one character at pos: a newline pads its row with spaces.
  function PutAt(cells: seq<Cell>, pos: nat, c: char, color: int): (r: seq<Cell>)
    requires |cells| % CONSOLE_COLUMNS == 0 && pos < |cells|
    ensures |r| == |cells|
  {
    if c == '\n' then
      seq(|cells|, i requires 0 <= i < |cells| => if pos <= i < RowEnd(pos) then Glyph(' ', color) else cells[i])
    else cells[pos := Glyph(c, color)]
  }

  function NextPos(pos: nat, c: char): nat {
    if c == '\n' then RowEnd(pos) else pos + 1
  }

  lemma NextPosInside(pos: nat, c: char, size: nat)
    requires size % CONSOLE_COLUMNS == 0 && pos < size
    ensures pos < NextPos(pos, c) <= size
  {
  }

  // The tape a character is printed on: one row longer if the print position was at its end.
  function Roomy(t: Tape): (cells: seq<Cell>)
    requires WellFormed(t)
    ensures |cells| % CONSOLE_COLUMNS == 0 && t.pos < |cells|
  {
    if t.pos == |t.cells| then t.cells + BlankRow() else t.cells
  }

  function Put(t: Tape, c: char, color: int): (t': Tape)
    requires WellFormed(t)
    ensures WellFormed(t')
  {
    NextPosInside(t.pos, c, |Roomy(t)|);
    Tape(PutAt(Roomy(t), t.pos, c, color), NextPos(t.pos, c))
  }

  function PrintAll(t: Tape, s: string, color: int): (t': Tape)
    requires WellFormed(t)
    ensures WellFormed(t')
    decreases |s|
  {
    if s == "" then t else Put(PrintAll(t, s[..|s| - 1], color), s[|s| - 1], color)
  }

  // A cell of the tape, blank beyond its end.
  function CellAt(t: Tape, i: nat): Cell {
    if i < |t.cells| then t.cells[i] else Blank
  }

  // A character goes into the cell at the print position, and no other cell changes.
  lemma PutPrints(t: Tape, c: char, color: int)
    requires WellFormed(t) && c != '\n'
    ensures
      var t' := Put(t, c, color);
      && t'.pos == t.pos + 1 && t.pos < |t'.cells| && |t.cells| <= |t'.cells|
      && forall i :: 0 <= i < |t'.cells| ==> t'.cells[i] == if i == t.pos then Glyph(c, color) else CellAt(t, i)
  {
  }

  // A newline fills exactly the cells from the print position to the next multiple of 80 with spaces.
  lemma PutNewline(t: Tape, color: int)
    requires WellFormed(t)
    ensures
      var t' := Put(t, '\n', color);
      && t'.pos % 80 == 0 && t.pos < t'.pos <= t.pos + 80 && t'.pos <= |t'.cells| && |t.cells| <= |t'.cells|
      && forall i :: 0 <= i < |t'.cells| ==>
           t'.cells[i] == if t.pos <= i < t'.pos then Glyph(' ', color) else CellAt(t, i)
  {
  }

  // A text without newlines appears on the tape as it stands.
  lemma {:induction false} PrintText(t: Tape, s: string, color: int)
    requires WellFormed(t) && '\n' !in s
    ensures
      var t' := PrintAll(t, s, color);
      && t'.pos == t.pos + |s| && t'.pos <= |t'.cells| && |t.cells| <= |t'.cells|
      && (forall i :: 0 <= i < |s| ==> t'.cells[t.pos + i] == Glyph(s[i], color))
      && forall i :: 0 <= i < |t'.cells| && !(t.pos <= i < t'.pos) ==> t'.cells[i] == CellAt(t, i)
    decreases |s|
  {
    if s != "" {
      var n := |s| - 1;
      PrintText(t, s[..n], color);
      PutPrints(PrintAll(t, s[..n], color), s[n], color);
    }
  }

  // Printing only ever adds: what was printed before the print position stays as it is.
  lemma {:induction false} PrintKeepsPast(t: Tape, s: string, color: int)
    requires WellFormed(t)
    ensures
      var t' := PrintAll(t, s, color);
      t.pos <= t'.pos && |t.cells| <= |t'.cells| && t'.cells[..t.pos] == t.cells[..t.pos]
    decreases |s|
  {
    if s != "" {
      PrintKeepsPast(t, s[..|s| - 1], color);
      var t1, t2 := PrintAll(t, s[..|s| - 1], color), PrintAll(t, s, color);
      var cells := Roomy(t1);
      NextPosInside(t1.pos, s[|s| - 1], |cells|);
      forall i | 0 <= i < t.pos
        ensures t2.cells[i] == t.cells[i]
      {
        assert t2.cells[i] == cells[i] == t1.cells[i];
        assert t1.cells[..t.pos][i] == t.cells[..t.pos][i];
      }
    }
  }

  // The screen shows the last 25 rows of the tape.
  predicate Shows(console: seq<Cell>, cell: nat, t: Tape) {
    && WellFormed(t) && |t.cells| >= CONSOLE_SIZE
    && console == t.cells[|t.cells| - CONSOLE_SIZE..] && t.pos == |t.cells| - CONSOLE_SIZE + cell
  }

  // ---- The printer ----

  class ConsolePrinter {
    const console: array<Cell>
    var cell: nat             // cell_ - console
    const scrolling: bool

    ghost predicate Valid()
      reads this
    {
      console.Length == CONSOLE_SIZE && cell <= CONSOLE_SIZE
    }

    constructor (console: array<Cell>, cpos: int, scrolling: bool, cursorpos: nat)
      requires console.Length == CONSOLE_SIZE && cursorpos <= CONSOLE_SIZE
      ensures Valid() && this.console == console && this.scrolling == scrolling
      ensures cell == if cpos < 0 then cursorpos else if cpos <= CONSOLE_SIZE then cpos else 0
    {
      this.console, this.scrolling := console, scrolling;
      cell := if cpos < 0 then cursorpos else if cpos <= CONSOLE_ROWS * CONSOLE_COLUMNS then cpos else 0;
    }

    // Moves the text up one row, or the print position to the top of the screen.
    method Scroll()
      requires Valid() && cell >= CONSOLE_SIZE
      modifies this`cell, console
      ensures Valid()
      ensures scrolling ==>
        cell == old(cell) - CONSOLE_COLUMNS && console[..] == old(console[..])[CONSOLE_COLUMNS..] + BlankRow()
      ensures !scrolling ==> cell == 0 && console[..] == old(console[..])
    {
      if scrolling {
        Memmove(console, 0, CONSOLE_COLUMNS, (CONSOLE_ROWS - 1) * CONSOLE_COLUMNS);
        Clear(console, (CONSOLE_ROWS - 1) * CONSOLE_COLUMNS, CONSOLE_COLUMNS);
        cell := cell - CONSOLE_COLUMNS;
        ghost var before := old(console[..]);
        forall i | 0 <= i < CONSOLE_SIZE
          ensures console[i] == (before[CONSOLE_COLUMNS..] + BlankRow())[i]
        {
          if i < CONSOLE_SIZE - CONSOLE_COLUMNS {
            assert console[i] == before[CONSOLE_COLUMNS + (i - 0)];
          }
        }
      } else {
        cell := 0;
      }
    }

    method Putc(c: char, color: int)
      requires Valid()
      modifies this`cell, console
      ensures Valid()
      ensures !scrolling ==>
        var at := if old(cell) == CONSOLE_SIZE then 0 else old(cell);
        console[..] == PutAt(old(console[..]), at, c, color) && cell == NextPos(at, c)
      ensures scrolling ==> forall t: Tape ::
        Shows(old(console[..]), old(cell), t) ==> Shows(console[..], cell, Put(t, c, color))
    {
      while cell >= CONSOLE_SIZE
        invariant Valid()
        invariant !scrolling ==>
          console[..] == old(console[..]) && (cell == old(cell) || (old(cell) == CONSOLE_SIZE && cell == 0))
        invariant scrolling && cell == old(cell) ==> console[..] == old(console[..])
        invariant scrolling && cell != old(cell) ==>
          && old(cell) == CONSOLE_SIZE && cell == CONSOLE_SIZE - CONSOLE_COLUMNS
          && console[..] == old(console[..])[CONSOLE_COLUMNS..] + BlankRow()
        decreases cell
      {
        Scroll();
      }
      ghost var before, at := console[..], cell;
      if c == '\n' {
        var pos := cell % 80;
        while pos != 80
          invariant pos <= 80 && cell - at == pos - at % 80 && at <= cell <= CONSOLE_SIZE
          invariant forall i :: 0 <= i < CONSOLE_SIZE ==>
            console[i] == if at <= i < cell then Glyph(' ', color) else before[i]
          decreases 80 - pos
        {
          console[cell] := Glyph(' ', color);
          cell := cell + 1;
          pos := pos + 1;
        }
      } else {
        console[cell] := Glyph(c, color);
        cell := cell + 1;
      }
      assert cell == NextPos(at, c);
      assert console[..] == PutAt(before, at, c, color);
      if scrolling {
        forall t: Tape | Shows(old(console[..]), old(cell), t)
          ensures Shows(console[..], cell, Put(t, c, color))
        {
          ShowsPut(old(console[..]), old(cell), t, before, at, c, color);
        }
      }
    }
  }

  lemma RowEndShift(off: nat, at: nat)
    requires off % CONSOLE_COLUMNS == 0
    ensures RowEnd(off + at) == off + RowEnd(at)
  {
  }

  // Printing behind a whole number of rows leaves them alone.
  lemma PutShift(cells: seq<Cell>, off: nat, at: nat, c: char, color: int)
    requires |cells| % CONSOLE_COLUMNS == 0 && off % CONSOLE_COLUMNS == 0 && off + at < |cells|
    ensures PutAt(cells, off + at, c, color)[off..] == PutAt(cells[off..], at, c, color)
    ensures NextPos(off + at, c) == off + NextPos(at, c)
  {
    RowEndShift(off, at);
  }

  // Scrolling the screen is adding a blank row to the tape when it is full.
  lemma ScrollShift(console: seq<Cell>, cells: seq<Cell>)
    requires |console| == CONSOLE_SIZE <= |cells| && console == cells[|cells| - CONSOLE_SIZE..]
    ensures console[CONSOLE_COLUMNS..] + BlankRow() == (cells + BlankRow())[|cells| + CONSOLE_COLUMNS - CONSOLE_SIZE..]
  {
  }

  lemma ShowsWindow(cells: seq<Cell>, off: nat, at: nat, c: char, color: int)
    requires |cells| % CONSOLE_COLUMNS == 0 && off + CONSOLE_SIZE == |cells| && at < CONSOLE_SIZE
    ensures
      var t := Tape(PutAt(cells, off + at, c, color), NextPos(off + at, c));
      Shows(PutAt(cells[off..], at, c, color), NextPos(at, c), t)
  {
    PutShift(cells, off, at, c, color);
    NextPosInside(off + at, c, |cells|);
  }

  // Printing on the screen is printing on the tape, seen through the window.
  lemma ShowsPut(console: seq<Cell>, cell: nat, t: Tape, scrolled: seq<Cell>, at: nat, c: char, color: int)
    requires Shows(console, cell, t) && cell <= CONSOLE_SIZE && |console| == CONSOLE_SIZE
    requires if cell < CONSOLE_SIZE then at == cell && scrolled == console
             else at == cell - CONSOLE_COLUMNS && scrolled == console[CONSOLE_COLUMNS..] + BlankRow()
    ensures |scrolled| == CONSOLE_SIZE && at < CONSOLE_SIZE
    ensures Shows(PutAt(scrolled, at, c, color), NextPos(at, c), Put(t, c, color))
  {
    if cell == CONSOLE_SIZE {
      ScrollShift(console, t.cells);
    }
    var off := |Roomy(t)| - CONSOLE_SIZE;
    assert scrolled == Roomy(t)[off..] && t.pos == off + at;
    ShowsWindow(Roomy(t), off, at, c, color);
    assert Put(t, c, color) == Tape(PutAt(Roomy(t), off + at, c, color), NextPos(off + at, c));
  }

  // console_puts: prints s from cpos, or from the cursor with scrolling when cpos is negative.
  method ConsolePuts(console: array<Cell>, cursorpos: nat, cpos: int, color: int, s: string)
      returns (r: nat, cursorpos': nat)
    requires console.Length == CONSOLE_SIZE && cursorpos <= CONSOLE_SIZE
    modifies console
    ensures r <= CONSOLE_SIZE && cursorpos' == (if cpos < 0 then r else cursorpos)
    ensures cpos < 0 ==> forall t: Tape ::
      Shows(old(console[..]), cursorpos, t) ==> Shows(console[..], r, PrintAll(t, s, color))
    ensures cpos >= 0 ==>
      (console[..], r) == PrintWrapping(old(console[..]), if cpos <= CONSOLE_SIZE then cpos else 0, s, color)
  {
    var cp := new ConsolePrinter(console, cpos, cpos < 0, cursorpos);
    ghost var before, at := console[..], cp.cell;
    var i := 0;
    while i < |s|
      invariant i <= |s| && cp.Valid() && cp.console == console && cp.scrolling == (cpos < 0)
      invariant cpos < 0 ==> forall t: Tape ::
        Shows(before, at, t) ==> Shows(console[..], cp.cell, PrintAll(t, s[..i], color))
      invariant cpos >= 0 ==> (console[..], cp.cell) == PrintWrapping(before, at, s[..i], color)
    {
      assert s[..i + 1][..i] == s[..i];
      cp.Putc(s[i], color);
      i := i + 1;
    }
    assert s[..i] == s;
    r := cp.cell;
    cursorpos' := if cpos < 0 then r else cursorpos;
  }

  // One call of console_puts at the cursor.
  datatype Print = Print(color: int, text: string)

  function PrintSession(t: Tape, prints: seq<Print>): (t': Tape)
    requires WellFormed(t)
    ensures WellFormed(t')
    decreases |prints|
  {
    if prints == [] then t
    else
      var p := prints[|prints| - 1];
      PrintAll(PrintSession(t, prints[..|prints| - 1]), p.text, p.color)
  }

  // Any number of prints at the cursor: the console is the end of one tape throughout.
  method Session(console: array<Cell>, cursorpos: nat, prints: seq<Print>) returns (r: nat)
    requires console.Length == CONSOLE_SIZE && cursorpos <= CONSOLE_SIZE
    modifies console
    ensures r <= CONSOLE_SIZE
    ensures forall t: Tape ::
      Shows(old(console[..]), cursorpos, t) ==> Shows(console[..], r, PrintSession(t, prints))
  {
    r := cursorpos;
    for i := 0 to |prints|
      invariant r <= CONSOLE_SIZE
      invariant forall t: Tape ::
        Shows(old(console[..]), cursorpos, t) ==> Shows(console[..], r, PrintSession(t, prints[..i]))
    {
      assert prints[..i + 1][..i] == prints[..i];
      var _, next := ConsolePuts(console, r, -1, prints[i].color, prints[i].text);
      r := next;
    }
    assert prints[..|prints|] == prints;
  }

  // Printing without scrolling: past the last row it goes on at the top of the screen.
  function PrintWrapping(cells: seq<Cell>, pos: nat, s: string, color: int): (r: (seq<Cell>, nat))
    requires |cells| == CONSOLE_SIZE && pos <= CONSOLE_SIZE
    ensures |r.0| == CONSOLE_SIZE && r.1 <= CONSOLE_SIZE
    decreases |s|
  {
    if s == "" then (cells, pos)
    else
      var (cells', pos') := PrintWrapping(cells, pos, s[..|s| - 1], color);
      var at := if pos' == CONSOLE_SIZE then 0 else pos';
      NextPosInside(at, s[|s| - 1], CONSOLE_SIZE);
      (PutAt(cells', at, s[|s| - 1], color), NextPos(at, s[|s| - 1]))
  }
}
