/** The two text-screen drivers: init_vga.c, which scrolls at once, and vga.c, which scrolls when it next prints. */
module Drivers {
  import opened Screen

  /** `vga_entry_t`: a character in the low byte, and a colour in the high one. */
  datatype Entry = Entry(glyph: Char, color: int)

  const LIGHT_GREY := 7

  /** What is to be read on the screen. */
  function Chars(buffer: seq<Entry>): (r: seq<Char>)
    ensures |r| == |buffer| && forall i :: 0 <= i < |r| ==> r[i] == buffer[i].glyph
  {
    seq(|buffer|, i requires 0 <= i < |buffer| => buffer[i].glyph)
  }

  /** Everything `lines` rows up, and blank rows below. */
  ghost predicate Scrolled(was: seq<Char>, chars: seq<Char>, lines: nat) {
    |was| == SIZE && WIDTH * lines <= SIZE && chars == was[WIDTH * lines..] + Blanks(WIDTH * lines)
  }

  /** init_vga.c. */
  class InitVga {
    const buffer: array<Entry>
    var row: nat
    var col: nat

    constructor (buffer: array<Entry>)
      requires buffer.Length == SIZE
      ensures Valid() && this.buffer == buffer && row == 0 && col == 0
    {
      this.buffer := buffer;
      row, col := 0, 0;
    }

    ghost predicate Valid()
      reads `row, `col
    {
      buffer.Length == SIZE && row < HEIGHT && col < WIDTH
    }

    ghost function View(): (t: Tape)
      requires Valid()
      reads `row, `col, buffer
      ensures t.Ok() && t.rows == HEIGHT
    {
      Tape(Chars(buffer[..]), HEIGHT, row, col)
    }

    /** Fills row `y` with the row `lines` below it. */
    method CopyRow(y: nat, lines: nat)
      requires buffer.Length == SIZE && y + lines < HEIGHT
      modifies buffer
      ensures forall i :: WIDTH * y <= i < WIDTH * y + WIDTH ==> buffer[i] == old(buffer[..])[i + WIDTH * lines]
      ensures forall i :: 0 <= i < SIZE && !(WIDTH * y <= i < WIDTH * y + WIDTH) ==> buffer[i] == old(buffer[..])[i]
    {
      ghost var was := buffer[..];
      var x := 0;
      while x < WIDTH
        invariant 0 <= x <= WIDTH
        invariant forall i :: WIDTH * y <= i < WIDTH * y + x ==> buffer[i] == was[i + WIDTH * lines]
        invariant forall i :: 0 <= i < SIZE && !(WIDTH * y <= i < WIDTH * y + x) ==> buffer[i] == was[i]
      {
        var to := y * WIDTH + x;
        buffer[to] := buffer[to + lines * WIDTH];
        x := x + 1;
      }
    }

    method BlankRow(y: nat)
      requires buffer.Length == SIZE && y < HEIGHT
      modifies buffer
      ensures forall i :: WIDTH * y <= i < WIDTH * y + WIDTH ==> buffer[i] == Entry(BLANK, 0)
      ensures forall i :: 0 <= i < SIZE && !(WIDTH * y <= i < WIDTH * y + WIDTH) ==> buffer[i] == old(buffer[i])
    {
      var x := 0;
      while x < WIDTH
        invariant 0 <= x <= WIDTH
        invariant forall i :: WIDTH * y <= i < WIDTH * y + x ==> buffer[i] == Entry(BLANK, 0)
        invariant forall i :: 0 <= i < SIZE && !(WIDTH * y <= i < WIDTH * y + x) ==> buffer[i] == old(buffer[i])
      {
        buffer[y * WIDTH + x] := Entry(BLANK, 0);
        x := x + 1;
      }
    }

    /** `vga_scrolldown`. */
    method ScrollDown(lines: nat)
      requires buffer.Length == SIZE && lines <= HEIGHT && lines <= row
      modifies this`row, buffer
      ensures Scrolled(Chars(old(buffer[..])), Chars(buffer[..]), lines) && row == old(row) - lines
    {
      ghost var was := buffer[..];
      var y := 0;
      while y < HEIGHT - lines
        invariant 0 <= y <= HEIGHT - lines && row == old(row)
        invariant forall i :: 0 <= i < WIDTH * y ==> buffer[i] == was[i + WIDTH * lines]
        invariant forall i :: WIDTH * y <= i < SIZE ==> buffer[i] == was[i]
      {
        CopyRow(y, lines);
        y := y + 1;
      }
      while y < HEIGHT
        invariant HEIGHT - lines <= y <= HEIGHT && row == old(row)
        invariant forall i :: 0 <= i < WIDTH * (HEIGHT - lines) ==> buffer[i] == was[i + WIDTH * lines]
        invariant forall i :: WIDTH * (HEIGHT - lines) <= i < WIDTH * y ==> buffer[i] == Entry(BLANK, 0)
      {
        BlankRow(y);
        y := y + 1;
      }
      assert Chars(buffer[..]) == Chars(was)[WIDTH * lines..] + Blanks(WIDTH * lines);
      row := row - lines;
    }

    /** `vga_linebreak`. */
    method LineBreak()
      requires buffer.Length == SIZE && row < HEIGHT
      modifies this, buffer
      ensures Valid() && View() == NextLine(Chars(old(buffer[..])), old(row) + 1)
    {
      col := 0;
      row := row + 1;
      if row == HEIGHT {
        ScrollDown(1);
      }
    }

    /** The cell of the cursor. */
    function Pos(): int
      reads `row, `col
    {
      WIDTH * row + col
    }

    /** `init_vga_putc`. */
    method PutC(c: Char)
      requires Valid()
      modifies this, buffer
      ensures Valid() && Puts(old(View()), c, View())
      ensures Pos() < SIZE && Printed(Chars(old(buffer[..])), old(Pos()), c, Chars(buffer[..]), Pos())
    {
      ghost var t := View();
      PutOne(c);
      PutsByPosition(t, c, View());
    }

    method PutOne(c: Char)
      requires Valid()
      modifies this, buffer
      ensures Valid() && Puts(old(View()), c, View())
    {
      ghost var t := View();
      if c == NEWLINE {
        LineBreak();
        PutsNewLine(t, View());
      } else {
        buffer[row * WIDTH + col] := Entry(c, LIGHT_GREY);
        col := col + 1;
        assert Chars(buffer[..]) == t.cells[t.Cursor() := c];
        if col == WIDTH {
          LineBreak();
          PutsEndOfRow(t, c, View());
        } else {
          PutsInRow(t, c, View());
        }
      }
    }

    /** `init_vga_write`. */
    method Write(data: seq<Char>)
      requires Valid()
      modifies this, buffer
      ensures Valid() && View() == Window(PutAll(old(View()), data))
      ensures Pos() < SIZE && exists n: nat :: TextShown(Chars(old(buffer[..])), old(Pos()), data, Chars(buffer[..]), Pos(), n)
    {
      ghost var t, chars, p := View(), Chars(buffer[..]), Pos();
      NothingShown(t, data);
      NothingWritten(chars, p, data);
      var i := 0;
      while i < |data|
        invariant 0 <= i <= |data| && Valid() && Shows(t, data, i, View()) && Written(chars, p, data, i, Chars(buffer[..]), Pos())
      {
        ghost var v, chars1, p1 := View(), Chars(buffer[..]), Pos();
        PutC(data[i]);
        ShowsNext(t, data, i, v, View());
        WrittenOneMore(chars, p, data, i, chars1, p1, Chars(buffer[..]), Pos());
        i := i + 1;
      }
      AllShown(t, data, View());
      AllWritten(chars, p, data, Chars(buffer[..]), Pos());
    }
  }

  /** A screen with the cursor at the start of a row, scrolled if the row is the one below the last. */
  ghost function NextLine(chars: seq<Char>, row: nat): Tape
    requires |chars| == SIZE
  {
    if row == HEIGHT then Tape(chars[WIDTH..] + Blanks(WIDTH), HEIGHT, HEIGHT - 1, 0) else Tape(chars, HEIGHT, row, 0)
  }

  /** Printing `c` on the screen `t` gives the screen `view`. */
  ghost predicate Puts(t: Tape, c: Char, view: Tape) {
    true == (t.Ok() && view == Window(Put(t, c)))
  }

  /** A screen after a character that leaves the cursor in its row. */
  lemma PutsInRow(t: Tape, c: Char, view: Tape)
    requires t.Ok() && t.rows == HEIGHT && c != NEWLINE && t.col + 1 < WIDTH
    requires view == t.(cells := t.cells[t.Cursor() := c], col := t.col + 1)
    ensures Puts(t, c, view)
  {
    assert view.cells[0..] == view.cells;
  }

  lemma NewLineWindow(t: Tape)
    requires t.Ok() && t.rows == HEIGHT
    ensures Window(NewLine(t)) == NextLine(t.cells, t.row + 1)
  {
    if t.row + 1 == HEIGHT {
      assert (t.cells + Blanks(WIDTH))[WIDTH..] == t.cells[WIDTH..] + Blanks(WIDTH);
    } else {
      assert t.cells[0..] == t.cells;
    }
  }

  lemma PutsNewLine(t: Tape, view: Tape)
    requires t.Ok() && t.rows == HEIGHT && view == NextLine(t.cells, t.row + 1)
    ensures Puts(t, NEWLINE, view)
  {
    NewLineWindow(t);
  }

  /** A screen after a character in the last column. */
  lemma PutsEndOfRow(t: Tape, c: Char, view: Tape)
    requires t.Ok() && t.rows == HEIGHT && c != NEWLINE && t.col + 1 == WIDTH
    requires view == NextLine(t.cells[t.Cursor() := c], t.row + 1)
    ensures Puts(t, c, view)
  {
    NewLineWindow(t.(cells := t.cells[t.Cursor() := c]));
  }

  /** What that is on the cells. */
  lemma PutsByPosition(t: Tape, c: Char, view: Tape)
    requires Puts(t, c, view) && t.rows == HEIGHT
    ensures t.Ok() && view.Ok() && view.rows == HEIGHT && Printed(t.cells, t.Cursor(), c, view.cells, view.Cursor())
  {
    Column(t.Cursor(), t.row, t.col);
    assert CharShown(t.cells, t.Cursor(), c, view.cells, view.Cursor(), Put(t, c).rows - HEIGHT);
  }

  lemma ViewIsWindow(t: Tape)
    requires t.Ok() && t.rows == HEIGHT
    ensures OnScreen(t) && Window(t) == t
  {
  }

  /** The first `n` characters printed on the screen `t` give the screen `view`. */
  ghost predicate Shows(t: Tape, data: seq<Char>, n: nat, view: Tape) {
    true == (OnScreen(t) && n <= |data| && view == Window(PutAll(t, data[..n])))
  }

  lemma NothingShown(t: Tape, data: seq<Char>)
    requires t.Ok() && t.rows == HEIGHT
    ensures Shows(t, data, 0, t)
  {
    ViewIsWindow(t);
  }

  lemma ShowsNext(t: Tape, data: seq<Char>, n: nat, view: Tape, view': Tape)
    requires Shows(t, data, n, view) && n < |data| && Puts(view, data[n], view')
    ensures Shows(t, data, n + 1, view')
  {
    WindowPutAll(t, data[..n]);
    WindowPut(PutAll(t, data[..n]), data[n]);
    assert data[..n + 1][..n] == data[..n];
  }

  lemma AllShown(t: Tape, data: seq<Char>, view: Tape)
    requires Shows(t, data, |data|, view)
    ensures t.Ok() && view == Window(PutAll(t, data))
  {
    assert data[..|data|] == data;
  }

  lemma Column(pos: nat, row: nat, col: nat)
    requires pos == WIDTH * row + col && col < WIDTH
    ensures pos % WIDTH == col
  {
  }

  /** vga.c. A position past the last cell, in the row below the screen, means that a scroll is still to be done. */
  class Vga {
    const buffer: array<Entry>
    var pos: nat
    /** The row and the column of `pos`. */
    ghost var row: nat
    ghost var col: nat

    constructor (buffer: array<Entry>)
      requires buffer.Length == SIZE
      ensures Valid() && this.buffer == buffer && pos == 0
    {
      this.buffer := buffer;
      pos, row, col := 0, 0, 0;
    }

    ghost predicate Valid()
      reads `pos, `row, `col
    {
      buffer.Length == SIZE && pos == WIDTH * row + col && col < WIDTH && pos < SIZE + WIDTH
    }

    /** The screen, with a pending scroll done. */
    ghost function View(): (t: Tape)
      requires Valid()
      reads `pos, `row, `col, buffer
      ensures t.Ok() && t.rows == HEIGHT
    {
      if pos >= SIZE then Tape(Chars(buffer[..])[WIDTH..] + Blanks(WIDTH), HEIGHT, HEIGHT - 1, col) else Tape(Chars(buffer[..]), HEIGHT, row, col)
    }

    /** `vga_scrolldown`. */
    method ScrollDown(lines: nat)
      requires buffer.Length == SIZE && lines <= HEIGHT && WIDTH * lines <= pos
      modifies this`pos, buffer
      ensures Scrolled(Chars(old(buffer[..])), Chars(buffer[..]), lines) && pos == old(pos) - WIDTH * lines
    {
      ghost var was := buffer[..];
      var p := 0;
      while p < SIZE - WIDTH * lines
        invariant 0 <= p <= SIZE - WIDTH * lines && pos == old(pos)
        invariant forall i :: 0 <= i < p ==> buffer[i] == was[i + WIDTH * lines]
        invariant forall i :: p <= i < SIZE ==> buffer[i] == was[i]
      {
        buffer[p] := buffer[p + lines * WIDTH];
        p := p + 1;
      }
      while p < SIZE
        invariant SIZE - WIDTH * lines <= p <= SIZE && pos == old(pos)
        invariant forall i :: 0 <= i < SIZE - WIDTH * lines ==> buffer[i] == was[i + WIDTH * lines]
        invariant forall i :: SIZE - WIDTH * lines <= i < p ==> buffer[i] == Entry(BLANK, LIGHT_GREY)
      {
        buffer[p] := Entry(BLANK, LIGHT_GREY);
        p := p + 1;
      }
      assert Chars(buffer[..]) == Chars(was)[WIDTH * lines..] + Blanks(WIDTH * lines);
      pos := pos - lines * WIDTH;
    }

    /** `vga_linebreak`. */
    method LineBreak()
      requires Valid() && pos < SIZE
      modifies this, buffer
      ensures Valid() && Puts(old(View()), NEWLINE, View())
      ensures pos < SIZE && Printed(Chars(old(buffer[..])), old(pos), NEWLINE, Chars(buffer[..]), pos)
    {
      ghost var t, chars, p := View(), Chars(buffer[..]), pos;
      Column(pos, row, col);
      pos := pos + (WIDTH - pos % WIDTH);
      row, col := row + 1, 0;
      if pos == SIZE {
        ScrollDown(1);
        row := row - 1;
      }
      PutsNewLine(t, View());
      BreakPrinted(chars, p, Chars(buffer[..]), pos);
    }

    /** `vga_putentryat`, and the position moved on. */
    method PutEntry(c: Char)
      requires Valid() && pos < SIZE && c != NEWLINE
      modifies this, buffer
      ensures Valid() && Puts(old(View()), c, View())
      ensures Chars(buffer[..]) == Chars(old(buffer[..]))[old(pos) := c] && pos == old(pos) + 1
    {
      ghost var t := View();
      buffer[pos] := Entry(c, LIGHT_GREY);
      assert Chars(buffer[..]) == t.cells[t.Cursor() := c];
      pos := pos + 1;
      if col + 1 == WIDTH {
        row, col := row + 1, 0;
        PutsEndOfRow(t, c, View());
      } else {
        col := col + 1;
        PutsInRow(t, c, View());
      }
    }

    /** `vga_putc`. */
    method PutC(c: Char)
      requires Valid()
      modifies this, buffer
      ensures Valid() && Puts(old(View()), c, View())
      ensures (c == NEWLINE ==> pos < SIZE) && Printed(Chars(old(buffer[..])), old(pos), c, Chars(buffer[..]), pos)
    {
      ghost var t, chars, p := View(), Chars(buffer[..]), pos;
      if pos >= SIZE {
        ScrollDown(1);
        row := row - 1;
      }
      assert View() == t;
      ghost var chars1, p1 := Chars(buffer[..]), pos;
      if c == NEWLINE {
        LineBreak();
      } else {
        EntryPrinted(chars1, p1, c);
        PutEntry(c);
      }
      if p >= SIZE {
        ScrolledFirst(chars, p, chars1, c, Chars(buffer[..]), pos);
      }
    }

    /** `vga_write`. */
    method Write(data: seq<Char>)
      requires Valid()
      modifies this, buffer
      ensures Valid() && View() == Window(PutAll(old(View()), data))
      ensures exists n: nat :: TextShown(Chars(old(buffer[..])), old(pos), data, Chars(buffer[..]), pos, n)
    {
      ghost var t, chars, p := View(), Chars(buffer[..]), pos;
      NothingShown(t, data);
      NothingWritten(chars, p, data);
      var i := 0;
      while i < |data|
        invariant 0 <= i <= |data| && Valid() && Shows(t, data, i, View()) && Written(chars, p, data, i, Chars(buffer[..]), pos)
      {
        ghost var v, chars1, p1 := View(), Chars(buffer[..]), pos;
        PutC(data[i]);
        ShowsNext(t, data, i, v, View());
        WrittenOneMore(chars, p, data, i, chars1, p1, Chars(buffer[..]), pos);
        i := i + 1;
      }
      AllShown(t, data, View());
      AllWritten(chars, p, data, Chars(buffer[..]), pos);
    }

    /** `vga_set_position`. */
    method SetPosition(row: nat, col: nat)
      requires Valid() && row < HEIGHT && col < WIDTH
      modifies this
      ensures Valid() && View() == Tape(Chars(buffer[..]), HEIGHT, row, col)
    {
      pos := WIDTH * row + col;
      this.row, this.col := row, col;
    }
  }

  /**
   * Boot prints with one driver and goes on with the other over the same cells. Where the change comes makes no difference:
   * the screen shows the end of one tape with everything that was printed.
   */
  method PrintAcrossBoot(early: InitVga, late: Vga, before: seq<Char>, after: seq<Char>)
    requires early.Valid() && late.Valid() && late.buffer == early.buffer
    modifies early, late, early.buffer
    ensures late.Valid() && late.View() == Window(PutAll(old(early.View()), before + after))
  {
    ghost var t := early.View();
    ViewIsWindow(t);
    early.Write(before);
    late.SetPosition(early.row, early.col);
    late.Write(after);
    WindowPutAll(t, before);
    WindowPutAll(PutAll(t, before), after);
    PutAllAppend(t, before, after);
  }

  /** On the same screen, the two drivers show the same characters and cursor after any text. */
  method PrintOnBoth(early: InitVga, late: Vga, data: seq<Char>)
    requires early.Valid() && late.Valid() && early.buffer != late.buffer && early.View() == late.View()
    modifies early, late, early.buffer, late.buffer
    ensures early.Valid() && late.Valid() && early.View() == late.View()
  {
    early.Write(data);
    late.Write(data);
  }
}
