/** What a text screen shows: the end of an unbounded tape of rows. */
module Screen {
  const WIDTH := 80
  const HEIGHT := 25
  const SIZE := 2000
  const BLANK: Char := 0x20
  const NEWLINE: Char := 0x0A

  type Char = x: int | 0 <= x < 256

  /** Rows of cells that are never lost, and the row and the column of the cell that is written next. */
  datatype Tape = Tape(cells: seq<Char>, rows: int, row: int, col: int) {
    predicate Ok() {
      |cells| == WIDTH * rows && HEIGHT <= rows && 0 <= row < rows && 0 <= col < WIDTH
    }

    function Cursor(): int {
      WIDTH * row + col
    }
  }

  function Blanks(n: nat): (r: seq<Char>)
    ensures |r| == n && forall i :: 0 <= i < n ==> r[i] == BLANK
  {
    seq(n, _ => BLANK)
  }

  /** The cursor at the start of the next row, which is added if it is not there yet. */
  function NewLine(t: Tape): (r: Tape)
    requires t.Ok()
    ensures r.Ok()
  {
    if t.row + 1 < t.rows then t.(row := t.row + 1, col := 0)
    else Tape(t.cells + Blanks(WIDTH), t.rows + 1, t.row + 1, 0)
  }

  /** A character goes in its cell, and the cursor one on. */
  function Put(t: Tape, c: Char): (r: Tape)
    requires t.Ok()
    ensures r.Ok()
  {
    if c == NEWLINE then NewLine(t)
    else
      var written := t.(cells := t.cells[t.Cursor() := c]);
      if t.col + 1 < WIDTH then written.(col := t.col + 1) else NewLine(written)
  }

  function PutAll(t: Tape, text: seq<Char>): (r: Tape)
    requires t.Ok()
    ensures r.Ok()
  {
    if text == [] then t else Put(PutAll(t, text[..|text| - 1]), text[|text| - 1])
  }

  /** The last 25 rows, as a tape of their own. */
  function Window(t: Tape): Tape
    requires t.Ok()
  {
    Tape(t.cells[WIDTH * (t.rows - HEIGHT)..], HEIGHT, t.row - (t.rows - HEIGHT), t.col)
  }

  /** The cursor is within the window. */
  predicate OnScreen(t: Tape) {
    t.Ok() && t.rows - HEIGHT <= t.row
  }

  /** What is printed depends on the window alone: rows that scrolled off cannot come back. */
  lemma WindowPut(t: Tape, c: Char)
    requires OnScreen(t)
    ensures OnScreen(Put(t, c)) && OnScreen(Window(t))
    ensures Window(Put(t, c)) == Window(Put(Window(t), c))
  {
    var a, b := Window(Put(t, c)), Window(Put(Window(t), c));
    assert a.cells == b.cells;
  }

  lemma {:induction false} WindowPutAll(t: Tape, text: seq<Char>)
    requires OnScreen(t)
    ensures OnScreen(PutAll(t, text)) && OnScreen(Window(t))
    ensures Window(PutAll(t, text)) == Window(PutAll(Window(t), text))
    decreases |text|
  {
    WindowPut(t, BLANK);
    if text == [] {
      assert Window(Window(t)) == Window(t);
    } else {
      var init, c := text[..|text| - 1], text[|text| - 1];
      WindowPutAll(t, init);
      WindowPutAll(Window(t), init);
      WindowPut(PutAll(t, init), c);
      WindowPut(PutAll(Window(t), init), c);
    }
  }

  lemma {:induction false} PutAllAppend(t: Tape, a: seq<Char>, b: seq<Char>)
    requires t.Ok()
    ensures PutAll(t, a + b) == PutAll(PutAll(t, a), b)
  {
    if b == [] {
      assert a + b == a;
    } else {
      var init := b[..|b| - 1];
      assert (a + b)[..|a + b| - 1] == a + init;
      PutAllAppend(t, a, init);
    }
  }

  /** Nothing is ever rewritten behind the cursor, so the text of finished rows stays on the tape. */
  lemma {:induction false} TapeKeepsText(t: Tape, text: seq<Char>, i: nat)
    requires t.Ok() && i < t.Cursor()
    ensures i < |PutAll(t, text).cells| && PutAll(t, text).cells[i] == t.cells[i] && t.Cursor() <= PutAll(t, text).Cursor()
  {
    if text != [] {
      TapeKeepsText(t, text[..|text| - 1], i);
    }
  }
  // ----- By position -----

  /** Where the cursor goes, counted in cells from the top of the screen as it was: to the next cell, or to the start of the next row. */
  function Advance(p: nat, c: Char): nat {
    if c == NEWLINE then p + WIDTH - p % WIDTH else p + 1
  }

  function EndOf(p: nat, text: seq<Char>): nat {
    if text == [] then p else Advance(EndOf(p, text[..|text| - 1]), text[|text| - 1])
  }

  /** The cells after `c` has been printed at `p` and the rows have moved up by `n`. */
  ghost predicate CellsShown(chars: seq<Char>, p: nat, c: Char, chars': seq<Char>, n: nat) {
    true == (
      && |chars| == SIZE && |chars'| == SIZE
      && (forall x :: 0 <= x < SIZE ==>
            chars'[x] == (if c != NEWLINE && x + WIDTH * n == p then c else if x + WIDTH * n < SIZE then chars[x + WIDTH * n] else BLANK))
    )
  }

  /** The screen `chars` with the cursor at `p` has become `chars'` with the cursor at `p'`, by printing `c` and moving up `n` rows. */
  ghost predicate CharShown(chars: seq<Char>, p: nat, c: Char, chars': seq<Char>, p': nat, n: nat) {
    true == (CellsShown(chars, p, c, chars', n) && p' == Advance(p, c) - WIDTH * n && p' <= SIZE && (n > 0 ==> SIZE - WIDTH <= p'))
  }

  /** The `i`-th character of `text`, printed from `p` on, is at its place on a screen that has moved up `n` rows, unless that is above it. */
  ghost predicate InPlace(p: nat, text: seq<Char>, i: nat, chars: seq<Char>, n: nat)
    requires i < |text|
  {
    var y := EndOf(p, text[..i]);
    text[i] != NEWLINE && WIDTH * n <= y ==> y - WIDTH * n < |chars| && chars[y - WIDTH * n] == text[i]
  }

  /** No character of `text` goes to position `y`. */
  ghost predicate Untouched(p: nat, text: seq<Char>, y: int) {
    forall i {:trigger text[i]} :: 0 <= i < |text| && text[i] != NEWLINE ==> EndOf(p, text[..i]) != y
  }

  ghost predicate AllInPlace(p: nat, text: seq<Char>, chars: seq<Char>, n: nat) {
    true == (forall i {:trigger InPlace(p, text, i, chars, n)} :: 0 <= i < |text| ==> InPlace(p, text, i, chars, n))
  }

  /** Where `text` has put nothing, the cells are as before, and blank in rows that have come in. */
  ghost predicate RestKept(chars: seq<Char>, p: nat, text: seq<Char>, chars': seq<Char>, n: nat) {
    true == (
      && |chars| == SIZE && |chars'| == SIZE
      && forall x :: 0 <= x < SIZE && Untouched(p, text, x + WIDTH * n) ==>
           chars'[x] == if x + WIDTH * n < SIZE then chars[x + WIDTH * n] else BLANK
    )
  }

  /**
   The screen `chars` with the cursor at `p` has become `chars'` with the cursor at `p'`, by printing `text` and moving up `n` rows. Rows move
   up only when the cursor would leave the screen; a cursor in the row below it stands for a move that is still to be done.
   */
  ghost predicate TextShown(chars: seq<Char>, p: nat, text: seq<Char>, chars': seq<Char>, p': nat, n: nat) {
    true == (
      && p' == EndOf(p, text) - WIDTH * n
      && (n > 0 ==> SIZE - WIDTH <= p') && (if text == [] then p' < SIZE + WIDTH else p' <= SIZE)
      && AllInPlace(p, text, chars', n) && RestKept(chars, p, text, chars', n)
    )
  }

  /** Printing `c` takes one screen and cursor to the other. */
  ghost predicate Printed(chars: seq<Char>, p: nat, c: Char, chars': seq<Char>, p': nat) {
    exists n: nat :: CharShown(chars, p, c, chars', p', n)
  }

  lemma EntryPrinted(chars: seq<Char>, p: nat, c: Char)
    requires |chars| == SIZE && p < SIZE && c != NEWLINE
    ensures Printed(chars, p, c, chars[p := c], p + 1)
  {
    assert CharShown(chars, p, c, chars[p := c], p + 1, 0);
  }

  lemma BreakPrinted(chars: seq<Char>, p: nat, chars': seq<Char>, p': nat)
    requires |chars| == SIZE && p < SIZE
    requires var q := Advance(p, NEWLINE);
      if q == SIZE then chars' == chars[WIDTH..] + Blanks(WIDTH) && p' == q - WIDTH else chars' == chars && p' == q
    ensures Printed(chars, p, NEWLINE, chars', p')
  {
    var q := Advance(p, NEWLINE);
    RowEnds(p);
    assert CharShown(chars, p, NEWLINE, chars', p', if q == SIZE then 1 else 0);
  }

  lemma RowEnds(p: nat)
    requires p < SIZE
    ensures Advance(p, NEWLINE) <= SIZE
  {
  }

  /** So does printing the first `i` characters of `data`. */
  ghost predicate Written(chars: seq<Char>, p: nat, data: seq<Char>, i: nat, chars': seq<Char>, p': nat) {
    i <= |data| && exists n: nat :: TextShown(chars, p, data[..i], chars', p', n)
  }

  lemma NothingWritten(chars: seq<Char>, p: nat, data: seq<Char>)
    requires |chars| == SIZE && p < SIZE + WIDTH
    ensures Written(chars, p, data, 0, chars, p)
  {
    assert TextShown(chars, p, data[..0], chars, p, 0);
  }

  lemma WrittenOneMore(chars: seq<Char>, p: nat, data: seq<Char>, i: nat, chars1: seq<Char>, p1: nat, chars2: seq<Char>, p2: nat)
    requires i < |data| && Written(chars, p, data, i, chars1, p1) && Printed(chars1, p1, data[i], chars2, p2)
    ensures Written(chars, p, data, i + 1, chars2, p2)
  {
    var n: nat :| TextShown(chars, p, data[..i], chars1, p1, n);
    var m: nat :| CharShown(chars1, p1, data[i], chars2, p2, m);
    PrintedOneMore(chars, p, data[..i], chars1, p1, n, data[i], chars2, p2, m);
    assert data[..i] + [data[i]] == data[..i + 1];
  }

  lemma AllWritten(chars: seq<Char>, p: nat, data: seq<Char>, chars': seq<Char>, p': nat)
    requires Written(chars, p, data, |data|, chars', p')
    ensures exists n: nat :: TextShown(chars, p, data, chars', p', n)
  {
    assert data[..|data|] == data;
  }

  /** Positions grow. */
  lemma {:induction false} EndGrows(p: nat, text: seq<Char>, i: nat)
    requires i < |text|
    ensures EndOf(p, text[..i]) < EndOf(p, text)
  {
    var init := text[..|text| - 1];
    if i < |init| {
      EndGrows(p, init, i);
      assert init[..i] == text[..i];
    } else {
      assert text[..i] == init;
    }
  }

  lemma PrintedOneMore(chars: seq<Char>, p: nat, text: seq<Char>, chars1: seq<Char>, p1: nat, n: nat, c: Char, chars2: seq<Char>, p2: nat, m: nat)
    requires TextShown(chars, p, text, chars1, p1, n) && CharShown(chars1, p1, c, chars2, p2, m)
    ensures TextShown(chars, p, text + [c], chars2, p2, n + m)
  {
    var all := text + [c];
    assert all[..|text|] == text;
    AdvanceGrows(p1, c);
    AdvanceShift(p1, c, n);
    PlacesKept(p, text, all, chars1, p1, n, c, chars2, m);
    CellsKept(chars, p, text, all, chars1, p1, n, c, chars2, m);
  }

  lemma PlacesKept(p: nat, text: seq<Char>, all: seq<Char>, chars1: seq<Char>, p1: nat, n: nat, c: Char, chars2: seq<Char>, m: nat)
    requires all == text + [c] && CellsShown(chars1, p1, c, chars2, m) && p1 == EndOf(p, text) - WIDTH * n
    requires (text != [] ==> p1 <= SIZE) && (c == NEWLINE || p1 < SIZE + WIDTH * m) && AllInPlace(p, text, chars1, n)
    ensures AllInPlace(p, all, chars2, n + m)
  {
    forall i {:trigger InPlace(p, all, i, chars2, n + m)} | 0 <= i < |all| ensures InPlace(p, all, i, chars2, n + m) {
      assert i < |text| ==> InPlace(p, text, i, chars1, n);
      PlaceKept(p, text, all, i, chars1, p1, n, c, chars2, m);
    }
  }

  lemma CellsKept(chars: seq<Char>, p: nat, text: seq<Char>, all: seq<Char>, chars1: seq<Char>, p1: nat, n: nat, c: Char, chars2: seq<Char>, m: nat)
    requires all == text + [c] && CellsShown(chars1, p1, c, chars2, m) && p1 == EndOf(p, text) - WIDTH * n && RestKept(chars, p, text, chars1, n)
    ensures RestKept(chars, p, all, chars2, n + m)
  {
    forall x | 0 <= x < SIZE && Untouched(p, all, x + WIDTH * (n + m))
      ensures chars2[x] == if x + WIDTH * (n + m) < SIZE then chars[x + WIDTH * (n + m)] else BLANK
    {
      CellKept(chars, p, text, all, x, chars1, p1, n, c, chars2, m);
    }
  }

  lemma AdvanceGrows(p: nat, c: Char)
    ensures p < Advance(p, c) <= p + WIDTH
  {
  }

  lemma AdvanceShift(p: nat, c: Char, n: nat)
    ensures Advance(p + WIDTH * n, c) == Advance(p, c) + WIDTH * n
  {
    if n > 0 {
      AdvanceShift(p, c, n - 1);
      assert (p + WIDTH * n) % WIDTH == (p + WIDTH * (n - 1)) % WIDTH;
    }
  }

  lemma PlaceKept(p: nat, text: seq<Char>, all: seq<Char>, i: nat, chars1: seq<Char>, p1: nat, n: nat, c: Char, chars2: seq<Char>, m: nat)
    requires all == text + [c] && i < |all| && CellsShown(chars1, p1, c, chars2, m) && p1 == EndOf(p, text) - WIDTH * n
    requires (text != [] ==> p1 <= SIZE) && (c == NEWLINE || p1 < SIZE + WIDTH * m)
    requires i < |text| ==> InPlace(p, text, i, chars1, n)
    ensures InPlace(p, all, i, chars2, n + m)
  {
    if i < |text| {
      EndGrows(p, text, i);
      assert all[..i] == text[..i] && all[i] == text[i];
      var y := EndOf(p, text[..i]);
      if text[i] != NEWLINE && WIDTH * (n + m) <= y {
        var x := y - WIDTH * (n + m);
        assert 0 <= x < SIZE && x + WIDTH * m == y - WIDTH * n;
      }
    } else {
      assert all[..i] == text;
      if c != NEWLINE && WIDTH * (n + m) <= EndOf(p, text) {
        assert chars2[p1 - WIDTH * m] == c;
      }
    }
  }

  lemma CellKept(chars: seq<Char>, p: nat, text: seq<Char>, all: seq<Char>, x: nat, chars1: seq<Char>, p1: nat, n: nat, c: Char, chars2: seq<Char>, m: nat)
    requires all == text + [c] && x < SIZE && CellsShown(chars1, p1, c, chars2, m) && p1 == EndOf(p, text) - WIDTH * n
    requires |chars| == SIZE && Untouched(p, all, x + WIDTH * (n + m)) && RestKept(chars, p, text, chars1, n)
    ensures chars2[x] == if x + WIDTH * (n + m) < SIZE then chars[x + WIDTH * (n + m)] else BLANK
  {
    var z := x + WIDTH * m;
    assert all[|text|] == c && all[..|text|] == text;
    forall i {:trigger text[i]} | 0 <= i < |text| && text[i] != NEWLINE ensures EndOf(p, text[..i]) != z + WIDTH * n {
      assert all[i] == text[i] && all[..i] == text[..i];
    }
    assert Untouched(p, text, z + WIDTH * n);
  }

  /**
   A line break in a row above the last changes no cell, and the cursor goes to the start of the next row. In the last row every row moves
   up, a blank row comes in, and the cursor goes to its start.
   */
  lemma BreakShown(chars: seq<Char>, r: nat, col: nat, chars': seq<Char>, p': nat)
    requires r < 25 && col < 80 && Printed(chars, 80 * r + col, NEWLINE, chars', p') && p' < SIZE
    ensures |chars| == 25 * 80 && |chars'| == 25 * 80
    ensures r < 24 ==> chars' == chars && p' == 80 * (r + 1)
    ensures r == 24 ==> chars' == chars[80..] + seq(80, _ => BLANK) && p' == 80 * 24
  {
    var n: nat :| CharShown(chars, 80 * r + col, NEWLINE, chars', p', n);
    BreakEnd(r, col);
    if r < 24 {
      assert n == 0;
    } else {
      assert n == 1;
    }
  }

  lemma BreakEnd(r: nat, col: nat)
    requires col < WIDTH
    ensures Advance(WIDTH * r + col, NEWLINE) == WIDTH * (r + 1)
  {
    assert (WIDTH * r + col) % WIDTH == col;
  }

  /** Rows that have moved up before a character is printed. */
  lemma ScrolledFirst(chars: seq<Char>, p: nat, chars1: seq<Char>, c: Char, chars2: seq<Char>, p2: nat)
    requires |chars| == SIZE && SIZE <= p && chars1 == chars[WIDTH..] + Blanks(WIDTH)
    requires Printed(chars1, p - WIDTH, c, chars2, p2)
    ensures Printed(chars, p, c, chars2, p2)
  {
    var m: nat :| CharShown(chars1, p - WIDTH, c, chars2, p2, m);
    assert CharShown(chars, p, c, chars2, p2, m + 1);
  }

  /** Text that ends on the screen moves nothing: what is before the cursor stays, and each line stands from its start on, cell by cell. */
  lemma TextStands(chars: seq<Char>, p: nat, text: seq<Char>, chars': seq<Char>, p': nat, n: nat, i: nat, k: nat)
    requires TextShown(chars, p, text, chars', p', n) && EndOf(p, text) < SIZE
    requires i + k < |text| && forall j :: i <= j <= i + k ==> text[j] != NEWLINE
    ensures |chars| == SIZE && |chars'| == SIZE && n == 0 && p <= p' == EndOf(p, text)
    ensures forall x :: 0 <= x < p ==> chars'[x] == chars[x]
    ensures EndOf(p, text[..i]) + k < SIZE && chars'[EndOf(p, text[..i]) + k] == text[i + k]
  {
    EndFrom(p, text);
    NothingBefore(chars, p, text, chars', n);
    LineRuns(p, text, i, k);
    EndGrows(p, text, i + k);
    StandsAt(p, text, chars', n, i + k);
  }

  lemma StandsAt(p: nat, text: seq<Char>, chars: seq<Char>, n: nat, i: nat)
    requires AllInPlace(p, text, chars, n) && n == 0 && i < |text| && text[i] != NEWLINE
    ensures EndOf(p, text[..i]) < |chars| && chars[EndOf(p, text[..i])] == text[i]
  {
    assert InPlace(p, text, i, chars, n);
  }

  lemma NothingBefore(chars: seq<Char>, p: nat, text: seq<Char>, chars': seq<Char>, n: nat)
    requires RestKept(chars, p, text, chars', n) && n == 0 && p < SIZE
    ensures forall x :: 0 <= x < p ==> chars'[x] == chars[x]
  {
    forall x | 0 <= x < p ensures chars'[x] == chars[x] {
      forall j {:trigger text[j]} | 0 <= j < |text| ensures EndOf(p, text[..j]) != x {
        EndFrom(p, text[..j]);
      }
      assert Untouched(p, text, x + WIDTH * n);
    }
  }

  lemma {:induction false} EndFrom(p: nat, text: seq<Char>)
    ensures p <= EndOf(p, text)
  {
    if text != [] {
      EndFrom(p, text[..|text| - 1]);
    }
  }

  lemma {:induction false} LineRuns(p: nat, text: seq<Char>, i: nat, k: nat)
    requires i + k <= |text| && forall j :: i <= j < i + k ==> text[j] != NEWLINE
    ensures EndOf(p, text[..i + k]) == EndOf(p, text[..i]) + k
  {
    if k > 0 {
      LineRuns(p, text, i, k - 1);
      assert text[..i + k][..i + k - 1] == text[..i + k - 1];
    }
  }
}
