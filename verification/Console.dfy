/** The text console drawn on the framebuffer: a shadow grid of cells, checked
    before every redraw, and a cursor strip. */
module Console {
  import opened Basics
  import opened Svga

  const COLUMNS: nat := 100
  const ROWS: nat := 37
  const GLYPH_W: nat := 8
  const GLYPH_H: nat := 16
  const CELLS: nat := 3700

  /** A character with its attribute: foreground in the low four bits,
      background in the high four. */
  datatype Cell = Cell(ch: byte, attr: byte)

  function Fore(c: Cell): byte { c.attr % 16 }

  function Back(c: Cell): byte { c.attr / 16 }

  function Color(fore: byte, back: byte): byte {
    (fore as bv8 | (back as bv8 << 4)) as int
  }

  /** A 256-character font, sixteen bytes each. */
  predicate Font(f: seq<byte>) { |f| == 4096 }

  function Power(k: nat): (p: nat)
    ensures p > 0
  {
    if k == 0 then 1 else 2 * Power(k - 1)
  }

  /** Bit `bit` of line `line` of a glyph, counted from the left. */
  predicate Lit(f: seq<byte>, ch: byte, line: nat, bit: nat)
    requires Font(f) && line < GLYPH_H && bit < GLYPH_W
  {
    f[ch * GLYPH_H + line] / Power(7 - bit) % 2 == 1
  }

  /** The color of one pixel of a cell. */
  function Dot(f: seq<byte>, c: Cell, line: nat, bit: nat): byte
    requires Font(f) && line < GLYPH_H && bit < GLYPH_W
  {
    if Lit(f, c.ch, line, bit) then Fore(c) else Back(c)
  }

  // ---- places on the screen ----

  const GRID: nat := 473600

  /** The cell, line and bit of the pixel at offset `o` of the grid. */
  function CellOf(o: nat): nat { o / 12800 * 100 + o % 800 / 8 }

  function LineOf(o: nat): (l: nat)
    ensures l < GLYPH_H
  {
    o / 800 % 16
  }

  function BitOf(o: nat): (b: nat)
    ensures b < GLYPH_W
  {
    o % 8
  }

  lemma PlaceOf(row: nat, col: nat, line: nat, bit: nat, o: nat)
    requires row < ROWS && col < COLUMNS && line < GLYPH_H && bit < GLYPH_W
    ensures o == (row * GLYPH_H + line) * WIDTH + (col * GLYPH_W + bit) <==>
            o < GRID && CellOf(o) == row * COLUMNS + col && LineOf(o) == line && BitOf(o) == bit
  {
    var p := (row * 16 + line) * 800 + (col * 8 + bit);
    assert p == row * 12800 + line * 800 + col * 8 + bit;
    assert p / 12800 == row && p % 800 == col * 8 + bit && p / 800 == row * 16 + line;
    if o < GRID && CellOf(o) == row * COLUMNS + col {
      assert o / 12800 == row && o % 800 / 8 == col;
      assert o / 800 / 16 == o / 12800;
      assert o % 800 % 8 == o % 8;
    }
  }

  lemma CellInside(o: nat)
    requires o < GRID
    ensures CellOf(o) < CELLS
  {
  }

  /** One text row up is one grid row of pixels down in memory. */
  lemma RowBelow(o: nat)
    ensures CellOf(o + 12800) == CellOf(o) + 100 && LineOf(o + 12800) == LineOf(o) && BitOf(o + 12800) == BitOf(o)
  {
    assert (o + 12800) / 12800 == o / 12800 + 1;
    Periodic(o);
  }

  lemma Periodic(o: nat)
    ensures (o + 12800) % 800 == o % 800
    ensures (o + 12800) / 800 % 16 == o / 800 % 16
    ensures (o + 12800) % 8 == o % 8
  {
    assert (o + 12800) / 800 == o / 800 + 16;
  }

  /** The pixel at `o` shows what its shadow cell says. */
  predicate Shows(f: seq<byte>, cells: seq<Cell>, v: seq<byte>, o: nat)
    requires Font(f) && |cells| == CELLS && |v| == MEMORY && o < GRID
  {
    CellInside(o);
    v[o] == Dot(f, cells[CellOf(o)], LineOf(o), BitOf(o))
  }

  /** The two lowest pixel lines of the cursor's cell. */
  predicate InStrip(idx: nat, o: nat) {
    CellOf(o) == idx && LineOf(o) >= GLYPH_H - 2
  }

  /** Everywhere outside the cursor strip the grid shows the shadow cells. */
  ghost predicate Agrees(f: seq<byte>, cells: seq<Cell>, v: seq<byte>, drawn: bool, idx: nat) {
    && Font(f) && |cells| == CELLS && |v| == MEMORY
    && forall o :: 0 <= o < GRID && !(drawn && InStrip(idx, o)) ==> Shows(f, cells, v, o)
  }

  /** The glyph of the space character has no pixel lit. */
  predicate BlankSpace(f: seq<byte>)
    requires Font(f)
  {
    forall k :: 32 * GLYPH_H <= k < 33 * GLYPH_H ==> f[k] == 0
  }

  lemma SpaceDot(f: seq<byte>, attr: byte, line: nat, bit: nat)
    requires Font(f) && BlankSpace(f) && line < GLYPH_H && bit < GLYPH_W
    ensures Dot(f, Cell(32, attr), line, bit) == attr / 16
  {
    assert f[32 * GLYPH_H + line] == 0;
    assert 0 / Power(7 - bit) == 0;
  }

  /** `v'` is `v` with cell `idx` redrawn as `c`. */
  ghost predicate Redrawn(f: seq<byte>, v: seq<byte>, v': seq<byte>, idx: nat, c: Cell) {
    && Font(f) && |v| == |v'| == MEMORY
    && forall o :: 0 <= o < MEMORY ==>
         v'[o] == if o < GRID && CellOf(o) == idx then Dot(f, c, LineOf(o), BitOf(o)) else v[o]
  }

  // ---- what each step does to the agreement ----

  lemma RedrawAgrees(f: seq<byte>, cells: seq<Cell>, v: seq<byte>, v': seq<byte>, drawn: bool, cur: nat, idx: nat,
                     c: Cell)
    requires Agrees(f, cells, v, drawn, cur) && idx < CELLS && Redrawn(f, v, v', idx, c)
    ensures Agrees(f, cells[idx := c], v', drawn, cur)
  {
    var cells' := cells[idx := c];
    forall o | 0 <= o < GRID && !(drawn && InStrip(cur, o)) ensures Shows(f, cells', v', o) {
      CellInside(o);
      assert Shows(f, cells, v, o);
    }
    assert |cells'| == CELLS;
  }

  /** Redrawing the cursor's own cell removes the strip. */
  lemma HideAgrees(f: seq<byte>, cells: seq<Cell>, v: seq<byte>, v': seq<byte>, cur: nat)
    requires Agrees(f, cells, v, true, cur) && cur < CELLS && Redrawn(f, v, v', cur, cells[cur])
    ensures Agrees(f, cells, v', false, cur)
  {
    forall o | 0 <= o < GRID ensures Shows(f, cells, v', o) {
      CellInside(o);
      if CellOf(o) != cur { assert Shows(f, cells, v, o); }
    }
  }

  /** The color of the cursor on a cell: its foreground, unless that would be
      invisible. */
  function Ink(c: Cell): byte {
    if Fore(c) == Back(c) then 7 else Fore(c)
  }

  /** `v'` is `v` with the strip of cell `idx` drawn, down to bit `bit` of line
      `line`. */
  ghost predicate Stripped(v: seq<byte>, v': seq<byte>, idx: nat, ink: byte, line: nat, bit: nat) {
    && |v| == |v'| == MEMORY
    && forall o :: 0 <= o < MEMORY ==>
         v'[o] == if o < GRID && InStrip(idx, o) && (LineOf(o) < line || (LineOf(o) == line && BitOf(o) < bit))
           then ink else v[o]
  }

  lemma StripDot(v: seq<byte>, w: seq<byte>, w': seq<byte>, row: nat, col: nat, ink: byte, line: nat, bit: nat)
    requires row < ROWS && col < COLUMNS && GLYPH_H - 2 <= line < GLYPH_H && bit < GLYPH_W
    requires Stripped(v, w, row * COLUMNS + col, ink, line, bit) && |w'| == MEMORY
    requires forall o :: 0 <= o < MEMORY ==>
               w'[o] == if o == (row * GLYPH_H + line) * WIDTH + (col * GLYPH_W + bit) then ink else w[o]
    ensures Stripped(v, w', row * COLUMNS + col, ink, line, bit + 1)
    ensures bit + 1 == GLYPH_W ==> Stripped(v, w', row * COLUMNS + col, ink, line + 1, 0)
  {
    hide CellOf, LineOf, BitOf;
    var idx := row * COLUMNS + col;
    forall o | 0 <= o < MEMORY
      ensures w'[o] == if o < GRID && InStrip(idx, o) && (LineOf(o) < line || (LineOf(o) == line && BitOf(o) < bit + 1))
                       then ink else v[o]
    {
      PlaceOf(row, col, line, bit, o);
    }
  }

  lemma StripStart(v: seq<byte>, idx: nat, ink: byte)
    requires |v| == MEMORY
    ensures Stripped(v, v, idx, ink, GLYPH_H - 2, 0)
  {
  }

  /** The cursor strip shows on the cell `idx`. */
  ghost predicate CursorSeen(cells: seq<Cell>, v: seq<byte>, idx: nat) {
    idx < |cells| && |v| == MEMORY && forall o :: 0 <= o < GRID && InStrip(idx, o) ==> v[o] == Ink(cells[idx])
  }

  lemma StripAgrees(f: seq<byte>, cells: seq<Cell>, v: seq<byte>, v': seq<byte>, cur: nat)
    requires Agrees(f, cells, v, false, cur) && cur < CELLS && Stripped(v, v', cur, Ink(cells[cur]), GLYPH_H, 0)
    ensures Agrees(f, cells, v', true, cur) && CursorSeen(cells, v', cur)
  {
    hide CellOf, BitOf, Dot;
    forall o | 0 <= o < GRID && !InStrip(cur, o) ensures Shows(f, cells, v', o) {
      assert Shows(f, cells, v, o);
    }
  }

  /** The shadow grid after scrolling by one row. */
  function Shifted(cells: seq<Cell>, blank: Cell): (r: seq<Cell>)
    requires |cells| == CELLS
    ensures |r| == CELLS
    ensures forall i :: 0 <= i < CELLS ==> r[i] == if i < CELLS - COLUMNS then cells[i + COLUMNS] else blank
  {
    seq(CELLS, i requires 0 <= i < CELLS => if i < CELLS - COLUMNS then cells[i + COLUMNS] else blank)
  }

  lemma ScrollAgrees(f: seq<byte>, cells: seq<Cell>, v: seq<byte>, v1: seq<byte>, v2: seq<byte>, attr: byte, cur: nat,
                     cur': nat)
    requires Agrees(f, cells, v, false, cur) && BlankSpace(f) && |v1| == |v2| == MEMORY
    requires Moved(v, v1, 0, 12800, TOTAL - 12800)
    requires forall o :: 0 <= o < MEMORY ==>
               v2[o] == if o < TOTAL && 576 <= o / WIDTH < 592 then attr / 16 else v1[o]
    ensures Agrees(f, Shifted(cells, Cell(32, attr)), v2, false, cur')
  {
    hide Dot, CellOf, LineOf, BitOf;
    var cells' := Shifted(cells, Cell(32, attr));
    forall o | 0 <= o < GRID ensures Shows(f, cells', v2, o) {
      CellInside(o);
      if o < 460800 {
        RowBelow(o);
        CellsAbove(o);
        assert Shows(f, cells, v, o + 12800);
        assert v1[o] == Source(v, 0, 12800, TOTAL - 12800, o);
      } else {
        CellsAbove(o);
        SpaceDot(f, attr, LineOf(o), BitOf(o));
      }
    }
  }

  /** The offsets above the last text row are those of its earlier cells. */
  lemma CellsAbove(o: nat)
    requires o < GRID
    ensures o < 460800 <==> CellOf(o) < CELLS - COLUMNS
    ensures o < 460800 <==> o / WIDTH < 576
    ensures o / WIDTH < 592
  {
  }

  function Blanks(attr: byte): (r: seq<Cell>)
    ensures |r| == CELLS && forall i :: 0 <= i < CELLS ==> r[i] == Cell(32, attr)
  {
    seq(CELLS, _ => Cell(32, attr))
  }

  lemma {:induction false} ClearAgrees(f: seq<byte>, v: seq<byte>, attr: byte, cur: nat)
    requires Font(f) && BlankSpace(f) && |v| == MEMORY && forall o :: 0 <= o < TOTAL ==> v[o] == attr / 16
    ensures Agrees(f, Blanks(attr), v, false, cur)
  {
    hide Dot, CellOf, LineOf, BitOf;
    forall o | 0 <= o < GRID ensures Shows(f, Blanks(attr), v, o) {
      CellInside(o);
      SpaceDot(f, attr, LineOf(o), BitOf(o));
    }
  }

  lemma SomeBit(x: byte) returns (bit: nat)
    requires x > 0
    ensures bit < GLYPH_W && x / Power(7 - bit) % 2 == 1
  {
    var y, k: nat := x, 0;
    assert Power(0) == 1;
    while y % 2 == 0
      invariant 0 < y && k <= 7 && y == x / Power(k) && y < Power(8 - k)
      decreases y
    {
      Halve(x, k);
      y := y / 2;
      k := k + 1;
    }
    bit := 7 - k;
  }

  lemma {:induction false} Halve(x: nat, k: nat)
    ensures x / Power(k) / 2 == x / Power(k + 1)
  {
    var p := Power(k);
    var q, r := x / p, x % p;
    assert x == p * q + r;
    assert x == 2 * p * (q / 2) + (p * (q % 2) + r);
    assert 0 <= p * (q % 2) + r < 2 * p by { if q % 2 == 0 { } else { } }
    DivIs(x, 2 * p, q / 2, p * (q % 2) + r);
  }

  /** Clearing fills the screen with the background instead of drawing spaces;
      with two different colors that agrees exactly when the space is blank. */
  lemma ClearNeedsBlank(f: seq<byte>, v: seq<byte>, attr: byte)
    requires Font(f) && |v| == MEMORY && forall o :: 0 <= o < TOTAL ==> v[o] == attr / 16
    requires attr % 16 != attr / 16
    ensures Agrees(f, Blanks(attr), v, false, 0) <==> BlankSpace(f)
  {
    if BlankSpace(f) {
      ClearAgrees(f, v, attr, 0);
    } else {
      var k :| 32 * GLYPH_H <= k < 33 * GLYPH_H && f[k] != 0;
      var line := k - 32 * GLYPH_H;
      var bit := SomeBit(f[k]);
      var o := (0 * GLYPH_H + line) * WIDTH + (0 * GLYPH_W + bit);
      PlaceOf(0, 0, line, bit, o);
      assert f[32 * GLYPH_H + line] == f[k];
      assert !Shows(f, Blanks(attr), v, o);
    }
  }

  // ---- the text screen without pixels ----

  datatype Screen = Screen(cells: seq<Cell>, row: nat, col: nat, attr: byte)

  ghost predicate OnScreen(s: Screen) {
    |s.cells| == CELLS && s.row < ROWS && s.col < COLUMNS
  }

  function Index(s: Screen): nat {
    s.row * COLUMNS + s.col
  }

  /** Past the right edge the cursor goes to the next row; past the last row
      the screen scrolls. */
  function Wrapped(s: Screen): (r: Screen)
    requires |s.cells| == CELLS && s.row <= ROWS
    ensures |r.cells| == CELLS && (s.row < ROWS ==> r.row < ROWS) && r.col < COLUMNS && r.attr == s.attr
  {
    var t := if s.col >= COLUMNS then s.(col := 0, row := s.row + 1) else s;
    if t.row < ROWS then t else t.(cells := Shifted(t.cells, Cell(32, t.attr)), row := ROWS - 1)
  }

  const NEWLINE: byte := 10
  const RETURN: byte := 13
  const BACKSPACE: byte := 8
  const TAB: byte := 9

  /** Where the cursor goes for a backspace. */
  function SteppedBack(s: Screen): Screen {
    if s.col > 0 then s.(col := s.col - 1)
    else if s.row > 0 then s.(row := s.row - 1, col := COLUMNS - 1)
    else s
  }

  function Placed(s: Screen, c: byte): Screen
    requires OnScreen(s)
  {
    s.(cells := s.cells[Index(s) := Cell(c, s.attr)])
  }

  /** One character written to the screen. */
  function Typed(s: Screen, c: byte): (r: Screen)
    requires OnScreen(s)
    ensures OnScreen(r) && r.attr == s.attr
  {
    if c == NEWLINE then Wrapped(s.(col := 0, row := s.row + 1))
    else if c == RETURN then s.(col := 0)
    else if c == BACKSPACE then Placed(SteppedBack(s), 32)
    else if c == TAB then Wrapped(s.(col := (s.col + 8) / 8 * 8))
    else Wrapped(Placed(s, c).(col := s.col + 1))
  }

  predicate Printable(c: byte) {
    c != NEWLINE && c != RETURN && c != BACKSPACE && c != TAB
  }

  function TypedAll(s: Screen, cs: seq<byte>): (r: Screen)
    requires OnScreen(s)
    ensures OnScreen(r) && r.attr == s.attr
    decreases |cs|
  {
    if cs == [] then s else Typed(TypedAll(s, cs[..|cs| - 1]), cs[|cs| - 1])
  }

  /** A character followed by a backspace blanks its cell and leaves the cursor
      where it was, except in the last cell of the screen, where the first of
      the two scrolls. */
  lemma TypeThenErase(s: Screen, c: byte)
    requires OnScreen(s) && Printable(c) && Index(s) < CELLS - 1
    ensures Typed(Typed(s, c), BACKSPACE) == Placed(s, 32)
  {
    var t := Typed(s, c);
    assert Index(SteppedBack(t)) == Index(s);
    assert t.cells[Index(s) := Cell(32, s.attr)] == s.cells[Index(s) := Cell(32, s.attr)];
  }

  /** Printable text fills consecutive cells, over line ends, while it stays on
      the screen; nothing else changes. */
  lemma {:induction false} TextFills(s: Screen, cs: seq<byte>)
    requires OnScreen(s) && Index(s) + |cs| < CELLS && forall i :: 0 <= i < |cs| ==> Printable(cs[i])
    ensures var r := TypedAll(s, cs);
            && Index(r) == Index(s) + |cs|
            && forall k :: 0 <= k < CELLS ==>
                 r.cells[k] == if Index(s) <= k < Index(s) + |cs| then Cell(cs[k - Index(s)], s.attr) else s.cells[k]
    decreases |cs|
  {
    if cs != [] {
      TextFills(s, cs[..|cs| - 1]);
    }
  }

  predicate AllPrintable(cs: seq<byte>) { forall i :: 0 <= i < |cs| ==> Printable(cs[i]) }

  lemma {:induction false} TypedAppend(s: Screen, a: seq<byte>, b: seq<byte>)
    requires OnScreen(s)
    ensures TypedAll(s, a + b) == TypedAll(TypedAll(s, a), b)
    decreases |b|
  {
    hide Typed;
    if b == [] {
      assert a + b == a;
    } else {
      var b' := b[..|b| - 1];
      assert (a + b)[..|a + b| - 1] == a + b';
      TypedAppend(s, a, b');
    }
  }

  /** Text `a`, then a character that moves the cursor to cell `q`, then text `b`. */
  ghost predicate TwoTexts(s: Screen, r: Screen, a: seq<byte>, q: nat, b: seq<byte>) {
    && OnScreen(s) && OnScreen(r) && r.attr == s.attr && Index(r) == q + |b|
    && forall k :: 0 <= k < CELLS ==>
         r.cells[k] == if q <= k < q + |b| then Cell(b[k - q], s.attr)
                       else if Index(s) <= k < Index(s) + |a| then Cell(a[k - Index(s)], s.attr)
                       else s.cells[k]
  }

  lemma TextAround(s: Screen, a: seq<byte>, c: byte, q: nat, b: seq<byte>)
    requires OnScreen(s) && Index(s) + |a| < CELLS && AllPrintable(a) && AllPrintable(b)
    requires var t := TypedAll(s, a); Typed(t, c).cells == t.cells && Index(Typed(t, c)) == q
    requires q + |b| < CELLS
    ensures TwoTexts(s, TypedAll(s, a + [c] + b), a, q, b)
  {
    hide Typed, TypedAll, Wrote, TwoTexts, AllPrintable;
    var t := TypedAll(s, a);
    TextWrote(s, a);
    TypedAppend(s, a, [c]);
    TypedOne(t, c);
    TypedAppend(s, a + [c], b);
    TextWrote(Typed(t, c), b);
    Join(s, t, Typed(t, c), TypedAll(Typed(t, c), b), a, q, b);
  }

  ghost predicate Wrote(s: Screen, r: Screen, a: seq<byte>) {
    && OnScreen(s) && OnScreen(r) && r.attr == s.attr && Index(r) == Index(s) + |a|
    && forall k :: 0 <= k < CELLS ==>
         r.cells[k] == if Index(s) <= k < Index(s) + |a| then Cell(a[k - Index(s)], s.attr) else s.cells[k]
  }

  lemma TextWrote(s: Screen, a: seq<byte>)
    requires OnScreen(s) && Index(s) + |a| < CELLS && AllPrintable(a)
    ensures Wrote(s, TypedAll(s, a), a)
  {
    TextFills(s, a);
  }

  lemma TypedOne(s: Screen, c: byte)
    requires OnScreen(s)
    ensures TypedAll(s, [c]) == Typed(s, c)
  {
    assert TypedAll(s, [c][..0]) == s;
  }

  lemma Join(s: Screen, t: Screen, u: Screen, r: Screen, a: seq<byte>, q: nat, b: seq<byte>)
    requires Wrote(s, t, a) && Wrote(u, r, b) && u.cells == t.cells && u.attr == t.attr && Index(u) == q
    ensures TwoTexts(s, r, a, q, b)
  {
    hide Index;
  }

  /** Where the characters that only move the cursor take it. */
  lemma Moves(s: Screen)
    requires OnScreen(s)
    ensures s.row + 1 < ROWS ==> Typed(s, NEWLINE) == s.(row := s.row + 1, col := 0)
    ensures Typed(s, RETURN) == s.(col := 0)
    ensures s.col < 96 ==> Typed(s, TAB) == s.(col := (s.col + 8) / 8 * 8)
    ensures s.col >= 96 && s.row + 1 < ROWS ==> Typed(s, TAB) == s.(row := s.row + 1, col := 0)
  {
  }

  /** A newline goes to the start of the next row, whatever the column was. */
  lemma NewlineText(s: Screen, a: seq<byte>, b: seq<byte>, row: nat)
    requires OnScreen(s) && AllPrintable(a) && AllPrintable(b)
    requires row == (Index(s) + |a|) / COLUMNS + 1 && row * COLUMNS + |b| < CELLS
    ensures var r := TypedAll(s, a + [NEWLINE] + b);
            TwoTexts(s, r, a, row * COLUMNS, b) && (|b| < COLUMNS ==> r.row == row && r.col == |b|)
  {
    hide Typed, TypedAll, Wrote, TwoTexts, AllPrintable, Index;
    RowBelowIndex(Index(s) + |a|, row);
    TextWrote(s, a);
    var t := TypedAll(s, a);
    WroteIndex(s, t, a);
    RowOf(t);
    Moves(t);
    assert Typed(t, NEWLINE).row == row;
    StartOfRow(Typed(t, NEWLINE));
    TextAround(s, a, NEWLINE, row * COLUMNS, b);
    TextsEnd(s, TypedAll(s, a + [NEWLINE] + b), a, row, b);
  }

  lemma RowBelowIndex(i: nat, row: nat)
    requires row == i / COLUMNS + 1 && row * COLUMNS < CELLS
    ensures i < CELLS && row < ROWS
  {
  }

  lemma StartOfRow(s: Screen)
    requires s.col == 0
    ensures Index(s) == s.row * COLUMNS
  {
  }

  lemma WroteIndex(s: Screen, r: Screen, a: seq<byte>)
    requires Wrote(s, r, a)
    ensures OnScreen(s) && OnScreen(r) && Index(r) == Index(s) + |a|
  {
  }

  lemma TextsEnd(s: Screen, r: Screen, a: seq<byte>, row: nat, b: seq<byte>)
    requires TwoTexts(s, r, a, row * COLUMNS, b)
    ensures |b| < COLUMNS ==> r.row == row && r.col == |b|
  {
  }

  lemma RowOf(s: Screen)
    requires OnScreen(s)
    ensures Index(s) / COLUMNS == s.row && Index(s) % COLUMNS == s.col
  {
  }

  /** A carriage return goes back to the start of the row, over what is there. */
  lemma ReturnText(s: Screen, a: seq<byte>, b: seq<byte>)
    requires OnScreen(s) && AllPrintable(a) && AllPrintable(b)
    requires Index(s) + |a| < CELLS && (Index(s) + |a|) / COLUMNS * COLUMNS + |b| < CELLS
    ensures TwoTexts(s, TypedAll(s, a + [RETURN] + b), a, (Index(s) + |a|) / COLUMNS * COLUMNS, b)
  {
    hide Typed, TypedAll, Wrote, TwoTexts, AllPrintable;
    TextWrote(s, a);
    var t := TypedAll(s, a);
    WroteIndex(s, t, a);
    RowOf(t);
    Moves(t);
    TextAround(s, a, RETURN, t.row * COLUMNS, b);
  }

  /** Cells whose column is a multiple of eight. */
  predicate TabStop(k: nat) { k % COLUMNS % 8 == 0 }

  /** A tab goes to the first tab stop beyond the cursor, over the end of the row
      if there is no other, and blanks nothing on the way. */
  lemma TabText(s: Screen, a: seq<byte>, b: seq<byte>, q: nat)
    requires OnScreen(s) && AllPrintable(a) && AllPrintable(b) && q + |b| < CELLS
    requires Index(s) + |a| < q && TabStop(q) && forall k :: Index(s) + |a| < k < q ==> !TabStop(k)
    ensures TwoTexts(s, TypedAll(s, a + [TAB] + b), a, q, b)
  {
    hide Typed, TypedAll, Wrote, TwoTexts, AllPrintable, TabStop;
    TextWrote(s, a);
    var t := TypedAll(s, a);
    WroteIndex(s, t, a);
    NextStop(t.row, t.col, q);
    Moves(t);
    TextAround(s, a, TAB, q, b);
  }

  lemma InRow(row: nat, n: nat)
    requires n < COLUMNS
    ensures (row * COLUMNS + n) % COLUMNS == n
  {
  }

  lemma NextStop(row: nat, col: nat, q: nat)
    requires col < COLUMNS && row * COLUMNS + col < q && TabStop(q)
    requires forall k :: row * COLUMNS + col < k < q ==> !TabStop(k)
    ensures q == row * COLUMNS + if col < 96 then (col + 8) / 8 * 8 else COLUMNS
  {
    var n := if col < 96 then (col + 8) / 8 * 8 else COLUMNS;
    assert TabStop(row * COLUMNS + n) by {
      if n < COLUMNS { InRow(row, n); } else { InRow(row + 1, 0); }
    }
    if q < row * COLUMNS + n {
      InRow(row, q - row * COLUMNS);
    }
  }

  /** At the bottom a newline, a tab from the last columns or a character in the
      last cell makes every row show what the one below it showed and leaves an
      empty one. */
  lemma BottomScrolls(s: Screen, c: byte)
    requires OnScreen(s) && s.row == ROWS - 1
    requires c == NEWLINE || (c == TAB && s.col >= 96) || (Printable(c) && s.col == COLUMNS - 1)
    ensures var r := Typed(s, c);
            && r.row == ROWS - 1 && r.col == 0
            && forall k :: 0 <= k < CELLS ==>
                 r.cells[k] == if k >= CELLS - COLUMNS then Cell(32, s.attr)
                               else if Printable(c) && k + COLUMNS == CELLS - 1 then Cell(c, s.attr)
                               else s.cells[k + COLUMNS]
  {
  }

  /** At the very start a backspace blanks the cell there and stays. */
  lemma EraseAtStart(s: Screen)
    requires OnScreen(s) && Index(s) == 0
    ensures Typed(s, BACKSPACE) == s.(cells := [Cell(32, s.attr)] + s.cells[1..])
  {
  }

  // ---- what a cell looks like ----

  /** The eight bits of a glyph's line, written from left to right, are the binary
      digits of its byte. */
  function Numeral(bits: seq<bool>): nat {
    if bits == [] then 0 else 2 * Numeral(bits[..|bits| - 1]) + if bits[|bits| - 1] then 1 else 0
  }

  function LineBits(f: seq<byte>, ch: byte, line: nat, n: nat): (bits: seq<bool>)
    requires Font(f) && line < GLYPH_H && n <= GLYPH_W
    ensures |bits| == n && forall i :: 0 <= i < n ==> bits[i] == Lit(f, ch, line, i)
  {
    seq(n, i requires 0 <= i < n => Lit(f, ch, line, i))
  }

  lemma {:induction false} GlyphLine(f: seq<byte>, ch: byte, line: nat)
    requires Font(f) && line < GLYPH_H
    ensures Numeral(LineBits(f, ch, line, GLYPH_W)) == f[ch * GLYPH_H + line]
  {
    GlyphPart(f, ch, line, GLYPH_W);
    assert Power(0) == 1;
  }

  lemma {:induction false} GlyphPart(f: seq<byte>, ch: byte, line: nat, n: nat)
    requires Font(f) && line < GLYPH_H && n <= GLYPH_W
    ensures Numeral(LineBits(f, ch, line, n)) == f[ch * GLYPH_H + line] / Power(8 - n)
  {
    var x: nat := f[ch * GLYPH_H + line];
    if n == 0 {
      assert Power(8) == 256;
    } else {
      GlyphPart(f, ch, line, n - 1);
      Halve(x, 8 - n);
      var bits := LineBits(f, ch, line, n);
      assert bits[..n - 1] == LineBits(f, ch, line, n - 1);
      assert bits[n - 1] == (x / Power(8 - n) % 2 == 1);
    }
  }

  /** Both colors of a cell can be read back from its attribute. */
  lemma ColorBack(ch: byte, fore: byte, back: byte)
    requires fore < 16 && back < 16
    ensures Fore(Cell(ch, Color(fore, back))) == fore && Back(Cell(ch, Color(fore, back))) == back
  {
    var f := FewBits(fore);
    var b := FewBits(back);
    NibblesJoined(f, b);
    NibblesOf(f | (b << 4));
  }

  lemma FewBits(x: byte) returns (b: bv8)
    requires x < 16
    ensures b == x as bv8 && b < 16 && b as int == x
  {
    b := x as bv8;
  }

  lemma NibblesJoined(f: bv8, b: bv8)
    requires f < 16 && b < 16
    ensures (f | (b << 4)) & 15 == f && (f | (b << 4)) >> 4 == b
  {
  }

  lemma NibblesOf(x: bv8)
    ensures x as int % 16 == (x & 15) as int && x as int / 16 == (x >> 4) as int
  {
  }

  /** The cursor of a cell takes the two lowest of the sixteen pixel lines of the
      cell, all eight pixels of each. */
  lemma StripPlace(row: nat, col: nat, x: nat, y: nat)
    requires row < ROWS && col < COLUMNS && x < WIDTH && y < ROWS * GLYPH_H
    ensures InStrip(row * COLUMNS + col, y * WIDTH + x) <==>
            col * 8 <= x < col * 8 + 8 && row * 16 + 14 <= y < row * 16 + 16
  {
    var o := y * WIDTH + x;
    assert o / 800 == y && o % 800 == x;
    assert o / 12800 == y / 16;
  }

  /** The cursor has the color of the text and can be told from the background,
      except that it is light grey where the two are the same: on light grey it
      cannot be seen. */
  lemma InkSeen(c: Cell)
    ensures Fore(c) != Back(c) ==> Ink(c) == Fore(c)
    ensures Ink(c) == Back(c) <==> Fore(c) == Back(c) == 7
  {
  }

  // ---- the console ----

  class Terminal {
    const fb: Framebuffer
    const font: seq<byte>
    const cells: array<Cell>
    var cursorRow: nat
    var cursorCol: nat
    var currentColor: byte
    var cursorDrawn: bool

    ghost predicate Sized()
      reads this, fb
    {
      && fb.Valid() && cells.Length == CELLS && Font(font) && BlankSpace(font)
    }

    ghost predicate Valid()
      reads this, fb, fb.vram, cells
    {
      && Sized() && cursorRow < ROWS && cursorCol < COLUMNS
      && Agrees(font, cells[..], fb.vram[..], cursorDrawn, cursorRow * COLUMNS + cursorCol)
    }

    ghost function Shown(): Screen
      reads this, cells
    {
      Screen(cells[..], cursorRow, cursorCol, currentColor)
    }

    constructor (fb: Framebuffer, font: seq<byte>, color: byte)
      requires fb.Valid() && Font(font) && BlankSpace(font)
      modifies fb, fb.vram
      ensures Valid() && this.fb == fb && fresh(cells) && cursorDrawn
      ensures Shown() == Screen(Blanks(color), 0, 0, color)
    {
      this.fb := fb;
      this.font := font;
      cells := new Cell[CELLS](_ => Cell(32, 0));
      cursorRow := 0;
      cursorCol := 0;
      currentColor := color;
      cursorDrawn := false;
      new;
      Clear();
    }

    method Clear()
      requires Sized()
      modifies this, fb, fb.vram, cells
      ensures Valid() && cursorDrawn && Shown() == Screen(Blanks(currentColor), 0, 0, currentColor)
      ensures currentColor == old(currentColor)
      ensures CursorSeen(cells[..], fb.vram[..], cursorRow * COLUMNS + cursorCol)
    {
      hide CursorSeen, Agrees, BlankSpace;
      fb.Clear(currentColor / 16);
      var blank := Cell(32, currentColor);
      forall i | 0 <= i < CELLS { cells[i] := blank; }
      assert cells[..] == Blanks(currentColor);
      cursorRow := 0;
      cursorCol := 0;
      cursorDrawn := false;
      ClearAgrees(font, fb.vram[..], currentColor, 0);
      DrawCursor();
    }

    method SetColor(fore: byte, back: byte)
      requires Valid()
      modifies this`currentColor
      ensures Valid() && Shown() == old(Shown()).(attr := Color(fore, back))
    {
      currentColor := (fore as bv8 | (back as bv8 << 4)) as int;
    }

    /** Draws a cell unconditionally. */
    method RenderCell(row: nat, col: nat, cell: Cell)
      requires Sized() && row < ROWS && col < COLUMNS
      modifies fb, fb.vram
      ensures Sized() && Redrawn(font, old(fb.vram[..]), fb.vram[..], row * COLUMNS + col, cell)
    {
      ghost var v := fb.vram[..];
      var x0, y0 := col * GLYPH_W, row * GLYPH_H;
      var line := 0;
      while line < GLYPH_H
        invariant 0 <= line <= GLYPH_H && Sized()
        invariant Partly(font, v, fb.vram[..], row * COLUMNS + col, cell, line, 0)
      {
        var bits := font[cell.ch * GLYPH_H + line];
        var bit := 0;
        while bit < GLYPH_W
          invariant 0 <= bit <= GLYPH_W && Sized()
          invariant Partly(font, v, fb.vram[..], row * COLUMNS + col, cell, line, bit)
        {
          ghost var w := fb.vram[..];
          var p := Mask(7 - bit);
          var dot := if bits / p % 2 == 1 then cell.attr % 16 else cell.attr / 16;
          fb.PutPixel(x0 + bit, y0 + line, dot);
          OneDot(font, v, w, fb.vram[..], row, col, cell, line, bit, dot);
          bit := bit + 1;
        }
        NextLine(font, v, fb.vram[..], row * COLUMNS + col, cell, line);
        line := line + 1;
      }
      AllLines(font, v, fb.vram[..], row * COLUMNS + col, cell);
    }

    /** Redraws a cell unless it already holds this value. */
    method BlitCell(row: nat, col: nat, cell: Cell)
      requires Valid() && row < ROWS && col < COLUMNS
      modifies fb, fb.vram, cells
      ensures Valid() && Shown() == old(Shown()).(cells := old(Shown()).cells[row * COLUMNS + col := cell])
    {
      hide Agrees, BlankSpace, Redrawn;
      var idx := row * COLUMNS + col;
      if cells[idx] == cell {
        assert cells[..] == cells[..][idx := cell];
        return;
      }
      ghost var before, v := cells[..], fb.vram[..];
      cells[idx] := cell;
      RenderCell(row, col, cell);
      RedrawAgrees(font, before, v, fb.vram[..], cursorDrawn, cursorRow * COLUMNS + cursorCol, idx, cell);
      assert cells[..] == before[idx := cell];
    }

    method DrawCursor()
      requires Valid() && !cursorDrawn
      modifies this`cursorDrawn, fb, fb.vram
      ensures Valid() && cursorDrawn && Shown() == old(Shown())
      ensures CursorSeen(cells[..], fb.vram[..], cursorRow * COLUMNS + cursorCol)
    {
      hide Agrees, BlankSpace, CellOf, LineOf, BitOf, Stripped, CursorSeen;
      ghost var v, idx := fb.vram[..], cursorRow * COLUMNS + cursorCol;
      var cell := cells[cursorRow * COLUMNS + cursorCol];
      var fg := cell.attr % 16;
      if fg == cell.attr / 16 { fg := 7; }
      var x0, y0 := cursorCol * GLYPH_W, cursorRow * GLYPH_H;
      var line := GLYPH_H - 2;
      StripStart(v, idx, fg);
      while line < GLYPH_H
        invariant GLYPH_H - 2 <= line <= GLYPH_H && Sized()
        invariant Stripped(v, fb.vram[..], idx, fg, line, 0)
      {
        var bit := 0;
        while bit < GLYPH_W
          invariant 0 <= bit <= GLYPH_W && Sized()
          invariant Stripped(v, fb.vram[..], idx, fg, line, bit)
          invariant bit == GLYPH_W ==> Stripped(v, fb.vram[..], idx, fg, line + 1, 0)
        {
          ghost var w := fb.vram[..];
          fb.PutPixel(x0 + bit, y0 + line, fg);
          StripDot(v, w, fb.vram[..], cursorRow, cursorCol, fg, line, bit);
          bit := bit + 1;
        }
        line := line + 1;
      }
      cursorDrawn := true;
      StripAgrees(font, cells[..], v, fb.vram[..], idx);
    }

    method HideCursor()
      requires Valid()
      modifies this`cursorDrawn, fb, fb.vram
      ensures Valid() && !cursorDrawn && Shown() == old(Shown())
    {
      hide Agrees, BlankSpace, Redrawn;
      if !cursorDrawn { return; }
      ghost var v, idx := fb.vram[..], cursorRow * COLUMNS + cursorCol;
      RenderCell(cursorRow, cursorCol, cells[cursorRow * COLUMNS + cursorCol]);
      cursorDrawn := false;
      HideAgrees(font, cells[..], v, fb.vram[..], idx);
    }

    /** The state between two calls, except that the cursor may stand one row
        below the screen. */
    ghost predicate Pending()
      reads this, fb, fb.vram, cells
    {
      && Sized() && !cursorDrawn && cursorRow <= ROWS && cursorCol < COLUMNS
      && Agrees(font, cells[..], fb.vram[..], false, 0)
    }

    method Scroll()
      requires Pending()
      modifies this`cursorRow, fb, fb.vram, fb.bounce, cells
      ensures Valid() && !cursorDrawn && Shown() == Wrapped(old(Shown()))
    {
      hide Agrees, BlankSpace, Moved;
      if cursorRow < ROWS {
        AnyCursor(font, cells[..], fb.vram[..], cursorRow * COLUMNS + cursorCol);
        return;
      }
      ghost var v, before := fb.vram[..], cells[..];
      fb.Copy(0, GLYPH_H * WIDTH, WIDTH * HEIGHT - GLYPH_H * WIDTH);
      ghost var v1 := fb.vram[..];
      forall i | 0 <= i < CELLS - COLUMNS { cells[i] := cells[i + COLUMNS]; }
      var blank := Cell(32, currentColor);
      forall i | 0 <= i < COLUMNS { cells[CELLS - COLUMNS + i] := blank; }
      forall i | 0 <= i < CELLS ensures cells[i] == Shifted(before, blank)[i] {
        if i >= CELLS - COLUMNS { assert cells[CELLS - COLUMNS + (i - (CELLS - COLUMNS))] == blank; }
      }
      assert cells[..] == Shifted(before, blank);
      fb.FillRect(0, (ROWS - 1) * GLYPH_H, WIDTH, GLYPH_H, currentColor / 16);
      cursorRow := ROWS - 1;
      ScrollAgrees(font, before, v, v1, fb.vram[..], currentColor, 0, cursorRow * COLUMNS + cursorCol);
    }

    /** Writes one character. */
    method PutChar(c: byte)
      requires Valid()
      modifies this, fb, fb.vram, fb.bounce, cells
      ensures Valid() && cursorDrawn && Shown() == Typed(old(Shown()), c)
      ensures CursorSeen(cells[..], fb.vram[..], cursorRow * COLUMNS + cursorCol)
    {
      hide CursorSeen, Agrees, BlankSpace, Typed, Wrapped;
      HideCursor();
      Emit(c);
      Scroll();
      DrawCursor();
    }

    /** Steps back one cell, over the start of a row. */
    method StepBack()
      requires Valid() && !cursorDrawn
      modifies this`cursorRow, this`cursorCol
      ensures Valid() && Shown() == SteppedBack(old(Shown()))
    {
      hide Agrees, BlankSpace;
      if cursorCol > 0 {
        cursorCol := cursorCol - 1;
      } else if cursorRow > 0 {
        cursorRow := cursorRow - 1;
        cursorCol := COLUMNS - 1;
      }
      AnyCursor(font, cells[..], fb.vram[..], cursorRow * COLUMNS + cursorCol);
    }

    /** Puts a character in its cell and advances the cursor, perhaps to the
        row below the screen. */
    method Emit(c: byte)
      requires Valid() && !cursorDrawn
      modifies this`cursorRow, this`cursorCol, fb, fb.vram, cells
      ensures Pending() && Wrapped(Shown()) == Typed(old(Shown()), c)
    {
      hide Agrees, BlankSpace, Shifted;
      if c == NEWLINE {
        cursorCol := 0;
        cursorRow := cursorRow + 1;
      } else if c == RETURN {
        cursorCol := 0;
      } else if c == BACKSPACE {
        StepBack();
        BlitCell(cursorRow, cursorCol, Cell(32, currentColor));
      } else if c == TAB {
        cursorCol := (cursorCol + 8) / 8 * 8;
      } else {
        BlitCell(cursorRow, cursorCol, Cell(c, currentColor));
        cursorCol := cursorCol + 1;
      }
      if cursorCol >= COLUMNS {
        cursorCol := 0;
        cursorRow := cursorRow + 1;
      }
      AnyCursor(font, cells[..], fb.vram[..], 0);
    }

    /** Writes a string. */
    method Write(s: seq<byte>)
      requires Valid()
      modifies this, fb, fb.vram, fb.bounce, cells
      ensures Valid() && Shown() == TypedAll(old(Shown()), s)
    {
      hide Agrees, BlankSpace, Typed;
      ghost var s0 := Shown();
      var i := 0;
      while i < |s|
        invariant 0 <= i <= |s| && Valid() && Shown() == TypedAll(s0, s[..i])
      {
        assert s[..i + 1][..i] == s[..i];
        PutChar(s[i]);
        i := i + 1;
      }
      assert s[..|s|] == s;
    }

    /** Moves the cursor, as far as the screen reaches. */
    method SetCursor(row: nat, col: nat)
      requires Valid()
      modifies this, fb, fb.vram
      ensures Valid() && cursorDrawn
      ensures Shown() == old(Shown()).(row := if row < ROWS then row else ROWS - 1,
                                       col := if col < COLUMNS then col else COLUMNS - 1)
      ensures CursorSeen(cells[..], fb.vram[..], cursorRow * COLUMNS + cursorCol)
    {
      hide CursorSeen, Agrees, BlankSpace;
      var r, c := row, col;
      if r >= ROWS { r := ROWS - 1; }
      if c >= COLUMNS { c := COLUMNS - 1; }
      HideCursor();
      cursorRow := r;
      cursorCol := c;
      AnyCursor(font, cells[..], fb.vram[..], cursorRow * COLUMNS + cursorCol);
      DrawCursor();
    }

    /** Sets one cell; places off the screen are ignored. */
    method PutCharAt(row: nat, col: nat, c: byte, fore: byte, back: byte)
      requires Valid()
      modifies fb, fb.vram, cells
      ensures Valid()
      ensures var s := old(Shown());
              Shown() == if row < ROWS && col < COLUMNS
                         then s.(cells := s.cells[row * COLUMNS + col := Cell(c, Color(fore, back))])
                         else s
    {
      if row >= ROWS || col >= COLUMNS { return; }
      BlitCell(row, col, Cell(c, Color(fore, back)));
    }
  }

  /** Without a cursor strip the agreement does not depend on the cursor. */
  lemma AnyCursor(f: seq<byte>, cells: seq<Cell>, v: seq<byte>, idx: nat)
    ensures forall cur :: Agrees(f, cells, v, false, cur) ==> Agrees(f, cells, v, false, idx)
  {
    hide Shows;
  }

  method Mask(k: nat) returns (p: nat)
    ensures p == Power(k)
  {
    p := 1;
    var i := 0;
    while i < k
      invariant 0 <= i <= k && p == Power(i)
    {
      p := 2 * p;
      i := i + 1;
    }
  }

  /** The lines before `line`, and its bits before `bit`, have been drawn. */
  ghost predicate Partly(f: seq<byte>, v: seq<byte>, w: seq<byte>, idx: nat, c: Cell, line: nat, bit: nat) {
    && Font(f) && |v| == |w| == MEMORY
    && forall o :: 0 <= o < MEMORY ==>
         w[o] == if o < GRID && CellOf(o) == idx && (LineOf(o) < line || (LineOf(o) == line && BitOf(o) < bit))
                 then Dot(f, c, LineOf(o), BitOf(o)) else v[o]
  }

  lemma OneDot(f: seq<byte>, v: seq<byte>, w: seq<byte>, w': seq<byte>, row: nat, col: nat, c: Cell, line: nat,
               bit: nat, dot: byte)
    requires row < ROWS && col < COLUMNS && line < GLYPH_H && bit < GLYPH_W
    requires Partly(f, v, w, row * COLUMNS + col, c, line, bit) && |w'| == MEMORY
    requires forall o :: 0 <= o < MEMORY ==>
               w'[o] == if o == (row * GLYPH_H + line) * WIDTH + (col * GLYPH_W + bit) then dot else w[o]
    requires dot == Dot(f, c, line, bit)
    ensures Partly(f, v, w', row * COLUMNS + col, c, line, bit + 1)
  {
    hide CellOf, LineOf, BitOf, Dot;
    forall o | 0 <= o < MEMORY
      ensures w'[o] == if o < GRID && CellOf(o) == row * COLUMNS + col &&
              (LineOf(o) < line || (LineOf(o) == line && BitOf(o) < bit + 1))
                       then Dot(f, c, LineOf(o), BitOf(o)) else v[o]
    {
      PlaceOf(row, col, line, bit, o);
    }
  }

  lemma NextLine(f: seq<byte>, v: seq<byte>, w: seq<byte>, idx: nat, c: Cell, line: nat)
    requires Partly(f, v, w, idx, c, line, GLYPH_W)
    ensures Partly(f, v, w, idx, c, line + 1, 0)
  {
    hide CellOf, LineOf, Dot;
  }

  lemma AllLines(f: seq<byte>, v: seq<byte>, w: seq<byte>, idx: nat, c: Cell)
    requires Partly(f, v, w, idx, c, GLYPH_H, 0)
    ensures Redrawn(f, v, w, idx, c)
  {
    hide CellOf, BitOf, Dot;
  }
}
