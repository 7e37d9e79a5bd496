/** The writer of src/vga_buffer.rs seen as a value: the 25 x 80 grid of
    cells, the cursor column and the colour. Every operation of the writer is
    a function here; the class in writer.dfy is proved to follow them. */
module TextGrid {
  import opened ColorCodes

  const HEIGHT: nat := 25
  const WIDTH: nat := 80
  /** The row every write goes to (`BUFFER_HEIGHT - 1`). */
  const BOTTOM: nat := HEIGHT - 1

  const NEWLINE: bv8 := 0x0A
  const SPACE: bv8 := 0x20
  /** The glyph drawn for every byte outside printable ASCII. */
  const SENTINEL: bv8 := 0xFE

  /** One cell of the text buffer: a code-page byte and its attribute byte. */
  datatype ScreenChar = ScreenChar(ascii: bv8, color: ColorCode)

  type Row = seq<ScreenChar>
  type Grid = seq<Row>

  /** A grid has the fixed shape of the hardware buffer. */
  predicate IsGrid(g: Grid) {
    |g| == HEIGHT && forall y :: 0 <= y < HEIGHT ==> |g[y]| == WIDTH
  }

  /** The state of one `Writer`: what the buffer shows, `current_column`
      and `color_code`. */
  datatype WriterState = WriterState(cells: Grid, column: nat, color: ColorCode)

  /** A row of spaces in the given colour. */
  function BlankRow(color: ColorCode): (r: Row)
    ensures |r| == WIDTH
    ensures forall x :: 0 <= x < WIDTH ==> r[x] == ScreenChar(SPACE, color)
  {
    seq(WIDTH, _ => ScreenChar(SPACE, color))
  }

  /** What `clear_line(row)` leaves: that row blank, every other row as it was. */
  function ClearRow(g: Grid, row: nat, color: ColorCode): (r: Grid)
    requires IsGrid(g) && row < HEIGHT
    ensures IsGrid(r)
    ensures r[row] == BlankRow(color)
    ensures forall y :: 0 <= y < HEIGHT && y != row ==> r[y] == g[y]
  {
    g[row := BlankRow(color)]
  }

  /** What the copy loop of `write_newline` leaves: row y - 1 holds the old
      row y for every y in [1, HEIGHT); the bottom row is not touched. */
  function ShiftUp(g: Grid): (r: Grid)
    requires IsGrid(g)
    ensures IsGrid(r)
    ensures forall y :: 0 <= y < HEIGHT - 1 ==> r[y] == g[y + 1]
    ensures r[BOTTOM] == g[BOTTOM]
  {
    g[1..] + [g[BOTTOM]]
  }

  /** `write_newline`: the copy loop, then `clear_line` on the bottom row,
      then the cursor back to column 0. */
  function Scroll(st: WriterState): (r: WriterState)
    requires IsGrid(st.cells)
    ensures IsGrid(r.cells)
    ensures forall y :: 0 <= y < HEIGHT - 1 ==> r.cells[y] == st.cells[y + 1]
    ensures r.cells[BOTTOM] == BlankRow(st.color)
    ensures r.column == 0 && r.color == st.color
  {
    WriterState(ClearRow(ShiftUp(st.cells), BOTTOM, st.color), 0, st.color)
  }

  /** `write_byte(b)`: a newline scrolls; any other byte first scrolls if
      the bottom row is full, then is stored at the cursor on the bottom row
      in the writer's colour, and the cursor advances. */
  function PutByte(st: WriterState, b: bv8): (r: WriterState)
    requires IsGrid(st.cells)
    ensures IsGrid(r.cells) && r.color == st.color
    ensures r.column <= WIDTH
    ensures b != NEWLINE ==> 1 <= r.column && r.cells[BOTTOM][r.column - 1] == ScreenChar(b, st.color)
  {
    if b == NEWLINE then Scroll(st)
    else
      var s := if st.column >= WIDTH then Scroll(st) else st;
      WriterState(s.cells[BOTTOM := s.cells[BOTTOM][s.column := ScreenChar(b, s.color)]],
                  s.column + 1, s.color)
  }

  /** The bytes written one after another, in order. */
  function PutBytes(st: WriterState, bs: seq<bv8>): (r: WriterState)
    requires IsGrid(st.cells)
    ensures IsGrid(r.cells) && r.color == st.color
    ensures st.column <= WIDTH ==> r.column <= WIDTH
    decreases |bs|
  {
    if bs == [] then st else PutBytes(PutByte(st, bs[0]), bs[1..])
  }

  /** Printable ASCII, 0x20 through 0x7e. */
  predicate Printable(b: bv8) {
    0x20 <= b <= 0x7e
  }

  /** The byte `write_str` hands to `write_byte` for an input byte. */
  function Glyph(b: bv8): (g: bv8)
    ensures Printable(g) || g == NEWLINE || g == SENTINEL
    ensures Printable(b) || b == NEWLINE ==> g == b
    ensures g != b ==> g == SENTINEL
  {
    if Printable(b) || b == NEWLINE then b else SENTINEL
  }

  /** `Glyph` applied to every byte of a string. */
  function Glyphs(s: seq<bv8>): (r: seq<bv8>)
    ensures |r| == |s|
    ensures forall i :: 0 <= i < |s| ==> r[i] == Glyph(s[i])
  {
    seq(|s|, i requires 0 <= i < |s| => Glyph(s[i]))
  }

  // ---------------------------------------------------------------------
  // Properties of a single byte

  /** A byte other than newline, written while the bottom row has room,
      changes exactly one cell and advances the cursor by one. */
  lemma PutByteInRow(st: WriterState, b: bv8)
    requires IsGrid(st.cells) && b != NEWLINE && st.column < WIDTH
    ensures PutByte(st, b).cells[BOTTOM][st.column] == ScreenChar(b, st.color)
    ensures PutByte(st, b).column == st.column + 1
    ensures PutByte(st, b).color == st.color
    ensures forall y, x :: 0 <= y < HEIGHT && 0 <= x < WIDTH && (y != BOTTOM || x != st.column) ==>
              PutByte(st, b).cells[y][x] == st.cells[y][x]
  {
  }

  /** A byte other than newline, written when the bottom row is full,
      scrolls once and lands in column 0 of the fresh bottom row. */
  lemma PutByteWraps(st: WriterState, b: bv8)
    requires IsGrid(st.cells) && b != NEWLINE && st.column >= WIDTH
    ensures forall y :: 0 <= y < HEIGHT - 1 ==> PutByte(st, b).cells[y] == st.cells[y + 1]
    ensures PutByte(st, b).cells[BOTTOM][0] == ScreenChar(b, st.color)
    ensures forall x :: 1 <= x < WIDTH ==> PutByte(st, b).cells[BOTTOM][x] == ScreenChar(SPACE, st.color)
    ensures PutByte(st, b).column == 1
  {
  }

  /** A newline byte is exactly one scroll. */
  lemma PutByteNewline(st: WriterState)
    requires IsGrid(st.cells)
    ensures forall y :: 0 <= y < HEIGHT - 1 ==> PutByte(st, NEWLINE).cells[y] == st.cells[y + 1]
    ensures forall x :: 0 <= x < WIDTH ==> PutByte(st, NEWLINE).cells[BOTTOM][x] == ScreenChar(SPACE, st.color)
    ensures PutByte(st, NEWLINE).column == 0
  {
  }

  /** Strings made of printable bytes and newlines are passed through unchanged. */
  lemma GlyphsIdentity(s: seq<bv8>)
    requires forall i :: 0 <= i < |s| ==> Printable(s[i]) || s[i] == NEWLINE
    ensures Glyphs(s) == s
  {
  }

  // ---------------------------------------------------------------------
  // Properties of byte sequences

  /** Writing `a + b` is writing `a`, then writing `b`. */
  lemma {:induction false} PutBytesAppend(st: WriterState, a: seq<bv8>, b: seq<bv8>)
    requires IsGrid(st.cells)
    ensures PutBytes(st, a + b) == PutBytes(PutBytes(st, a), b)
    decreases |a|
  {
    if a == [] {
      assert a + b == b;
    } else {
      assert (a + b)[0] == a[0];
      assert (a + b)[1..] == a[1..] + b;
      PutBytesAppend(PutByte(st, a[0]), a[1..], b);
    }
  }

  /** Writing one more byte after a sequence is one more `PutByte`. */
  lemma PutBytesSnoc(st: WriterState, bs: seq<bv8>, b: bv8)
    requires IsGrid(st.cells)
    ensures PutBytes(st, bs + [b]) == PutByte(PutBytes(st, bs), b)
  {
    PutBytesAppend(st, bs, [b]);
  }

  /** A run of non-newline bytes that fits in what is left of the bottom row
      is laid down cell by cell from the cursor; nothing else changes. */
  lemma {:induction false} PutBytesInRow(st: WriterState, s: seq<bv8>)
    requires IsGrid(st.cells)
    requires forall i :: 0 <= i < |s| ==> s[i] != NEWLINE
    requires st.column + |s| <= WIDTH
    ensures PutBytes(st, s).column == st.column + |s|
    ensures forall y :: 0 <= y < HEIGHT - 1 ==> PutBytes(st, s).cells[y] == st.cells[y]
    ensures forall x :: 0 <= x < WIDTH ==>
              PutBytes(st, s).cells[BOTTOM][x] ==
                if st.column <= x < st.column + |s| then ScreenChar(s[x - st.column], st.color)
                else st.cells[BOTTOM][x]
    decreases |s|
  {
    if s != [] {
      var next := PutByte(st, s[0]);
      PutByteInRow(st, s[0]);
      PutBytesInRow(next, s[1..]);
      var r := PutBytes(st, s);
      assert r == PutBytes(next, s[1..]);
      forall x | 0 <= x < WIDTH
        ensures r.cells[BOTTOM][x] ==
                  if st.column <= x < st.column + |s| then ScreenChar(s[x - st.column], st.color)
                  else st.cells[BOTTOM][x]
      {
        if st.column < x < st.column + |s| {
          assert s[1..][x - next.column] == s[x - st.column];
        }
      }
    }
  }

  /** A full bottom row followed by one more byte scrolls exactly once: the
      full row moves up intact and the byte starts a new bottom row. */
  lemma FullRowThenWrap(st: WriterState, s: seq<bv8>, b: bv8)
    requires IsGrid(st.cells) && st.column == 0
    requires |s| == WIDTH && forall i :: 0 <= i < |s| ==> s[i] != NEWLINE
    requires b != NEWLINE
    ensures forall y :: 0 <= y < HEIGHT - 2 ==> PutBytes(st, s + [b]).cells[y] == st.cells[y + 1]
    ensures forall x :: 0 <= x < WIDTH ==> PutBytes(st, s + [b]).cells[HEIGHT - 2][x] == ScreenChar(s[x], st.color)
    ensures PutBytes(st, s + [b]).cells[BOTTOM][0] == ScreenChar(b, st.color)
    ensures forall x :: 1 <= x < WIDTH ==> PutBytes(st, s + [b]).cells[BOTTOM][x] == ScreenChar(SPACE, st.color)
    ensures PutBytes(st, s + [b]).column == 1
  {
    PutBytesSnoc(st, s, b);
    var full := PutBytes(st, s);
    PutBytesInRow(st, s);
    PutByteWraps(full, b);
  }

  /** Every byte outside printable ASCII, newline aside, shows up as the
      sentinel glyph in the cell left of the new cursor: at the old cursor
      when the bottom row has room, at column 0 after a scroll when it is full. */
  lemma NonPrintableShowsSentinel(st: WriterState, b: bv8)
    requires IsGrid(st.cells)
    requires !Printable(b) && b != NEWLINE
    ensures 1 <= PutBytes(st, Glyphs([b])).column
    ensures PutBytes(st, Glyphs([b])).cells[BOTTOM][PutBytes(st, Glyphs([b])).column - 1] == ScreenChar(SENTINEL, st.color)
    ensures st.column < WIDTH ==> PutBytes(st, Glyphs([b])).column == st.column + 1
    ensures st.column >= WIDTH ==> PutBytes(st, Glyphs([b])).column == 1
  {
    assert Glyphs([b]) == [SENTINEL];
    assert PutBytes(st, [SENTINEL]) == PutBytes(PutByte(st, SENTINEL), []);
  }

  /** The bytes of "Hi!\n" and of "Bye". */
  const HiLine: seq<bv8> := [0x48, 0x69, 0x21, 0x0A]
  const Bye: seq<bv8> := [0x42, 0x79, 0x65]

  /** Writing "Hi!\n" and then "Bye" from column 0: "Hi!" ends up one row
      above the bottom, "Bye" opens a blank bottom row, the cursor is at 3,
      and the rows above moved up by one. */
  lemma HiThenBye(st: WriterState)
    requires IsGrid(st.cells) && st.column == 0
    ensures PutBytes(PutBytes(st, Glyphs(HiLine)), Glyphs(Bye)).column == 3
    ensures forall x :: 0 <= x < WIDTH ==>
              PutBytes(PutBytes(st, Glyphs(HiLine)), Glyphs(Bye)).cells[BOTTOM][x] ==
                if x < 3 then ScreenChar(Bye[x], st.color) else ScreenChar(SPACE, st.color)
    ensures forall x :: 0 <= x < WIDTH ==>
              PutBytes(PutBytes(st, Glyphs(HiLine)), Glyphs(Bye)).cells[HEIGHT - 2][x] ==
                if x < 3 then ScreenChar(HiLine[x], st.color) else st.cells[BOTTOM][x]
    ensures forall y :: 0 <= y < HEIGHT - 2 ==>
              PutBytes(PutBytes(st, Glyphs(HiLine)), Glyphs(Bye)).cells[y] == st.cells[y + 1]
  {
    GlyphsIdentity(HiLine);
    GlyphsIdentity(Bye);
    var hi := HiLine[..3];
    assert HiLine == hi + [NEWLINE];
    PutBytesSnoc(st, hi, NEWLINE);
    PutBytesInRow(st, hi);
    var line := PutBytes(st, HiLine);
    PutByteNewline(PutBytes(st, hi));
    PutBytesInRow(line, Bye);
  }
}
