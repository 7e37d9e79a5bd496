/** The `Writer` of src/vga_buffer.rs: a cursor column, a colour and the
    25 x 80 text buffer, updated in place cell by cell. */
module VgaWriter {
  import opened ColorCodes
  import opened TextGrid

  /** `core::fmt::Result`: success, or the formatting error. */
  datatype FmtResult = Ok | Err

  class Writer {
    var currentColumn: nat
    var colorCode: ColorCode
    /** The text buffer; rows are indexed first, as in `[[_; WIDTH]; HEIGHT]`. */
    const buffer: array2<ScreenChar>
    /** What the buffer currently shows, as a value. */
    ghost var cells: Grid

    ghost predicate Valid()
      reads this, buffer
    {
      buffer.Length0 == HEIGHT && buffer.Length1 == WIDTH &&
      IsGrid(cells) && currentColumn <= WIDTH &&
      forall y, x :: 0 <= y < HEIGHT && 0 <= x < WIDTH ==> buffer[y, x] == cells[y][x]
    }

    /** The writer as a value of the specification. */
    ghost function State(): WriterState
      reads this
    {
      WriterState(cells, currentColumn, colorCode)
    }

    /** The writer the global instance is built from: column 0, green on
        black, over a buffer that already holds whatever the screen shows. */
    constructor (buf: array2<ScreenChar>)
      requires buf.Length0 == HEIGHT && buf.Length1 == WIDTH
      ensures Valid() && buffer == buf
      ensures currentColumn == 0 && colorCode == NewColorCode(Green, Black)
      ensures forall y, x :: 0 <= y < HEIGHT && 0 <= x < WIDTH ==> cells[y][x] == buf[y, x]
    {
      buffer := buf;
      currentColumn := 0;
      colorCode := NewColorCode(Green, Black);
      cells := seq(HEIGHT, y requires 0 <= y < HEIGHT reads buf =>
                 seq(WIDTH, x requires 0 <= x < WIDTH reads buf => buf[y, x]));
    }

    /** `clear_line(row)`: every cell of the row becomes a space in the
        writer's colour. The row is indexed with a bounds check. */
    method ClearLine(row: nat)
      requires Valid() && row < HEIGHT
      modifies buffer, this`cells
      ensures Valid()
      ensures cells == ClearRow(old(cells), row, colorCode)
    {
      for x := 0 to WIDTH
        modifies buffer
        invariant forall c :: 0 <= c < x ==> buffer[row, c] == ScreenChar(SPACE, colorCode)
        invariant forall y, c :: 0 <= y < HEIGHT && 0 <= c < WIDTH && (y != row || c >= x) ==>
                    buffer[y, c] == cells[y][c]
      {
        buffer[row, x] := ScreenChar(SPACE, colorCode);
      }
      cells := ClearRow(cells, row, colorCode);
    }

    /** `write_newline`: copies each row y in [1, HEIGHT) into row y - 1 one
        cell at a time, clears the bottom row and resets the column. Every
        index the copy loop reads or writes is inside the buffer. */
    method WriteNewline()
      requires Valid()
      modifies buffer, this`cells, this`currentColumn
      ensures Valid()
      ensures State() == Scroll(old(State()))
    {
      for y := 1 to HEIGHT
        modifies buffer
        invariant forall r, c :: 0 <= r < y - 1 && 0 <= c < WIDTH ==> buffer[r, c] == cells[r + 1][c]
        invariant forall r, c :: y - 1 <= r < HEIGHT && 0 <= c < WIDTH ==> buffer[r, c] == cells[r][c]
      {
        ghost var dst := y - 1;
        for x := 0 to WIDTH
          modifies buffer
          invariant forall r, c :: 0 <= r < dst && 0 <= c < WIDTH ==> buffer[r, c] == cells[r + 1][c]
          invariant forall c :: 0 <= c < x ==> buffer[dst, c] == cells[y][c]
          invariant forall c :: x <= c < WIDTH ==> buffer[dst, c] == cells[dst][c]
          invariant forall r, c :: y <= r < HEIGHT && 0 <= c < WIDTH ==> buffer[r, c] == cells[r][c]
        {
          var value := buffer[y, x];
          buffer[y - 1, x] := value;
        }
      }
      cells := ShiftUp(cells);
      ClearLine(BOTTOM);
      currentColumn := 0;
    }

    /** `write_byte(b)`: a newline scrolls; any other byte wraps first when
        the bottom row is full, is stored at the cursor, and advances it. */
    method WriteByte(b: bv8)
      requires Valid()
      modifies buffer, this`cells, this`currentColumn
      ensures Valid()
      ensures State() == PutByte(old(State()), b)
    {
      if b == NEWLINE {
        WriteNewline();
      } else {
        if currentColumn >= WIDTH {
          WriteNewline();
        }
        buffer[BOTTOM, currentColumn] := ScreenChar(b, colorCode);
        cells := cells[BOTTOM := cells[BOTTOM][currentColumn := ScreenChar(b, colorCode)]];
        currentColumn := currentColumn + 1;
      }
    }

    /** `write_str(s)` over the bytes of `s`: each byte is replaced by its
        glyph and written in order; the result is always `Ok`. */
    method WriteStr(s: seq<bv8>) returns (r: FmtResult)
      requires Valid()
      modifies buffer, this`cells, this`currentColumn
      ensures Valid()
      ensures State() == PutBytes(old(State()), Glyphs(s))
      ensures r == Ok
    {
      for i := 0 to |s|
        invariant Valid()
        invariant State() == PutBytes(old(State()), Glyphs(s[..i]))
      {
        assert Glyphs(s[..i + 1]) == Glyphs(s[..i]) + [Glyph(s[i])];
        PutBytesSnoc(old(State()), Glyphs(s[..i]), Glyph(s[i]));
        WriteByte(Glyph(s[i]));
      }
      assert s[..|s|] == s;
      return Ok;
    }
  }
}
