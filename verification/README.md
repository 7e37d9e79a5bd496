# Text-mode console writer, modelled in Dafny

This project models the text-buffer writer of a small freestanding kernel
(`src/vga_buffer.rs`). The writer renders text onto the 25 x 80 text-mode
display buffer. Each cell holds an ASCII byte and an attribute byte. The
attribute byte packs a background colour (high nibble) and a foreground
colour (low nibble). The writer always appends on the bottom row. It scrolls
every row up by one on a newline, or when a byte arrives after the row is
full. It draws every byte outside printable ASCII as the sentinel glyph `0xFE`.

Files:

- `color.dfy`, module `ColorCodes`: the sixteen palette colours and their
  discriminants, `ColorCode::new`, and decoders for the two nibbles.
- `text_grid.dfy`, module `TextGrid`: the writer as a value (`WriterState`:
  grid, cursor column, colour). Each writer operation is a function here:
  `ShiftUp` (the copy loop), `ClearRow` (`clear_line`), `Scroll`
  (`write_newline`), `PutByte` (`write_byte`), `PutBytes` (bytes in order),
  and `Glyph`/`Glyphs` (the byte substitution of `write_str`). The lemmas
  state what these do to cells, the cursor and the colour.
- `writer.dfy`, module `VgaWriter`: class `Writer`. It has the fields
  `currentColumn` and `colorCode` and a `buffer: array2<ScreenChar>` that
  the methods update cell by cell, with the same loops as the source.
  `Valid()` ties the array to a ghost grid `cells`. Each method is proved to
  leave `State()` equal to the matching `TextGrid` function applied to the
  old state.

Points about the model:

- Bytes and the attribute byte are `bv8`.
- The Rust `&str` passed to `write_str` is modelled as its byte sequence.
- Each method's `modifies` clause names only `buffer`, `cells` and
  `currentColumn`. So no method can change `colorCode`.
- `Valid()` keeps `currentColumn` in `[0, 80]` before and after every method.
- Every index the copy loop of `write_newline` uses is checked by the
  verifier. That includes the reads the source makes without bounds checks
  (`get_unchecked(y)`, `get_unchecked_mut(y - 1)`). Every index falls inside
  the 25 x 80 array.
- No write changes the colour; only the cells and `current_column` change.
- After "Hi!\n" then "Bye", the row holding "Hi!" keeps the old bottom
  row's cells from column 3 on. They are spaces only if that row was blank
  before (`TextGrid.HiThenBye`).

## Model

| member | source | states |
|---|---|---|
| ColorCodes.Code | src/vga_buffer.rs:119-136 | each colour's discriminant is below 16 and is its index in the palette |
| ColorCodes.FromCode | src/vga_buffer.rs:119-136 | every code below 16 names the colour whose discriminant it is |
| ColorCodes.CodeInjective | src/vga_buffer.rs:119-136 | distinct colours have distinct discriminants |
| ColorCodes.NewColorCode | src/vga_buffer.rs:110-113 | the packed byte equals 16 * bg + fg; its low nibble is fg and its high nibble is bg |
| ColorCodes.Foreground | src/vga_buffer.rs:106-113 | the colour read back from the low nibble has that nibble as its code |
| ColorCodes.Background | src/vga_buffer.rs:106-113 | the colour read back from the high nibble has that nibble as its code |
| ColorCodes.ColorCodeRoundTrip | src/vga_buffer.rs:111-113 | packing then reading both nibbles gives back the foreground and the background |
| ColorCodes.ColorCodeSurjective | src/vga_buffer.rs:106-113 | every attribute byte is the packing of the colours read from its nibbles |
| TextGrid.BlankRow | src/vga_buffer.rs:73-80 | a row of 80 cells, each a space in the given colour |
| TextGrid.ClearRow | src/vga_buffer.rs:73-80 | the cleared row is blank in the writer's colour and every other row is unchanged |
| TextGrid.ShiftUp | src/vga_buffer.rs:56-68 | after the copy loop, row y - 1 holds old row y for y in [1, 25) and the bottom row is untouched |
| TextGrid.Scroll | src/vga_buffer.rs:55-71 | rows 0..23 hold old rows 1..24, old row 0 is gone, the bottom row is blank in the writer's colour, column is 0, colour unchanged |
| TextGrid.PutByte | src/vga_buffer.rs:39-53 | the grid keeps its shape, colour is unchanged, column stays in [0, 80], and a non-newline byte ends up in the bottom-row cell left of the new cursor |
| TextGrid.PutBytes | src/vga_buffer.rs:85-92 | writing bytes in order keeps the shape and the colour and keeps the column in [0, 80] |
| TextGrid.Glyph | src/vga_buffer.rs:86-91 | printable bytes and newline pass through; any byte that changes becomes 0xFE; every result is printable, newline or 0xFE |
| TextGrid.Glyphs | src/vga_buffer.rs:85-91 | the substitution applied byte by byte, length preserved |
| TextGrid.PutByteInRow | src/vga_buffer.rs:42-50 | with room on the row, a non-newline byte sets cell (24, column) to (b, colour), increments the column and leaves every other cell and the colour unchanged |
| TextGrid.PutByteWraps | src/vga_buffer.rs:43-50 | with a full row, a non-newline byte scrolls once, lands at (24, 0) on a blank row, and leaves the column at 1 |
| TextGrid.PutByteNewline | src/vga_buffer.rs:40-41 | a newline shifts every row up, blanks the bottom row and sets the column to 0 |
| TextGrid.GlyphsIdentity | src/vga_buffer.rs:87-88 | a string of printable bytes and newlines is passed to write_byte unchanged |
| TextGrid.PutBytesAppend | src/vga_buffer.rs:85-92 | writing a + b is writing a and then writing b |
| TextGrid.PutBytesSnoc | src/vga_buffer.rs:85-92 | writing one more byte after a sequence is one more write_byte |
| TextGrid.PutBytesInRow | src/vga_buffer.rs:42-50 | non-newline bytes that fit on the row land in consecutive cells from the cursor; the column advances by their count; every other cell is unchanged |
| TextGrid.FullRowThenWrap | src/vga_buffer.rs:43-50 | 80 non-newline bytes from column 0 and one more non-newline byte scroll exactly once: the full row moves up intact, the extra byte starts a blank bottom row, column 1 |
| TextGrid.NonPrintableShowsSentinel | src/vga_buffer.rs:89-90 | from any column, a byte outside printable ASCII and not a newline is drawn as 0xFE in the cell left of the new cursor: at the old cursor with the column advanced by one when the row has room, at (24, 0) with column 1 after a scroll when the row is full |
| TextGrid.HiThenBye | src/vga_buffer.rs:39-93 | "Hi!\n" then "Bye" from column 0 leaves "Bye" on a blank bottom row, "Hi!" one row up, column 3, the older rows moved up by one |
| VgaWriter.Writer.constructor | src/vga_buffer.rs:8-12 | a writer at column 0, green on black, over a buffer whose current cells it takes as its state |
| VgaWriter.Writer.ClearLine | src/vga_buffer.rs:73-80 | the loop over the row leaves the buffer equal to ClearRow of the old grid; column and colour untouched |
| VgaWriter.Writer.WriteNewline | src/vga_buffer.rs:55-71 | the nested copy loop, the clear and the column reset leave the writer equal to Scroll of its old state, using only in-bounds indices |
| VgaWriter.Writer.WriteByte | src/vga_buffer.rs:39-53 | the writer becomes PutByte of its old state for the byte |
| VgaWriter.Writer.WriteStr | src/vga_buffer.rs:84-94 | the writer becomes PutBytes of its old state over the substituted bytes, in order, and the result is Ok |

## Left out

- The global `WRITER` behind a lazily initialised spin lock (src/vga_buffer.rs:7-13) is left out. It deals with mutual exclusion and one-time initialisation. The model keeps only the initial values of the writer, in `Writer.constructor`.
- `_print`, the `print!` and `println!` macros and `write_fmt` (src/vga_buffer.rs:15-30) are left out. They forward to the formatting machinery of `core::fmt`, which is not part of this model. Only `write_str` on a byte sequence is modelled.
- Volatile access and the cast of address `0xb8000` to the buffer (src/vga_buffer.rs:2, 11, 97) are left out. The buffer is an ordinary `array2` that the constructor receives.
- The `repr(C)` and `repr(transparent)` byte layouts are left out. A cell is a pair of bytes.
- `src/main.rs` is left out. It only prints and spins.
- VgaWriter.Writer.WriteStr: takes any byte sequence. The source's `&str` is always valid UTF-8, and the model does not restrict the input to that.
- VgaWriter.Writer.ClearLine: requires `row < 25`. The source panics on a larger row through its bounds-checked index, and its only caller passes row 24.
