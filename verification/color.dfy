/** The sixteen-colour text-mode palette and the packed attribute byte
    (`Color` and `ColorCode` in src/vga_buffer.rs). */
module ColorCodes {

  /** The sixteen colours of the hardware palette, in discriminant order. */
  datatype Color =
    | Black | Blue | Green | Cyan | Red | Magenta | Brown | LightGray
    | DarkGray | LightBlue | LightGreen | LightCyan | LightRed | Pink | Yellow | White

  /** The palette indexed by code: `Palette[n]` is the colour whose discriminant is `n`. */
  const Palette: seq<Color> :=
    [Black, Blue, Green, Cyan, Red, Magenta, Brown, LightGray,
     DarkGray, LightBlue, LightGreen, LightCyan, LightRed, Pink, Yellow, White]

  /** The 4-bit discriminant of a colour (`c as u8`). */
  function Code(c: Color): (n: bv8)
    ensures n < 16
    ensures Palette[n] == c
  {
    match c
    case Black => 0
    case Blue => 1
    case Green => 2
    case Cyan => 3
    case Red => 4
    case Magenta => 5
    case Brown => 6
    case LightGray => 7
    case DarkGray => 8
    case LightBlue => 9
    case LightGreen => 10
    case LightCyan => 11
    case LightRed => 12
    case Pink => 13
    case Yellow => 14
    case White => 15
  }

  /** The colour a 4-bit code stands for. */
  function FromCode(n: bv8): (c: Color)
    requires n < 16
    ensures Code(c) == n
  {
    Palette[n]
  }

  /** Distinct colours have distinct codes, so a code identifies its colour. */
  lemma CodeInjective(c: Color, d: Color)
    ensures Code(c) == Code(d) ==> c == d
  {
  }

  /** The attribute byte of one screen cell: background in the high nibble,
      foreground in the low nibble. */
  datatype ColorCode = ColorCode(bits: bv8)

  /** `ColorCode::new`: packs `bg << 4 | fg` into one byte. */
  function NewColorCode(fg: Color, bg: Color): (r: ColorCode)
    ensures r.bits as int == 16 * Code(bg) as int + Code(fg) as int
    ensures r.bits & 0x0F == Code(fg)
    ensures r.bits >> 4 == Code(bg)
  {
    ColorCode((Code(bg) << 4) | Code(fg))
  }

  /** The foreground colour the hardware reads from the low nibble. */
  function Foreground(cc: ColorCode): (c: Color)
    ensures Code(c) == cc.bits & 0x0F
  {
    FromCode(cc.bits & 0x0F)
  }

  /** The background colour the hardware reads from the high nibble. */
  function Background(cc: ColorCode): (c: Color)
    ensures Code(c) == cc.bits >> 4
  {
    FromCode(cc.bits >> 4)
  }

  /** Packing loses nothing: both colours are recovered from the byte. */
  lemma ColorCodeRoundTrip(fg: Color, bg: Color)
    ensures Foreground(NewColorCode(fg, bg)) == fg
    ensures Background(NewColorCode(fg, bg)) == bg
  {
    var cc := NewColorCode(fg, bg);
    CodeInjective(Foreground(cc), fg);
    CodeInjective(Background(cc), bg);
  }

  /** Every byte is the packing of exactly one colour pair. */
  lemma ColorCodeSurjective(cc: ColorCode)
    ensures NewColorCode(Foreground(cc), Background(cc)) == cc
  {
    var lo, hi := cc.bits & 0x0F, cc.bits >> 4;
    assert (hi << 4) | lo == cc.bits;
  }
}
