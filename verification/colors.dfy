/**
  The sixteen VGA text-mode colours and the packed attribute byte built from a
  foreground and a background colour.
 */
module Colors {

  /** An unsigned 8-bit value (`u8`). */
  type Byte = bv8

  /** The colour palette; each variant stands for a 4-bit hardware colour index. */
  datatype Color =
    | Black | Blue | Green | Cyan | Red | Magenta | Brown | LightGray
    | DarkGray | LightBlue | LightGreen | LightCyan | LightRed | Pink | Yellow | White

  /** The numeric value of a colour (its `as u8` conversion). */
  function Index(c: Color): (i: Byte)
    ensures i < 16
  {
    match c
    case Black => 0
    case Blue => 1
    case Green => 2
    case Cyan => 3
    case Red => 4
    case Magenta => 5
    case Brown => 6
    case LightGray => 7
    case DarkGray => 8
    case LightBlue => 9
    case LightGreen => 10
    case LightCyan => 11
    case LightRed => 12
    case Pink => 13
    case Yellow => 14
    case White => 15
  }

  /** The colour with a given 4-bit index; every index 0..15 names one. */
  function FromIndex(i: Byte): (c: Color)
    requires i < 16
    ensures Index(c) == i
  {
    match i
    case 0 => Black
    case 1 => Blue
    case 2 => Green
    case 3 => Cyan
    case 4 => Red
    case 5 => Magenta
    case 6 => Brown
    case 7 => LightGray
    case 8 => DarkGray
    case 9 => LightBlue
    case 10 => LightGreen
    case 11 => LightCyan
    case 12 => LightRed
    case 13 => Pink
    case 14 => Yellow
    case _ => White
  }

  /** No two colours share a numeric value, so `Index` and `FromIndex` are inverses. */
  lemma IndexInjective(a: Color, b: Color)
    ensures Index(a) == Index(b) <==> a == b
    ensures FromIndex(Index(a)) == a
  {
  }

  /** The attribute byte of a screen cell. */
  datatype ColorCode = ColorCode(value: Byte)

  /**
    Packs a foreground and a background colour the way the code does: the
    background is shifted left by four bits and or-ed with the foreground.
    All four background bits are shifted, so a background of 8..15 sets bit 7.
   */
  function NewColorCode(foreground: Color, background: Color): (code: ColorCode)
    ensures code.value == 16 * Index(background) + Index(foreground)
    ensures code.value & 0x0F == Index(foreground)
    ensures code.value >> 4 == Index(background)
    ensures code.value & 0x80 != 0 <==> Index(background) >= 8
    ensures Foreground(code) == foreground && Background(code) == background
  {
    ColorCode((Index(background) << 4) | Index(foreground))
  }

  /** The colour stored in the low nibble of an attribute byte. */
  function Foreground(code: ColorCode): (c: Color)
    ensures Index(c) == code.value & 0x0F
  {
    FromIndex(code.value & 0x0F)
  }

  /** The colour stored in the high nibble of an attribute byte. */
  function Background(code: ColorCode): (c: Color)
    ensures Index(c) == code.value >> 4
  {
    FromIndex(code.value >> 4)
  }

  /** Every one of the 256 byte values is the packing of exactly one colour pair. */
  lemma EncodeDecode(code: ColorCode)
    ensures NewColorCode(Foreground(code), Background(code)) == code
  {
  }

  /** The writer's starting attribute, yellow on black. */
  const DefaultColor: ColorCode := NewColorCode(Yellow, Black)
}
