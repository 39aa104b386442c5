/**
  The character cells of the text buffer and the fixed 25 x 80 grid they form.
 */
module Screen {
  import opened Colors

  const BufferHeight: nat := 25
  const BufferWidth: nat := 80
  /** The row every glyph is written to. */
  const BottomRow: nat := BufferHeight - 1

  /** The glyph used for blank cells. */
  const Space: Byte := 0x20

  /** One cell: the glyph byte first, then its attribute byte. */
  datatype ScreenChar = ScreenChar(ascii: Byte, color: ColorCode)

  function Blank(color: ColorCode): ScreenChar
  {
    ScreenChar(Space, color)
  }

  /** A full row of blank cells in the given colour. */
  function BlankRow(color: ColorCode): (row: seq<ScreenChar>)
    ensures |row| == BufferWidth
    ensures forall c :: 0 <= c < |row| ==> row[c] == Blank(color)
  {
    seq(BufferWidth, _ => Blank(color))
  }

  /** The buffer has exactly BufferHeight rows of BufferWidth cells each. */
  predicate IsGrid(chars: seq<seq<ScreenChar>>)
  {
    |chars| == BufferHeight && forall r :: 0 <= r < |chars| ==> |chars[r]| == BufferWidth
  }
}
