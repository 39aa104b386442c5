/**
  The text-mode writer: a column cursor on the bottom row, the attribute used
  for every glyph it places, and the buffer it owns.

  Each operation of the writer takes the writer's state and returns the new
  state; the buffer is a value, one cell per grid position.
 */
module Writers {
  import opened Colors
  import opened Screen

  datatype Writer = Writer(column: nat, color: ColorCode, buffer: seq<seq<ScreenChar>>)

  /** The state every writer operation keeps: a cursor in 0..=BufferWidth and a full grid. */
  predicate Valid(w: Writer)
  {
    w.column <= BufferWidth && IsGrid(w.buffer)
  }

  const Newline: Byte := 0x0a
  /** The glyph drawn in place of a byte that cannot be shown. */
  const Unprintable: Byte := 0xfe

  predicate IsPrintable(b: Byte)
  {
    0x20 <= b <= 0x7e
  }

  /**
    The writer as the system starts it: cursor at column 0, yellow on black.
    The buffer is whatever the display memory holds at that moment.
   */
  function InitialWriter(buffer: seq<seq<ScreenChar>>): (w: Writer)
    requires IsGrid(buffer)
    ensures Valid(w)
    ensures w.column == 0 && w.buffer == buffer
    ensures w.color.value == 0x0E
    ensures Foreground(w.color) == Yellow && Background(w.color) == Black
  {
    Writer(0, DefaultColor, buffer)
  }

  /**
    Reference definition of a scroll by one line: rows 1..24 move up to rows
    0..23, old row 0 is gone, the bottom row is blank and the cursor is at 0.
   */
  function Scroll(w: Writer): (s: Writer)
    requires Valid(w)
    ensures Valid(s) && s.color == w.color
  {
    Writer(0, w.color, w.buffer[1..] + [BlankRow(w.color)])
  }

  /** Blanks every cell of one row with the writer's colour. */
  method ClearRow(w: Writer, row: nat) returns (w': Writer)
    requires Valid(w) && row < BufferHeight
    ensures Valid(w') && w'.column == w.column && w'.color == w.color
    ensures forall c :: 0 <= c < BufferWidth ==> w'.buffer[row][c] == Blank(w.color)
    ensures forall r :: 0 <= r < BufferHeight && r != row ==> w'.buffer[r] == w.buffer[r]
  {
    var blank := Blank(w.color);
    var chars := w.buffer;
    for col := 0 to BufferWidth
      invariant IsGrid(chars)
      invariant forall c :: 0 <= c < col ==> chars[row][c] == blank
      invariant forall r :: 0 <= r < BufferHeight && r != row ==> chars[r] == w.buffer[r]
    {
      chars := chars[row := chars[row][col := blank]];
    }
    w' := w.(buffer := chars);
  }

  /**
    Scrolls by copying each row into the row above it, rows ascending, then
    clears the bottom row and resets the cursor. A row is read (as the source
    of the copy) before the next iteration overwrites it.
   */
  method NewLine(w: Writer) returns (w': Writer)
    requires Valid(w)
    ensures w' == Scroll(w)
    ensures Valid(w') && w'.column == 0 && w'.color == w.color
    ensures forall r :: 0 <= r < BottomRow ==> w'.buffer[r] == w.buffer[r + 1]
    ensures forall c :: 0 <= c < BufferWidth ==> w'.buffer[BottomRow][c] == Blank(w.color)
  {
    var chars := w.buffer;
    for row := 1 to BufferHeight
      invariant IsGrid(chars)
      invariant forall r :: 0 <= r < row - 1 ==> chars[r] == w.buffer[r + 1]
      invariant forall r :: row - 1 <= r < BufferHeight ==> chars[r] == w.buffer[r]
    {
      var above := row - 1;
      for col := 0 to BufferWidth
        invariant IsGrid(chars)
        invariant forall r :: 0 <= r < above ==> chars[r] == w.buffer[r + 1]
        invariant forall r :: row <= r < BufferHeight ==> chars[r] == w.buffer[r]
        invariant forall c :: 0 <= c < col ==> chars[above][c] == w.buffer[row][c]
        invariant forall c :: col <= c < BufferWidth ==> chars[above][c] == w.buffer[above][c]
      {
        var character := chars[row][col];
        chars := chars[above := chars[above][col := character]];
      }
      assert chars[above] == w.buffer[row];
    }
    var shifted := w.(buffer := chars);
    var cleared := ClearRow(shifted, BottomRow);
    w' := cleared.(column := 0);
    assert w'.buffer[BottomRow] == BlankRow(w.color);
  }

  /**
    Writes one byte. A newline scrolls. Any other byte first scrolls when the
    cursor is past the last column, then lands at the cursor on the bottom row
    in the writer's colour, and the cursor advances.
   */
  function WriteByte(w: Writer, b: Byte): (w': Writer)
    requires Valid(w)
    ensures Valid(w') && w'.color == w.color
    ensures b == Newline ==> w' == Scroll(w)
    ensures b != Newline && w.column < BufferWidth ==>
      && w'.column == w.column + 1
      && w'.buffer[BottomRow][w.column] == ScreenChar(b, w.color)
      && (forall r, c :: 0 <= r < BufferHeight && 0 <= c < BufferWidth && (r, c) != (BottomRow, w.column) ==>
            w'.buffer[r][c] == w.buffer[r][c])
    ensures b != Newline && w.column == BufferWidth ==>
      && w'.column == 1
      && (forall r :: 0 <= r < BottomRow ==> w'.buffer[r] == w.buffer[r + 1])
      && w'.buffer[BottomRow][0] == ScreenChar(b, w.color)
      && (forall c :: 1 <= c < BufferWidth ==> w'.buffer[BottomRow][c] == Blank(w.color))
  {
    if b == Newline then
      Scroll(w)
    else
      var v := if w.column >= BufferWidth then Scroll(w) else w;
      var row := BottomRow;
      var col := v.column;
      Writer(col + 1, v.color, v.buffer[row := v.buffer[row][col := ScreenChar(b, v.color)]])
  }

  /**
    The byte a string byte is drawn as: printable ASCII and newline pass
    through, everything else becomes the unprintable glyph.
   */
  function Sanitize(b: Byte): (r: Byte)
    ensures IsPrintable(r) || r == Newline || r == Unprintable
    ensures r == b <==> IsPrintable(b) || b == Newline || b == Unprintable
    ensures r != b ==> r == Unprintable
  {
    if IsPrintable(b) || b == Newline then b else Unprintable
  }

  /** Sanitizes a byte sequence one byte at a time, keeping length and order. */
  function SanitizeAll(s: seq<Byte>): (t: seq<Byte>)
    ensures |t| == |s|
    ensures forall i :: 0 <= i < |s| ==> t[i] == Sanitize(s[i])
  {
    if s == [] then [] else [Sanitize(s[0])] + SanitizeAll(s[1..])
  }

  /** The writer after writing the given bytes in order, one `WriteByte` each. */
  function WriteAll(w: Writer, bytes: seq<Byte>): (w': Writer)
    requires Valid(w)
    ensures Valid(w') && w'.color == w.color
    decreases |bytes|
  {
    if bytes == [] then w else WriteAll(WriteByte(w, bytes[0]), bytes[1..])
  }

  /** The writer after writing each byte of `text`, sanitized, in order. */
  function WriteSanitized(w: Writer, text: seq<Byte>): (w': Writer)
    requires Valid(w)
    ensures Valid(w') && w'.color == w.color
    decreases |text|
  {
    if text == [] then w else WriteSanitized(WriteByte(w, Sanitize(text[0])), text[1..])
  }

  /** Sanitizing as the bytes are written is mapping the filter over the string first. */
  lemma {:induction false} WriteSanitizedMapsFirst(w: Writer, text: seq<Byte>)
    requires Valid(w)
    ensures WriteSanitized(w, text) == WriteAll(w, SanitizeAll(text))
    decreases |text|
  {
    if text != [] {
      var t := SanitizeAll(text);
      assert t[0] == Sanitize(text[0]);
      assert t[1..] == SanitizeAll(text[1..]);
      WriteSanitizedMapsFirst(WriteByte(w, Sanitize(text[0])), text[1..]);
    }
  }

  /** Writes every byte of a string, each sanitized, through `WriteByte`. */
  method WriteString(w: Writer, text: seq<Byte>) returns (w': Writer)
    requires Valid(w)
    ensures w' == WriteSanitized(w, text)
    ensures Valid(w') && w'.color == w.color
  {
    w' := w;
    for i := 0 to |text|
      invariant Valid(w')
      invariant WriteSanitized(w', text[i..]) == WriteSanitized(w, text)
    {
      var b := text[i];
      assert text[i..][1..] == text[i + 1..];
      if IsPrintable(b) || b == Newline {
        w' := WriteByte(w', b);
      } else {
        w' := WriteByte(w', Unprintable);
      }
    }
    assert text[|text|..] == [];
  }

  /** The result of a text-stream write. */
  datatype FmtResult = Ok | Err

  /** The text-stream adapter: delegates to `WriteString` and always succeeds. */
  method WriteStr(w: Writer, text: seq<Byte>) returns (w': Writer, result: FmtResult)
    requires Valid(w)
    ensures result == Ok
    ensures w' == WriteSanitized(w, text)
  {
    w' := WriteString(w, text);
    result := Ok;
  }
}
