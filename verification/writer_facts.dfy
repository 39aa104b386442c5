/**
  Properties of sequences of writer operations: how a run of bytes fills the
  bottom row, when it wraps, how strings compose, and which glyphs can appear.
 */
module WriterFacts {
  import opened Colors
  import opened Screen
  import opened Writers

  /** The cells showing the bytes of `s` in one colour, left to right. */
  function Cells(s: seq<Byte>, color: ColorCode): (row: seq<ScreenChar>)
  {
    seq(|s|, i requires 0 <= i < |s| => ScreenChar(s[i], color))
  }

  predicate NoNewline(s: seq<Byte>)
  {
    forall i :: 0 <= i < |s| ==> s[i] != Newline
  }

  /** Writing `s` then `t` is writing `s + t`: no byte is buffered, dropped or reordered. */
  lemma {:induction false} WriteAllAppend(w: Writer, s: seq<Byte>, t: seq<Byte>)
    requires Valid(w)
    ensures WriteAll(w, s + t) == WriteAll(WriteAll(w, s), t)
    decreases |s|
  {
    if s == [] {
      assert s + t == t;
    } else {
      assert (s + t)[0] == s[0];
      assert (s + t)[1..] == s[1..] + t;
      WriteAllAppend(WriteByte(w, s[0]), s[1..], t);
    }
  }

  /** Writing a string in two pieces has the same effect as writing it whole. */
  lemma {:induction false} SplitStringWritesAlike(w: Writer, s: seq<Byte>, t: seq<Byte>)
    requires Valid(w)
    ensures WriteSanitized(w, s + t) == WriteSanitized(WriteSanitized(w, s), t)
    decreases |s|
  {
    if s == [] {
      assert s + t == t;
    } else {
      assert (s + t)[0] == s[0];
      assert (s + t)[1..] == s[1..] + t;
      SplitStringWritesAlike(WriteByte(w, Sanitize(s[0])), s[1..], t);
    }
  }

  /**
    Bytes without a newline that fit in the rest of the bottom row are placed
    left to right from the cursor; no scroll happens and no other cell changes.
   */
  lemma {:induction false} FillsBottomRow(w: Writer, s: seq<Byte>)
    requires Valid(w) && w.column + |s| <= BufferWidth && NoNewline(s)
    ensures WriteAll(w, s).column == w.column + |s|
    ensures forall r :: 0 <= r < BottomRow ==> WriteAll(w, s).buffer[r] == w.buffer[r]
    ensures forall i :: 0 <= i < |s| ==> WriteAll(w, s).buffer[BottomRow][w.column + i] == ScreenChar(s[i], w.color)
    ensures forall c :: 0 <= c < BufferWidth && !(w.column <= c < w.column + |s|) ==>
      WriteAll(w, s).buffer[BottomRow][c] == w.buffer[BottomRow][c]
    decreases |s|
  {
    if s != [] {
      var w1 := WriteByte(w, s[0]);
      var rest := s[1..];
      FillsBottomRow(w1, rest);
      var r := WriteAll(w, s);
      assert r == WriteAll(w1, rest);
      forall i | 0 <= i < |s|
        ensures r.buffer[BottomRow][w.column + i] == ScreenChar(s[i], w.color)
      {
        if i > 0 {
          assert rest[i - 1] == s[i];
          assert r.buffer[BottomRow][w1.column + (i - 1)] == ScreenChar(rest[i - 1], w.color);
        }
      }
    }
  }

  /** From column 0, eighty bytes without a newline fill the bottom row exactly, with no scroll. */
  lemma EightyBytesFillRow(w: Writer, s: seq<Byte>)
    requires Valid(w) && w.column == 0 && |s| == BufferWidth && NoNewline(s)
    ensures WriteAll(w, s).column == BufferWidth
    ensures WriteAll(w, s).buffer[BottomRow] == Cells(s, w.color)
    ensures forall r :: 0 <= r < BottomRow ==> WriteAll(w, s).buffer[r] == w.buffer[r]
  {
    FillsBottomRow(w, s);
  }

  /**
    The eighty-first byte after a full row scrolls exactly once: the full row
    moves up one, everything above it moves up one, and the byte lands at
    column 0 of a blank bottom row.
   */
  lemma EightyFirstByteScrollsOnce(w: Writer, s: seq<Byte>, b: Byte)
    requires Valid(w) && w.column == 0 && |s| == BufferWidth && NoNewline(s) && b != Newline
    ensures WriteAll(w, s + [b]).column == 1
    ensures forall r :: 0 <= r < BottomRow - 1 ==> WriteAll(w, s + [b]).buffer[r] == w.buffer[r + 1]
    ensures WriteAll(w, s + [b]).buffer[BottomRow - 1] == Cells(s, w.color)
    ensures WriteAll(w, s + [b]).buffer[BottomRow] == [ScreenChar(b, w.color)] + BlankRow(w.color)[1..]
  {
    var full := WriteAll(w, s);
    EightyBytesFillRow(w, s);
    WriteAllAppend(w, s, [b]);
    assert WriteAll(full, [b]) == WriteByte(full, b);
    var r := WriteByte(full, b);
    assert r.buffer[BottomRow] == [ScreenChar(b, w.color)] + BlankRow(w.color)[1..];
  }

  /** The glyphs a string write can leave on screen: printable ASCII or the placeholder. */
  predicate Displayable(b: Byte)
  {
    IsPrintable(b) || b == Unprintable
  }

  predicate ShowsOnlyDisplayable(chars: seq<seq<ScreenChar>>)
  {
    forall r, c :: 0 <= r < |chars| && 0 <= c < |chars[r]| ==> Displayable(chars[r][c].ascii)
  }

  lemma WriteByteKeepsDisplayable(w: Writer, b: Byte)
    requires Valid(w) && ShowsOnlyDisplayable(w.buffer) && (Displayable(b) || b == Newline)
    ensures ShowsOnlyDisplayable(WriteByte(w, b).buffer)
  {
    if w.column == BufferWidth || b == Newline {
      var s := Scroll(w);
      assert ShowsOnlyDisplayable(s.buffer) by {
        forall r, c | 0 <= r < BufferHeight && 0 <= c < BufferWidth
          ensures Displayable(s.buffer[r][c].ascii)
        {
          if r < BottomRow {
            assert s.buffer[r] == w.buffer[r + 1];
          }
        }
      }
    }
  }

  /** Bytes that are each displayable or a newline keep the screen displayable. */
  lemma {:induction false} WriteAllKeepsDisplayable(w: Writer, bytes: seq<Byte>)
    requires Valid(w) && ShowsOnlyDisplayable(w.buffer)
    requires forall i :: 0 <= i < |bytes| ==> Displayable(bytes[i]) || bytes[i] == Newline
    ensures ShowsOnlyDisplayable(WriteAll(w, bytes).buffer)
    decreases |bytes|
  {
    if bytes != [] {
      WriteByteKeepsDisplayable(w, bytes[0]);
      WriteAllKeepsDisplayable(WriteByte(w, bytes[0]), bytes[1..]);
    }
  }

  /** Whatever bytes a string holds, writing it puts only printable ASCII or the placeholder on screen. */
  lemma {:induction false} StringWriteShowsOnlyDisplayable(w: Writer, s: seq<Byte>)
    requires Valid(w) && ShowsOnlyDisplayable(w.buffer)
    ensures ShowsOnlyDisplayable(WriteSanitized(w, s).buffer)
  {
    WriteSanitizedMapsFirst(w, s);
    WriteAllKeepsDisplayable(w, SanitizeAll(s));
  }

  /** The bytes of "Hello\n". */
  const Hello: seq<Byte> := [0x48, 0x65, 0x6c, 0x6c, 0x6f, 0x0a]

  /**
    At column 0, "Hello\n" leaves the row just above the bottom holding
    H, e, l, l, o and then blanks, with a blank bottom row and the cursor at 0.
    Cells 0..4 of the bottom row are overwritten, so only cells 5..79 need to
    be blank beforehand.
   */
  lemma HelloOnFreshLine(w: Writer)
    requires Valid(w) && w.column == 0 && w.buffer[BottomRow][5..] == BlankRow(w.color)[5..]
    ensures WriteAll(w, SanitizeAll(Hello)).buffer[BottomRow - 1] == Cells(Hello[..5], w.color) + BlankRow(w.color)[5..]
    ensures WriteAll(w, SanitizeAll(Hello)).buffer[BottomRow] == BlankRow(w.color)
    ensures WriteAll(w, SanitizeAll(Hello)).column == 0
  {
    var text := Hello[..5];
    assert SanitizeAll(Hello) == text + [Newline];
    FillsBottomRow(w, text);
    WriteAllAppend(w, text, [Newline]);
    var typed := WriteAll(w, text);
    assert WriteAll(typed, [Newline]) == Scroll(typed);
    forall c | 5 <= c < BufferWidth
      ensures typed.buffer[BottomRow][c] == Blank(w.color)
    {
      assert w.buffer[BottomRow][5..][c - 5] == BlankRow(w.color)[5..][c - 5];
    }
    assert typed.buffer[BottomRow] == Cells(text, w.color) + BlankRow(w.color)[5..];
  }

  /**
    With the bottom row full, "Hello\n" gives the same rows as on a fresh line,
    whatever the bottom row held: the 'H' scrolls first, which blanks the bottom row.
   */
  lemma HelloAtColumn80(w: Writer)
    requires Valid(w) && w.column == BufferWidth
    ensures WriteAll(w, SanitizeAll(Hello)).buffer[BottomRow - 1] == Cells(Hello[..5], w.color) + BlankRow(w.color)[5..]
    ensures WriteAll(w, SanitizeAll(Hello)).buffer[BottomRow] == BlankRow(w.color)
    ensures WriteAll(w, SanitizeAll(Hello)).column == 0
  {
    var scrolled := Scroll(w);
    var text := SanitizeAll(Hello);
    assert text[0] == 0x48;
    assert WriteByte(w, text[0]) == WriteByte(scrolled, text[0]);
    assert WriteAll(w, text) == WriteAll(scrolled, text);
    assert scrolled.buffer[BottomRow][5..] == BlankRow(w.color)[5..];
    HelloOnFreshLine(scrolled);
  }
}
