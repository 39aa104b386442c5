# VGA text-mode writer

A Dafny model of the text-mode display writer of a small bare-metal kernel
(`src/vga_buffer.rs`). The writer owns a 25-row by 80-column grid of cells,
where each cell is an ASCII byte followed by a colour byte. It keeps a column
cursor on the bottom row and packs a foreground and a background colour into
one attribute byte. Bytes are written at the cursor. When the row is full, the
next byte scrolls the screen first. A newline scrolls without placing a glyph.
A string write replaces every byte outside printable ASCII or newline with the
placeholder glyph `0xfe`.

Layout:

- `colors.dfy`, module `Colors`: the sixteen colours, their 4-bit indices and
  `ColorCode::new`. Bytes are `bv8`, and the packing is a shift and an or, as
  the code writes it.
- `screen.dfy`, module `Screen`: `ScreenChar`, the buffer dimensions, blank
  cells and the grid shape.
- `writers.dfy`, module `Writers`: the `Writer` state and its operations:
  `clear_row`, `new_line` (the nested ascending copy loop), `write_byte`,
  the byte filter of `write_string`, `write_string` itself and `write_str`.
- `writer_facts.dfy`, module `WriterFacts`: properties of runs of writes. These
  cover filling the bottom row, the wrap on the 81st byte, splitting a string,
  the glyphs that can reach the screen, and the "Hello\n" example.

Every `&mut self` method of the writer is modelled as an operation that takes
the writer's state (cursor, colour, buffer) and returns the new state. The
buffer is a value, `seq<seq<ScreenChar>>`, of exactly 25 rows of 80 cells.
`Writers.Valid` is the invariant every operation keeps: a full grid and a
cursor in `0..=80`. `Writers.Scroll` is a declarative definition of one scroll.
The method `Writers.NewLine` runs the code's row-by-row copy loop and is proved
equal to it. `Writers.WriteAll` applies `write_byte` to a byte sequence in order.
`Writers.WriteSanitized` filters and writes a string one byte at a time, and
`Writers.WriteSanitizedMapsFirst` proves it equal to mapping the filter over the
string first and then applying `Writers.WriteAll`.

Two points where the model follows the code rather than its comments or the
usual reading:

- The comment above `ColorCode::new` (src/vga_buffer.rs:47-54) documents bits
  4-6 as the background and bit 7 as blink. The code shifts the whole 4-bit
  background, so backgrounds 8..15 set bit 7. `Colors.NewColorCode` states this.
- "Hello\n" does not always leave H, e, l, l, o followed by blanks on the row
  above the bottom. The result depends on the state before the write. Two
  sufficient conditions are proved. At column 0, cells 5..79 of the bottom row
  must already be blank, because only cells 0..4 are overwritten
  (`WriterFacts.HelloOnFreshLine`). At column 80, any bottom row works, because
  the 'H' scrolls first and the scroll blanks that row
  (`WriterFacts.HelloAtColumn80`).

## Model

| member | source | states |
|---|---|---|
| `Colors.Index` | src/vga_buffer.rs:11-28 | each colour's numeric value is a 4-bit index below 16 |
| `Colors.FromIndex` | src/vga_buffer.rs:11-28 | every index 0..15 names a colour whose value is that index |
| `Colors.IndexInjective` | src/vga_buffer.rs:11-28 | two colours have the same value exactly when they are the same colour, so value-to-colour inverts colour-to-value |
| `Colors.NewColorCode` | src/vga_buffer.rs:57-59 | the packed byte is `16 * background + foreground`, so no bit is lost; the low nibble (`& 0x0F`) is the foreground and the high nibble (`>> 4`) the background, and reading them back gives the two colours it was built from; bit 7 is set exactly when the background is 8..15 |
| `Colors.Foreground` | src/vga_buffer.rs:57-59 | the colour read from a packed byte is the one whose value is the byte's low nibble |
| `Colors.Background` | src/vga_buffer.rs:57-59 | the colour read from a packed byte is the one whose value is the byte's high nibble, so a set bit 7 reads as a background of 8..15 |
| `Colors.EncodeDecode` | src/vga_buffer.rs:57-59 | every byte value is the packing of the colour pair read from its nibbles, so the packing is a bijection between colour pairs and bytes |
| `Writers.InitialWriter` | src/vga_buffer.rs:35-37 | the writer starts valid, at column 0, with attribute `0x0E` (yellow on black), over the buffer as found |
| `Writers.Scroll` | src/vga_buffer.rs:129-139 | the declarative scroll (rows 1..24 move up, a blank bottom row, cursor 0) keeps a full grid, a cursor in range and the colour |
| `Writers.ClearRow` | src/vga_buffer.rs:141-150 | every cell of the given row becomes a space in the writer's colour; every other row, the cursor and the colour are unchanged |
| `Writers.NewLine` | src/vga_buffer.rs:129-139 | the ascending row copy followed by clearing the bottom row is exactly the declarative scroll: each new row r < 24 is old row r+1, old row 0 is gone, row 24 is all blanks in the writer's colour, the cursor is 0 and the colour is unchanged |
| `Writers.WriteByte` | src/vga_buffer.rs:98-117 | a newline has exactly the effect of a scroll and places no glyph; another byte at column c < 80 lands at (24, c) in the writer's colour, moves the cursor to c+1 and changes no other cell; another byte at column 80 first scrolls, then lands at (24, 0) with the rest of row 24 blank and the cursor at 1; the cursor stays in 0..=80 and the colour never changes |
| `Writers.Sanitize` | src/vga_buffer.rs:121-125 | the drawn byte is always printable, a newline or `0xfe`; a byte passes through unchanged exactly when it is printable ASCII (`0x20..=0x7e`), a newline, or `0xfe` itself; any byte that is changed becomes `0xfe` |
| `Writers.SanitizeAll` | src/vga_buffer.rs:119-126 | the filtered sequence has the same length as the input and its i-th byte is the filter of the i-th input byte |
| `Writers.WriteAll` | src/vga_buffer.rs:98-117 | writing bytes one `write_byte` at a time keeps the cursor in 0..=80, keeps a full grid and never changes the colour |
| `Writers.WriteSanitized` | src/vga_buffer.rs:119-126 | filtering and writing a string byte by byte keeps the cursor in 0..=80, keeps a full grid and never changes the colour |
| `Writers.WriteSanitizedMapsFirst` | src/vga_buffer.rs:119-126 | filtering each byte as it is written equals mapping the filter over the whole string and then writing the result with one `write_byte` per byte |
| `Writers.WriteString` | src/vga_buffer.rs:119-127 | the loop over the string's bytes has exactly the effect of one `write_byte` per input byte, in input order, each byte first passed through the filter; the cursor stays in 0..=80 and the colour is unchanged |
| `Writers.WriteStr` | src/vga_buffer.rs:155-158 | the text-stream write has the effect of `write_string` and always reports success |
| `WriterFacts.WriteAllAppend` | src/vga_buffer.rs:119-126 | writing `s` and then `t` is the same as writing `s + t`: bytes are neither buffered, dropped nor reordered |
| `WriterFacts.SplitStringWritesAlike` | src/vga_buffer.rs:119-126 | writing a string in two pieces leaves the same writer as writing it whole |
| `WriterFacts.FillsBottomRow` | src/vga_buffer.rs:101-115 | bytes without a newline that fit in the rest of the row are placed left to right from the cursor in the writer's colour, the cursor advances by their count, and no other cell changes |
| `WriterFacts.EightyBytesFillRow` | src/vga_buffer.rs:102-114 | from column 0, eighty bytes without a newline fill row 24 exactly, leave the cursor at 80 and scroll nothing |
| `WriterFacts.EightyFirstByteScrollsOnce` | src/vga_buffer.rs:102-114 | after eighty bytes from column 0, an 81st non-newline byte causes exactly one scroll: the full row is now row 23, rows above moved up by one, and the byte sits at (24, 0) of an otherwise blank row with the cursor at 1 |
| `WriterFacts.WriteByteKeepsDisplayable` | src/vga_buffer.rs:98-117 | writing a printable byte, `0xfe` or a newline keeps every glyph on screen printable or `0xfe` |
| `WriterFacts.WriteAllKeepsDisplayable` | src/vga_buffer.rs:119-126 | a run of such bytes keeps every glyph on screen printable or `0xfe` |
| `WriterFacts.StringWriteShowsOnlyDisplayable` | src/vga_buffer.rs:119-126 | whatever bytes a string holds, writing it keeps every glyph on screen printable ASCII or `0xfe` |
| `WriterFacts.HelloOnFreshLine` | src/vga_buffer.rs:98-139 | at column 0, with cells 5..79 of the bottom row blank, "Hello\n" leaves row 23 holding H, e, l, l, o followed by blanks, a blank row 24 and the cursor at 0 |
| `WriterFacts.HelloAtColumn80` | src/vga_buffer.rs:98-150 | at column 80, whatever the bottom row holds, "Hello\n" leaves the same rows 23 and 24 and cursor as on a fresh line, because the first byte scrolls and the scroll blanks the bottom row |

## Left out

- Volatile access (`Volatile<ScreenChar>`, src/vga_buffer.rs:84-87): each cell is modelled as a plain grid element. The guarantee that the compiler neither elides nor reorders the accesses cannot be stated in Dafny.
- The raw pointer to `0xb8000` and the `repr(C)` / `repr(transparent)` layout attributes (src/vga_buffer.rs:38, 44, 68, 84): they concern memory layout and hardware. The field order of `ScreenChar`, glyph byte first and then colour, is kept.
- The `lazy_static!` singleton and the `spin::Mutex` lock (src/vga_buffer.rs:30-40, 176): one-time initialisation and mutual exclusion between callers. No claim is made about the atomicity of concurrent writes. The screen contents at start-up are unknown memory and are a parameter of `Writers.InitialWriter`.
- The `print!` / `println!` macros and `_print` (src/vga_buffer.rs:161-177): they depend on the `core::fmt` formatting machinery, which is not part of this model. Only `write_str`, which they reach through `write_fmt`, is modelled.
- UTF-8: the input of `write_string` is modelled as an arbitrary byte sequence, not as a Rust `&str`, so the model also covers inputs that are not valid UTF-8.
- Integer width: the cursor is `usize` in the code. The model uses unbounded naturals because the cursor is proved never to exceed 80, so no overflow can occur.
- Writers.Scroll: its contract states only that it keeps the writer valid and the colour unchanged. Its meaning (rows moved up, blank bottom row) is stated by `Writers.NewLine`, which is proved equal to it.
