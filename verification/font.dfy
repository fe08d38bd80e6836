/**
 * The 5x7 bitmap font shared by the panel driver and the portrait renderer.
 * The table itself (96 glyphs, codes 32..127, five column bytes each, bit i
 * of a column byte is row i) is not part of this model, so it is carried as
 * a parameter of the rasterisers: every property proved here holds for every
 * table of that shape.
 */
module Font {
  import opened Bits

  /** Number of printable codes covered by the table, 32..127. */
  const FIRST_CODE := 32
  const LAST_CODE := 127
  const GLYPH_COUNT := 96
  const GLYPH_WIDTH := 5
  const GLYPH_HEIGHT := 7
  /** Pen advance of the unscaled renderers: glyph plus one spacer column. */
  const ADVANCE := 6

  /**
   * A byte string, as `std::string` holds it: the renderers read each `char`
   * through `static_cast<uint8_t>`, so text to be drawn is a byte sequence.
   */
  type Text = seq<bv8>

  type FontTable = f: seq<bv8> | |f| == GLYPH_COUNT * GLYPH_WIDTH witness seq(480, _ => 0)

  const QUESTION_MARK: bv8 := 0x3F

  /** Codes outside 32..127 are drawn as '?'. */
  function Substitute(c: bv8): (code: int)
    ensures FIRST_CODE <= code <= LAST_CODE
    ensures FIRST_CODE <= c as int <= LAST_CODE ==> code == c as int
    ensures !(FIRST_CODE <= c as int <= LAST_CODE) ==> code == QUESTION_MARK as int
  {
    if c < 32 || c > 127 then QUESTION_MARK as int else c as int
  }

  /** Index of column `col` of the glyph for byte `c`: `(c - 32) * 5 + col`. */
  function ColumnIndex(c: bv8, col: int): (i: int)
    requires 0 <= col < GLYPH_WIDTH
    ensures 0 <= i < GLYPH_COUNT * GLYPH_WIDTH
    ensures i / GLYPH_WIDTH == Substitute(c) - FIRST_CODE
    ensures i % GLYPH_WIDTH == col
  {
    (Substitute(c) - FIRST_CODE) * GLYPH_WIDTH + col
  }

  /** The column byte `glyph[col]`. */
  function GlyphColumn(font: FontTable, c: bv8, col: int): bv8
    requires 0 <= col < GLYPH_WIDTH
  {
    font[ColumnIndex(c, col)]
  }

  /** Whether the font pixel at (col, row) of the glyph for `c` is lit. */
  predicate GlyphBit(font: FontTable, c: bv8, col: int, row: int)
    requires 0 <= col < GLYPH_WIDTH && 0 <= row < GLYPH_HEIGHT
  {
    Bit(GlyphColumn(font, c, col), row)
  }

  /** Every byte outside the printable range shares the glyph of '?'. */
  lemma UnprintableDrawsQuestionMark(font: FontTable, c: bv8, col: int)
    requires 0 <= col < GLYPH_WIDTH
    requires c < 32 || c > 127
    ensures GlyphColumn(font, c, col) == GlyphColumn(font, QUESTION_MARK, col)
  {
  }
}
