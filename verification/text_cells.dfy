/**
 * The unscaled 5x7 text loop shared by `SSD1306::drawText` and the portrait
 * `drawTextPortrait`: for each character (unprintable ones drawn as '?'),
 * for each of the 5 glyph columns, for each of the 7 rows, one write storing
 * the font bit, on or off; then the pen moves 6 columns right.
 */
module TextCells {
  import opened Bits
  import opened Font
  import opened Canvas

  /** The 35 writes of one glyph cell whose top-left corner is (x, y). */
  function GlyphWrites(font: FontTable, c: bv8, x: int, y: int): (ws: seq<Write>)
    ensures |ws| == GLYPH_WIDTH * GLYPH_HEIGHT
  {
    seq(35, k requires 0 <= k < 35 => Write(x + k / 7, y + k % 7, GlyphBit(font, c, k / 7, k % 7)))
  }

  function TextWrites(font: FontTable, text: Text, x: int, y: int): (ws: seq<Write>)
    ensures |ws| == 35 * |text|
    decreases |text|
  {
    if text == [] then [] else GlyphWrites(font, text[0], x, y) + TextWrites(font, text[1..], x + ADVANCE, y)
  }

  /** (px, py) lies in the 5x7 glyph area of one of the n cells drawn from (x, y). */
  predicate InTextCell(n: int, x: int, y: int, px: int, py: int) {
    && 0 <= px - x < ADVANCE * n
    && (px - x) % ADVANCE < GLYPH_WIDTH
    && 0 <= py - y < GLYPH_HEIGHT
  }

  /** The font bit that lands on (px, py): character (px-x)/6, column (px-x)%6, row py-y. */
  predicate TextBit(font: FontTable, text: Text, x: int, y: int, px: int, py: int)
    requires InTextCell(|text|, x, y, px, py)
  {
    GlyphBit(font, text[(px - x) / ADVANCE], (px - x) % ADVANCE, py - y)
  }

  lemma GlyphEffect(font: FontTable, c: bv8, x: int, y: int, px: int, py: int, before: bool)
    ensures Final(GlyphWrites(font, c, x, y), px, py, before)
         == if 0 <= px - x < GLYPH_WIDTH && 0 <= py - y < GLYPH_HEIGHT
            then GlyphBit(font, c, px - x, py - y) else before
  {
    var ws := GlyphWrites(font, c, x, y);
    if 0 <= px - x < GLYPH_WIDTH && 0 <= py - y < GLYPH_HEIGHT {
      var i := (px - x) * 7 + (py - y);
      assert i / 7 == px - x && i % 7 == py - y;
      assert Targets(ws[i], px, py);
      forall j | i < j < |ws|
        ensures !Targets(ws[j], px, py)
      {
        assert j / 7 > i / 7 || j % 7 > i % 7;
      }
      FinalLastWrite(ws, i, px, py, before);
    } else {
      assert !Hits(ws, px, py) by {
        forall j | 0 <= j < |ws|
          ensures !Targets(ws[j], px, py)
        {
        }
      }
      FinalMiss(ws, px, py, before);
    }
  }

  /**
   * The cells of a string are its first glyph's 5x7 area plus the cells of
   * the rest, one advance further right, and each pixel's font bit is read
   * from the glyph it falls in.
   */
  lemma TextCellStep(font: FontTable, text: Text, x: int, y: int, px: int, py: int)
    requires text != []
    ensures InTextCell(|text|, x, y, px, py)
        <==> (0 <= px - x < GLYPH_WIDTH && 0 <= py - y < GLYPH_HEIGHT) || InTextCell(|text| - 1, x + ADVANCE, y, px, py)
    ensures 0 <= px - x < GLYPH_WIDTH && 0 <= py - y < GLYPH_HEIGHT ==>
              InTextCell(|text|, x, y, px, py) && TextBit(font, text, x, y, px, py) == GlyphBit(font, text[0], px - x, py - y)
    ensures InTextCell(|text| - 1, x + ADVANCE, y, px, py) ==>
              && !(0 <= px - x < GLYPH_WIDTH)
              && InTextCell(|text|, x, y, px, py)
              && TextBit(font, text, x, y, px, py) == TextBit(font, text[1..], x + ADVANCE, y, px, py)
  {
    var u := px - x;
    var n := |text|;
    assert ADVANCE * n == ADVANCE * (n - 1) + ADVANCE;
    if u >= ADVANCE {
      assert (u - ADVANCE) / ADVANCE == u / ADVANCE - 1;
      assert (u - ADVANCE) % ADVANCE == u % ADVANCE;
    } else if u >= 0 {
      assert u / ADVANCE == 0 && u % ADVANCE == u;
    }
  }

  /**
   * After the text loop, a pixel inside a glyph area holds exactly its font
   * bit (cleared when the bit is 0), and every other pixel, including the
   * spacer column after each glyph, is left as it was.
   */
  lemma {:induction false} TextEffect(font: FontTable, text: Text, x: int, y: int, px: int, py: int, before: bool)
    ensures Final(TextWrites(font, text, x, y), px, py, before)
         == if InTextCell(|text|, x, y, px, py) then TextBit(font, text, x, y, px, py) else before
    decreases |text|
  {
    if text != [] {
      var head := GlyphWrites(font, text[0], x, y);
      var tail := TextWrites(font, text[1..], x + ADVANCE, y);
      FinalConcat(head, tail, px, py, before);
      GlyphEffect(font, text[0], x, y, px, py, before);
      TextEffect(font, text[1..], x + ADVANCE, y, px, py, Final(head, px, py, before));
      TextCellStep(font, text, x, y, px, py);
    }
  }
}
