/**
 * Integer-scaled text on the portrait canvas. Every lit font bit becomes an
 * s x s block of lit pixels and unlit bits draw nothing, so this renderer
 * only ever turns pixels on. The centred variant picks the largest scale in
 * 6..1 at which the string, without its trailing spacer, fits the 32-pixel
 * width.
 */
module ScaledText {
  import opened Font
  import opened Canvas
  import opened Framebuffer
  import opened Portrait

  const MAX_SCALE := 6

  /** `if (scale < 1) scale = 1; if (scale > 6) scale = 6;` */
  function ClampScale(scale: int): (s: nat)
    ensures 1 <= s <= MAX_SCALE
    ensures 1 <= scale <= MAX_SCALE ==> s == scale
  {
    if scale < 1 then 1 else if scale > MAX_SCALE then MAX_SCALE else scale
  }

  predicate InBlock(px: int, py: int, x: int, y: int, s: int) {
    x <= px < x + s && y <= py < y + s
  }

  /** The innermost loop, `for (dy = 0; dy < s; ++dy)`: s pixels down from (x, y). */
  function ColumnRun(x: int, y: int, s: nat): (ws: seq<Write>)
    ensures AllStore(ws, true)
  {
    seq(s, dy => Write(x, y + dy, true))
  }

  /** The block loop `for (dx = dx0; dx < s; ++dx)`: columns dx0..s-1 of the s x s block at (x, y). */
  function BlockWrites(x: int, y: int, s: nat, dx: nat): (ws: seq<Write>)
    ensures AllStore(ws, true)
    decreases s - dx
  {
    if dx >= s then [] else ColumnRun(x + dx, y, s) + BlockWrites(x, y, s, dx + 1)
  }

  lemma {:induction false} BlockHits(x: int, y: int, s: nat, dx: nat, px: int, py: int)
    ensures Hits(BlockWrites(x, y, s, dx), px, py) <==> x + dx <= px < x + s && y <= py < y + s
    decreases s - dx
  {
    if dx < s {
      var run := ColumnRun(x + dx, y, s);
      HitsConcat(run, BlockWrites(x, y, s, dx + 1), px, py);
      BlockHits(x, y, s, dx + 1, px, py);
      if px == x + dx && y <= py < y + s {
        assert Targets(run[py - y], px, py);
      }
    }
  }

  /**
   * Font pixel (col, row) of `c` is lit and, drawn at scale s from (x, y),
   * its block covers (px, py).
   */
  predicate CellLit(font: FontTable, c: bv8, x: int, y: int, s: int, col: int, row: int, px: int, py: int) {
    && 0 <= col < GLYPH_WIDTH && 0 <= row < GLYPH_HEIGHT
    && GlyphBit(font, c, col, row)
    && InBlock(px, py, x + col * s, y + row * s, s)
  }

  /** The s x s block drawn for font pixel (col, row) when its bit is set, else nothing. */
  function PixelBlock(font: FontTable, c: bv8, x: int, y: int, s: nat, col: int, row: int): (ws: seq<Write>)
    requires 0 <= col < GLYPH_WIDTH && 0 <= row < GLYPH_HEIGHT
    ensures AllStore(ws, true)
  {
    if GlyphBit(font, c, col, row) then BlockWrites(x + col * s, y + row * s, s, 0) else []
  }

  /**
   * One glyph from its k-th font pixel on, k = 7 * col + row in the order of
   * `for (col) for (row)`: a block for each lit bit, nothing for an unlit one.
   */
  function CellWrites(font: FontTable, c: bv8, x: int, y: int, s: nat, k: nat): (ws: seq<Write>)
    ensures AllStore(ws, true)
    decreases GLYPH_WIDTH * GLYPH_HEIGHT - k
  {
    if k >= GLYPH_WIDTH * GLYPH_HEIGHT then []
    else PixelBlock(font, c, x, y, s, k / 7, k % 7) + CellWrites(font, c, x, y, s, k + 1)
  }

  ghost predicate CellLitFrom(font: FontTable, c: bv8, x: int, y: int, s: int, k: int, px: int, py: int) {
    exists col, row :: k <= 7 * col + row && CellLit(font, c, x, y, s, col, row, px, py)
  }

  /** Propositional glue: a union of two parts matched part by part. */
  lemma IffSplit(whole: bool, a: bool, b: bool, a': bool, b': bool, whole': bool)
    requires whole <==> a || b
    requires a <==> a'
    requires b <==> b'
    requires whole' <==> a' || b'
    ensures whole <==> whole'
  {
  }

  /** The block drawn for font pixel (col, row) is exactly that pixel's lit area. */
  lemma BlockLit(font: FontTable, c: bv8, x: int, y: int, s: nat, col: int, row: int, px: int, py: int)
    requires 0 <= col < GLYPH_WIDTH && 0 <= row < GLYPH_HEIGHT
    ensures Hits(PixelBlock(font, c, x, y, s, col, row), px, py) <==> CellLit(font, c, x, y, s, col, row, px, py)
  {
    if GlyphBit(font, c, col, row) {
      BlockHits(x + col * s, y + row * s, s, 0, px, py);
    }
  }

  /** The glyph's lit set from pixel k on is pixel k's block plus the rest. */
  lemma CellLitFromStep(font: FontTable, c: bv8, x: int, y: int, s: nat, k: nat, px: int, py: int)
    requires k < GLYPH_WIDTH * GLYPH_HEIGHT
    ensures CellLitFrom(font, c, x, y, s, k, px, py)
        <==> CellLit(font, c, x, y, s, k / 7, k % 7, px, py) || CellLitFrom(font, c, x, y, s, k + 1, px, py)
  {
    if CellLitFrom(font, c, x, y, s, k, px, py) {
      var col', row' :| k <= 7 * col' + row' && CellLit(font, c, x, y, s, col', row', px, py);
      if 7 * col' + row' == k {
        assert col' == k / 7 && row' == k % 7;
      } else {
        assert CellLitFrom(font, c, x, y, s, k + 1, px, py);
      }
    }
    if CellLit(font, c, x, y, s, k / 7, k % 7, px, py) {
      assert k <= 7 * (k / 7) + k % 7;
    }
    if CellLitFrom(font, c, x, y, s, k + 1, px, py) {
      var col', row' :| k + 1 <= 7 * col' + row' && CellLit(font, c, x, y, s, col', row', px, py);
      assert k <= 7 * col' + row';
    }
  }

  /** One font pixel further: the step of CellHits from k + 1 back to k. */
  lemma CellHitsStep(font: FontTable, c: bv8, x: int, y: int, s: nat, k: nat, px: int, py: int)
    requires k < GLYPH_WIDTH * GLYPH_HEIGHT
    requires Hits(CellWrites(font, c, x, y, s, k + 1), px, py) <==> CellLitFrom(font, c, x, y, s, k + 1, px, py)
    ensures Hits(CellWrites(font, c, x, y, s, k), px, py) <==> CellLitFrom(font, c, x, y, s, k, px, py)
  {
    var block := PixelBlock(font, c, x, y, s, k / 7, k % 7);
    var rest := CellWrites(font, c, x, y, s, k + 1);
    assert CellWrites(font, c, x, y, s, k) == block + rest;
    HitsConcat(block, rest, px, py);
    BlockLit(font, c, x, y, s, k / 7, k % 7, px, py);
    CellLitFromStep(font, c, x, y, s, k, px, py);
    IffSplit(Hits(block + rest, px, py), Hits(block, px, py), Hits(rest, px, py),
             CellLit(font, c, x, y, s, k / 7, k % 7, px, py), CellLitFrom(font, c, x, y, s, k + 1, px, py),
             CellLitFrom(font, c, x, y, s, k, px, py));
  }

  lemma {:induction false} CellHits(font: FontTable, c: bv8, x: int, y: int, s: nat, k: nat, px: int, py: int)
    ensures Hits(CellWrites(font, c, x, y, s, k), px, py) <==> CellLitFrom(font, c, x, y, s, k, px, py)
    decreases GLYPH_WIDTH * GLYPH_HEIGHT - k
  {
    if k < GLYPH_WIDTH * GLYPH_HEIGHT {
      CellHits(font, c, x, y, s, k + 1, px, py);
      CellHitsStep(font, c, x, y, s, k, px, py);
    }
  }

  /** The whole string, the pen moving `5 * s + s` columns after each character. */
  function ScaledWrites(font: FontTable, text: Text, x: int, y: int, s: nat): (ws: seq<Write>)
    ensures AllStore(ws, true)
    decreases |text|
  {
    if text == [] then []
    else GlyphBlocks(font, text[0], x, y, s) + ScaledWrites(font, text[1..], NextPen(x, s), y, s)
  }

  /** The pen after one character drawn at scale s: six columns of s pixels further right. */
  function NextPen(x: int, s: int): int {
    x + 6 * s
  }

  /** Font pixel (col, row) of the j-th character, drawn at scale s, covers (px, py). */
  predicate CharLit(font: FontTable, text: Text, x: int, y: int, s: int, j: int, col: int, row: int, px: int, py: int) {
    0 <= j < |text| && CellLit(font, text[j], x + 6 * s * j, y, s, col, row, px, py)
  }

  /** (px, py) lies in the s x s block of some lit font bit of the string drawn from (x, y). */
  ghost predicate ScaledLit(font: FontTable, text: Text, x: int, y: int, s: int, px: int, py: int) {
    exists j, col, row :: CharLit(font, text, x, y, s, j, col, row, px, py)
  }

  /** The pen after j + 1 characters is the pen after one character moved on by j. */
  lemma PenShift(x: int, s: int, j: int)
    ensures x + 6 * s * (j + 1) == (x + 6 * s) + 6 * s * j
  {
  }

  /** The string's lit set is its first glyph's plus the rest's, one advance further right. */
  lemma ScaledLitStep(font: FontTable, text: Text, x: int, y: int, s: nat, px: int, py: int)
    requires text != []
    ensures ScaledLit(font, text, x, y, s, px, py)
        <==> CellLitFrom(font, text[0], x, y, s, 0, px, py) || ScaledLit(font, text[1..], NextPen(x, s), y, s, px, py)
  {
    var x' := NextPen(x, s);
    if ScaledLit(font, text, x, y, s, px, py) {
      var j, col, row :| CharLit(font, text, x, y, s, j, col, row, px, py);
      if j == 0 {
        assert CellLit(font, text[0], x, y, s, col, row, px, py);
        assert CellLitFrom(font, text[0], x, y, s, 0, px, py);
      } else {
        PenShift(x, s, j - 1);
        assert text[1..][j - 1] == text[j];
        assert CharLit(font, text[1..], x', y, s, j - 1, col, row, px, py);
      }
    }
    if CellLitFrom(font, text[0], x, y, s, 0, px, py) {
      var col, row :| 0 <= 7 * col + row && CellLit(font, text[0], x, y, s, col, row, px, py);
      assert CharLit(font, text, x, y, s, 0, col, row, px, py);
    }
    if ScaledLit(font, text[1..], x', y, s, px, py) {
      var j, col, row :| CharLit(font, text[1..], x', y, s, j, col, row, px, py);
      PenShift(x, s, j);
      assert CharLit(font, text, x, y, s, j + 1, col, row, px, py);
    }
  }

  /** The blocks of one glyph: one per lit font bit, column by column. */
  function GlyphBlocks(font: FontTable, c: bv8, x: int, y: int, s: nat): (ws: seq<Write>)
    ensures AllStore(ws, true)
  {
    CellWrites(font, c, x, y, s, 0)
  }

  /** A glyph's blocks cover exactly the areas of its lit font bits. */
  lemma GlyphBlocksHits(font: FontTable, c: bv8, x: int, y: int, s: nat, px: int, py: int)
    ensures Hits(GlyphBlocks(font, c, x, y, s), px, py) <==> CellLitFrom(font, c, x, y, s, 0, px, py)
  {
    CellHits(font, c, x, y, s, 0, px, py);
  }

  /** A non-empty string's program is its first glyph's blocks, then the rest one advance further right. */
  lemma ScaledWritesStep(font: FontTable, text: Text, x: int, y: int, s: nat)
    requires text != []
    ensures ScaledWrites(font, text, x, y, s) == GlyphBlocks(font, text[0], x, y, s) + ScaledWrites(font, text[1..], NextPen(x, s), y, s)
  {
  }

  /** A pixel is hit by a non-empty string's program iff its first glyph or the rest hits it. */
  lemma ScaledHitsSplit(font: FontTable, text: Text, x: int, y: int, s: nat, px: int, py: int)
    requires text != []
    ensures Hits(ScaledWrites(font, text, x, y, s), px, py)
        <==> Hits(GlyphBlocks(font, text[0], x, y, s), px, py) || Hits(ScaledWrites(font, text[1..], NextPen(x, s), y, s), px, py)
  {
    ScaledWritesStep(font, text, x, y, s);
    HitsConcat(GlyphBlocks(font, text[0], x, y, s), ScaledWrites(font, text[1..], NextPen(x, s), y, s), px, py);
  }

  /** The induction step of ScaledHits: the rest's agreement gives the whole string's. */
  lemma ScaledHitsStep(font: FontTable, text: Text, x: int, y: int, s: nat, px: int, py: int)
    requires text != []
    requires Hits(ScaledWrites(font, text[1..], NextPen(x, s), y, s), px, py) <==> ScaledLit(font, text[1..], NextPen(x, s), y, s, px, py)
    ensures Hits(ScaledWrites(font, text, x, y, s), px, py) <==> ScaledLit(font, text, x, y, s, px, py)
  {
    ScaledHitsSplit(font, text, x, y, s, px, py);
    GlyphBlocksHits(font, text[0], x, y, s, px, py);
    ScaledLitStep(font, text, x, y, s, px, py);
  }

  lemma {:induction false} ScaledHits(font: FontTable, text: Text, x: int, y: int, s: nat, px: int, py: int)
    ensures Hits(ScaledWrites(font, text, x, y, s), px, py) <==> ScaledLit(font, text, x, y, s, px, py)
    decreases |text|
  {
    if text != [] {
      ScaledHits(font, text[1..], NextPen(x, s), y, s, px, py);
      ScaledHitsStep(font, text, x, y, s, px, py);
    }
  }

  /**
   * `drawScaledTextPortrait(x, y, text, scale)`: with the scale clamped to
   * 1..6, a portrait pixel is lit afterwards exactly when it was lit before
   * or lies in the block of a lit font bit. Nothing is ever cleared.
   */
  function DrawScaledTextPortrait(font: FontTable, buf: Buffer, x: int, y: int, text: Text, scale: int): (r: Buffer)
    ensures forall px, py :: InPortrait(px, py) ==>
              (PortraitPixel(r, px, py) <==> PortraitPixel(buf, px, py) || ScaledLit(font, text, x, y, ClampScale(scale), px, py))
  {
    var s := ClampScale(scale);
    var ws := ScaledWrites(font, text, x, y, s);
    ApplyPortraitPixel(buf, ws);
    forall px, py | InPortrait(px, py)
      ensures Final(ws, px, py, PortraitPixel(buf, px, py))
           == (PortraitPixel(buf, px, py) || ScaledLit(font, text, x, y, s, px, py))
    {
      FinalUniform(ws, true, px, py, PortraitPixel(buf, px, py));
      ScaledHits(font, text, x, y, s, px, py);
    }
    ApplyPortrait(buf, ws)
  }

  /** Width of n glyphs at scale 1 without the trailing spacer: n * 5 + (n - 1). */
  function BaseWidth(n: int): int {
    6 * n - 1
  }

  /** A string `w` pixels wide at scale 1 fits the portrait width at scale s. */
  predicate Fits(w: int, s: int) {
    w * s <= PORTRAIT_WIDTH
  }

  /**
   * The search `for (scale = from; scale >= 1; --scale) if fits: break`,
   * starting from 1 when nothing fits: the largest scale in 1..from that
   * fits, or 1.
   */
  function ScaleFrom(w: int, from: int): (r: int)
    requires from <= MAX_SCALE
    ensures 1 <= r <= MAX_SCALE
    ensures r <= from || r == 1
    ensures forall t :: r < t <= from ==> !Fits(w, t)
    ensures Fits(w, r) || (r == 1 && forall t :: 1 <= t <= from ==> !Fits(w, t))
    decreases from
  {
    if from < 1 then 1 else if Fits(w, from) then from else ScaleFrom(w, from - 1)
  }

  /** The scale `drawScaledTextPortraitCentered` picks for n characters. */
  function ChooseScale(n: int): (s: int)
    ensures 1 <= s <= MAX_SCALE
    ensures forall t :: s < t <= MAX_SCALE ==> !Fits(BaseWidth(n), t)
    ensures Fits(BaseWidth(n), s) || (s == 1 && forall t :: 1 <= t <= MAX_SCALE ==> !Fits(BaseWidth(n), t))
  {
    ScaleFrom(BaseWidth(n), MAX_SCALE)
  }

  /** The two-character status text "OK" is drawn at scale 2: 11 * 2 <= 32 < 11 * 3. */
  lemma TwoCharacterScale(text: Text)
    requires text == [0x4F, 0x4B]
    ensures ChooseScale(|text|) == 2
  {
  }

  /** From six characters on (35 columns) nothing fits and the scale falls back to 1. */
  lemma LongTextScale(n: int)
    requires n >= 6
    ensures ChooseScale(n) == 1
  {
  }

  /** Start column of the centred scaled string: `max(0, (32 - baseW * s) / 2)`. */
  function ScaledStart(n: int): int {
    CenterOffset(PORTRAIT_WIDTH, BaseWidth(n) * ChooseScale(n))
  }

  /**
   * `drawScaledTextPortraitCentered(y, text)`: empty text draws nothing;
   * otherwise the string is drawn at ChooseScale(n) from column ScaledStart(n).
   */
  function DrawScaledTextPortraitCentered(font: FontTable, buf: Buffer, y: int, text: Text): (r: Buffer)
    ensures text == [] ==> r == buf
    ensures text != [] ==> forall px, py :: InPortrait(px, py) ==>
              (PortraitPixel(r, px, py)
               <==> PortraitPixel(buf, px, py) || ScaledLit(font, text, ScaledStart(|text|), y, ChooseScale(|text|), px, py))
  {
    if text == [] then buf
    else DrawScaledTextPortrait(font, buf, ScaledStart(|text|), y, text, ChooseScale(|text|))
  }

  lemma MulMonotone(a: int, b: int, c: int)
    requires a <= b && c >= 0
    ensures a * c <= b * c
  {
  }

  /** Arithmetic of ScaledLitBounds: a block of glyph j, column col, ends inside the string's width. */
  lemma BlockInsideWidth(x: int, s: nat, j: int, n: int, col: int, px: int)
    requires 0 <= j < n && 0 <= col < GLYPH_WIDTH
    requires x + 6 * s * j + col * s <= px < x + 6 * s * j + col * s + s
    ensures x <= px < x + BaseWidth(n) * s
  {
    var pen, inner, last := 6 * s * j, col * s, 6 * s * (n - 1);
    assert 0 <= pen <= last by {
      MulMonotone(0, j, 6 * s);
      MulMonotone(j, n - 1, 6 * s);
    }
    assert 0 <= inner <= 4 * s by {
      MulMonotone(0, col, s);
      MulMonotone(col, 4, s);
    }
    assert BaseWidth(n) * s == last + 5 * s;
    assert x + pen + inner <= px < x + pen + inner + s;
  }

  /**
   * The lit blocks of a string drawn at scale s from (x, y) lie within its
   * baseW * s by 7 * s box: the trailing spacer is never drawn on.
   */
  lemma ScaledLitBounds(font: FontTable, text: Text, x: int, y: int, s: nat, px: int, py: int)
    requires ScaledLit(font, text, x, y, s, px, py)
    ensures x <= px < x + BaseWidth(|text|) * s
    ensures y <= py < y + 7 * s
  {
    var j, col, row :| CharLit(font, text, x, y, s, j, col, row, px, py);
    BlockInsideWidth(x, s, j, |text|, col, px);
    MulMonotone(0, row, s);
    MulMonotone(row, 6, s);
  }

  /**
   * For one to five characters the centred string fits: every pixel it lights
   * lies between equal-within-one margins inside the 32 columns.
   */
  lemma CenteredScaledInside(font: FontTable, text: Text, y: int, px: int, py: int)
    requires 1 <= |text| <= 5
    requires ScaledLit(font, text, ScaledStart(|text|), y, ChooseScale(|text|), px, py)
    ensures var x := ScaledStart(|text|);
            var w := BaseWidth(|text|) * ChooseScale(|text|);
            0 <= x <= px < x + w <= PORTRAIT_WIDTH && x <= PORTRAIT_WIDTH - (x + w) <= x + 1
  {
    var n := |text|;
    var s := ChooseScale(n);
    assert Fits(BaseWidth(n), 1);
    assert Fits(BaseWidth(n), s);
    ScaledLitBounds(font, text, ScaledStart(n), y, s, px, py);
  }
}
