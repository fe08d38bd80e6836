/**
 * The proportional-fit IP renderer, `drawIPProportional`. The string is laid
 * out once as a strip of glyph column bytes (cached between frames), the
 * strip is scaled by a single factor to fill the 32-pixel width within the
 * available height, and each output pixel samples one source column and row.
 * The float arithmetic (the factor, the rounding of the output size and the
 * back-mapping of output to source coordinates) is taken as given through a
 * FloatFit; everything done to its results is modelled.
 */
module Proportional {
  import opened Bits
  import opened Font
  import opened Canvas
  import opened Framebuffer
  import opened Portrait

  /** Minimum reserved height: one unscaled glyph. */
  const MIN_AREA_HEIGHT := 7

  /** Columns of the strip for n characters: n * 5 glyph columns plus n - 1 spacers. */
  function StripWidth(n: int): int {
    6 * n - 1
  }

  /** Column p of the strip: a zero spacer after every glyph, glyph columns elsewhere. */
  function StripColumn(font: FontTable, text: Text, p: int): bv8
    requires 0 <= p < StripWidth(|text|)
  {
    if p % 6 == 5 then 0 else GlyphColumn(font, text[p / 6], p % 6)
  }

  predicate IsStrip(font: FontTable, text: Text, cols: seq<bv8>) {
    && |cols| == StripWidth(|text|)
    && forall p :: 0 <= p < |cols| ==> cols[p] == StripColumn(font, text, p)
  }

  /**
   * The strip in glyph terms: glyph i occupies columns 6i..6i+4, a zero
   * spacer follows every glyph but the last, and the strip ends on the last
   * glyph's fifth column.
   */
  lemma StripLayout(font: FontTable, text: Text, cols: seq<bv8>, i: int, k: int)
    requires IsStrip(font, text, cols)
    requires 0 <= i < |text| && 0 <= k < GLYPH_WIDTH
    ensures 6 * i + k < |cols| && cols[6 * i + k] == GlyphColumn(font, text[i], k)
    ensures i < |text| - 1 ==> cols[6 * i + 5] == 0
    ensures |cols| == 6 * (|text| - 1) + GLYPH_WIDTH
  {
    assert (6 * i + k) / 6 == i && (6 * i + k) % 6 == k;
    if i < |text| - 1 {
      assert (6 * i + 5) % 6 == 5;
    }
  }

  /** The strip for a text is unique, so equal texts give equal strips. */
  lemma StripUnique(font: FontTable, text: Text, a: seq<bv8>, b: seq<bv8>)
    requires IsStrip(font, text, a) && IsStrip(font, text, b)
    ensures a == b
  {
  }

  /**
   * The cache fill loop: five glyph columns per character, then a zero spacer
   * unless it is the last character.
   */
  method BuildStrip(font: FontTable, text: Text) returns (cols: seq<bv8>)
    requires text != []
    ensures IsStrip(font, text, cols)
  {
    var n := |text|;
    cols := [];
    var i := 0;
    while i < n
      invariant 0 <= i <= n
      invariant |cols| == if i < n then 6 * i else StripWidth(n)
      invariant forall p :: 0 <= p < |cols| ==> cols[p] == StripColumn(font, text, p)
    {
      var gc := 0;
      while gc < GLYPH_WIDTH
        invariant 0 <= gc <= GLYPH_WIDTH
        invariant |cols| == 6 * i + gc
        invariant forall p :: 0 <= p < |cols| ==> cols[p] == StripColumn(font, text, p)
      {
        assert (6 * i + gc) / 6 == i && (6 * i + gc) % 6 == gc;
        cols := cols + [GlyphColumn(font, text[i], gc)];
        gc := gc + 1;
      }
      if i != n - 1 {
        assert (6 * i + 5) % 6 == 5;
        cols := cols + [0];
      }
      i := i + 1;
    }
  }

  /** The function-local static cache of `drawIPProportional`. */
  datatype Cache = Cache(lastText: Text, srcCols: int, cols: seq<bv8>)

  /** The cache before the first frame: no text, no columns. */
  function EmptyCache(): Cache {
    Cache([], 0, [])
  }

  /** Either still empty, or holding the strip of its last text. */
  predicate CacheValid(font: FontTable, c: Cache) {
    || c == EmptyCache()
    || (c.lastText != [] && c.srcCols == StripWidth(|c.lastText|) && IsStrip(font, c.lastText, c.cols))
  }

  lemma EmptyCacheValid(font: FontTable)
    ensures CacheValid(font, EmptyCache())
  {
  }

  /**
   * The cache check: the strip is rebuilt only when the text differs from the
   * cached one; either way the cache then holds the strip of `text`.
   * `drawIPProportional` returns before this point for an empty text.
   */
  method Refresh(font: FontTable, cache: Cache, text: Text) returns (cache': Cache)
    requires text != []
    requires CacheValid(font, cache)
    ensures CacheValid(font, cache')
    ensures cache'.lastText == text && cache'.srcCols == |cache'.cols|
    ensures IsStrip(font, text, cache'.cols)
    ensures cache.lastText == text ==> cache' == cache
  {
    if cache.lastText != text {
      var cols := BuildStrip(font, text);
      cache' := Cache(text, StripWidth(|text|), cols);
    } else {
      cache' := cache;
    }
  }

  /** A second frame with the same text finds the cache as the first frame left it. */
  method RefreshTwice(font: FontTable, cache: Cache, text: Text) returns (first: Cache, second: Cache)
    requires text != []
    requires CacheValid(font, cache)
    ensures second == first
    ensures first.lastText == text && IsStrip(font, text, first.cols)
  {
    first := Refresh(font, cache, text);
    second := Refresh(font, first, text);
  }

  /**
   * What the float arithmetic yields for a strip srcCols wide and an area
   * heightAvail high: `round(srcCols * scale)`, `round(7 * scale)`, and the
   * truncated source column and row `(d + 0.5) / scale` of each output column
   * and row, before clamping.
   */
  datatype FloatFit = FloatFit(outW: int, outH: int, srcX: int -> int, srcY: int -> int)

  /** `if (heightAvail < 7) heightAvail = 7;` */
  function AreaHeight(heightAvail: int): (h: int)
    ensures h >= MIN_AREA_HEIGHT
    ensures heightAvail >= MIN_AREA_HEIGHT ==> h == heightAvail
  {
    if heightAvail < MIN_AREA_HEIGHT then MIN_AREA_HEIGHT else heightAvail
  }

  function Clamp(v: int, lo: int, hi: int): (r: int)
    requires lo <= hi
    ensures lo <= r <= hi
    ensures lo <= v <= hi ==> r == v
  {
    if v < lo then lo else if v > hi then hi else v
  }

  /** The output box: nothing at all, or w x h pixels with top-left corner (x, y). */
  datatype Fit = Skip | Box(x: int, y: int, w: int, h: int)

  /**
   * The integer part of the fit: a non-positive rounded width draws nothing;
   * otherwise the width is capped at 32, the height kept within 1..area, and
   * the box centred horizontally in the 32 columns and vertically in the area
   * below topY, so that it always lies inside the reserved area.
   */
  function Place(topY: int, heightAvail: int, outW: int, outH: int): (b: Fit)
    ensures b.Skip? <==> outW <= 0
    ensures b.Box? ==> b.w == (if outW > PORTRAIT_WIDTH then PORTRAIT_WIDTH else outW)
    ensures b.Box? ==> b.h == Clamp(outH, 1, AreaHeight(heightAvail))
    ensures b.Box? ==> 0 <= b.x && b.x + b.w <= PORTRAIT_WIDTH && b.x <= PORTRAIT_WIDTH - (b.x + b.w) <= b.x + 1
    ensures b.Box? ==> var area := AreaHeight(heightAvail);
              topY <= b.y && b.y + b.h <= topY + area && b.y - topY <= topY + area - (b.y + b.h) <= b.y - topY + 1
  {
    var area := AreaHeight(heightAvail);
    if outW <= 0 then Skip
    else
      var h := if outH < 1 then 1 else outH;
      var w := if outW > PORTRAIT_WIDTH then PORTRAIT_WIDTH else outW;
      var h' := if h > area then area else h;
      Box(CenterOffset(PORTRAIT_WIDTH, w), topY + CenterOffset(area, h'), w, h')
  }

  /** Output pixel (dx, dy) of the box is lit: its clamped source column has its clamped source row set. */
  predicate SampleLit(cols: seq<bv8>, f: FloatFit, dx: int, dy: int)
    requires cols != []
  {
    Bit(cols[Clamp(f.srcX(dx), 0, |cols| - 1)], Clamp(f.srcY(dy), 0, GLYPH_HEIGHT - 1))
  }

  /**
   * The sampling loops, output column outer and row inner: a pixel of the box
   * is turned on when its sample is lit; nothing is ever turned off.
   */
  function RenderFit(buf: Buffer, cols: seq<bv8>, f: FloatFit, x: int, y: int, w: int, h: int): (r: Buffer)
    requires cols != []
    ensures forall px, py :: InPortrait(px, py) ==>
              (PortraitPixel(r, px, py)
               <==> PortraitPixel(buf, px, py) || (0 <= px - x < w && 0 <= py - y < h && SampleLit(cols, f, px - x, py - y)))
  {
    var ws := Scan(w, h, (dx, dy) => SampleLit(cols, f, dx, dy), false, x, y, 0);
    ApplyPortraitPixel(buf, ws);
    forall px, py | InPortrait(px, py)
      ensures Final(ws, px, py, PortraitPixel(buf, px, py))
           == (PortraitPixel(buf, px, py) || (0 <= px - x < w && 0 <= py - y < h && SampleLit(cols, f, px - x, py - y)))
    {
      ScanEffect(w, h, (dx, dy) => SampleLit(cols, f, dx, dy), false, x, y, px, py, PortraitPixel(buf, px, py));
    }
    ApplyPortrait(buf, ws)
  }

  /**
   * The pixels the renderer lights for `text`, computed from the text alone:
   * the strip, the fit for its width and the area, and the clamped samples.
   */
  ghost predicate FitLit(font: FontTable, text: Text, topY: int, heightAvail: int, fit: (int, int) -> FloatFit, px: int, py: int) {
    text != [] &&
    var srcCols := StripWidth(|text|);
    var f := fit(srcCols, AreaHeight(heightAvail));
    var b := Place(topY, heightAvail, f.outW, f.outH);
    && b.Box?
    && 0 <= px - b.x < b.w && 0 <= py - b.y < b.h
    && Bit(StripColumn(font, text, Clamp(f.srcX(px - b.x), 0, srcCols - 1)), Clamp(f.srcY(py - b.y), 0, GLYPH_HEIGHT - 1))
  }

  /** Whatever the float arithmetic yields, the fitted text stays inside the reserved area below topY. */
  lemma FitInsideArea(font: FontTable, text: Text, topY: int, heightAvail: int, fit: (int, int) -> FloatFit, px: int, py: int)
    requires FitLit(font, text, topY, heightAvail, fit, px, py)
    ensures 0 <= px < PORTRAIT_WIDTH
    ensures topY <= py < topY + AreaHeight(heightAvail)
  {
  }

  /** Sampling the strip of `text` lights exactly what FitLit names. */
  lemma SampleMatchesFitLit(font: FontTable, text: Text, cols: seq<bv8>, topY: int, heightAvail: int,
                            fit: (int, int) -> FloatFit, px: int, py: int)
    requires text != [] && IsStrip(font, text, cols)
    ensures var f := fit(|cols|, AreaHeight(heightAvail));
            var b := Place(topY, heightAvail, f.outW, f.outH);
            (b.Box? && 0 <= px - b.x < b.w && 0 <= py - b.y < b.h && SampleLit(cols, f, px - b.x, py - b.y))
            <==> FitLit(font, text, topY, heightAvail, fit, px, py)
  {
  }

  /** One portrait pixel after sampling the strip of `text` into its box. */
  lemma RenderPixel(font: FontTable, buf: Buffer, text: Text, cols: seq<bv8>, topY: int, heightAvail: int,
                    fit: (int, int) -> FloatFit, px: int, py: int)
    requires text != [] && IsStrip(font, text, cols) && InPortrait(px, py)
    ensures var f := fit(|cols|, AreaHeight(heightAvail));
            var b := Place(topY, heightAvail, f.outW, f.outH);
            b.Box? ==> (PortraitPixel(RenderFit(buf, cols, f, b.x, b.y, b.w, b.h), px, py)
                        <==> PortraitPixel(buf, px, py) || FitLit(font, text, topY, heightAvail, fit, px, py))
  {
    SampleMatchesFitLit(font, text, cols, topY, heightAvail, fit, px, py);
  }

  /** The drawing half of `drawIPProportional`, from a strip of the text. */
  method DrawStrip(font: FontTable, buf: Buffer, text: Text, cols: seq<bv8>, topY: int, heightAvail: int,
                   fit: (int, int) -> FloatFit) returns (r: Buffer)
    requires text != [] && IsStrip(font, text, cols)
    ensures forall px, py :: InPortrait(px, py) ==>
              (PortraitPixel(r, px, py) <==> PortraitPixel(buf, px, py) || FitLit(font, text, topY, heightAvail, fit, px, py))
  {
    var f := fit(|cols|, AreaHeight(heightAvail));
    var b := Place(topY, heightAvail, f.outW, f.outH);
    if b.Skip? {
      r := buf;
    } else {
      r := RenderFit(buf, cols, f, b.x, b.y, b.w, b.h);
      forall px, py | InPortrait(px, py)
        ensures PortraitPixel(r, px, py) <==> PortraitPixel(buf, px, py) || FitLit(font, text, topY, heightAvail, fit, px, py)
      {
        RenderPixel(font, buf, text, cols, topY, heightAvail, fit, px, py);
      }
    }
  }

  /**
   * `drawIPProportional(text, topY, heightAvail)`: empty text changes nothing;
   * otherwise the cache ends up holding `text`, and the picture only gains the
   * pixels FitLit names, which depend on the text and not on what the cache
   * held before.
   */
  method DrawIPProportional(font: FontTable, buf: Buffer, cache: Cache, text: Text, topY: int, heightAvail: int,
                            fit: (int, int) -> FloatFit)
    returns (buf': Buffer, cache': Cache)
    requires CacheValid(font, cache)
    ensures CacheValid(font, cache')
    ensures text == [] ==> buf' == buf && cache' == cache
    ensures text != [] ==> cache'.lastText == text
    ensures forall px, py :: InPortrait(px, py) ==>
              (PortraitPixel(buf', px, py) <==> PortraitPixel(buf, px, py) || FitLit(font, text, topY, heightAvail, fit, px, py))
  {
    if text == [] {
      return buf, cache;
    }
    cache' := Refresh(font, cache, text);
    buf' := DrawStrip(font, buf, text, cache'.cols, topY, heightAvail, fit);
  }
}
