/**
 * The portrait adapter: a virtual 32x128 canvas with no storage of its own,
 * every portrait pixel (xp, yp) being device pixel (yp, 31 - xp), and the
 * unscaled portrait drawing primitives built on it.
 */
module Portrait {
  import opened Font
  import opened Canvas
  import opened TextCells
  import opened Framebuffer

  const PORTRAIT_WIDTH := 32
  const PORTRAIT_HEIGHT := 128

  predicate InPortrait(xp: int, yp: int) {
    0 <= xp < PORTRAIT_WIDTH && 0 <= yp < PORTRAIT_HEIGHT
  }

  /** The 90-degree rotation (xp, yp) -> (yp, 31 - xp). */
  function ToDevice(xp: int, yp: int): (int, int) {
    (yp, PORTRAIT_WIDTH - 1 - xp)
  }

  /** The inverse rotation (xd, yd) -> (31 - yd, xd). */
  function FromDevice(xd: int, yd: int): (int, int) {
    (PORTRAIT_WIDTH - 1 - yd, xd)
  }

  /**
   * The rotation is a bijection from the 32x128 portrait canvas onto the
   * 128x32 panel: it maps the canvas into the panel, FromDevice maps the
   * panel back into the canvas, and the two undo each other.
   */
  lemma RotationBijective(xp: int, yp: int, xd: int, yd: int)
    ensures InPortrait(xp, yp) <==> InRange(ToDevice(xp, yp).0, ToDevice(xp, yp).1)
    ensures InRange(xd, yd) <==> InPortrait(FromDevice(xd, yd).0, FromDevice(xd, yd).1)
    ensures FromDevice(ToDevice(xp, yp).0, ToDevice(xp, yp).1) == (xp, yp)
    ensures ToDevice(FromDevice(xd, yd).0, FromDevice(xd, yd).1) == (xd, yd)
  {
  }

  /** Distinct portrait pixels land on distinct device pixels. */
  lemma RotationInjective(x1: int, y1: int, x2: int, y2: int)
    requires ToDevice(x1, y1) == ToDevice(x2, y2)
    ensures x1 == x2 && y1 == y2
  {
  }

  /** Whether portrait pixel (xp, yp) is lit. */
  predicate PortraitPixel(buf: Buffer, xp: int, yp: int)
    requires InPortrait(xp, yp)
  {
    Pixel(buf, yp, PORTRAIT_WIDTH - 1 - xp)
  }

  /**
   * `setPortraitPixel`: portrait pixel (xp, yp) becomes `on` and no other
   * changes; points off the canvas are dropped by the device bounds check.
   */
  function SetPortraitPixel(buf: Buffer, xp: int, yp: int, on: bool): (r: Buffer)
    ensures !InPortrait(xp, yp) ==> r == buf
    ensures forall a, b :: InPortrait(a, b) ==>
              PortraitPixel(r, a, b) == if a == xp && b == yp then on else PortraitPixel(buf, a, b)
  {
    SetPixelEffect(buf, yp, PORTRAIT_WIDTH - 1 - xp, on);
    SetPixel(buf, yp, PORTRAIT_WIDTH - 1 - xp, on)
  }

  /** A portrait write program, each write rotated onto the device. */
  function ToDeviceWrites(ws: seq<Write>): (ds: seq<Write>)
    ensures |ds| == |ws|
  {
    seq(|ws|, i requires 0 <= i < |ws| => Write(ws[i].y, PORTRAIT_WIDTH - 1 - ws[i].x, ws[i].on))
  }

  lemma {:induction false} RotatedFinal(ws: seq<Write>, xp: int, yp: int, before: bool)
    ensures Final(ToDeviceWrites(ws), yp, PORTRAIT_WIDTH - 1 - xp, before) == Final(ws, xp, yp, before)
    decreases |ws|
  {
    if ws != [] {
      var init := ws[..|ws| - 1];
      assert ToDeviceWrites(ws)[..|ws| - 1] == ToDeviceWrites(init);
      RotatedFinal(init, xp, yp, before);
    }
  }

  /** Runs a portrait write program: one `setPortraitPixel` per write, in order. */
  function ApplyPortrait(buf: Buffer, ws: seq<Write>): Buffer {
    Apply(buf, ToDeviceWrites(ws))
  }

  /** Each portrait pixel ends up as the program's last write to it says. */
  lemma ApplyPortraitPixel(buf: Buffer, ws: seq<Write>)
    ensures forall xp, yp :: InPortrait(xp, yp) ==>
              PortraitPixel(ApplyPortrait(buf, ws), xp, yp) == Final(ws, xp, yp, PortraitPixel(buf, xp, yp))
  {
    ApplyPixel(buf, ToDeviceWrites(ws));
    forall xp, yp | InPortrait(xp, yp)
      ensures PortraitPixel(ApplyPortrait(buf, ws), xp, yp) == Final(ws, xp, yp, PortraitPixel(buf, xp, yp))
    {
      RotatedFinal(ws, xp, yp, PortraitPixel(buf, xp, yp));
    }
  }

  /** `drawHLinePortrait(x, y, w, on)`: exactly the portrait pixels (x + i, y), 0 <= i < w. */
  function DrawHLinePortrait(buf: Buffer, x: int, y: int, w: int, on: bool): (r: Buffer)
    ensures forall px, py :: InPortrait(px, py) ==>
              PortraitPixel(r, px, py) == if py == y && x <= px < x + w then on else PortraitPixel(buf, px, py)
  {
    var ws := HLineWrites(x, y, w, on);
    ApplyPortraitPixel(buf, ws);
    forall px, py | InPortrait(px, py)
      ensures Final(ws, px, py, PortraitPixel(buf, px, py))
           == if py == y && x <= px < x + w then on else PortraitPixel(buf, px, py)
    {
      HLineEffect(x, y, w, on, px, py, PortraitPixel(buf, px, py));
    }
    ApplyPortrait(buf, ws)
  }

  /**
   * `drawTextPortrait(x, y, text)`: each 5x7 glyph cell, 6 columns apart,
   * gets its font bits written on or off; every other pixel keeps its value.
   */
  function DrawTextPortrait(font: FontTable, buf: Buffer, x: int, y: int, text: Text): (r: Buffer)
    ensures forall px, py :: InPortrait(px, py) ==>
              PortraitPixel(r, px, py) == if InTextCell(|text|, x, y, px, py) then TextBit(font, text, x, y, px, py)
                                          else PortraitPixel(buf, px, py)
  {
    var ws := TextWrites(font, text, x, y);
    ApplyPortraitPixel(buf, ws);
    forall px, py | InPortrait(px, py)
      ensures Final(ws, px, py, PortraitPixel(buf, px, py))
           == if InTextCell(|text|, x, y, px, py) then TextBit(font, text, x, y, px, py) else PortraitPixel(buf, px, py)
    {
      TextEffect(font, text, x, y, px, py, PortraitPixel(buf, px, py));
    }
    ApplyPortrait(buf, ws)
  }

  /** C++ `a / 2` on int: the quotient truncated toward zero. */
  function Half(a: int): (q: int)
    ensures a >= 0 ==> 2 * q <= a <= 2 * q + 1
    ensures a < 0 ==> 2 * q - 1 <= a <= 2 * q
  {
    if a >= 0 then a / 2 else -((-a) / 2)
  }

  /**
   * `(avail - w) / 2`, raised to 0: the offset that centres w pixels in
   * avail. When they fit, the two margins differ by at most one pixel, the
   * extra one on the far side.
   */
  function CenterOffset(avail: int, w: int): (x: int)
    ensures x >= 0
    ensures w <= avail ==> x <= avail - w - x <= x + 1
    ensures w > avail ==> x == 0
  {
    var x := Half(avail - w);
    if x < 0 then 0 else x
  }

  /** Start column of `drawCenteredTextPortrait`: the n * 6 columns it reserves, centred in 32. */
  function CenteredStart(n: int): int {
    CenterOffset(PORTRAIT_WIDTH, ADVANCE * n)
  }

  /**
   * `drawCenteredTextPortrait(y, text)`: the unscaled text drawn from
   * column CenteredStart(n), which leaves equal margins either side of the
   * n * 6 columns it reserves, or starts at 0 when they do not fit.
   */
  function DrawCenteredTextPortrait(font: FontTable, buf: Buffer, y: int, text: Text): (r: Buffer)
    ensures forall px, py :: InPortrait(px, py) ==>
              PortraitPixel(r, px, py)
              == if InTextCell(|text|, CenteredStart(|text|), y, px, py)
                 then TextBit(font, text, CenteredStart(|text|), y, px, py)
                 else PortraitPixel(buf, px, py)
  {
    DrawTextPortrait(font, buf, CenteredStart(|text|), y, text)
  }
}
