/**
 * The CPU donut, `drawDonutPortrait`: a scan of the (2r+1)^2 square around
 * the centre, row by row, that turns on each pixel inside the annulus whose
 * angle lies within the percentage's sweep. The angle itself is the float
 * `atan2` of the offset in degrees; it is taken as given, and only the
 * normalisation into [0, 360) and the comparison are modelled, over reals.
 */
module Donut {
  import opened Canvas
  import opened Framebuffer
  import opened Portrait

  /** `if (percent < 0) percent = 0; if (percent > 100) percent = 100;` */
  function ClampPercent(percent: int): (p: int)
    ensures 0 <= p <= 100
    ensures 0 <= percent <= 100 ==> p == percent
    ensures percent < 0 ==> p == 0
    ensures percent > 100 ==> p == 100
  {
    if percent < 0 then 0 else if percent > 100 then 100 else percent
  }

  /** `rInner^2 <= dx^2 + dy^2 <= rOuter^2`: the test the scan does not `continue` past. */
  predicate InAnnulus(dx: int, dy: int, rOuter: int, rInner: int) {
    rInner * rInner <= dx * dx + dy * dy <= rOuter * rOuter
  }

  /** `if (ang < 0) ang += 360`: an `atan2` result in degrees moved into [0, 360). */
  function Normalize(deg: real): real {
    if deg < 0.0 then deg + 360.0 else deg
  }

  /** `360 * (percent / 100)`: the end of the sweep, in degrees. */
  function MaxDegrees(percent: int): real {
    360.0 * (percent as real / 100.0)
  }

  /**
   * The guard of the scan for offset (dx, dy): inside the annulus, and the
   * normalised angle no further round than the sweep of the clamped percent.
   */
  predicate DonutLit(rOuter: int, rInner: int, percent: int, atan2Deg: (int, int) -> real, dx: int, dy: int) {
    InAnnulus(dx, dy, rOuter, rInner) && Normalize(atan2Deg(dx, dy)) <= MaxDegrees(ClampPercent(percent))
  }

  /**
   * `drawDonutPortrait(cx, cy, rOuter, rInner, percent)`: only turns pixels
   * on, and turns on exactly the pixels of the scanned square whose offset
   * from the centre passes DonutLit.
   */
  function DrawDonutPortrait(buf: Buffer, cx: int, cy: int, rOuter: int, rInner: int, percent: int,
                             atan2Deg: (int, int) -> real): (r: Buffer)
    ensures forall px, py :: InPortrait(px, py) ==>
              (PortraitPixel(r, px, py)
               <==> PortraitPixel(buf, px, py)
                    || (-rOuter <= px - cx <= rOuter && -rOuter <= py - cy <= rOuter
                        && DonutLit(rOuter, rInner, percent, atan2Deg, px - cx, py - cy)))
  {
    var side := 2 * rOuter + 1;
    var lit := (a, b) => DonutLit(rOuter, rInner, percent, atan2Deg, b - rOuter, a - rOuter);
    var ws := Scan(side, side, lit, true, cx - rOuter, cy - rOuter, 0);
    ApplyPortraitPixel(buf, ws);
    forall px, py | InPortrait(px, py)
      ensures Final(ws, px, py, PortraitPixel(buf, px, py))
           == (PortraitPixel(buf, px, py)
               || (-rOuter <= px - cx <= rOuter && -rOuter <= py - cy <= rOuter
                   && DonutLit(rOuter, rInner, percent, atan2Deg, px - cx, py - cy)))
    {
      ScanEffect(side, side, lit, true, cx - rOuter, cy - rOuter, px, py, PortraitPixel(buf, px, py));
    }
    ApplyPortrait(buf, ws)
  }

  lemma SquareAtLeast(a: int, r: int)
    requires 0 <= r < a
    ensures r * r < a * a
  {
    assert r * r <= r * a;
    assert r * a < a * a;
  }

  /**
   * For a non-negative outer radius the scanned square covers the whole
   * annulus: a point with |dx| > rOuter or |dy| > rOuter is outside it.
   */
  lemma AnnulusInsideSquare(dx: int, dy: int, rOuter: int, rInner: int)
    requires rOuter >= 0 && InAnnulus(dx, dy, rOuter, rInner)
    ensures -rOuter <= dx <= rOuter && -rOuter <= dy <= rOuter
  {
    if dx > rOuter {
      SquareAtLeast(dx, rOuter);
    } else if -dx > rOuter {
      SquareAtLeast(-dx, rOuter);
    }
    if dy > rOuter {
      SquareAtLeast(dy, rOuter);
    } else if -dy > rOuter {
      SquareAtLeast(-dy, rOuter);
    }
  }

  /**
   * The renderer's donut, centre (16, 64), radii 15 and 12: every pixel it
   * lights lies on the canvas, so none is dropped, and the lit pixels are
   * exactly the annulus points within the sweep.
   */
  lemma CpuDonutOnCanvas(buf: Buffer, percent: int, atan2Deg: (int, int) -> real, px: int, py: int)
    requires InAnnulus(px - 16, py - 64, 15, 12)
    ensures InPortrait(px, py)
    ensures PortraitPixel(DrawDonutPortrait(buf, 16, 64, 15, 12, percent, atan2Deg), px, py)
        <==> PortraitPixel(buf, px, py) || Normalize(atan2Deg(px - 16, py - 64)) <= MaxDegrees(ClampPercent(percent))
  {
    AnnulusInsideSquare(px - 16, py - 64, 15, 12);
  }

  /**
   * With the percentage at 100 or more the sweep covers the circle: every
   * annulus point in the square is lit, whatever angle `atan2` reports
   * within (-180, 180].
   */
  lemma FullSweep(rOuter: int, rInner: int, percent: int, atan2Deg: (int, int) -> real, dx: int, dy: int)
    requires percent >= 100
    requires -180.0 < atan2Deg(dx, dy) <= 180.0
    requires InAnnulus(dx, dy, rOuter, rInner)
    ensures DonutLit(rOuter, rInner, percent, atan2Deg, dx, dy)
  {
  }

  /**
   * At 0 percent the sweep is the single angle 0, which `atan2(0, dx)` hits
   * for every dx > 0: the annulus pixels straight right of the centre stay lit.
   */
  lemma ZeroPercentRay(rOuter: int, rInner: int, percent: int, atan2Deg: (int, int) -> real, dx: int)
    requires percent <= 0
    requires dx > 0 && atan2Deg(dx, 0) == 0.0
    requires InAnnulus(dx, 0, rOuter, rInner)
    ensures DonutLit(rOuter, rInner, percent, atan2Deg, dx, 0)
  {
  }
}
