/**
 * The per-frame decisions of the renderer's main loop: which of the two
 * lower-band screens a frame shows, when the warning glyph is drawn, and the
 * validation of the logging interval read from the environment. The texts of
 * the band lines are produced by `snprintf` from the collected statistics;
 * they are taken as given here.
 */
module Composer {
  import opened Font
  import opened Canvas
  import opened TextCells
  import opened Framebuffer
  import opened Portrait

  /** `(counter / 6) % 2 == 0`: the first of the two lower-band screens. */
  predicate PhaseA(counter: nat) {
    (counter / 6) % 2 == 0
  }

  /**
   * The lower band alternates every six frames: phase A for the first six of
   * every twelve, phase B for the next six.
   */
  lemma {:induction false} PhaseSchedule(counter: nat)
    ensures PhaseA(counter) <==> counter % 12 < 6
    ensures PhaseA(counter + 6) == !PhaseA(counter)
    ensures PhaseA(counter + 12) == PhaseA(counter)
  {
    var q := counter / 12;
    var m := counter % 12;
    assert counter == 12 * q + m;
    assert counter / 6 == 2 * q + m / 6;
    assert (counter + 6) / 6 == 2 * q + m / 6 + 1;
    assert (counter + 12) / 6 == 2 * q + m / 6 + 2;
  }

  /** `haveV && volts < uvThreshold && volts > 0.0`, the reading taken as an exact real. */
  predicate LowVoltage(haveV: bool, volts: real, uvThreshold: real) {
    haveV && volts < uvThreshold && volts > 0.0
  }

  /** Where the main loop anchors the warning glyph: column 2 of the lower text row. */
  const WARNING_X := 2
  const WARNING_Y := 101

  /**
   * The warning glyph anchored at (x0, y0): a wedge of 11 columns, column
   * x0 + dx being dx / 2 + 1 pixels tall from row y0, and three ticks in
   * column x0 + 5 at rows y0 + 2, y0 + 4 and y0 + 6. The renderer draws it
   * at (2, 101), so the ticks are in column 7.
   */
  predicate WarningLit(x0: int, y0: int, px: int, py: int) {
    || (x0 <= px < x0 + 11 && 0 <= py - y0 < (px - x0) / 2 + 1)
    || (px == x0 + 5 && (py == y0 + 2 || py == y0 + 4 || py == y0 + 6))
  }

  /** The guard of the wedge's inner loop: column a (absolute) is lit below row (a - x0) / 2 + 1. */
  function WedgeCells(x0: int): (int, int) -> bool {
    (a, b) => b < (a - x0) / 2 + 1
  }

  /**
   * The wedge loop `for dx < 11, for dy < dx / 2 + 1: setPortraitPixel(x0 + dx, y0 + dy)`,
   * its outer counter running over the absolute columns x0 .. x0 + 10. No
   * column is taller than 6, so the inner scan stops at 6.
   */
  function WedgeWrites(x0: int, y0: int): (ws: seq<Write>)
    ensures AllStore(ws, true)
  {
    Scan(x0 + 11, 6, WedgeCells(x0), false, 0, y0, x0)
  }

  /** The three tick writes. */
  function TickWrites(x0: int, y0: int): (ws: seq<Write>)
    ensures AllStore(ws, true)
  {
    [Write(x0 + 5, y0 + 2, true), Write(x0 + 5, y0 + 4, true), Write(x0 + 5, y0 + 6, true)]
  }

  /** The wedge, then the ticks. */
  function WarningWrites(x0: int, y0: int): (ws: seq<Write>)
    ensures AllStore(ws, true)
  {
    AllStoreConcat(WedgeWrites(x0, y0), TickWrites(x0, y0), true);
    WedgeWrites(x0, y0) + TickWrites(x0, y0)
  }

  lemma WedgeHeight(dx: int)
    requires 0 <= dx < 11
    ensures dx / 2 + 1 <= 6
  {
  }

  lemma WedgeEffect(x0: int, y0: int, px: int, py: int, before: bool)
    ensures Final(WedgeWrites(x0, y0), px, py, before)
            == (before || (x0 <= px < x0 + 11 && 0 <= py - y0 < (px - x0) / 2 + 1))
  {
    var ws := WedgeWrites(x0, y0);
    FinalUniform(ws, true, px, py, before);
    ScanHits(x0 + 11, 6, WedgeCells(x0), false, 0, y0, x0, px, py);
    if x0 <= px < x0 + 11 {
      WedgeHeight(px - x0);
    }
  }

  lemma TickEffect(x0: int, y0: int, px: int, py: int, before: bool)
    ensures Final(TickWrites(x0, y0), px, py, before)
            == (before || (px == x0 + 5 && (py == y0 + 2 || py == y0 + 4 || py == y0 + 6)))
  {
    var ticks := TickWrites(x0, y0);
    FinalUniform(ticks, true, px, py, before);
    if px == x0 + 5 && py == y0 + 2 {
      assert Targets(ticks[0], px, py);
    } else if px == x0 + 5 && py == y0 + 4 {
      assert Targets(ticks[1], px, py);
    } else if px == x0 + 5 && py == y0 + 6 {
      assert Targets(ticks[2], px, py);
    }
  }

  /** The glyph only turns pixels on: a pixel ends lit when it was lit or belongs to the glyph. */
  lemma WarningEffect(x0: int, y0: int, px: int, py: int, before: bool)
    ensures Final(WarningWrites(x0, y0), px, py, before) == (before || WarningLit(x0, y0, px, py))
  {
    FinalConcat(WedgeWrites(x0, y0), TickWrites(x0, y0), px, py, before);
    WedgeEffect(x0, y0, px, py, before);
    TickEffect(x0, y0, px, py, Final(WedgeWrites(x0, y0), px, py, before));
  }

  /** Drawing the warning glyph turns on exactly its pixels and clears nothing. */
  method DrawWarning(buf: Buffer, x0: int, y0: int) returns (r: Buffer)
    ensures forall px, py :: InPortrait(px, py) ==>
              (PortraitPixel(r, px, py) <==> PortraitPixel(buf, px, py) || WarningLit(x0, y0, px, py))
  {
    var ws := WarningWrites(x0, y0);
    ApplyPortraitPixel(buf, ws);
    forall px, py | InPortrait(px, py)
      ensures Final(ws, px, py, PortraitPixel(buf, px, py)) == (PortraitPixel(buf, px, py) || WarningLit(x0, y0, px, py))
    {
      WarningEffect(x0, y0, px, py, PortraitPixel(buf, px, py));
    }
    r := ApplyPortrait(buf, ws);
  }

  /** The text rows of the lower band: the upper line at 86, the lower at 101. */
  const UPPER_LINE_Y := 86
  const LOWER_LINE_Y := 101

  /** The band lines as `snprintf` formats them: "R:..%", "D:..%", "T:..C", "H:..", "V:..". */
  datatype BandLines = BandLines(ram: Text, disk: Text, temp: Text, throttle: Text, volt: Text)

  /** Portrait pixel (px, py) after a centred text line at row y drawn over `before`. */
  predicate CenteredTextPixel(font: FontTable, text: Text, y: int, before: bool, px: int, py: int) {
    var x := CenteredStart(|text|);
    if InTextCell(|text|, x, y, px, py) then TextBit(font, text, x, y, px, py) else before
  }

  /**
   * A pixel of the lower band after the upper line, the warning glyph when
   * `warn`, and the lower line are drawn in that order over `before`. Rows
   * outside the two text lines keep their value, and in a glyph cell of the
   * lower line that line decides the pixel, so the warning glyph shows only
   * outside those cells.
   */
  predicate BandPixel(font: FontTable, upper: Text, lower: Text, warn: bool, before: bool, px: int, py: int) {
    if UPPER_LINE_Y <= py < UPPER_LINE_Y + GLYPH_HEIGHT then
      CenteredTextPixel(font, upper, UPPER_LINE_Y, before, px, py)
    else if LOWER_LINE_Y <= py < LOWER_LINE_Y + GLYPH_HEIGHT then
      CenteredTextPixel(font, lower, LOWER_LINE_Y, before || (warn && WarningLit(WARNING_X, WARNING_Y, px, py)), px, py)
    else
      before
  }

  /** The warning glyph lies within the seven rows of the lower text line. */
  lemma WarningInLowerRows(px: int, py: int)
    requires WarningLit(WARNING_X, WARNING_Y, px, py)
    ensures LOWER_LINE_Y <= py < LOWER_LINE_Y + GLYPH_HEIGHT
  {
    if WARNING_X <= px < WARNING_X + 11 {
      WedgeHeight(px - WARNING_X);
    }
  }

  /** One pixel through the three drawing steps of the band. */
  lemma BandPixelOf(font: FontTable, upper: Text, lower: Text, warn: bool,
                    v0: bool, v1: bool, v2: bool, v3: bool, px: int, py: int)
    requires v1 == CenteredTextPixel(font, upper, UPPER_LINE_Y, v0, px, py)
    requires v2 == (v1 || (warn && WarningLit(WARNING_X, WARNING_Y, px, py)))
    requires v3 == CenteredTextPixel(font, lower, LOWER_LINE_Y, v2, px, py)
    ensures v3 == BandPixel(font, upper, lower, warn, v0, px, py)
  {
    if WarningLit(WARNING_X, WARNING_Y, px, py) {
      WarningInLowerRows(px, py);
    }
  }

  /** Draws the upper line, the warning glyph when `warn`, then the lower line. */
  method DrawBand(font: FontTable, buf: Buffer, upper: Text, lower: Text, warn: bool) returns (r: Buffer)
    ensures forall px, py :: InPortrait(px, py) ==>
              PortraitPixel(r, px, py) == BandPixel(font, upper, lower, warn, PortraitPixel(buf, px, py), px, py)
  {
    var b1 := DrawCenteredTextPortrait(font, buf, UPPER_LINE_Y, upper);
    var b2 := b1;
    if warn {
      b2 := DrawWarning(b1, WARNING_X, WARNING_Y);
    }
    r := DrawCenteredTextPortrait(font, b2, LOWER_LINE_Y, lower);
    forall px, py | InPortrait(px, py)
      ensures PortraitPixel(r, px, py) == BandPixel(font, upper, lower, warn, PortraitPixel(buf, px, py), px, py)
    {
      BandPixelOf(font, upper, lower, warn, PortraitPixel(buf, px, py), PortraitPixel(b1, px, py),
                  PortraitPixel(b2, px, py), PortraitPixel(r, px, py), px, py);
    }
  }

  /**
   * The lower band of a frame. Phase A: the RAM line at row 86, the warning
   * glyph when the voltage is low or the board throttled, then the disk line
   * at row 101. Phase B: the temperature line at 86, then the throttle flags
   * at 101 when throttled, else the voltage, and no warning glyph.
   */
  method LowerBand(font: FontTable, buf: Buffer, counter: nat, lines: BandLines,
                   haveV: bool, volts: real, uvThreshold: real, throttled: bool) returns (r: Buffer)
    ensures PhaseA(counter) ==>
              forall px, py :: InPortrait(px, py) ==>
                PortraitPixel(r, px, py)
                == BandPixel(font, lines.ram, lines.disk, LowVoltage(haveV, volts, uvThreshold) || throttled,
                             PortraitPixel(buf, px, py), px, py)
    ensures !PhaseA(counter) ==>
              forall px, py :: InPortrait(px, py) ==>
                PortraitPixel(r, px, py)
                == BandPixel(font, lines.temp, if throttled then lines.throttle else lines.volt, false,
                             PortraitPixel(buf, px, py), px, py)
  {
    if PhaseA(counter) {
      r := DrawBand(font, buf, lines.ram, lines.disk, LowVoltage(haveV, volts, uvThreshold) || throttled);
    } else {
      r := DrawBand(font, buf, lines.temp, if throttled then lines.throttle else lines.volt, false);
    }
  }

  /**
   * With a five-character disk line such as "D:45%" (start column 1), every
   * pixel of the warning glyph outside the spacer columns 6 and 12 lies in a
   * glyph cell of that line, so the line drawn after the glyph decides it.
   */
  lemma FiveCharacterDiskLineCoversWarning(px: int, py: int)
    requires WarningLit(WARNING_X, WARNING_Y, px, py) && px != 6 && px != 12
    ensures InTextCell(5, CenteredStart(5), LOWER_LINE_Y, px, py)
  {
  }

  // ---------------------------------------------------------------------
  // The temperature reading.

  /** The characters the temperature parse keeps: decimal digits and '.'. */
  predicate IsNumberChar(c: char) {
    ('0' <= c <= '9') || c == '.'
  }

  /**
   * The text handed to `stod` in phase B: the longest prefix of the
   * `vcgencmd` reading made of digits and '.', the copy stopping at the first
   * other character.
   */
  function NumberPrefix(t: string): (num: string)
    ensures |num| <= |t| && num == t[..|num|]
    ensures forall i :: 0 <= i < |num| ==> IsNumberChar(num[i])
    ensures |num| < |t| ==> !IsNumberChar(t[|num|])
  {
    if t == [] || !IsNumberChar(t[0]) then [] else [t[0]] + NumberPrefix(t[1..])
  }

  /** A run of number characters followed by anything that does not start with one parses back to the run. */
  lemma {:induction false} NumberPrefixOf(digits: string, rest: string)
    requires forall i :: 0 <= i < |digits| ==> IsNumberChar(digits[i])
    requires rest == [] || !IsNumberChar(rest[0])
    ensures NumberPrefix(digits + rest) == digits
    decreases |digits|
  {
    if digits != [] {
      assert (digits + rest)[1..] == digits[1..] + rest;
      NumberPrefixOf(digits[1..], rest);
    }
  }

  /**
   * Whether phase B attempts to convert the reading at all: it must be
   * non-empty, must not start with 'N' ("NA") and must keep a non-empty
   * number prefix.
   */
  predicate TemperatureCandidate(t: string) {
    t != [] && t[0] != 'N' && NumberPrefix(t) != []
  }

  /** The three conditions come down to one: the reading starts with a digit or '.'. */
  lemma TemperatureCandidateLeads(t: string)
    ensures TemperatureCandidate(t) <==> t != [] && IsNumberChar(t[0])
  {
  }

  // ---------------------------------------------------------------------
  // Settings read from the environment.

  /** The value of an environment variable, as `atoi` or `atof` parses it, when the variable is set. */
  datatype Setting<T> = Unset | Set(value: T)

  const DEFAULT_LOG_INTERVAL := 30
  /** Seconds in a day: the interval must be below it. */
  const DAY_SECONDS := 86400

  /** `RPI_STATS_LOG_INTERVAL`: the setting when it is a positive number of seconds under a day, else 30. */
  function LogInterval(s: Setting<int>): (seconds: int)
    ensures 0 < seconds < DAY_SECONDS
    ensures s.Set? && 0 < s.value < DAY_SECONDS ==> seconds == s.value
    ensures !(s.Set? && 0 < s.value < DAY_SECONDS) ==> seconds == DEFAULT_LOG_INTERVAL
  {
    if s.Set? && 0 < s.value < DAY_SECONDS then s.value else DEFAULT_LOG_INTERVAL
  }

  /** An interval the validation produced passes it again unchanged. */
  lemma LogIntervalStable(s: Setting<int>)
    ensures LogInterval(Set(LogInterval(s))) == LogInterval(s)
  {
  }

  const DEFAULT_UNDERVOLT_THRESHOLD := 1.20

  /** `RPI_STATS_UNDERVOLT_THRESH`: the setting when it lies strictly between 0.5 and 2.0 volts, else 1.20. */
  function UndervoltThreshold(s: Setting<real>): (volts: real)
    ensures 0.5 < volts < 2.0
    ensures s.Set? && 0.5 < s.value < 2.0 ==> volts == s.value
    ensures !(s.Set? && 0.5 < s.value < 2.0) ==> volts == DEFAULT_UNDERVOLT_THRESHOLD
  {
    if s.Set? && 0.5 < s.value < 2.0 then s.value else DEFAULT_UNDERVOLT_THRESHOLD
  }

  /** A threshold the validation produced passes it again unchanged. */
  lemma UndervoltThresholdStable(s: Setting<real>)
    ensures UndervoltThreshold(Set(UndervoltThreshold(s))) == UndervoltThreshold(s)
  {
  }
}
