# SSD1306 portrait statistics renderer, modelled in Dafny

A Raspberry Pi stats daemon draws a portrait (32x128) dashboard on a 128x32
SSD1306 OLED panel over I2C. It shows:

- the last octet of the IP address;
- the CPU frequency;
- a CPU donut gauge;
- a lower band that alternates between RAM/disk and temperature/voltage (or
  throttle) readings.

This project models the core of that program in Dafny 4.11. There are three
parts.

- The panel driver (`SSD1306`):
  - a 512-byte page-major framebuffer, and `setPixel`, `clear`, `drawHLine` and
    `drawText`;
  - the wire protocol: 2-byte command packets, 0x40-prefixed data packets of at
    most 16 payload bytes, the 26-byte bring-up sequence, and the flush (column
    and page window, then the whole buffer).
- The portrait renderer (`main.cpp`):
  - the 90-degree portrait adapter;
  - the unscaled, centred, integer-scaled and proportionally fitted text
    rasterisers, with the proportional renderer's glyph-column cache;
  - the donut gauge;
  - the per-frame decisions: lower-band phase, warning glyph, temperature prefix,
    and environment settings.
- The statistics helpers (`stats.cpp`): the output trim, the last-octet
  extraction, the throttle prefix guard and flag, and the CPU percent.

Every drawing loop is modelled as a *write program*: the sequence of
`setPixel(x, y, on)` calls it makes, in order (`Canvas.Write`). `Canvas.Final`
gives what a pixel holds after the program; the last write to it wins.
`Framebuffer.Apply` runs a program against the byte buffer, and
`Framebuffer.ApplyPixel` proves the two agree. Each rasteriser is then
specified as a per-pixel post-condition over the whole canvas.

The I2C bus is a trace of the packets written to it (`Wire.Bus`). An oracle
`accepts(k)` says whether the write that produced packet k reached the panel.
A rejected write is taken to have reached it not at all: each transaction is
all-or-nothing (see "## Left out"). A failed write still appears in the trace,
because it was attempted.
`Wire.SentUnder` reads the byte streams a trace carries: the command bytes after
each 0x00 control byte (`SentCommands`) and the RAM bytes after each 0x40
(`SentData`). These are the bytes *sent*, whatever the oracle says.
`Wire.Delivered` is the part that reaches the panel: it keeps only the packets
whose write was accepted. `Wire.DeliveredWhenAccepted` shows the two agree when
every write is accepted.

The 5x7 font table (96 glyphs of five column bytes) is not part of this model.
It is a parameter `font: FontTable` of every rasteriser, so every property holds
for every table of that shape. The default bus address 0x3C is
`Wire.DEFAULT_ADDRESS`, the default of `Wire.NewDriver`'s `address` parameter.

Modules, one per file: `Bits`, `Font`, `Canvas`, `TextCells`, `Framebuffer`,
`Wire`, `Portrait`, `ScaledText`, `Proportional`, `Donut`, `Composer`, `Stats`.

Some behaviours of the code are easy to miss. The model keeps each of them:

- **Warning glyph condition.** The glyph needs a voltage reading that parsed
  (`haveV`) and lies strictly between 0 V and the threshold, or the throttle
  flag (main.cpp:233-234, `Composer.LowVoltage`). A reading of "N/A" or 0 V
  never raises the glyph on its own.
- **Disk line overdraws the glyph.** The glyph is drawn (main.cpp:235-243)
  before the disk line at the same row 101 (main.cpp:244). Every glyph pixel in
  a glyph cell of that line is then rewritten with the font bit
  (`Composer.BandPixel`). For a five-character line such as "D:45%", that is
  every glyph pixel outside the spacer columns 6 and 12
  (`Composer.FiveCharacterDiskLineCoversWarning`). So the glyph shows only in
  those two columns.
- **Donut at 0%.** With the percentage 0 the sweep ends at 0 degrees. The test
  `ang <= maxDeg` still passes for points straight right of the centre, where
  `atan2` gives 0 (main.cpp:161-163). So an idle CPU still lights a one-pixel
  ray of the ring (`Donut.ZeroPercentRay`).
- **Flush failures are silent.** `display` ignores the results of `writeCmd`
  and `writeData` and returns nothing (ssd1306.cpp:86-96). `writeData` stops
  at the first chunk that is rejected (ssd1306.cpp:76), so a failed transfer
  leaves the panel with a partly updated frame. The chunks before the failed
  one are new, and the rest keep the old contents. A failed window command
  (ssd1306.cpp:87-93) is ignored too, so the data then lands in whatever
  address window was set before. The caller cannot tell any of this.
  `Wire.Display` likewise returns no flag, and `Wire.WriteData`'s `Streamed`
  contract stops at the first rejected chunk.
- **Scaled text is unused.** `drawScaledTextPortrait` and its centred variant
  (main.cpp:54-88) are modelled, but the main loop never calls them. The
  frequency and percent lines use the unscaled `drawCenteredTextPortrait`.

## Model

| member | source | states |
|---|---|---|
| Framebuffer.Geometry | cpp/src/ssd1306.h:17-19 | The panel has 4 pages and its buffer holds 128 * 4 = 512 bytes. |
| Framebuffer.ByteIndex | cpp/src/ssd1306.cpp:100-102 | For every on-panel pixel, `(y / 8) * 128 + x` is a valid index into the 512-byte buffer. |
| Framebuffer.LayoutBijective | cpp/src/ssd1306.h:16 | The layout is page-major and one-to-one. Distinct pixels never share a (byte, bit) slot. Bit k of byte i holds pixel (i % 128, (i / 128) * 8 + k), which is on the panel. |
| Framebuffer.PixelsDetermineBuffer | cpp/src/ssd1306.h:31 | Two 512-byte buffers that show the same 128x32 picture are the same bytes, so the pixel view loses nothing. |
| Framebuffer.Clear | cpp/src/ssd1306.cpp:82-84 | After `clear` every one of the 512 bytes is 0 and no pixel is lit. |
| Framebuffer.SetPixel | cpp/src/ssd1306.cpp:98-107 | An off-panel point leaves the buffer unchanged. An on-panel point changes only bit y % 8 of byte (y / 8) * 128 + x: set for on, cleared for off. Every other byte and bit is unchanged. |
| Framebuffer.SetPixelEffect | cpp/src/ssd1306.cpp:98-107 | In pixel terms, `setPixel` gives (x, y) the value `on` and changes no other pixel. |
| Framebuffer.ApplyPixel | cpp/src/ssd1306.cpp:98-107 | Running a sequence of `setPixel` calls leaves each pixel as the last call addressing it says. A pixel no call addresses keeps its value. |
| Framebuffer.DrawHLine | cpp/src/ssd1306.cpp:109-111 | `drawHLine` stores `on` into exactly the pixels (x + i, y) for 0 <= i < w and leaves the rest alone. A non-positive width is a no-op. |
| Framebuffer.DrawText | cpp/src/ssd1306.cpp:113-128 | Every pixel of each 5x7 glyph cell gets its font bit, on or off. Cells are 6 columns apart. The spacer column and all other pixels keep their value. |
| Wire.NewDriver | cpp/src/ssd1306.cpp:14-23 | The bus is usable only when the device node opened and the address was bound. Nothing has been sent and the buffer is blank. |
| Bits.SetBit | cpp/src/ssd1306.cpp:103-104 | `b \| (1 << k)` turns bit k on and leaves the other seven bits as they were. |
| Bits.ClearBit | cpp/src/ssd1306.cpp:105-106 | `b & ~(1 << k)` turns bit k off and leaves the other seven bits as they were. |
| Bits.BitsDetermineByte | cpp/src/ssd1306.cpp:103-106 | A byte is determined by its eight bits. |
| Font.Substitute | cpp/src/ssd1306.cpp:116-117 | Codes 32..127 map to themselves and every other byte maps to '?'. |
| Font.ColumnIndex | cpp/src/ssd1306.cpp:118 | `(c - 32) * 5 + col` lies inside the 480-byte table. It selects column `col` of glyph c - 32, after unprintable bytes are replaced by '?'. |
| Font.UnprintableDrawsQuestionMark | cpp/src/ssd1306.cpp:116-118 | Every byte outside 32..127 is drawn with the glyph of '?'. |
| Canvas.FinalConcat | cpp/src/ssd1306.cpp:98-107 | Running program a and then program b is the same as running a + b, pixel by pixel. |
| Canvas.FinalUniform | cpp/src/main.cpp:63-67 | A program whose writes all store v sets every pixel it addresses to v and leaves every other pixel alone, in any order. |
| Canvas.FinalLastWrite | cpp/src/ssd1306.cpp:98-107 | Only the last write that addresses a pixel decides its value. |
| Canvas.HLineEffect | cpp/src/main.cpp:26-28 | The line loop stores `on` into exactly (x + i, y) for 0 <= i < w. |
| Canvas.ScanHits | cpp/src/main.cpp:136-147 | A guarded double loop writes a pixel iff the loop indices that reach it are in range and pass the guard. |
| Canvas.ScanEffect | cpp/src/main.cpp:155-165 | After a guarded double loop that only sets pixels, a pixel is lit iff it was lit before or the loop reached it under its guard. |
| TextCells.GlyphEffect | cpp/src/ssd1306.cpp:119-125 | Inside one glyph's 5x7 cell each pixel ends up as its font bit. Outside the cell nothing changes. |
| TextCells.TextEffect | cpp/src/ssd1306.cpp:113-128 | After the whole text loop a pixel in a glyph area holds its font bit, read from character (px - x) / 6, column (px - x) % 6, row py - y. Every other pixel is unchanged. |
| Wire.WriteCmd | cpp/src/ssd1306.cpp:61-65 | With no open bus, `writeCmd` sends nothing and fails. Otherwise it sends exactly [0x00, c], which carries the single command c and no data. The result is the oracle's verdict on that write. |
| Wire.DeliveredWhenAccepted | cpp/src/ssd1306.cpp:64 | When every write of a trace is accepted, the panel takes in exactly the bytes sent. |
| Wire.NothingDeliveredWhenRejected | cpp/src/ssd1306.cpp:64 | Under the all-or-nothing reading of a rejected write, a trace whose writes are all rejected delivers nothing to the panel. |
| Wire.StreamsConcat | cpp/src/ssd1306.cpp:61-80 | Command and data streams of two traces sent one after the other are the concatenations of each trace's streams. |
| Wire.CommandFraming | cpp/src/ssd1306.cpp:58-65 | One command packet per byte carries exactly the command bytes and no data. |
| Wire.DataPacketsShape | cpp/src/ssd1306.cpp:67-80 | `writeData` sends ceil(len / 16) packets. Each starts with 0x40 and carries 1..16 payload bytes, and all but the last carry exactly 16. |
| Wire.DataPacketsRoundTrip | cpp/src/ssd1306.cpp:67-80 | The data packets carry exactly `data` as RAM bytes, and no commands. |
| Wire.WriteData | cpp/src/ssd1306.cpp:67-80 | With no open bus it sends nothing and fails. Otherwise it sends the data packets in order and stops after the first write that is not accepted, returning false. It returns true exactly when every packet went out whole. |
| Wire.StreamedAllAccepted | cpp/src/ssd1306.cpp:73-79 | When every write is accepted, `writeData` sends all of its packets and succeeds. |
| Wire.WriteCommands | cpp/src/ssd1306.cpp:58 | Each command is written in its own packet whatever the write results. The command stream sent grows by exactly those bytes, and the data stream sent is unchanged. |
| Wire.InitSeq | cpp/src/ssd1306.cpp:37-59 | `initSeq` sends exactly the 26 bring-up bytes AE D5 80 A8 1F D3 00 40 8D 14 20 00 A1 C8 DA 02 81 8F D9 F1 DB 40 A4 A6 2E AF, in order, one packet each. |
| Wire.SetWindow | cpp/src/ssd1306.cpp:86-93 | The flush opens with exactly the commands 0x21 0 127 0x22 0 3, each in its own packet. |
| Wire.FlushDelivered | cpp/src/ssd1306.cpp:86-96 | When every data write of the flush is accepted, the trace grows by exactly the window commands and the buffer's data packets. The streams sent grow by those six commands and exactly the buffer bytes. |
| Wire.Display | cpp/src/ssd1306.cpp:86-96 | `display` sends the six window commands and then streams the buffer as data packets. It ignores the write results and never changes the buffer. When every data write is accepted, the streams sent grow by those commands and exactly the 512 buffer bytes. `display` reports no failure to its caller. |
| Wire.CommandsThenData | cpp/src/ssd1306.cpp:86-96 | Command packets followed by data packets extend the command stream by the commands and the data stream by the data. |
| Wire.Init | cpp/src/ssd1306.cpp:29-35 | `init` fails and sends nothing without an open bus. Otherwise it succeeds, clears the buffer, and sends the 26 bring-up commands followed by the six window commands. When the flush's data writes are accepted, the streams sent are those 32 commands and 512 zero bytes. |
| Portrait.RotationBijective | cpp/src/main.cpp:18-24 | (xp, yp) -> (yp, 31 - xp) maps the 32x128 canvas onto the 128x32 panel, and (xd, yd) -> (31 - yd, xd) undoes it in both directions. |
| Portrait.RotationInjective | cpp/src/main.cpp:18-24 | Distinct portrait points land on distinct device points. |
| Portrait.SetPortraitPixel | cpp/src/main.cpp:18-24 | A point off the portrait canvas is dropped. An on-canvas point changes only that portrait pixel. |
| Portrait.RotatedFinal | cpp/src/main.cpp:18-24 | Rotating every write onto the panel gives the device pixel (yp, 31 - xp) the value the portrait program gives (xp, yp). |
| Portrait.ApplyPortraitPixel | cpp/src/main.cpp:18-24 | A program of portrait writes, each rotated onto the panel, leaves each portrait pixel as its last write says. |
| Portrait.DrawHLinePortrait | cpp/src/main.cpp:26-28 | Exactly the portrait pixels (x + i, y) for 0 <= i < w get `on`. All others are unchanged. |
| Portrait.DrawTextPortrait | cpp/src/main.cpp:30-44 | Each 5x7 portrait glyph cell, 6 columns apart, gets its font bits on or off. All other portrait pixels are unchanged. |
| Portrait.Half | cpp/src/main.cpp:48 | C++ `a / 2` truncates toward zero for negative a as well. |
| Portrait.CenterOffset | cpp/src/main.cpp:47-49 | The offset is never negative. When the text fits, the two margins differ by at most one pixel, with the extra pixel on the right. When it does not fit, the offset is 0. |
| Portrait.DrawCenteredTextPortrait | cpp/src/main.cpp:46-51 | The text is drawn from column max(0, (32 - 6n) / 2), so its 6n columns sit between equal-within-one margins. |
| ScaledText.ClampScale | cpp/src/main.cpp:55 | The scale is clamped into 1..6 and is unchanged when already inside. |
| ScaledText.BlockHits | cpp/src/main.cpp:65-67 | The two block loops write exactly the s x s square at the block's corner. |
| ScaledText.CellHits | cpp/src/main.cpp:60-69 | One glyph's loops write exactly the blocks of its lit font bits. Unlit bits write nothing. |
| ScaledText.ScaledHits | cpp/src/main.cpp:56-72 | The string's loops write a pixel iff it lies in the block of a lit font bit of some character. Character j is drawn at x + 6 s j. |
| ScaledText.DrawScaledTextPortrait | cpp/src/main.cpp:54-73 | With the scale clamped to 1..6, a portrait pixel is lit afterwards iff it was lit before or lies in the s x s block at (x + 6sj + col s, y + row s) of a lit font bit. No pixel is ever cleared. |
| ScaledText.ScaleFrom | cpp/src/main.cpp:80-83 | The downward search picks the largest scale that fits. Every larger scale fails, and when none fits the result is 1. |
| ScaledText.ChooseScale | cpp/src/main.cpp:78-83 | The chosen scale is the largest s in 1..6 with (6n - 1) s <= 32, or 1 when none fits. |
| ScaledText.TwoCharacterScale | cpp/src/main.cpp:78-83 | "OK" is drawn at scale 2. |
| ScaledText.LongTextScale | cpp/src/main.cpp:78-83 | From six characters on nothing fits and the scale is 1. |
| ScaledText.DrawScaledTextPortraitCentered | cpp/src/main.cpp:75-88 | Empty text draws nothing. Otherwise the text is drawn at the chosen scale from column max(0, (32 - (6n - 1) s) / 2). |
| ScaledText.ScaledLitBounds | cpp/src/main.cpp:65-71 | A lit block lies within the string's (6n - 1) s by 7s box, so the trailing spacer is never drawn. |
| ScaledText.CenteredScaledInside | cpp/src/main.cpp:75-88 | For one to five characters every lit pixel lies inside the 32 columns, between margins that differ by at most one. |
| Proportional.BuildStrip | cpp/src/main.cpp:105-117 | The cache fill gives 6n - 1 columns. They hold the glyph columns and a zero spacer after every glyph but the last. |
| Proportional.StripLayout | cpp/src/main.cpp:106-116 | Glyph i occupies strip columns 6i..6i+4. Column 6i+5 is 0 for i < n - 1, and the strip ends on the last glyph. |
| Proportional.StripUnique | cpp/src/main.cpp:103-118 | A text has only one strip, so rebuilding for the same text gives the same array. |
| Proportional.EmptyCacheValid | cpp/src/main.cpp:96-101 | The static cache starts valid: no text and no columns. |
| Proportional.Refresh | cpp/src/main.cpp:103-118 | The strip is rebuilt only when the text differs from the cached text. Either way the cache then holds the strip of the current text, and `srcCols` equals its length. |
| Proportional.RefreshTwice | cpp/src/main.cpp:103-118 | Two frames with the same text leave the same cache. |
| Proportional.AreaHeight | cpp/src/main.cpp:95 | The available height is raised to at least 7. |
| Proportional.Clamp | cpp/src/main.cpp:139-144 | Sampled indices are clamped into their range and are unchanged when already inside. |
| Proportional.Place | cpp/src/main.cpp:126-134 | A non-positive rounded width draws nothing. Otherwise the box is at most 32 wide and 1..area high, centred horizontally and vertically within one pixel, and always inside the reserved area. |
| Proportional.RenderFit | cpp/src/main.cpp:136-147 | The sampling loops only set pixels. A box pixel is lit iff its clamped sample (source column, source row) is lit. |
| Proportional.FitInsideArea | cpp/src/main.cpp:126-134 | Whatever the float arithmetic yields, the fitted text stays within the 32 columns and the area below topY. |
| Proportional.DrawStrip | cpp/src/main.cpp:121-147 | Drawing from a valid strip adds exactly the fitted samples of the text and clears nothing. |
| Proportional.DrawIPProportional | cpp/src/main.cpp:93-148 | Empty text changes neither picture nor cache. Otherwise the cache ends up holding the text, and the picture gains exactly the fitted samples of the text, whatever the cache held before. |
| Donut.ClampPercent | cpp/src/main.cpp:151 | The percentage is clamped into 0..100 and unchanged when already inside. |
| Donut.DrawDonutPortrait | cpp/src/main.cpp:150-166 | The donut only sets pixels. It sets exactly the pixels of the scanned square inside the annulus rI^2 <= dx^2 + dy^2 <= rO^2 whose normalised angle is within the sweep. |
| Donut.AnnulusInsideSquare | cpp/src/main.cpp:155-160 | For a non-negative outer radius, every annulus point lies inside the scanned square. |
| Donut.CpuDonutOnCanvas | cpp/src/main.cpp:150-166 | For the dashboard's donut (centre (16, 64), radii 15 and 12), every annulus pixel is on the canvas. It is lit afterwards iff it was lit or its angle is within the sweep. |
| Donut.FullSweep | cpp/src/main.cpp:151-163 | At 100 percent or more every annulus point is lit, for any angle in (-180, 180]. |
| Donut.ZeroPercentRay | cpp/src/main.cpp:151-163 | At 0 percent the annulus pixels straight right of the centre are still lit. |
| Composer.PhaseSchedule | cpp/src/main.cpp:221 | Phase A holds iff counter % 12 < 6. The phase flips every six frames and repeats every twelve. |
| Composer.WarningEffect | cpp/src/main.cpp:233-243 | The wedge and tick loops only set pixels: the wedge (column dx is dx / 2 + 1 tall) and the ticks at column x0 + 5. |
| Composer.DrawWarning | cpp/src/main.cpp:233-243 | Drawing the warning glyph lights exactly its pixels and clears nothing. |
| Composer.WarningInLowerRows | cpp/src/main.cpp:233-243 | The glyph lies within the seven rows of the lower text line. |
| Composer.DrawBand | cpp/src/main.cpp:229-244 | The upper line, then the glyph when warned, then the lower line. Rows outside the two lines keep their value, and the lower line decides every pixel in its glyph cells. |
| Composer.LowerBand | cpp/src/main.cpp:221-267 | Phase A draws RAM over disk, with the glyph iff the voltage is low (parsed and 0 < volts < threshold) or the board is throttled. Phase B draws temperature over the throttle code when throttled, else over the voltage, and never the glyph. |
| Composer.FiveCharacterDiskLineCoversWarning | cpp/src/main.cpp:236-243 | A five-character disk line covers every glyph pixel outside its spacer columns 6 and 12. |
| Composer.NumberPrefix | cpp/src/main.cpp:249-252 | The temperature text handed to the parser is the longest prefix of digits and '.'. It is a prefix of the reading, and the next character, if any, is neither. |
| Composer.NumberPrefixOf | cpp/src/main.cpp:249-251 | A run of digits and dots followed by any other character yields exactly that run. |
| Composer.TemperatureCandidateLeads | cpp/src/main.cpp:248-253 | The reading is converted only when it starts with a digit or '.'. The non-empty check and the 'N' check add nothing beyond that. |
| Composer.LogInterval | cpp/src/main.cpp:177-181 | The logging interval is the setting when 0 < v < 86400, else 30. It is always in 1..86399. |
| Composer.LogIntervalStable | cpp/src/main.cpp:177-181 | Feeding the chosen interval back as the setting keeps it, so every chosen interval passes the range test itself. |
| Composer.UndervoltThresholdStable | cpp/src/main.cpp:182-186 | Feeding the chosen threshold back as the setting keeps it. |
| Composer.UndervoltThreshold | cpp/src/main.cpp:182-186 | The threshold is the setting when 0.5 < v < 2.0, else 1.20. It always lies strictly between 0.5 and 2.0. |
| Stats.Trim | cpp/src/stats.cpp:19 | The trim's result is a prefix of the output that does not end in '\n', '\r' or ' '. Every removed character is one of those three. |
| Stats.TrimUnique | cpp/src/stats.cpp:19 | At most one string meets that description, so it determines the trim. |
| Stats.TrimIdempotent | cpp/src/stats.cpp:19 | Trimming twice is trimming once. |
| Stats.TrimDropsTrailer | cpp/src/stats.cpp:19 | Text followed by blanks and line ends trims back to the text. |
| Stats.LastDot | cpp/src/stats.cpp:94 | `find_last_of('.')` finds a '.' with none after it, or reports that there is none. |
| Stats.LastOctet | cpp/src/stats.cpp:91-97 | Empty input gives "0" and input without a '.' is returned unchanged. Otherwise the result is the dot-free suffix after the last '.'. |
| Stats.LastOctetOfDotted | cpp/src/stats.cpp:94-96 | Any prefix, a '.', and a dot-free octet give back exactly the octet. |
| Stats.ThrottleRaw | cpp/src/stats.cpp:105-114 | The raw value is 0 for a reading that is empty or lacks the "0x" prefix. Otherwise it is what the hexadecimal extraction reads. |
| Stats.Throttled | cpp/src/stats.cpp:126-129 | The throttle flag: some condition the firmware reports as active now (under-voltage, frequency cap, throttling, soft temperature limit, bits 0..3). |
| Stats.ThrottledLowBits | cpp/src/stats.cpp:126-129 | The flag is set iff one of bits 0..3 (under-voltage, frequency cap, throttling, soft temperature limit) is set. |
| Stats.ThrottledIgnoresHighBits | cpp/src/stats.cpp:126-129 | Bits 4 and above, the "has happened since boot" bits, never change the flag. |
| Stats.ThrottledExamples | cpp/src/stats.cpp:129 | Under-voltage now (0x1) raises the flag. Under-voltage only since boot (0x10) does not. |
| Stats.UnprefixedNotThrottled | cpp/src/stats.cpp:107-113 | A reading without "0x" never raises the flag. |
| Stats.CpuPercent | cpp/src/stats.cpp:37-42 | The CPU percent is always in 0..100, and 0 when no time passed. |
| Stats.CpuPercentRounds | cpp/src/stats.cpp:40 | When the idle time lies within the interval, the result is the busy share rounded to the nearest percent, with halves rounded up. |

## Left out

- Wire.Delivered: a rejected write is taken to deliver none of its bytes, so each bus transaction is all-or-nothing. A short `::write`, or an I2C transfer that the panel acknowledged only in part, could deliver a prefix of the packet (ssd1306.cpp:64, 76). The source cannot tell how much arrived, and neither does the model.
- **Device I/O:** `open`, `ioctl`, `::write` and `close`. The bus is a packet trace, and an oracle stands for each write's outcome. The destructor and `fd_` are the `Bus.open` flag.
- **Stats I/O:** `popen`, `fgets`, `/proc`, `/sys`, `statvfs` and `vcgencmd`. Their output strings are inputs of the model.
- **The font table `tiny5x7.inc`:** it is not part of this model and is a parameter of every rasteriser.
- **Proportional float arithmetic:** `scale`, `std::round`, and the `(d + 0.5) / scale` back-mapping are taken as given through `Proportional.FloatFit`. Everything done to their results is modelled.
- **Proportional dead guards:** the `srcCols <= 0` returns (main.cpp:108, 119) are not modelled, because 6n - 1 > 0 for non-empty text.
- **Scaled-text dead guard:** the `baseW <= 0` branch (main.cpp:79) is dead for non-empty text and is not modelled.
- **Donut angle:** `atan2` is a parameter returning degrees. The `180 / 3.14159265` conversion and float rounding of the angle and of `360 * percent / 100` are taken as exact reals.
- **Donut radii and centre:** their products are mathematical integers, so 32-bit overflow is not modelled. The dashboard's radii are tiny.
- Stats.CpuPercent: the `long` deltas and the double division are exact integers and reals. 64-bit overflow and double rounding are not modelled.
- Stats.ThrottleRaw: `std::stringstream` hexadecimal extraction is a parameter, because stream parsing is library code.
- **Number parsing:** `std::stod`, `atoi` and `atof` are library code. `Composer.LowerBand` takes `haveV` and `volts` as given, and `Composer.Setting` holds the already-parsed value. What `stod` makes of the temperature prefix is left out.
- **Text formatting:** `snprintf` produces the texts of the band lines ("R:60%", "T:55.0C", "H:50005", "V:1.3") and of the frequency and percent lines. These are inputs (`Composer.BandLines`).
- **Other readers:** `readMemPercent`, `readDiskPercent`, `readCpuFreq`, `readCpuTemp` and `readVoltage` are mostly I/O, and their rounding is double arithmetic.
- **Frame order:** the main loop draws the IP area, divider, frequency line, donut and percent line in a fixed order before the lower band. Each step is modelled on its own (`Proportional.DrawIPProportional`, `Portrait.DrawHLinePortrait`, `Portrait.DrawCenteredTextPortrait`, `Donut.DrawDonutPortrait`), but their composition into one frame is not. The frame counter's 32-bit overflow is not modelled either.
- **Byte versus character strings:** text that is drawn is a byte sequence (`Font.Text`), because every renderer reads each `char` through `static_cast<uint8_t>`. The stats helpers and the temperature prefix only compare characters with ASCII literals ('.', '0'-'9', '\n', '\r', ' ', 'x'), so they use Dafny `string`. Bytes and characters agree on those literals. The conversion between the two views is not modelled.
- **Timing and signals:** signal handling, the `running` flag, `sleep_for`, and the `steady_clock` logging cadence are concurrency and time. The log line itself is output.
- **The two Python scripts:** they are wrappers around PIL, psutil and subprocess, with no algorithmic core.
