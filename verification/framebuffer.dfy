/**
 * The SSD1306 128x32 framebuffer: 4 pages of 128 column bytes, page-major,
 * bit i of the byte at (page, x) being pixel row page*8 + i. Pixel operations
 * are pure functions from buffer to buffer.
 */
module Framebuffer {
  import opened Bits
  import opened Font
  import opened Canvas
  import opened TextCells

  const WIDTH := 128
  const HEIGHT := 32
  const PAGES := HEIGHT / 8
  const BUFFER_SIZE := WIDTH * PAGES

  /** The pixel store always holds exactly WIDTH * PAGES bytes. */
  type Buffer = b: seq<bv8> | |b| == 512 witness seq(512, _ => 0)

  lemma Geometry()
    ensures PAGES == 4 && BUFFER_SIZE == 512
  {
  }

  predicate InRange(x: int, y: int) {
    0 <= x < WIDTH && 0 <= y < HEIGHT
  }

  /** `(y / 8) * WIDTH + x`: the byte holding pixel (x, y). */
  function ByteIndex(x: int, y: int): (i: int)
    requires InRange(x, y)
    ensures 0 <= i < BUFFER_SIZE
  {
    (y / 8) * WIDTH + x
  }

  /** Whether pixel (x, y) is lit: bit y % 8 of its byte. */
  predicate Pixel(buf: Buffer, x: int, y: int)
    requires InRange(x, y)
  {
    Bit(buf[ByteIndex(x, y)], y % 8)
  }

  /** The pixel column stored in byte i. */
  function SlotX(i: int): int {
    i % WIDTH
  }

  /** The pixel row stored in bit k of byte i. */
  function SlotY(i: int, k: int): int {
    (i / WIDTH) * 8 + k
  }

  /**
   * Page-major layout: distinct pixels occupy distinct (byte, bit) slots, and
   * bit k of byte i holds pixel (i % 128, (i / 128) * 8 + k).
   */
  lemma LayoutBijective()
    ensures forall x1, y1, x2, y2 ::
              (InRange(x1, y1) && InRange(x2, y2) && ByteIndex(x1, y1) == ByteIndex(x2, y2) && y1 % 8 == y2 % 8)
              ==> x1 == x2 && y1 == y2
    ensures forall i, k :: 0 <= i < BUFFER_SIZE && 0 <= k < 8 ==>
              InRange(SlotX(i), SlotY(i, k)) && ByteIndex(SlotX(i), SlotY(i, k)) == i && SlotY(i, k) % 8 == k
  {
    forall x1, y1, x2, y2 | InRange(x1, y1) && InRange(x2, y2)
      && ByteIndex(x1, y1) == ByteIndex(x2, y2) && y1 % 8 == y2 % 8
      ensures x1 == x2 && y1 == y2
    {
      assert y1 / 8 == y2 / 8;
    }
  }

  /** Two buffers showing the same 128x32 picture are the same bytes. */
  lemma {:induction false} PixelsDetermineBuffer(a: Buffer, b: Buffer)
    requires forall x, y :: InRange(x, y) ==> Pixel(a, x, y) == Pixel(b, x, y)
    ensures a == b
  {
    LayoutBijective();
    forall i | 0 <= i < BUFFER_SIZE
      ensures a[i] == b[i]
    {
      forall k | 0 <= k < 8
        ensures Bit(a[i], k) == Bit(b[i], k)
      {
        assert Pixel(a, SlotX(i), SlotY(i, k)) == Pixel(b, SlotX(i), SlotY(i, k));
      }
      BitsDetermineByte(a[i], b[i]);
    }
  }

  /** The buffer the constructor allocates and `clear` restores. */
  function Blank(): (buf: Buffer)
    ensures forall x, y :: InRange(x, y) ==> !Pixel(buf, x, y)
  {
    ZeroHasNoBits();
    seq(512, _ => 0)
  }

  /** `std::fill(buf_.begin(), buf_.end(), 0)`. */
  function Clear(buf: Buffer): (r: Buffer)
    ensures forall i :: 0 <= i < BUFFER_SIZE ==> r[i] == 0
    ensures forall x, y :: InRange(x, y) ==> !Pixel(r, x, y)
  {
    Blank()
  }

  /**
   * `setPixel`: out-of-range coordinates are ignored; otherwise exactly bit
   * y % 8 of byte (y / 8) * 128 + x is set (on) or cleared (off).
   */
  function SetPixel(buf: Buffer, x: int, y: int, on: bool): (r: Buffer)
    ensures !InRange(x, y) ==> r == buf
    ensures InRange(x, y) ==> forall i :: 0 <= i < BUFFER_SIZE && i != ByteIndex(x, y) ==> r[i] == buf[i]
    ensures InRange(x, y) ==> forall k :: 0 <= k < 8 ==>
              Bit(r[ByteIndex(x, y)], k) == if k == y % 8 then on else Bit(buf[ByteIndex(x, y)], k)
  {
    if !InRange(x, y) then buf
    else
      var idx := ByteIndex(x, y);
      buf[idx := if on then SetBit(buf[idx], y % 8) else ClearBit(buf[idx], y % 8)]
  }

  /** In pixel terms: `setPixel` changes pixel (x, y) to `on` and no other pixel. */
  lemma SetPixelEffect(buf: Buffer, x: int, y: int, on: bool)
    ensures forall px, py :: InRange(px, py) ==>
              Pixel(SetPixel(buf, x, y, on), px, py) == if px == x && py == y then on else Pixel(buf, px, py)
  {
    LayoutBijective();
  }

  /** Runs a write program against the buffer, one `setPixel` per write, in order. */
  function Apply(buf: Buffer, ws: seq<Write>): Buffer
    decreases |ws|
  {
    if ws == [] then buf
    else
      var w := ws[|ws| - 1];
      SetPixel(Apply(buf, ws[..|ws| - 1]), w.x, w.y, w.on)
  }

  /** Each pixel of the panel ends up as the write program's last write to it says. */
  lemma {:induction false} ApplyPixel(buf: Buffer, ws: seq<Write>)
    ensures forall x, y :: InRange(x, y) ==> Pixel(Apply(buf, ws), x, y) == Final(ws, x, y, Pixel(buf, x, y))
    decreases |ws|
  {
    if ws != [] {
      var w := ws[|ws| - 1];
      ApplyPixel(buf, ws[..|ws| - 1]);
      SetPixelEffect(Apply(buf, ws[..|ws| - 1]), w.x, w.y, w.on);
    }
  }

  /** `drawHLine(x, y, w, on)`: sets or clears exactly (x + i, y) for 0 <= i < w. */
  function DrawHLine(buf: Buffer, x: int, y: int, w: int, on: bool): (r: Buffer)
    ensures w <= 0 ==> r == buf
    ensures forall px, py :: InRange(px, py) ==>
              Pixel(r, px, py) == if py == y && x <= px < x + w then on else Pixel(buf, px, py)
  {
    var ws := HLineWrites(x, y, w, on);
    ApplyPixel(buf, ws);
    forall px, py | InRange(px, py)
      ensures Final(ws, px, py, Pixel(buf, px, py)) == if py == y && x <= px < x + w then on else Pixel(buf, px, py)
    {
      HLineEffect(x, y, w, on, px, py, Pixel(buf, px, py));
    }
    Apply(buf, ws)
  }

  /**
   * `drawText(x, y, text)`: every pixel of each 5x7 glyph cell is written with
   * its font bit, cells 6 columns apart; all other pixels keep their value.
   */
  function DrawText(font: FontTable, buf: Buffer, x: int, y: int, text: Text): (r: Buffer)
    ensures forall px, py :: InRange(px, py) ==>
              Pixel(r, px, py) == if InTextCell(|text|, x, y, px, py) then TextBit(font, text, x, y, px, py)
                                  else Pixel(buf, px, py)
  {
    var ws := TextWrites(font, text, x, y);
    ApplyPixel(buf, ws);
    forall px, py | InRange(px, py)
      ensures Final(ws, px, py, Pixel(buf, px, py))
           == if InTextCell(|text|, x, y, px, py) then TextBit(font, text, x, y, px, py) else Pixel(buf, px, py)
    {
      TextEffect(font, text, x, y, px, py, Pixel(buf, px, py));
    }
    Apply(buf, ws)
  }
}
