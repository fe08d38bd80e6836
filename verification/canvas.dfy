/**
 * Pixel-write programs. Every drawing primitive of the renderer is a loop of
 * `setPixel(x, y, on)` calls; here such a loop is the sequence of its calls,
 * in call order, and `Final` is what a single pixel holds after all of them
 * (the last write to it wins). The framebuffer and the portrait adapter give
 * these programs their effect on the panel buffer.
 */
module Canvas {

  datatype Write = Write(x: int, y: int, on: bool)

  predicate Targets(w: Write, x: int, y: int) {
    w.x == x && w.y == y
  }

  /** The value of pixel (x, y) after the writes `ws`, starting from `before`. */
  function Final(ws: seq<Write>, x: int, y: int, before: bool): bool
    decreases |ws|
  {
    if ws == [] then before
    else if Targets(ws[|ws| - 1], x, y) then ws[|ws| - 1].on
    else Final(ws[..|ws| - 1], x, y, before)
  }

  /** Some write of `ws` addresses (x, y). */
  predicate Hits(ws: seq<Write>, x: int, y: int) {
    exists i :: 0 <= i < |ws| && Targets(ws[i], x, y)
  }

  /** Every write of `ws` stores `v`. */
  predicate AllStore(ws: seq<Write>, v: bool) {
    forall i :: 0 <= i < |ws| ==> ws[i].on == v
  }

  lemma AllStoreConcat(a: seq<Write>, b: seq<Write>, v: bool)
    requires AllStore(a, v) && AllStore(b, v)
    ensures AllStore(a + b, v)
  {
  }

  /** Running `a` then `b` is running `a + b`. */
  lemma {:induction false} FinalConcat(a: seq<Write>, b: seq<Write>, x: int, y: int, before: bool)
    ensures Final(a + b, x, y, before) == Final(b, x, y, Final(a, x, y, before))
    decreases |b|
  {
    if b == [] {
      assert a + b == a;
    } else {
      assert (a + b)[..|a + b| - 1] == a + b[..|b| - 1];
      FinalConcat(a, b[..|b| - 1], x, y, before);
    }
  }

  lemma {:induction false} HitsConcat(a: seq<Write>, b: seq<Write>, x: int, y: int)
    ensures Hits(a + b, x, y) <==> Hits(a, x, y) || Hits(b, x, y)
  {
    if Hits(a + b, x, y) {
      var i :| 0 <= i < |a + b| && Targets((a + b)[i], x, y);
      if i < |a| {
        assert Targets(a[i], x, y);
      } else {
        assert Targets(b[i - |a|], x, y);
      }
    }
    if Hits(a, x, y) {
      var i :| 0 <= i < |a| && Targets(a[i], x, y);
      assert Targets((a + b)[i], x, y);
    }
    if Hits(b, x, y) {
      var i :| 0 <= i < |b| && Targets(b[i], x, y);
      assert Targets((a + b)[|a| + i], x, y);
    }
  }

  /**
   * A program whose writes all store the same value `v` leaves a pixel it
   * never addresses alone and sets every pixel it addresses to `v`; in
   * particular the order of its writes does not matter.
   */
  lemma {:induction false} FinalUniform(ws: seq<Write>, v: bool, x: int, y: int, before: bool)
    requires AllStore(ws, v)
    ensures Final(ws, x, y, before) == if Hits(ws, x, y) then v else before
    decreases |ws|
  {
    if ws != [] {
      var init := ws[..|ws| - 1];
      assert AllStore(init, v);
      FinalUniform(init, v, x, y, before);
      assert ws == init + [ws[|ws| - 1]];
      HitsConcat(init, [ws[|ws| - 1]], x, y);
    }
  }

  /** Only the last write addressing a pixel decides its value. */
  lemma {:induction false} FinalLastWrite(ws: seq<Write>, i: int, x: int, y: int, before: bool)
    requires 0 <= i < |ws| && Targets(ws[i], x, y)
    requires forall j :: i < j < |ws| ==> !Targets(ws[j], x, y)
    ensures Final(ws, x, y, before) == ws[i].on
    decreases |ws|
  {
    if i < |ws| - 1 {
      var init := ws[..|ws| - 1];
      assert !Targets(ws[|ws| - 1], x, y);
      FinalLastWrite(init, i, x, y, before);
    }
  }

  /** A pixel no write addresses keeps its value. */
  lemma {:induction false} FinalMiss(ws: seq<Write>, x: int, y: int, before: bool)
    requires !Hits(ws, x, y)
    ensures Final(ws, x, y, before) == before
    decreases |ws|
  {
    if ws != [] {
      var init := ws[..|ws| - 1];
      assert !Targets(ws[|ws| - 1], x, y);
      assert !Hits(init, x, y) by {
        forall j | 0 <= j < |init|
          ensures !Targets(init[j], x, y)
        {
          assert init[j] == ws[j];
        }
      }
      FinalMiss(init, x, y, before);
    }
  }

  /** `for (int i = 0; i < w; ++i) setPixel(x + i, y, on)`. */
  function HLineWrites(x: int, y: int, w: int, on: bool): (ws: seq<Write>)
    ensures AllStore(ws, on)
  {
    seq(if w < 0 then 0 else w, i => Write(x + i, y, on))
  }

  /** The line stores `on` into exactly the pixels (x + i, y), 0 <= i < w. */
  lemma HLineEffect(x: int, y: int, w: int, on: bool, px: int, py: int, before: bool)
    ensures Final(HLineWrites(x, y, w, on), px, py, before)
         == if py == y && x <= px < x + w then on else before
  {
    var ws := HLineWrites(x, y, w, on);
    FinalUniform(ws, on, px, py, before);
    if py == y && x <= px < x + w {
      assert Targets(ws[px - x], px, py);
    }
  }

  /**
   * Where a guarded double loop writes for outer index a and inner index b:
   * (x0 + a, y0 + b), or (x0 + b, y0 + a) when the outer loop runs over rows.
   */
  function ScanPoint(rowMajor: bool, x0: int, y0: int, a: int, b: int): (int, int) {
    if rowMajor then (x0 + b, y0 + a) else (x0 + a, y0 + b)
  }

  /** The loop indices (outer, inner) at which the scan reaches (x, y). */
  function ScanIndex(rowMajor: bool, x0: int, y0: int, x: int, y: int): (ab: (int, int))
    ensures ScanPoint(rowMajor, x0, y0, ab.0, ab.1) == (x, y)
  {
    if rowMajor then (y - y0, x - x0) else (x - x0, y - y0)
  }

  /** The inner loop `for (b = b0; b < nb; ++b) if (lit(a, b)) setPixel(point(a, b), true)`. */
  function InnerScan(nb: int, lit: (int, int) -> bool, rowMajor: bool, x0: int, y0: int, a: int, b: int): (ws: seq<Write>)
    ensures AllStore(ws, true)
    decreases nb - b
  {
    if b >= nb then []
    else
      var p := ScanPoint(rowMajor, x0, y0, a, b);
      (if lit(a, b) then [Write(p.0, p.1, true)] else []) + InnerScan(nb, lit, rowMajor, x0, y0, a, b + 1)
  }

  /** The outer loop `for (a = a0; a < na; ++a)` around InnerScan: it only ever turns pixels on. */
  function Scan(na: int, nb: int, lit: (int, int) -> bool, rowMajor: bool, x0: int, y0: int, a: int): (ws: seq<Write>)
    ensures AllStore(ws, true)
    decreases na - a
  {
    if a >= na then [] else InnerScan(nb, lit, rowMajor, x0, y0, a, 0) + Scan(na, nb, lit, rowMajor, x0, y0, a + 1)
  }

  lemma {:induction false} InnerScanHits(nb: int, lit: (int, int) -> bool, rowMajor: bool, x0: int, y0: int, a: int, b: int, x: int, y: int)
    ensures var ab := ScanIndex(rowMajor, x0, y0, x, y);
            Hits(InnerScan(nb, lit, rowMajor, x0, y0, a, b), x, y) <==> ab.0 == a && b <= ab.1 < nb && lit(a, ab.1)
    decreases nb - b
  {
    if b < nb {
      var p := ScanPoint(rowMajor, x0, y0, a, b);
      var head := if lit(a, b) then [Write(p.0, p.1, true)] else [];
      var rest := InnerScan(nb, lit, rowMajor, x0, y0, a, b + 1);
      assert InnerScan(nb, lit, rowMajor, x0, y0, a, b) == head + rest;
      HitsConcat(head, rest, x, y);
      InnerScanHits(nb, lit, rowMajor, x0, y0, a, b + 1, x, y);
      if lit(a, b) && p == (x, y) {
        assert Targets(head[0], x, y);
      }
    }
  }

  /**
   * A pixel is written by the scan exactly when the loop indices that reach
   * it are in range and pass the guard.
   */
  lemma {:induction false} ScanHits(na: int, nb: int, lit: (int, int) -> bool, rowMajor: bool, x0: int, y0: int, a: int, x: int, y: int)
    ensures var ab := ScanIndex(rowMajor, x0, y0, x, y);
            Hits(Scan(na, nb, lit, rowMajor, x0, y0, a), x, y) <==> a <= ab.0 < na && 0 <= ab.1 < nb && lit(ab.0, ab.1)
    decreases na - a
  {
    if a < na {
      var head := InnerScan(nb, lit, rowMajor, x0, y0, a, 0);
      var rest := Scan(na, nb, lit, rowMajor, x0, y0, a + 1);
      HitsConcat(head, rest, x, y);
      InnerScanHits(nb, lit, rowMajor, x0, y0, a, 0, x, y);
      ScanHits(na, nb, lit, rowMajor, x0, y0, a + 1, x, y);
    }
  }

  /** After a scan, a pixel is lit exactly when it was before or the scan reached it. */
  lemma ScanEffect(na: int, nb: int, lit: (int, int) -> bool, rowMajor: bool, x0: int, y0: int, x: int, y: int, before: bool)
    ensures var ab := ScanIndex(rowMajor, x0, y0, x, y);
            Final(Scan(na, nb, lit, rowMajor, x0, y0, 0), x, y, before)
            == (before || (0 <= ab.0 < na && 0 <= ab.1 < nb && lit(ab.0, ab.1)))
  {
    FinalUniform(Scan(na, nb, lit, rowMajor, x0, y0, 0), true, x, y, before);
    ScanHits(na, nb, lit, rowMajor, x0, y0, 0, x, y);
  }
}
