/** The arithmetic of `LSystemRenderer::SaveScreenshot`: the rectangle read
    back from the framebuffer, and the in-place reversal of its rows (the
    framebuffer's origin is bottom-left, the image's top-left). Reading
    pixels, creating the surface and encoding the file are foreign calls,
    passed in as functions. */
module Capture {
  import opened Base
  import opened LSystemRenderer

  /** Origin and size along one axis. */
  datatype Span = Span(origin: int, size: int)

  datatype Rect = Rect(x: int, y: int, w: int, h: int)

  /** One row of pixel bytes. */
  type Row = seq<bv8>

  /** `|hi - lo| + 2 * padding`, converted to `unsigned int` (truncated). */
  function Extent(lo: real, hi: real, padding: int): (e: nat)
    requires padding >= 0
    ensures e as real <= Abs(hi - lo) + 2.0 * padding as real < e as real + 1.0
  {
    Trunc(Abs(hi - lo) + 2.0 * padding as real)
  }

  /** One axis of the capture rectangle: the whole window axis when the
      padded extent does not fit, otherwise the padded extent starting at
      `lo - padding`. That origin is not clamped and may be negative. */
  function CaptureSpan(lo: real, hi: real, padding: int, window: int): (s: Span)
    requires padding >= 0 && window >= 0
    ensures 0 <= s.size <= window
    ensures Extent(lo, hi, padding) > window ==> s == Span(0, window)
    ensures Extent(lo, hi, padding) <= window ==> s.size == Extent(lo, hi, padding)
    ensures Extent(lo, hi, padding) <= window ==> s.origin as real - 1.0 < lo - padding as real < s.origin as real + 1.0
    // the conversion truncates toward zero
    ensures Extent(lo, hi, padding) <= window && lo - padding as real >= 0.0 ==>
      0 <= s.origin && s.origin as real <= lo - padding as real
    ensures Extent(lo, hi, padding) <= window && lo - padding as real <= 0.0 ==>
      s.origin <= 0 && lo - padding as real <= s.origin as real
    // with at least two units of padding a fitting span covers [lo, hi]
    ensures padding >= 2 && lo <= hi && Extent(lo, hi, padding) <= window ==>
      s.origin as real <= lo && hi <= (s.origin + s.size) as real
  {
    var extent := Extent(lo, hi, padding);
    if extent > window then Span(0, window)
    else Span(Trunc(lo - padding as real), extent)
  }

  /** The rectangle read back for a renderer's stored box. */
  function CaptureRect(r: Renderer, padding: int): (rect: Rect)
    requires padding >= 0 && r.windowWidth >= 0 && r.windowHeight >= 0
    ensures 0 <= rect.w <= r.windowWidth && 0 <= rect.h <= r.windowHeight
    ensures Span(rect.x, rect.w) == CaptureSpan(r.box.minX, r.box.maxX, padding, r.windowWidth)
    ensures Span(rect.y, rect.h) == CaptureSpan(r.box.minY, r.box.maxY, padding, r.windowHeight)
  {
    var sx := CaptureSpan(r.box.minX, r.box.maxX, padding, r.windowWidth);
    var sy := CaptureSpan(r.box.minY, r.box.maxY, padding, r.windowHeight);
    Rect(sx.origin, sy.origin, sx.size, sy.size)
  }

  /** `rows` upside down. */
  ghost predicate IsReversal<T>(flipped: seq<T>, rows: seq<T>) {
    |flipped| == |rows| && forall i :: 0 <= i < |rows| ==> flipped[i] == rows[|rows| - 1 - i]
  }

  /** The flipping loop: save row 0, swap-shuffle rows from both ends toward
      the middle, shift the lower part up by one row, then put the saved row
      last. */
  method ReverseRows<T>(rows: seq<T>) returns (flipped: seq<T>)
    requires |rows| >= 2
    ensures IsReversal(flipped, rows)
  {
    var h := |rows|;
    flipped := rows;
    var t := flipped[0];
    var a := 0;
    var b := h - 1;
    while a < b
      invariant |flipped| == h
      invariant 0 <= a <= b + 1 && a + b == h - 1
      invariant forall i :: 0 <= i < a ==> flipped[i] == rows[h - 1 - i]
      invariant forall i :: a <= i <= b ==> flipped[i] == rows[i]
      invariant forall i :: b < i < h ==> flipped[i] == rows[h - i]
    {
      flipped := flipped[a := flipped[b]];
      a := a + 1;
      flipped := flipped[b := flipped[a]];
      b := b - 1;
    }
    // rows b + 1 .. h - 1 move up by one; the last row keeps its old value
    flipped := flipped[..b] + flipped[b + 1..] + [flipped[h - 1]];
    flipped := flipped[h - 1 := t];
  }

  /** The flip as guarded in the source: only captures taller than two rows
      are reversed. */
  method FlipRows<T>(rows: seq<T>) returns (flipped: seq<T>)
    ensures |rows| > 2 ==> IsReversal(flipped, rows)
    ensures |rows| <= 2 ==> flipped == rows
  {
    flipped := rows;
    if |rows| > 2 {
      flipped := ReverseRows(rows);
    }
  }

  /** `SaveScreenshot`: compute the rectangle, read it back, flip the rows
      and hand them to the encoder. The read-back fills the `w * h` pixel
      buffer, so it yields `h` rows; the surface's height is `h`, and the
      flip is guarded on it. A failed read-back (or surface creation) fails
      the capture before anything is encoded. */
  method SaveScreenshot(r: Renderer, padding: int, readBack: Rect -> Option<seq<Row>>, encode: seq<Row> -> bool)
    returns (ok: bool, rect: Rect, image: seq<Row>)
    requires padding >= 0 && r.windowWidth >= 0 && r.windowHeight >= 0
    requires var q := CaptureRect(r, padding);
      readBack(q).Some? ==> |readBack(q).value| == q.h
    ensures rect == CaptureRect(r, padding)
    ensures readBack(rect).None? ==> !ok && image == []
    ensures readBack(rect).Some? ==> var pixels := readBack(rect).value;
      && (rect.h > 2 ==> IsReversal(image, pixels))
      && (rect.h <= 2 ==> image == pixels)
      && ok == encode(image)
  {
    rect := CaptureRect(r, padding);
    match readBack(rect)
    case None =>
      ok := false;
      image := [];
    case Some(pixels) =>
      image := FlipRows(pixels);
      ok := encode(image);
  }
}
