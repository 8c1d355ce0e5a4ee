/**
 * The sizes the clock derives from measured text and settings: the window
 * size of `update_window_size` and the seconds bar of `update_seconds_bar`.
 * Floating point is idealised as exact real arithmetic.
 */
module Geometry {

  /** Python's `int(v)` on a float: truncation toward zero. */
  function Trunc(v: real): (n: int)
    ensures 0.0 <= v ==> 0 <= n && n as real <= v < n as real + 1.0
    ensures v < 0.0 ==> n <= 0 && n as real - 1.0 < v <= n as real
  {
    if v >= 0.0 then v.Floor else -((-v).Floor)
  }

  lemma TruncMonotone(a: real, b: real)
    requires a <= b
    ensures Trunc(a) <= Trunc(b)
  {
  }

  /**
   * The pixel extent for a measured extent `req` (never negative) and a
   * scale factor: the floor of the product for a non-negative scale, the
   * product truncated toward zero otherwise.
   */
  function ScaledSize(req: nat, scale: real): (n: int)
    ensures scale >= 0.0 ==> 0 <= n && n as real <= req as real * scale < n as real + 1.0
    ensures scale < 0.0 ==> n <= 0 && n as real - 1.0 < req as real * scale <= n as real
  {
    Trunc(req as real * scale)
  }

  datatype Size = Size(width: int, height: int)

  /** Window size from the label's requested size and the two scale settings. */
  function WindowSize(reqW: nat, reqH: nat, widthScale: real, heightScale: real): (s: Size)
    ensures s.width == ScaledSize(reqW, widthScale) && s.height == ScaledSize(reqH, heightScale)
    ensures widthScale >= 0.0 ==> 0 <= s.width && s.width as real <= reqW as real * widthScale < s.width as real + 1.0
    ensures heightScale >= 0.0 ==> 0 <= s.height && s.height as real <= reqH as real * heightScale < s.height as real + 1.0
  {
    Size(Trunc(reqW as real * widthScale), Trunc(reqH as real * heightScale))
  }

  lemma MulNonNegative(a: real, b: real)
    requires a >= 0.0 && b >= 0.0
    ensures a * b >= 0.0
  {
  }

  /** With the measured size fixed, a larger scale never gives a smaller window. */
  lemma ScaledSizeMonotone(req: nat, scale: real, scale': real)
    requires scale <= scale'
    ensures ScaledSize(req, scale) <= ScaledSize(req, scale')
  {
    MulNonNegative(req as real, scale' - scale);
    assert req as real * scale' == req as real * scale + req as real * (scale' - scale);
    TruncMonotone(req as real * scale, req as real * scale');
  }

  lemma WindowSizeMonotone(reqW: nat, reqH: nat, ws: real, hs: real, ws': real, hs': real)
    requires ws <= ws' && hs <= hs'
    ensures WindowSize(reqW, reqH, ws, hs).width <= WindowSize(reqW, reqH, ws', hs').width
    ensures WindowSize(reqW, reqH, ws, hs).height <= WindowSize(reqW, reqH, ws', hs').height
  {
    ScaledSizeMonotone(reqW, ws, ws');
    ScaledSizeMonotone(reqH, hs, hs');
  }

  /** The width of the seconds bar: the elapsed fraction of the minute times the window width. */
  function BarWidth(second: int, windowW: int): (w: real)
    ensures w * 60.0 == (second * windowW) as real
    ensures second == 60 ==> w == windowW as real
  {
    (second as real / 60.0) * windowW as real
  }

  /** The seconds bar as it is placed: left edge, top edge, width and height. */
  datatype Bar = Bar(x: int, y: int, width: real, height: int)

  function SecondsBar(second: int, windowW: int, windowH: int, barHeight: int): (b: Bar)
    ensures b.x == 0 && b.height == barHeight
    ensures b.y + b.height == windowH
    ensures b.width == BarWidth(second, windowW)
  {
    Bar(0, windowH - barHeight, BarWidth(second, windowW), barHeight)
  }

  lemma BarEmptyAtMinuteStart(windowW: int)
    ensures BarWidth(0, windowW) == 0.0
  {
  }

  /** Within a minute the bar only grows. */
  lemma BarWidthMonotone(s: int, s': int, windowW: int)
    requires s <= s' && windowW >= 0
    ensures BarWidth(s, windowW) <= BarWidth(s', windowW)
  {
    assert BarWidth(s', windowW) - BarWidth(s, windowW) == ((s' - s) as real / 60.0) * windowW as real;
  }

  /** For every second `datetime` reports, the bar stays inside the window and is never full. */
  lemma BarWithinWindow(s: int, windowW: int)
    requires 0 <= s < 60 && windowW > 0
    ensures 0.0 <= BarWidth(s, windowW) < windowW as real
  {
    BarWidthMonotone(0, s, windowW);
    var rest := (60 - s) as real / 60.0;
    assert rest > 0.0;
    assert windowW as real - BarWidth(s, windowW) == rest * windowW as real;
    assert rest * windowW as real > 0.0;
  }

  /** Each tick adds the same step, a sixtieth of the window width. */
  lemma BarStep(s: int, windowW: int)
    ensures BarWidth(s + 1, windowW) - BarWidth(s, windowW) == windowW as real / 60.0
  {
  }

  /** A bar no taller than the window lies along its bottom edge, inside it. */
  lemma BarOnBottomEdge(second: int, windowW: int, windowH: int, barHeight: int)
    requires 0 <= barHeight <= windowH
    ensures var b := SecondsBar(second, windowW, windowH, barHeight);
            0 <= b.y <= windowH && b.y + b.height == windowH
  {
  }
}
