/**
 * Where the clock window goes on the screen: the anchor rule of
 * `set_window_size_and_position`. Screen and window sizes are the integers
 * the toolkit reports; the result is the window's top-left corner.
 */
module Placement {

  datatype Origin = Origin(x: int, y: int)

  /** Python's `a // 2`: the floor of half of `a`, also for negative `a`. */
  function FloorHalf(a: int): (q: int)
    ensures 2 * q <= a <= 2 * q + 1
  {
    a / 2  // Dafny's division rounds down when the divisor is positive
  }

  /** The anchor rule, string comparison by string comparison. */
  function Place(position: string, screenW: int, screenH: int, winW: int, winH: int): (o: Origin)
    ensures 0 <= winW <= screenW ==> 0 <= o.x && o.x + winW <= screenW
    ensures 0 <= winH <= screenH ==> 0 <= o.y && o.y + winH <= screenH
  {
    if position == "center" then
      Origin(FloorHalf(screenW - winW), FloorHalf(screenH - winH))
    else if position == "top_left" then
      Origin(0, 0)
    else if position == "bottom_left" then
      Origin(0, screenH - winH)
    else if position == "top_right" then
      Origin(screenW - winW, 0)
    else if position == "bottom_right" then
      Origin(screenW - winW, screenH - winH)
    else
      Origin(FloorHalf(screenW - winW), FloorHalf(screenH - winH))
  }

  /** The five anchors the settings file documents. */
  const NamedAnchors: set<string> := {"center", "top_left", "bottom_left", "top_right", "bottom_right"}

  /**
   * An independent reading of the rule: each axis is aligned at its start,
   * its middle or its end, and the free space on that axis decides the offset.
   */
  datatype Align = Start | Middle | End

  function Offset(a: Align, free: int): int {
    match a
    case Start => 0
    case Middle => FloorHalf(free)
    case End => free
  }

  function HorizontalAlign(position: string): Align {
    if position in {"top_left", "bottom_left"} then Start
    else if position in {"top_right", "bottom_right"} then End
    else Middle
  }

  function VerticalAlign(position: string): Align {
    if position in {"top_left", "top_right"} then Start
    else if position in {"bottom_left", "bottom_right"} then End
    else Middle
  }

  /** The anchor rule places each axis independently by its alignment. */
  lemma PlaceByAlignment(position: string, screenW: int, screenH: int, winW: int, winH: int)
    ensures Place(position, screenW, screenH, winW, winH) ==
            Origin(Offset(HorizontalAlign(position), screenW - winW),
                   Offset(VerticalAlign(position), screenH - winH))
  {
  }

  /** The exact corner for each named anchor. */
  lemma NamedAnchorFormulas(screenW: int, screenH: int, winW: int, winH: int)
    ensures Place("center", screenW, screenH, winW, winH) ==
            Origin(FloorHalf(screenW - winW), FloorHalf(screenH - winH))
    ensures Place("top_left", screenW, screenH, winW, winH) == Origin(0, 0)
    ensures Place("bottom_left", screenW, screenH, winW, winH) == Origin(0, screenH - winH)
    ensures Place("top_right", screenW, screenH, winW, winH) == Origin(screenW - winW, 0)
    ensures Place("bottom_right", screenW, screenH, winW, winH) == Origin(screenW - winW, screenH - winH)
  {
  }

  /** Any other position text, including a misspelt one, behaves as "center". */
  lemma UnknownIsCenter(position: string, screenW: int, screenH: int, winW: int, winH: int)
    requires position !in NamedAnchors
    ensures Place(position, screenW, screenH, winW, winH) == Place("center", screenW, screenH, winW, winH)
  {
  }

  /**
   * A centred window that fits leaves equal margins on both sides of each
   * axis, up to one pixel that goes to the far (right or bottom) side.
   */
  lemma CenterMargins(position: string, screenW: int, screenH: int, winW: int, winH: int)
    requires HorizontalAlign(position) == Middle && VerticalAlign(position) == Middle
    ensures var o := Place(position, screenW, screenH, winW, winH);
            0 <= (screenW - winW - o.x) - o.x <= 1 && 0 <= (screenH - winH - o.y) - o.y <= 1
  {
    PlaceByAlignment(position, screenW, screenH, winW, winH);
  }

  /** Anchors named "right" put the window flush with the right screen edge, "bottom" with the bottom one. */
  lemma FlushEdges(position: string, screenW: int, screenH: int, winW: int, winH: int)
    ensures var o := Place(position, screenW, screenH, winW, winH);
            (position in {"top_right", "bottom_right"} ==> o.x + winW == screenW) &&
            (position in {"bottom_left", "bottom_right"} ==> o.y + winH == screenH) &&
            (position in {"top_left", "bottom_left"} ==> o.x == 0) &&
            (position in {"top_left", "top_right"} ==> o.y == 0)
  {
  }
}
