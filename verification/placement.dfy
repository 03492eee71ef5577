/** Where the watermark goes: `WatermarkTool.calculate_watermark_position` and the
    semi-transparent box drawn behind the text in `WatermarkTool.add_watermark`.
    All values are pixels; the text box size is whatever the font reports. */
module Placement {

  /** Inset from the canvas edges for the four corner anchors. */
  const Margin: int := 20

  /** Extra room the background box leaves around the text on every side. */
  const Padding: int := 5

  const TopLeft: string := "top-left"
  const TopRight: string := "top-right"
  const BottomLeft: string := "bottom-left"
  const BottomRight: string := "bottom-right"
  const Center: string := "center"

  predicate IsNamedAnchor(position: string) {
    position == TopLeft || position == TopRight || position == BottomLeft ||
    position == BottomRight || position == Center
  }

  /** The anchors whose text hugs the left edge; an unknown name falls back to bottom-left. */
  predicate AtLeftEdge(position: string) {
    position == TopLeft || position == BottomLeft || !IsNamedAnchor(position)
  }

  predicate AtRightEdge(position: string) {
    position == TopRight || position == BottomRight
  }

  predicate AtTopEdge(position: string) {
    position == TopLeft || position == TopRight
  }

  predicate AtBottomEdge(position: string) {
    position == BottomLeft || position == BottomRight || !IsNamedAnchor(position)
  }

  /** What the anchor asks for, in terms of the four gaps between the text box with
      top-left corner (x, y) and the canvas edges: the gap on each named edge is the
      margin, and a centred box leaves the odd pixel, if any, on the right and bottom. */
  predicate PlacedAt(imgWidth: int, imgHeight: int, textWidth: int, textHeight: int,
                     position: string, x: int, y: int)
  {
    var leftGap, rightGap := x, imgWidth - (x + textWidth);
    var topGap, bottomGap := y, imgHeight - (y + textHeight);
    (AtLeftEdge(position) ==> leftGap == Margin) &&
    (AtRightEdge(position) ==> rightGap == Margin) &&
    (AtTopEdge(position) ==> topGap == Margin) &&
    (AtBottomEdge(position) ==> bottomGap == Margin) &&
    (position == Center ==> 0 <= rightGap - leftGap <= 1 && 0 <= bottomGap - topGap <= 1)
  }

  /** Top-left drawing coordinate of the text box. There is no clamping: a box wider or
      taller than the canvas minus the margin gets a negative coordinate and no error. */
  function CalculateWatermarkPosition(imgWidth: int, imgHeight: int, textWidth: int, textHeight: int,
                                      position: string): (xy: (int, int))
    ensures PlacedAt(imgWidth, imgHeight, textWidth, textHeight, position, xy.0, xy.1)
    ensures AtRightEdge(position) ==> (xy.0 < 0 <==> textWidth + Margin > imgWidth)
    ensures AtBottomEdge(position) ==> (xy.1 < 0 <==> textHeight + Margin > imgHeight)
  {
    if position == TopLeft then
      (Margin, Margin)
    else if position == TopRight then
      (imgWidth - textWidth - Margin, Margin)
    else if position == BottomLeft then
      (Margin, imgHeight - textHeight - Margin)
    else if position == BottomRight then
      (imgWidth - textWidth - Margin, imgHeight - textHeight - Margin)
    else if position == Center then
      // Python's `//` floors; Dafny's `/` by a positive divisor does too, negative dividends included
      ((imgWidth - textWidth) / 2, (imgHeight - textHeight) / 2)
    else
      (Margin, imgHeight - textHeight - Margin)
  }

  /** The gap description determines the position: `CalculateWatermarkPosition` is the only
      coordinate that satisfies `PlacedAt`, for every anchor name. */
  lemma PlacementUnique(imgWidth: int, imgHeight: int, textWidth: int, textHeight: int,
                        position: string, x: int, y: int)
    ensures PlacedAt(imgWidth, imgHeight, textWidth, textHeight, position, x, y) <==>
            (x, y) == CalculateWatermarkPosition(imgWidth, imgHeight, textWidth, textHeight, position)
  {
  }

  /** Any name other than the five anchors is placed exactly like "bottom-left". */
  lemma DefaultIsBottomLeft(imgWidth: int, imgHeight: int, textWidth: int, textHeight: int, position: string)
    requires !IsNamedAnchor(position)
    ensures CalculateWatermarkPosition(imgWidth, imgHeight, textWidth, textHeight, position) ==
            CalculateWatermarkPosition(imgWidth, imgHeight, textWidth, textHeight, BottomLeft)
  {
  }

  /** The rectangle [left, top, right, bottom] handed to the drawing call. */
  datatype Box = Box(left: int, top: int, right: int, bottom: int)

  /** The background box around a text box at (x, y): it encloses the text and sticks out
      by exactly the padding on each side. */
  function BackgroundBox(x: int, y: int, textWidth: int, textHeight: int): (box: Box)
    ensures x - box.left == Padding && box.right - (x + textWidth) == Padding
    ensures y - box.top == Padding && box.bottom - (y + textHeight) == Padding
    ensures box.right - box.left == textWidth + 2 * Padding
    ensures box.bottom - box.top == textHeight + 2 * Padding
  {
    Box(x - Padding, y - Padding, x + textWidth + Padding, y + textHeight + Padding)
  }

  /** Because the margin exceeds the padding, a text box that fits inside the canvas with a
      margin on both sides gets a background box inside the canvas, whatever the anchor. */
  lemma BackgroundInsideCanvas(imgWidth: int, imgHeight: int, textWidth: int, textHeight: int,
                               position: string)
    requires 0 <= textWidth && textWidth + 2 * Margin <= imgWidth
    requires 0 <= textHeight && textHeight + 2 * Margin <= imgHeight
    ensures var (x, y) := CalculateWatermarkPosition(imgWidth, imgHeight, textWidth, textHeight, position);
            var box := BackgroundBox(x, y, textWidth, textHeight);
            0 <= box.left && box.right <= imgWidth && 0 <= box.top && box.bottom <= imgHeight
  {
  }

  /** The worked example of a 1000 x 800 photo with a 120 x 30 text at the bottom right. */
  lemma BottomRightExample()
    ensures CalculateWatermarkPosition(1000, 800, 120, 30, BottomRight) == (860, 750)
  {
  }
}
