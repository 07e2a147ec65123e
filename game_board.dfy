/** Board sizing and the rendered (culled) circle set (src/components/GameBoard.jsx). */
module GameBoard {
  import opened GameUtils

  /** Side of the board for up to 100 circles, in pixels. */
  const BaseSize: int := 600

  datatype Dimensions = Dimensions(width: int, height: int)

  /** `getBoardDimensions` (lines 52-62): a square board whose side steps up
      with the number of circles: 1x, 1.5x, 2x, 2.5x, 3x the base size. */
  function GetBoardDimensions(circles: seq<Circle>): (d: Dimensions)
    ensures d.width == d.height
    ensures BaseSize <= d.width <= 3 * BaseSize && d.width % (BaseSize / 2) == 0
    ensures d.width == BaseSize <==> |circles| <= 100
    ensures d.width == 3 * BaseSize <==> |circles| > 2000
    ensures 100 < |circles| <= 500 ==> d.width == 900
    ensures 500 < |circles| <= 1000 ==> d.width == 1200
    ensures 1000 < |circles| <= 2000 ==> d.width == 1500
  {
    var count := |circles|;
    if count <= 100 then Dimensions(BaseSize, BaseSize)
    else if count <= 500 then Dimensions(BaseSize * 3 / 2, BaseSize * 3 / 2)
    else if count <= 1000 then Dimensions(BaseSize * 2, BaseSize * 2)
    else if count <= 2000 then Dimensions(BaseSize * 5 / 2, BaseSize * 5 / 2)
    else Dimensions(BaseSize * 3, BaseSize * 3)
  }

  /** More circles never get a smaller board. */
  lemma BoardMonotone(a: seq<Circle>, b: seq<Circle>)
    requires |a| <= |b|
    ensures GetBoardDimensions(a).width <= GetBoardDimensions(b).width
  {
  }

  /** Every board size leaves strictly more than a circle plus padding on each
      axis, whatever count the generator is then asked for, so every candidate
      position lies strictly inside the padded board. */
  lemma BoardHasRoom(circles: seq<Circle>, count: int, s: Sample)
    ensures var side := GetBoardDimensions(circles).width;
            var l := LayoutFor(count, side, side);
            && HasRoom(l, side)
            && (l.radius + Padding) as real <= Candidate(l, s, side) < (side - l.radius - Padding) as real
  {
    var side := GetBoardDimensions(circles).width;
    CandidateBounds(LayoutFor(count, side, side), s, side);
  }

  /** The scrolled region of the board. */
  datatype Viewport = Viewport(top: real, left: real, bottom: real, right: real)

  /** The viewport before the first scroll measurement (lines 8-13). */
  const InitialViewport: Viewport := Viewport(0.0, 0.0, 0.0, 0.0)

  /** `updateVisibleCircles` (lines 22-29): the viewport spans the client area
      from the scroll offsets. */
  function ViewportOf(scrollTop: real, scrollLeft: real, clientHeight: real, clientWidth: real): (v: Viewport)
    ensures v.top == scrollTop && v.left == scrollLeft
    ensures v.bottom - v.top == clientHeight && v.right - v.left == clientWidth
    ensures clientHeight >= 0.0 ==> v.top <= v.bottom
    ensures clientWidth >= 0.0 ==> v.left <= v.right
  {
    Viewport(scrollTop, scrollLeft, scrollTop + clientHeight, scrollLeft + clientWidth)
  }

  /** The clickable circles (lines 45-49): `getVisibleCircles` on the current
      viewport with its default padding, an order-preserving subsequence of
      `circles`. */
  function RenderedCircles(circles: seq<Circle>, v: Viewport): (r: seq<Circle>)
    ensures IsSubsequence(r, circles)
    ensures forall c :: c in r ==> c in circles
  {
    VisibleIsSubsequence(circles, v.top, v.bottom, v.left, v.right, 100.0);
    GetVisibleCircles(circles, v.top, v.bottom, v.left, v.right)
  }

  /** The all-zero viewport of lines 8-13 keeps exactly the circles within
      100 pixels of the origin on both axes. */
  lemma InitialRendered(circles: seq<Circle>, c: Circle)
    ensures c in RenderedCircles(circles, InitialViewport) <==>
              c in circles && -100.0 <= c.x <= 100.0 && -100.0 <= c.y <= 100.0
  {
  }

  /** A circle whose centre lies inside the viewport itself is rendered, and so
      is one up to 100 pixels beyond any edge. */
  lemma CentreInViewRendered(circles: seq<Circle>, v: Viewport, c: Circle)
    requires c in circles
    requires v.left - 100.0 <= c.x <= v.right + 100.0 && v.top - 100.0 <= c.y <= v.bottom + 100.0
    ensures c in RenderedCircles(circles, v)
  {
  }
}
