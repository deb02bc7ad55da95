/** The area filter applied to the external contours of a band's mask before
    their bounding boxes are drawn. Finding the contours, measuring their
    areas and their bounding boxes is OpenCV's work; here a contour is just
    its measured area and its box. */
module Regions {

  const MinRegionArea: real := 500.0

  /** An axis-aligned bounding box, `(x, y, w, h)`. */
  datatype Box = Box(x: int, y: int, w: int, h: int)

  datatype Contour = Contour(area: real, box: Box)

  /** The contours whose boxes are drawn, in discovery order. */
  function Kept(cs: seq<Contour>): (r: seq<Contour>)
    ensures |r| <= |cs|
    ensures forall c :: c in r <==> c in cs && c.area > MinRegionArea
  {
    if |cs| == 0 then []
    else (if cs[0].area > MinRegionArea then [cs[0]] else []) + Kept(cs[1..])
  }

  /** The threshold is strict: an area of exactly 500 is dropped, 501 kept. */
  lemma ThresholdIsStrict(b: Box)
    ensures Kept([Contour(500.0, b)]) == []
    ensures Kept([Contour(501.0, b)]) == [Contour(501.0, b)]
  {
    assert Kept([Contour(500.0, b)]) == [] + Kept([]);
    assert Kept([Contour(501.0, b)]) == [Contour(501.0, b)] + Kept([]);
  }
}
