/** The digital zoom: for a zoom factor above 1.0, the rectangle of the frame
    that is cut out (and later scaled back to the full frame size). */
module Zoom {
  import opened Basics
  import opened Pixels
  import opened Controls

  /** Origin and size of a crop, in pixels. */
  datatype Rect = Rect(x: int, y: int, width: int, height: int)

  /** The rectangle lies wholly inside a `w` by `h` frame, so the slice
      `frame[y:y+height, x:x+width]` is cut without any silent clamping. */
  predicate InBounds(r: Rect, w: nat, h: nat)
  {
    && 0 <= r.x && 0 <= r.width && r.x + r.width <= w
    && 0 <= r.y && 0 <= r.height && r.y + r.height <= h
  }

  /** The crop length along one axis, `int(size / zoom)`: the quotient is
      non-negative, so truncation is the floor. */
  function CropSpan(size: nat, zoom: real): (n: int)
    requires zoom > 1.0
    ensures 0 <= n <= size
    ensures IsFloorQuotient(n, size, zoom)
  {
    FloorQuotient(size, zoom);
    (size as real / zoom).Floor
  }

  lemma FloorQuotient(size: nat, zoom: real)
    requires zoom > 1.0
    ensures 0 <= (size as real / zoom).Floor <= size
    ensures IsFloorQuotient((size as real / zoom).Floor, size, zoom)
  {
    var q := size as real / zoom;
    QuotientBounds(size as real, zoom);
    var n := q.Floor;
    ScaleBracket(size as real, q, zoom, n as real, (n + 1) as real);
  }

  /** Scaling `lo <= q < hi` by a positive factor brackets `q * c`. */
  lemma ScaleBracket(s: real, q: real, c: real, lo: real, hi: real)
    requires c > 0.0 && q * c == s && lo <= q < hi
    ensures lo * c <= s < hi * c
  {
    MulMonotone(lo, q, c);
    MulMonotone(q, hi, c);
  }

  /** `n` is the floor of `size / zoom`, stated without division. */
  predicate IsFloorQuotient(n: int, size: nat, zoom: real)
  {
    && n as real * zoom <= size as real
    && size as real < (n + 1) as real * zoom
  }

  lemma QuotientBounds(a: real, c: real)
    requires a >= 0.0 && c > 1.0
    ensures (a / c) * c == a
    ensures 0.0 <= a / c <= a
  {
    MulMonotone(1.0, c, a / c);
  }

  lemma MulMonotone(a: real, b: real, c: real)
    requires a <= b && c >= 0.0
    ensures a * c <= b * c
    ensures a < b && c > 0.0 ==> a * c < b * c
  {
  }

  /** The crop origin along one axis: the frame centre shifted by the pan,
      less half the crop, clamped so the crop stays inside the frame. */
  function CropOrigin(size: nat, span: int, pan: int): (o: int)
    requires 0 <= span <= size
    ensures 0 <= o && o + span <= size
    ensures 0 <= size / 2 + pan - span / 2 <= size - span ==> o == size / 2 + pan - span / 2
    ensures size / 2 + pan - span / 2 < 0 ==> o == 0
    ensures size / 2 + pan - span / 2 > size - span ==> o == size - span
  {
    Max(0, Min(size / 2 + pan - span / 2, size - span))
  }

  /** The rectangle cut from a `w` by `h` frame under `view`, or `None` when
      the zoom is at most 1.0 and the frame is used as it is. */
  function CropRect(w: nat, h: nat, view: ViewState): (r: Option<Rect>)
    ensures r.None? <==> view.zoom <= 1.0
    ensures r.Some? ==> InBounds(r.value, w, h)
    ensures r.Some? ==> IsFloorQuotient(r.value.width, w, view.zoom)
    ensures r.Some? ==> IsFloorQuotient(r.value.height, h, view.zoom)
    ensures r.Some? ==> r.value.x == CropOrigin(w, r.value.width, view.panX)
    ensures r.Some? ==> r.value.y == CropOrigin(h, r.value.height, view.panY)
  {
    if view.zoom <= 1.0 then None
    else
      var cw := CropSpan(w, view.zoom);
      var ch := CropSpan(h, view.zoom);
      Some(Rect(CropOrigin(w, cw, view.panX), CropOrigin(h, ch, view.panY), cw, ch))
  }

  /** The crop is never empty as long as the frame is at least as large as
      the zoom factor along each axis; under the 5.0 zoom cap a 5 by 5 frame
      always suffices. */
  lemma CropNonEmpty(w: nat, h: nat, view: ViewState)
    requires view.zoom > 1.0
    ensures CropRect(w, h, view).value.width >= 1 <==> w as real >= view.zoom
    ensures CropRect(w, h, view).value.height >= 1 <==> h as real >= view.zoom
    ensures Valid(view) && w >= 5 && h >= 5 ==>
      CropRect(w, h, view).value.width >= 1 && CropRect(w, h, view).value.height >= 1
  {
    var r := CropRect(w, h, view).value;
    SpanPositive(r.width, w, view.zoom);
    SpanPositive(r.height, h, view.zoom);
  }

  lemma SpanPositive(n: int, size: nat, zoom: real)
    requires n >= 0 && zoom > 1.0 && IsFloorQuotient(n, size, zoom)
    ensures n >= 1 <==> size as real >= zoom
  {
    if n >= 1 {
      MulMonotone(1.0, n as real, zoom);
    } else {
      assert (n + 1) as real * zoom == zoom;
    }
  }

  /** With no pan the crop is centred: it starts half the cut-away margin in. */
  lemma ZeroPanCentres(w: nat, h: nat, zoom: real)
    requires zoom > 1.0
    ensures CropRect(w, h, ViewState(zoom, 0, 0)).value.x == w / 2 - CropSpan(w, zoom) / 2
    ensures CropRect(w, h, ViewState(zoom, 0, 0)).value.y == h / 2 - CropSpan(h, zoom) / 2
  {
  }

  /** The frame after the zoom step, before it is scaled back up: the frame
      itself at zoom 1.0, otherwise exactly the pixels under the crop
      rectangle, row by row. */
  function CropFrame<T>(frame: seq<seq<T>>, w: nat, view: ViewState): (r: seq<seq<T>>)
    requires IsGrid(frame, w)
    ensures view.zoom <= 1.0 ==> r == frame
    ensures view.zoom > 1.0 ==>
      var rect := CropRect(w, |frame|, view).value;
      && |r| == rect.height
      && IsGrid(r, rect.width)
      && forall i, j :: 0 <= i < rect.height && 0 <= j < rect.width ==> r[i][j] == frame[rect.y + i][rect.x + j]
  {
    match CropRect(w, |frame|, view)
    case None => frame
    case Some(rect) =>
      seq(rect.height, i requires 0 <= i < rect.height => frame[rect.y + i][rect.x .. rect.x + rect.width])
  }
}
