/** Pixels in OpenCV's 8-bit HSV space, the colour bands they are classified
    into, and frames as row-major grids of pixels. */
module Pixels {

  /** One pixel after the BGR to HSV conversion. */
  datatype Pixel = Pixel(h: int, s: int, v: int)
  {
    /** Channel 0 is hue, 1 saturation, 2 value: the column order numpy
        reduces over when it takes per-channel statistics. */
    function Channel(c: int): int
      requires 0 <= c < 3
    {
      if c == 0 then h else if c == 1 then s else v
    }
  }

  /** OpenCV's 8-bit HSV ranges: hue 0..179, saturation and value 0..255. */
  predicate ValidPixel(p: Pixel)
  {
    0 <= p.h <= 179 && 0 <= p.s <= 255 && 0 <= p.v <= 255
  }

  /** A named band with inclusive lower and upper HSV bounds. */
  datatype Band = Band(name: string, lower: Pixel, upper: Pixel)

  /** The test `cv2.inRange` applies to one pixel: inclusive on all three
      channels at once. */
  predicate InBand(p: Pixel, b: Band)
  {
    && b.lower.h <= p.h <= b.upper.h
    && b.lower.s <= p.s <= b.upper.s
    && b.lower.v <= p.v <= b.upper.v
  }

  /** Bounds that are ordered and inside the 8-bit HSV ranges. */
  predicate WellFormedBand(b: Band)
  {
    && ValidPixel(b.lower) && ValidPixel(b.upper)
    && b.lower.h <= b.upper.h && b.lower.s <= b.upper.s && b.lower.v <= b.upper.v
  }

  /** Both bounds of an ordered band are themselves in the band, and one
      step past either bound on any channel is not. */
  lemma InBandInclusive(b: Band)
    requires WellFormedBand(b)
    ensures InBand(b.lower, b) && InBand(b.upper, b)
    ensures !InBand(Pixel(b.lower.h - 1, b.lower.s, b.lower.v), b)
    ensures !InBand(Pixel(b.lower.h, b.lower.s - 1, b.lower.v), b)
    ensures !InBand(Pixel(b.lower.h, b.lower.s, b.lower.v - 1), b)
    ensures !InBand(Pixel(b.upper.h + 1, b.upper.s, b.upper.v), b)
    ensures !InBand(Pixel(b.upper.h, b.upper.s + 1, b.upper.v), b)
    ensures !InBand(Pixel(b.upper.h, b.upper.s, b.upper.v + 1), b)
  {
  }

  /** The four plant-health bands the detector is configured with, in the
      order the reports list them. */
  const ReferenceBands: seq<Band> := [
    Band("healthy_green", Pixel(40, 40, 40), Pixel(90, 255, 255)),
    Band("pale_green", Pixel(35, 30, 80), Pixel(50, 120, 200)),
    Band("chlorotic_yellow", Pixel(25, 50, 50), Pixel(40, 255, 255)),
    Band("necrotic_brown", Pixel(5, 10, 10), Pixel(20, 180, 120))
  ]

  lemma ReferenceBandsWellFormed()
    ensures |ReferenceBands| == 4
    ensures forall i :: 0 <= i < |ReferenceBands| ==> WellFormedBand(ReferenceBands[i])
  {
  }

  /** The bands are not mutually exclusive: one pixel can be counted by
      three of them in the same frame. */
  lemma ReferenceBandsOverlap()
    ensures InBand(Pixel(40, 50, 100), ReferenceBands[0])
    ensures InBand(Pixel(40, 50, 100), ReferenceBands[1])
    ensures InBand(Pixel(40, 50, 100), ReferenceBands[2])
    ensures !InBand(Pixel(40, 50, 100), ReferenceBands[3])
  {
  }

  /** A frame of `width` columns: every row has that many pixels. */
  predicate IsGrid<T>(g: seq<seq<T>>, width: nat)
  {
    forall i :: 0 <= i < |g| ==> |g[i]| == width
  }

  /** Row-major flattening, the order in which numpy's boolean indexing
      visits the pixels of an image. */
  function Flatten<T>(g: seq<seq<T>>): seq<T>
  {
    if |g| == 0 then [] else g[0] + Flatten(g[1..])
  }

  /** A grid of `|g|` rows and `width` columns holds `|g| * width` pixels,
      the `total_pixels` every percentage is taken of. */
  lemma {:induction false} FlattenSize<T>(g: seq<seq<T>>, width: nat)
    requires IsGrid(g, width)
    ensures |Flatten(g)| == |g| * width
  {
    if |g| > 0 {
      FlattenSize(g[1..], width);
    }
  }

  /** Pixel `(row, col)` of the grid sits at `row * width + col` once flattened. */
  lemma {:induction false} FlattenIndex<T>(g: seq<seq<T>>, width: nat, row: nat, col: nat)
    requires IsGrid(g, width)
    requires row < |g| && col < width
    ensures row * width + col < |Flatten(g)|
    ensures Flatten(g)[row * width + col] == g[row][col]
  {
    FlattenSize(g, width);
    if row > 0 {
      FlattenIndex(g[1..], width, row - 1, col);
      assert row * width + col == width + ((row - 1) * width + col);
    }
  }
}
