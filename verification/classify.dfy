/** Per-band classification of a frame's HSV pixels: the `inRange` mask, its
    pixel count, the matched pixels in frame order, and the share of the
    frame they cover. The frame is the row-major sequence of its pixels. */
module Classify {
  import opened Pixels

  /** `cv2.inRange(hsv, lower, upper)`: one flag per pixel. */
  function Mask(pixels: seq<Pixel>, band: Band): (m: seq<bool>)
    ensures |m| == |pixels|
    ensures forall i :: 0 <= i < |m| ==> (m[i] <==> InBand(pixels[i], band))
  {
    if |pixels| == 0 then []
    else Mask(pixels[..|pixels| - 1], band) + [InBand(pixels[|pixels| - 1], band)]
  }

  /** `cv2.countNonZero`: the number of set flags. */
  function CountNonZero(m: seq<bool>): (n: nat)
    ensures n <= |m|
  {
    if |m| == 0 then 0
    else CountNonZero(m[..|m| - 1]) + (if m[|m| - 1] then 1 else 0)
  }

  /** The positions of the set flags. */
  function TrueIndices(m: seq<bool>): set<int>
  {
    set i | 0 <= i < |m| && m[i]
  }

  /** The count is the number of distinct positions the mask selects. */
  lemma {:induction false} CountIsCardinality(m: seq<bool>)
    ensures CountNonZero(m) == |TrueIndices(m)|
  {
    if |m| > 0 {
      var k := |m| - 1;
      CountIsCardinality(m[..k]);
      if m[k] {
        assert TrueIndices(m) == TrueIndices(m[..k]) + {k};
      } else {
        assert TrueIndices(m) == TrueIndices(m[..k]);
      }
    }
  }

  /** `xs[mask > 0]`, numpy's boolean indexing: the selected elements in
      their original order. */
  function Selected<T>(xs: seq<T>, m: seq<bool>): (r: seq<T>)
    requires |xs| == |m|
    ensures |r| == CountNonZero(m)
  {
    if |xs| == 0 then []
    else
      var k := |xs| - 1;
      Selected(xs[..k], m[..k]) + (if m[k] then [xs[k]] else [])
  }

  /** The selection keeps the original order: the element at a set
      position `i` is the selection's element number `CountNonZero(m[..i])`,
      the count of set positions before it. */
  lemma {:induction false} SelectedIndex<T>(xs: seq<T>, m: seq<bool>)
    requires |xs| == |m|
    ensures forall i :: 0 <= i < |xs| && m[i] ==>
      CountNonZero(m[..i]) < |Selected(xs, m)| && Selected(xs, m)[CountNonZero(m[..i])] == xs[i]
  {
    if |xs| > 0 {
      var k := |xs| - 1;
      var pre := Selected(xs[..k], m[..k]);
      SelectedIndex(xs[..k], m[..k]);
      assert m[..k] == m[..|m| - 1];
      forall i | 0 <= i < |xs| && m[i]
        ensures CountNonZero(m[..i]) < |Selected(xs, m)| && Selected(xs, m)[CountNonZero(m[..i])] == xs[i]
      {
        if i < k {
          assert m[..k][..i] == m[..i];
          assert m[..k][i] && xs[..k][i] == xs[i];
        } else {
          assert m[..i] == m[..k];
        }
      }
    }
  }

  /** An element is selected exactly when it stands at a set position. */
  lemma {:induction false} SelectedMembers<T>(xs: seq<T>, m: seq<bool>, x: T)
    requires |xs| == |m|
    ensures x in Selected(xs, m) <==> exists i :: 0 <= i < |xs| && m[i] && xs[i] == x
  {
    if |xs| > 0 {
      var k := |xs| - 1;
      SelectedMembers(xs[..k], m[..k], x);
      if exists i :: 0 <= i < |xs| && m[i] && xs[i] == x {
        var i :| 0 <= i < |xs| && m[i] && xs[i] == x;
        if i < k {
          assert m[..k][i] && xs[..k][i] == x;
        }
      }
      if exists i :: 0 <= i < k && m[..k][i] && xs[..k][i] == x {
        var i :| 0 <= i < k && m[..k][i] && xs[..k][i] == x;
        assert m[i] && xs[i] == x;
      }
    }
  }

  /** The selection begins with the element at the first set position. */
  lemma {:induction false} SelectedFirst<T>(xs: seq<T>, m: seq<bool>, i: int)
    requires |xs| == |m|
    requires 0 <= i < |m| && m[i]
    requires forall j :: 0 <= j < i ==> !m[j]
    ensures |Selected(xs, m)| > 0 && Selected(xs, m)[0] == xs[i]
  {
    var k := |xs| - 1;
    if i < k {
      SelectedFirst(xs[..k], m[..k], i);
    } else {
      assert forall j :: 0 <= j < k ==> !m[..k][j];
      NoneSelected(xs[..k], m[..k]);
    }
  }

  lemma {:induction false} NoneSelected<T>(xs: seq<T>, m: seq<bool>)
    requires |xs| == |m|
    requires forall j :: 0 <= j < |m| ==> !m[j]
    ensures Selected(xs, m) == []
  {
    if |xs| > 0 {
      var k := |xs| - 1;
      NoneSelected(xs[..k], m[..k]);
    }
  }

  /** Pixel count of one band in one frame. */
  function BandCount(pixels: seq<Pixel>, band: Band): (n: nat)
    ensures n <= |pixels|
  {
    CountNonZero(Mask(pixels, band))
  }

  /** The matched pixels of one band, `hsv_masked[mask > 0]`. */
  function Matched(pixels: seq<Pixel>, band: Band): (r: seq<Pixel>)
    ensures |r| == BandCount(pixels, band)
  {
    Selected(pixels, Mask(pixels, band))
  }

  /** The count is the number of frame positions whose pixel lies in the
      band, never more than the frame holds, and it equals the number of
      matched pixels extracted. */
  lemma BandCountMeaning(pixels: seq<Pixel>, band: Band)
    ensures BandCount(pixels, band) == |set i | 0 <= i < |pixels| && InBand(pixels[i], band)|
    ensures 0 <= BandCount(pixels, band) <= |pixels|
    ensures |Matched(pixels, band)| == BandCount(pixels, band)
  {
    var m := Mask(pixels, band);
    CountIsCardinality(m);
    assert TrueIndices(m) == set i | 0 <= i < |pixels| && InBand(pixels[i], band);
  }

  /** A pixel value is among the matched pixels exactly when some pixel of
      the frame with that value lies in the band. */
  lemma MatchedMeaning(pixels: seq<Pixel>, band: Band, p: Pixel)
    ensures p in Matched(pixels, band) <==> p in pixels && InBand(p, band)
  {
    SelectedMembers(pixels, Mask(pixels, band), p);
  }

  /** The first matched pixel is the frame's first pixel in the band. */
  lemma MatchedFirst(pixels: seq<Pixel>, band: Band, i: int)
    requires 0 <= i < |pixels| && InBand(pixels[i], band)
    requires forall j :: 0 <= j < i ==> !InBand(pixels[j], band)
    ensures |Matched(pixels, band)| > 0 && Matched(pixels, band)[0] == pixels[i]
  {
    SelectedFirst(pixels, Mask(pixels, band), i);
  }

  /** A band counts nothing exactly when no pixel of the frame lies in it. */
  lemma CountZeroIffNoMatch(pixels: seq<Pixel>, band: Band)
    ensures BandCount(pixels, band) == 0 <==> forall i :: 0 <= i < |pixels| ==> !InBand(pixels[i], band)
  {
    BandCountMeaning(pixels, band);
    var s := set i | 0 <= i < |pixels| && InBand(pixels[i], band);
    if exists i :: 0 <= i < |pixels| && InBand(pixels[i], band) {
      var i :| 0 <= i < |pixels| && InBand(pixels[i], band);
      assert i in s;
    }
  }

  /** `pixel_count / total_pixels * 100`. */
  function Percentage(count: nat, total: nat): (r: real)
    requires 0 < total && count <= total
    ensures 0.0 <= r <= 100.0
    ensures r == 0.0 <==> count == 0
    ensures r == 100.0 <==> count == total
    ensures r * total as real == count as real * 100.0
  {
    var r := (count as real / total as real) * 100.0;
    PercentageBounds(count as real, total as real);
    r
  }

  lemma PercentageBounds(c: real, t: real)
    requires 0.0 < t && 0.0 <= c <= t
    ensures ((c / t) * 100.0) * t == c * 100.0
    ensures 0.0 <= (c / t) * 100.0 <= 100.0
    ensures (c / t) * 100.0 == 0.0 <==> c == 0.0
    ensures (c / t) * 100.0 == 100.0 <==> c == t
  {
    var q := c / t;
    assert q * t == c;
  }
}
