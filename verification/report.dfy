/** What one frame yields per band: the pixel count, the share of the frame,
    and the range of the sampled pixels or "no data". */
module BandReports {
  import opened Basics
  import opened Pixels
  import opened Classify
  import opened Sampling

  /** The pixels kept for a band's statistics: a sample of the matches when
      there are any, otherwise the empty list the frame starts with. */
  function BandSamples(pixels: seq<Pixel>, band: Band): (r: seq<Pixel>)
    ensures |r| == 0 <==> BandCount(pixels, band) == 0
  {
    if BandCount(pixels, band) > 0 then Samples(Matched(pixels, band)) else []
  }

  /** Every sampled pixel lies in its band; a band with matches keeps at
      least `min(50, count)` of them, starting with the first match. */
  lemma BandSamplesMeaning(pixels: seq<Pixel>, band: Band)
    ensures forall i :: 0 <= i < |BandSamples(pixels, band)| ==> InBand(BandSamples(pixels, band)[i], band)
    ensures |BandSamples(pixels, band)| == 0 <==> BandCount(pixels, band) == 0
    ensures BandCount(pixels, band) > 0 ==>
      && |BandSamples(pixels, band)| >= Min(SampleCap, BandCount(pixels, band))
      && BandSamples(pixels, band)[0] == Matched(pixels, band)[0]
  {
    var m := Matched(pixels, band);
    var ss := BandSamples(pixels, band);
    BandCountMeaning(pixels, band);
    SamplesFromMatched(m);
    forall i | 0 <= i < |ss|
      ensures InBand(ss[i], band)
    {
      MatchedMeaning(pixels, band, ss[i]);
    }
    if BandCount(pixels, band) > 0 {
      SampleCount(m);
    }
  }

  /** Some pixel of the frame lies in the band and has `value` in channel `c`. */
  predicate SeenInBand(pixels: seq<Pixel>, band: Band, c: int, value: int)
    requires 0 <= c < 3
  {
    exists i :: 0 <= i < |pixels| && InBand(pixels[i], band) && pixels[i].Channel(c) == value
  }

  /** A sampled pixel is an in-band pixel of the frame. */
  lemma SampleIsFramePixel(pixels: seq<Pixel>, band: Band, x: Pixel)
    requires x in BandSamples(pixels, band)
    ensures exists i :: 0 <= i < |pixels| && InBand(pixels[i], band) && pixels[i] == x
  {
    var m := Matched(pixels, band);
    SamplesFromMatched(m);
    MatchedMeaning(pixels, band, x);
  }

  /** Every end of a band's reported range is a channel value of some
      in-band pixel of the frame: the range is never padded or invented. */
  lemma RangeEndsSeen(pixels: seq<Pixel>, band: Band)
    ensures Summarise(BandSamples(pixels, band)).Range? ==>
      var r := Summarise(BandSamples(pixels, band));
      && SeenInBand(pixels, band, 0, r.lo.h) && SeenInBand(pixels, band, 1, r.lo.s)
      && SeenInBand(pixels, band, 2, r.lo.v) && SeenInBand(pixels, band, 0, r.hi.h)
      && SeenInBand(pixels, band, 1, r.hi.s) && SeenInBand(pixels, band, 2, r.hi.v)
  {
    var ss := BandSamples(pixels, band);
    var r := Summarise(ss);
    if r.Range? {
      forall c, value, j | 0 <= c < 3 && 0 <= j < |ss| && ss[j].Channel(c) == value
        ensures SeenInBand(pixels, band, c, value)
      {
        SampleIsFramePixel(pixels, band, ss[j]);
      }
      var j0 :| 0 <= j0 < |ss| && ss[j0].h == r.lo.h;
      assert ss[j0].Channel(0) == r.lo.h;
      var j1 :| 0 <= j1 < |ss| && ss[j1].s == r.lo.s;
      assert ss[j1].Channel(1) == r.lo.s;
      var j2 :| 0 <= j2 < |ss| && ss[j2].v == r.lo.v;
      assert ss[j2].Channel(2) == r.lo.v;
      var j3 :| 0 <= j3 < |ss| && ss[j3].h == r.hi.h;
      assert ss[j3].Channel(0) == r.hi.h;
      var j4 :| 0 <= j4 < |ss| && ss[j4].s == r.hi.s;
      assert ss[j4].Channel(1) == r.hi.s;
      var j5 :| 0 <= j5 < |ss| && ss[j5].v == r.hi.v;
      assert ss[j5].Channel(2) == r.hi.v;
    }
  }

  /** A band's summary is "no data" exactly when nothing matched, and
      otherwise an ordered range inside the band whose ends are all seen. */
  lemma BandSummaryMeaning(pixels: seq<Pixel>, band: Band)
    ensures Summarise(BandSamples(pixels, band)).NoData? <==> BandCount(pixels, band) == 0
    ensures Summarise(BandSamples(pixels, band)).Range? ==>
      var r := Summarise(BandSamples(pixels, band));
      && Below(band.lower, r.lo) && Below(r.lo, r.hi) && Below(r.hi, band.upper)
      && SeenInBand(pixels, band, 0, r.lo.h) && SeenInBand(pixels, band, 1, r.lo.s)
      && SeenInBand(pixels, band, 2, r.lo.v) && SeenInBand(pixels, band, 0, r.hi.h)
      && SeenInBand(pixels, band, 1, r.hi.s) && SeenInBand(pixels, band, 2, r.hi.v)
  {
    BandSamplesMeaning(pixels, band);
    SummaryWithinBand(BandSamples(pixels, band), band);
    RangeEndsSeen(pixels, band);
  }

  /** One band's block of a telemetry report. */
  datatype BandReport = BandReport(name: string, count: nat, percentage: real, summary: Summary)

  /** The report block for one band of a non-empty frame. */
  function DescribeBand(pixels: seq<Pixel>, band: Band): (r: BandReport)
    requires |pixels| > 0
    ensures r.name == band.name
    ensures r.count == |set i | 0 <= i < |pixels| && InBand(pixels[i], band)|
    ensures r.count <= |pixels|
    ensures r.percentage == Percentage(r.count, |pixels|)
    ensures r.summary == Summarise(BandSamples(pixels, band))
    ensures r.summary.NoData? <==> r.count == 0
    ensures r.summary.Range? ==>
      && Below(band.lower, r.summary.lo)
      && Below(r.summary.lo, r.summary.hi)
      && Below(r.summary.hi, band.upper)
    ensures r.summary.Range? ==>
      && SeenInBand(pixels, band, 0, r.summary.lo.h) && SeenInBand(pixels, band, 1, r.summary.lo.s)
      && SeenInBand(pixels, band, 2, r.summary.lo.v) && SeenInBand(pixels, band, 0, r.summary.hi.h)
      && SeenInBand(pixels, band, 1, r.summary.hi.s) && SeenInBand(pixels, band, 2, r.summary.hi.v)
  {
    var count := BandCount(pixels, band);
    BandCountMeaning(pixels, band);
    BandSummaryMeaning(pixels, band);
    var samples := BandSamples(pixels, band);
    var pct := Percentage(count, |pixels|);
    BandReport(band.name, count, pct, Summarise(samples))
  }

  /** A frame in which no pixel lies in any band reports zero for every band
      and "no data" rather than a zero-valued range. */
  lemma NoMatchMeansNoData(pixels: seq<Pixel>, band: Band)
    requires |pixels| > 0
    requires forall i :: 0 <= i < |pixels| ==> !InBand(pixels[i], band)
    ensures DescribeBand(pixels, band).count == 0
    ensures DescribeBand(pixels, band).summary == NoData
  {
    CountZeroIffNoMatch(pixels, band);
  }

  /** The blocks of all configured bands, each computed from the frame and
      its own band only, so the bands may overlap. */
  function DescribeFrame(pixels: seq<Pixel>, bands: seq<Band>): (r: seq<BandReport>)
    requires |pixels| > 0
    ensures |r| == |bands|
    ensures forall i :: 0 <= i < |bands| ==> r[i] == DescribeBand(pixels, bands[i])
  {
    seq(|bands|, i requires 0 <= i < |bands| => DescribeBand(pixels, bands[i]))
  }

  /** A band's block does not depend on which other bands are configured. */
  lemma BandsIndependent(pixels: seq<Pixel>, bands1: seq<Band>, bands2: seq<Band>, i: int, j: int)
    requires |pixels| > 0
    requires 0 <= i < |bands1| && 0 <= j < |bands2| && bands1[i] == bands2[j]
    ensures DescribeFrame(pixels, bands1)[i] == DescribeFrame(pixels, bands2)[j]
  {
  }

  /** A one-pixel frame counts 1 in a band iff its pixel lies in the band. */
  lemma SinglePixelCount(p: Pixel, band: Band)
    ensures DescribeBand([p], band).count == (if InBand(p, band) then 1 else 0)
  {
    var ps := [p];
    if InBand(p, band) {
      assert (set i | 0 <= i < |ps| && InBand(ps[i], band)) == {0};
    } else {
      assert (set i | 0 <= i < |ps| && InBand(ps[i], band)) == {};
    }
  }

  /** The pixel (40, 50, 100) is counted by three reference bands at once. */
  lemma OverlappingBandsCountTheSamePixel(p: Pixel)
    requires p == Pixel(40, 50, 100)
    ensures DescribeBand([p], ReferenceBands[0]).count == 1
    ensures DescribeBand([p], ReferenceBands[1]).count == 1
    ensures DescribeBand([p], ReferenceBands[2]).count == 1
    ensures DescribeBand([p], ReferenceBands[3]).count == 0
  {
    ReferenceBandsOverlap();
    SinglePixelCount(p, ReferenceBands[0]);
    SinglePixelCount(p, ReferenceBands[1]);
    SinglePixelCount(p, ReferenceBands[2]);
    SinglePixelCount(p, ReferenceBands[3]);
  }
}
