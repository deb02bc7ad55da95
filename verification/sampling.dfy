/** The representative sample of a band's matched pixels (every
    `n // min(50, n)`-th of them) and its per-channel range. */
module Sampling {
  import opened Basics
  import opened Pixels

  const SampleCap: nat := 50

  /** `xs[::k]`: the elements at positions 0, k, 2k, ... that exist. Its
      length is the number of multiples of `k` below `|xs|`. */
  function Every<T>(xs: seq<T>, k: nat): (r: seq<T>)
    requires k >= 1
    ensures (|r| - 1) * k < |xs| <= |r| * k
    decreases |xs|
  {
    if |xs| == 0 then []
    else if |xs| <= k then [xs[0]]
    else
      var rest := Every(xs[k..], k);
      Distribute(|rest|, k);
      [xs[0]] + rest
  }

  lemma Distribute(a: int, k: int)
    ensures (a + 1) * k == a * k + k
    ensures (a - 1) * k == a * k - k
  {
  }

  /** Sample `j` is element `j * k` of the input. */
  lemma {:induction false} EveryIndex<T>(xs: seq<T>, k: nat, j: nat)
    requires k >= 1 && j < |Every(xs, k)|
    ensures j * k < |xs| && Every(xs, k)[j] == xs[j * k]
    decreases j
  {
    if j > 0 {
      var rest := Every(xs[k..], k);
      assert Every(xs, k)[j] == rest[j - 1];
      EveryIndex(xs[k..], k, j - 1);
      Distribute(j - 1, k);
    }
  }

  /** `len(pixels) // min(50, len(pixels))`. */
  function Stride(n: nat): (k: nat)
    requires n > 0
    ensures k >= 1
    ensures n <= SampleCap ==> k == 1
    ensures n > SampleCap ==> k * SampleCap <= n < (k + 1) * SampleCap
  {
    n / Min(SampleCap, n)
  }

  /** The sample kept for a band: nothing when nothing matched, otherwise
      every `Stride`-th matched pixel starting with the first. */
  function Samples<T>(matched: seq<T>): (r: seq<T>)
    ensures |r| == 0 <==> |matched| == 0
  {
    if |matched| == 0 then [] else Every(matched, Stride(|matched|))
  }

  lemma MulMono(a: int, b: int, c: int)
    requires a <= b && c >= 0
    ensures a * c <= b * c
  {
  }

  /** The sample holds at least `min(50, n)` pixels and never more than 99;
      with 50 or fewer matches it is all of them. */
  lemma SampleCount<T>(matched: seq<T>)
    requires |matched| > 0
    ensures Min(SampleCap, |matched|) <= |Samples(matched)| <= 99
    ensures |matched| <= SampleCap ==> Samples(matched) == matched
  {
    var n := |matched|;
    var k := Stride(n);
    var l := |Samples(matched)|;
    if n <= SampleCap {
      assert l == n;
      forall j | 0 <= j < l
        ensures Samples(matched)[j] == matched[j]
      {
        EveryIndex(matched, 1, j);
      }
    } else {
      if l < 50 {
        MulMono(l, 49, k);
        assert false;
      }
      if l > 99 {
        MulMono(99, l - 1, k);
        assert false;
      }
    }
  }

  /** The cap of 50 is not a hard limit: 99 matches give stride 1 and a
      sample of all 99. */
  lemma SampleOfNinetyNine<T>(matched: seq<T>)
    requires |matched| == 99
    ensures Stride(99) == 1 && |Samples(matched)| == 99
  {
  }

  /** Every sampled pixel is a matched pixel, and the first sample is the
      first match. */
  lemma SamplesFromMatched<T>(matched: seq<T>)
    ensures forall x :: x in Samples(matched) ==> x in matched
    ensures |matched| > 0 ==> |Samples(matched)| > 0 && Samples(matched)[0] == matched[0]
  {
    if |matched| > 0 {
      var r := Samples(matched);
      var k := Stride(|matched|);
      forall x | x in r
        ensures x in matched
      {
        var j :| 0 <= j < |r| && r[j] == x;
        EveryIndex(matched, k, j);
      }
      EveryIndex(matched, k, 0);
    }
  }

  /** The smallest element of a non-empty sequence (numpy's `min`). */
  function SeqMin(xs: seq<int>): (m: int)
    requires |xs| > 0
    ensures forall i :: 0 <= i < |xs| ==> m <= xs[i]
    ensures exists i :: 0 <= i < |xs| && xs[i] == m
  {
    if |xs| == 1 then xs[0]
    else
      var rest := SeqMin(xs[..|xs| - 1]);
      assert xs[..|xs| - 1] <= xs;
      Min(rest, xs[|xs| - 1])
  }

  /** The largest element of a non-empty sequence (numpy's `max`). */
  function SeqMax(xs: seq<int>): (m: int)
    requires |xs| > 0
    ensures forall i :: 0 <= i < |xs| ==> xs[i] <= m
    ensures exists i :: 0 <= i < |xs| && xs[i] == m
  {
    if |xs| == 1 then xs[0]
    else
      var rest := SeqMax(xs[..|xs| - 1]);
      assert xs[..|xs| - 1] <= xs;
      Max(rest, xs[|xs| - 1])
  }

  /** One HSV channel of every pixel: a column of the sample array. */
  function Column(ps: seq<Pixel>, c: int): (col: seq<int>)
    requires 0 <= c < 3
    ensures |col| == |ps|
    ensures forall i :: 0 <= i < |ps| ==> col[i] == ps[i].Channel(c)
  {
    seq(|ps|, i requires 0 <= i < |ps| => ps[i].Channel(c))
  }

  /** `a` lies at or below `b` on every channel. */
  predicate Below(a: Pixel, b: Pixel)
  {
    a.h <= b.h && a.s <= b.s && a.v <= b.v
  }

  /** The range line of a band's report, or the "no pixels detected" line. */
  datatype Summary = NoData | Range(lo: Pixel, hi: Pixel)

  /** The per-channel minimum and maximum over the sample. */
  function Summarise(samples: seq<Pixel>): (r: Summary)
    ensures r.NoData? <==> |samples| == 0
    ensures r.Range? ==> forall i :: 0 <= i < |samples| ==> Below(r.lo, samples[i]) && Below(samples[i], r.hi)
    ensures r.Range? ==> exists i :: 0 <= i < |samples| && samples[i].h == r.lo.h
    ensures r.Range? ==> exists i :: 0 <= i < |samples| && samples[i].s == r.lo.s
    ensures r.Range? ==> exists i :: 0 <= i < |samples| && samples[i].v == r.lo.v
    ensures r.Range? ==> exists i :: 0 <= i < |samples| && samples[i].h == r.hi.h
    ensures r.Range? ==> exists i :: 0 <= i < |samples| && samples[i].s == r.hi.s
    ensures r.Range? ==> exists i :: 0 <= i < |samples| && samples[i].v == r.hi.v
  {
    if |samples| == 0 then NoData
    else
      var hs := Column(samples, 0);
      var ss := Column(samples, 1);
      var vs := Column(samples, 2);
      Range(Pixel(SeqMin(hs), SeqMin(ss), SeqMin(vs)), Pixel(SeqMax(hs), SeqMax(ss), SeqMax(vs)))
  }

  /** When every sampled pixel lies in a band, a reported range is ordered
      and sits inside the band's bounds. */
  lemma SummaryWithinBand(samples: seq<Pixel>, band: Band)
    requires forall i :: 0 <= i < |samples| ==> InBand(samples[i], band)
    ensures Summarise(samples).Range? ==>
      && Below(band.lower, Summarise(samples).lo)
      && Below(Summarise(samples).lo, Summarise(samples).hi)
      && Below(Summarise(samples).hi, band.upper)
  {
    var r := Summarise(samples);
    if r.Range? {
      assert Below(r.lo, samples[0]) && Below(samples[0], r.hi);
    }
  }
}
