/** `Image::set_auto_tone`: per-channel 256-bin histograms, their running sums (the
    cumulative distribution functions), and the remap of every channel value `v` to
    `cdfR[v] * 255 / N` over the red CDF, where `N = w * h`. */
module AutoTone {
  import opened Pixels
  import opened Arith

  /** Number of histogram bins: one per `Uint8` value. */
  const Bins := 256

  /** Number of pixels of `s` whose channel `c` equals `v`: bin `v` of that histogram. */
  function Count(s: seq<Pixel>, c: Channel, v: int): (n: nat)
    ensures n <= |s|
  {
    if s == [] then 0
    else Count(s[..|s| - 1], c, v) + (if ChannelOf(s[|s| - 1], c) as int == v then 1 else 0)
  }

  /** Number of pixels of `s` whose channel `c` is at most `v`: the cumulative count. */
  function CountAtMost(s: seq<Pixel>, c: Channel, v: int): (n: nat)
    ensures n <= |s|
  {
    if s == [] then 0
    else CountAtMost(s[..|s| - 1], c, v) + (if ChannelOf(s[|s| - 1], c) as int <= v then 1 else 0)
  }

  /** `histogram[0] + ... + histogram[k - 1]`: the running sum of the CDF loop
      after `k` bins, which is the number of pixels whose channel is below `k`. */
  function PrefixSum(s: seq<Pixel>, c: Channel, k: nat): (n: nat)
    ensures n == CountAtMost(s, c, k - 1)
  {
    if k == 0 then
      CountAtMostNegative(s, c, -1);
      0
    else
      CountAtMostStep(s, c, k - 1);
      PrefixSum(s, c, k - 1) + Count(s, c, k - 1)
  }

  /** No channel value lies below 0. */
  lemma {:induction false} CountAtMostNegative(s: seq<Pixel>, c: Channel, v: int)
    requires v < 0
    ensures CountAtMost(s, c, v) == 0
  {
    if s != [] {
      CountAtMostNegative(s[..|s| - 1], c, v);
    }
  }

  /** Every channel value lies at or below 255. */
  lemma {:induction false} CountAtMostTop(s: seq<Pixel>, c: Channel, v: int)
    requires v >= 255
    ensures CountAtMost(s, c, v) == |s|
  {
    CountAtMostAll(s, c, v);
  }

  /** The cumulative count at `v` adds bin `v` to the cumulative count at `v - 1`. */
  lemma {:induction false} CountAtMostStep(s: seq<Pixel>, c: Channel, v: int)
    ensures CountAtMost(s, c, v) == CountAtMost(s, c, v - 1) + Count(s, c, v)
  {
    if s != [] {
      CountAtMostStep(s[..|s| - 1], c, v);
    }
  }

  /** A larger bound never counts fewer pixels. */
  lemma {:induction false} CountAtMostMonotone(s: seq<Pixel>, c: Channel, u: int, v: int)
    requires u <= v
    ensures CountAtMost(s, c, u) <= CountAtMost(s, c, v)
  {
    if s != [] {
      CountAtMostMonotone(s[..|s| - 1], c, u, v);
    }
  }

  /** Each histogram sums to the number of pixels, and so does the last CDF entry. */
  lemma HistogramTotal(s: seq<Pixel>, c: Channel)
    ensures PrefixSum(s, c, Bins) == |s|
    ensures CountAtMost(s, c, Bins - 1) == |s|
  {
    CountAtMostTop(s, c, Bins - 1);
  }

  /** The CDF is non-decreasing: a later running sum is never smaller. */
  lemma {:induction false} PrefixSumMonotone(s: seq<Pixel>, c: Channel, j: nat, k: nat)
    requires j <= k
    ensures PrefixSum(s, c, j) <= PrefixSum(s, c, k)
    decreases k
  {
    if j < k {
      PrefixSumMonotone(s, c, j, k - 1);
    }
  }

  /** `(Uint8)((float) cdf / n * 255.0f)` taken exactly: `cdf * 255 / n`, for a
      cumulative count `cdf` of at most `n` pixels. */
  function Equalize(cdf: nat, n: nat): (o: byte)
    requires 0 < n && cdf <= n
    ensures cdf == n ==> o == 255
    ensures cdf == 0 ==> o == 0
  {
    MulMonotone(255, cdf, n);
    DivMonotone(cdf * 255, n * 255, n);
    MulDivCancel(255, n);
    (cdf * 255 / n) as byte
  }

  /** The value a channel holding `v` takes after auto-tone: the red CDF at `v`
      scaled to 0..255. The same red CDF serves all three channels. */
  function ToneLevel(s: seq<Pixel>, v: byte): (o: byte)
    requires |s| > 0
    ensures CountAtMost(s, Red, v as int) == |s| ==> o == 255
    ensures CountAtMost(s, Red, v as int) == 0 ==> o == 0
  {
    Equalize(CountAtMost(s, Red, v as int), |s|)
  }

  function TonePixel(s: seq<Pixel>, p: Pixel): (q: Pixel)
    requires |s| > 0
    ensures IsGray(p) ==> IsGray(q)
  {
    Pixel(ToneLevel(s, p.r), ToneLevel(s, p.g), ToneLevel(s, p.b))
  }

  /** The surface after `set_auto_tone`. On an empty surface nothing is divided and
      nothing changes. */
  function AutoToned(s: seq<Pixel>): (t: seq<Pixel>)
    ensures |t| == |s|
  {
    seq(|s|, i requires 0 <= i < |s| => TonePixel(s, s[i]))
  }

  /** The remap is monotone in the channel value: a larger value never maps lower. */
  lemma ToneLevelMonotone(s: seq<Pixel>, u: byte, v: byte)
    requires |s| > 0 && u <= v
    ensures ToneLevel(s, u) <= ToneLevel(s, v)
  {
    CountAtMostMonotone(s, Red, u as int, v as int);
    DivMonotone(CountAtMost(s, Red, u as int) * 255, CountAtMost(s, Red, v as int) * 255, |s|);
  }

  /** A value at or above every red value of the surface maps to 255. */
  lemma ToneLevelOfMaximum(s: seq<Pixel>, v: byte)
    requires |s| > 0
    requires forall i :: 0 <= i < |s| ==> s[i].r <= v
    ensures ToneLevel(s, v) == 255
  {
    CountAtMostAll(s, Red, v as int);
  }

  /** A bound at or above every value of channel `c` counts every pixel. */
  lemma {:induction false} CountAtMostAll(s: seq<Pixel>, c: Channel, v: int)
    requires forall i :: 0 <= i < |s| ==> ChannelOf(s[i], c) as int <= v
    ensures CountAtMost(s, c, v) == |s|
  {
    if s != [] {
      CountAtMostAll(s[..|s| - 1], c, v);
    }
  }

  /** Auto-tone on a surface with no pixels is the identity. */
  lemma AutoToneEmpty()
    ensures AutoToned([]) == []
  {
  }
}
