/** The decoded surface an `Image` owns (`SDL_Surface *image`), reduced to what the
    filters use: its width, its height and its row-major pixel buffer of `w * h`
    RGB pixels. The four filters of `Image` overwrite this buffer in place, one
    pixel index at a time, and never resize it. */
module Surface {
  import opened Pixels
  import opened Grayscale
  import opened Brightness
  import opened Dithering
  import opened AutoTone
  import opened Arith

  class Raster {
    const w: nat
    const h: nat
    const pixels: array<Pixel>

    /** The buffer holds exactly one pixel per position. */
    predicate Valid()
      reads this
    {
      pixels.Length == w * h
    }

    /** A surface of the given size, as a successful decode produces it. */
    constructor (width: nat, height: nat, contents: seq<Pixel>)
      requires |contents| == width * height
      ensures Valid() && w == width && h == height
      ensures fresh(pixels) && pixels[..] == contents
    {
      w, h := width, height;
      pixels := new Pixel[|contents|](i requires 0 <= i < |contents| => contents[i]);
    }

    /** `set_grayscale`. */
    method SetGrayscale()
      requires Valid()
      modifies pixels
      ensures pixels[..] == Grayscaled(old(pixels[..]))
    {
      var i := 0;
      while i < w * h
        invariant 0 <= i <= w * h
        invariant forall j :: 0 <= j < i ==> pixels[j] == GrayPixel(old(pixels[j]))
        invariant forall j :: i <= j < w * h ==> pixels[j] == old(pixels[j])
      {
        var p := pixels[i];
        var gray := ((p.r as int + p.g as int + p.b as int) / 3) as byte;
        pixels[i] := Pixel(gray, gray, gray);
        i := i + 1;
      }
    }

    /** `set_brightness(num / den)`: a factor below 0, above 2 or equal to 1 returns
        at once; any other factor rescales every channel through `truncate_color`.
        Called without a factor it uses the default one half. */
    method SetBrightness(num: int := DefaultNum, den: int := DefaultDen)
      requires Valid() && den > 0
      modifies pixels
      ensures pixels[..] == Brightened(old(pixels[..]), num, den)
    {
      if num < 0 || num > 2 * den || num == den {
        return;
      }
      var i := 0;
      while i < w * h
        invariant 0 <= i <= w * h
        invariant forall j :: 0 <= j < i ==> pixels[j] == ScalePixel(old(pixels[j]), num, den)
        invariant forall j :: i <= j < w * h ==> pixels[j] == old(pixels[j])
      {
        var p := pixels[i];
        var r := TruncateColor(p.r as int * num / den);
        var g := TruncateColor(p.g as int * num / den);
        var b := TruncateColor(p.b as int * num / den);
        pixels[i] := Pixel(r, g, b);
        i := i + 1;
      }
    }

    /** `set_dithering`, against the `Bayer` matrix. */
    method SetDithering()
      requires Valid()
      modifies pixels
      ensures pixels[..] == Dithered(old(pixels[..]), w, Bayer)
    {
      BayerIsThresholdMatrix();
      DitherAgainst(Bayer);
    }

    /** The loop of `set_dithering` for a threshold matrix `m`: pixel `i` sits at
        column `i % w`, row `i / w`, and becomes white exactly when its quantised
        level plus the bias exceeds the matrix entry there. */
    method DitherAgainst(m: seq<int>)
      requires Valid() && IsThresholdMatrix(m)
      modifies pixels
      ensures pixels[..] == Dithered(old(pixels[..]), w, m)
    {
      ghost var s := pixels[..];
      var n := w * h;
      ghost var ts := Thresholds(n, w, m);
      var i, x, y := 0, 0, 0;
      while i < n
        invariant 0 <= i <= n == |s| == |ts|
        invariant w > 0 ==> x == i % w && y == i / w
        invariant forall j :: 0 <= j < i ==> pixels[j] == DitherPixel(s[j], ts[j])
        invariant forall j :: i <= j < n ==> pixels[j] == s[j]
      {
        var p := pixels[i];
        var gray := Level(p);
        MatrixIndexInRange(x, y);
        var matrixValue := m[(y % N) * N + x % N];
        assert matrixValue == ts[i];
        var output: byte := 0;
        if gray + Bias > matrixValue {
          output := 255;
        }
        pixels[i] := Pixel(output, output, output);
        DivModNext(i, w);
        if x + 1 == w {
          x, y := 0, y + 1;
        } else {
          x := x + 1;
        }
        i := i + 1;
      }
      assert pixels[..] == DitherWith(s, ts);
    }

    /** The histogram loop of `set_auto_tone`: bin `v` of each channel's histogram
        counts the pixels whose value in that channel is `v`. */
    method Histograms() returns (histR: array<nat>, histG: array<nat>, histB: array<nat>)
      requires Valid()
      ensures fresh(histR) && fresh(histG) && fresh(histB)
      ensures histR.Length == histG.Length == histB.Length == Bins
      ensures forall v :: 0 <= v < Bins ==>
        histR[v] == Count(pixels[..], Red, v) &&
        histG[v] == Count(pixels[..], Green, v) &&
        histB[v] == Count(pixels[..], Blue, v)
    {
      histR := new nat[Bins](_ => 0);
      histG := new nat[Bins](_ => 0);
      histB := new nat[Bins](_ => 0);
      var i := 0;
      while i < w * h
        invariant 0 <= i <= w * h
        invariant forall v :: 0 <= v < Bins ==>
          histR[v] == Count(pixels[..i], Red, v) &&
          histG[v] == Count(pixels[..i], Green, v) &&
          histB[v] == Count(pixels[..i], Blue, v)
      {
        var p := pixels[i];
        assert pixels[..i + 1][..i] == pixels[..i];
        histR[p.r] := histR[p.r] + 1;
        histG[p.g] := histG[p.g] + 1;
        histB[p.b] := histB[p.b] + 1;
        i := i + 1;
      }
      assert pixels[..w * h] == pixels[..];
    }

    /** The CDF loop of `set_auto_tone`: running sums `sumR`, `sumG`, `sumB` over the
        bins, stored after each bin. Entry `v` is the number of pixels of `s` whose
        value in that channel is at most `v`. */
    static method CumulativeSums(histR: array<nat>, histG: array<nat>, histB: array<nat>, ghost s: seq<Pixel>)
      returns (cdfR: array<nat>, cdfG: array<nat>, cdfB: array<nat>)
      requires histR.Length == histG.Length == histB.Length == Bins
      requires forall v :: 0 <= v < Bins ==>
        histR[v] == Count(s, Red, v) && histG[v] == Count(s, Green, v) && histB[v] == Count(s, Blue, v)
      ensures fresh(cdfR) && fresh(cdfG) && fresh(cdfB)
      ensures cdfR.Length == cdfG.Length == cdfB.Length == Bins
      ensures forall v :: 0 <= v < Bins ==>
        cdfR[v] == CountAtMost(s, Red, v) &&
        cdfG[v] == CountAtMost(s, Green, v) &&
        cdfB[v] == CountAtMost(s, Blue, v)
    {
      cdfR := new nat[Bins](_ => 0);
      cdfG := new nat[Bins](_ => 0);
      cdfB := new nat[Bins](_ => 0);
      var sumR, sumG, sumB := 0, 0, 0;
      CountAtMostNegative(s, Red, -1);
      CountAtMostNegative(s, Green, -1);
      CountAtMostNegative(s, Blue, -1);
      var k := 0;
      while k < Bins
        invariant 0 <= k <= Bins
        invariant sumR == CountAtMost(s, Red, k - 1) && sumG == CountAtMost(s, Green, k - 1) && sumB == CountAtMost(s, Blue, k - 1)
        invariant forall v :: 0 <= v < k ==>
          cdfR[v] == CountAtMost(s, Red, v) &&
          cdfG[v] == CountAtMost(s, Green, v) &&
          cdfB[v] == CountAtMost(s, Blue, v)
      {
        sumR := sumR + histR[k];
        sumG := sumG + histG[k];
        sumB := sumB + histB[k];
        CountAtMostStep(s, Red, k);
        CountAtMostStep(s, Green, k);
        CountAtMostStep(s, Blue, k);
        cdfR[k] := sumR;
        cdfG[k] := sumG;
        cdfB[k] := sumB;
        k := k + 1;
      }
    }

    /** `set_auto_tone`: histograms, then CDFs, then every channel `v` of every pixel
        becomes `cdfR[v] * 255 / (w * h)`. The green and blue CDFs are computed and
        not used. With no pixels the loops do not run and nothing is divided. */
    method SetAutoTone()
      requires Valid()
      modifies pixels
      ensures pixels[..] == AutoToned(old(pixels[..]))
    {
      ghost var s := pixels[..];
      var histR, histG, histB := Histograms();
      var cdfR, cdfG, cdfB := CumulativeSums(histR, histG, histB, s);
      Equalization(cdfR, s);
    }

    /** The remap loop of `set_auto_tone`: every channel value `v` of every pixel
        becomes `cdfR[v] * 255 / N`, through the red CDF for all three channels. */
    method Equalization(cdfR: array<nat>, ghost s: seq<Pixel>)
      requires Valid() && s == pixels[..]
      requires cdfR.Length == Bins && forall v :: 0 <= v < Bins ==> cdfR[v] == CountAtMost(s, Red, v)
      modifies pixels
      ensures pixels[..] == AutoToned(s)
    {
      var n := w * h;
      var i := 0;
      while i < n
        invariant 0 <= i <= n == |s|
        invariant forall j :: 0 <= j < i ==> pixels[j] == TonePixel(s, s[j])
        invariant forall j :: i <= j < n ==> pixels[j] == s[j]
      {
        var p := pixels[i];
        var r := Equalize(cdfR[p.r], n);
        var g := Equalize(cdfR[p.g], n);
        var b := Equalize(cdfR[p.b], n);
        pixels[i] := Pixel(r, g, b);
        i := i + 1;
      }
    }
  }
}
