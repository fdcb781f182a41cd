/** `Image::set_dithering`: ordered dithering against an 8x8 Bayer matrix with a
    bias of -5, every pixel becoming pure black or pure white. */
module Dithering {
  import opened Pixels
  import opened Arith

  /** The side of the threshold matrix (`n`) and its number of levels (`shades`). */
  const N := 8
  const Shades := N * N
  /** The bias added to the quantised gray level before the comparison. */
  const Bias := -5

  /** The threshold matrix, row-major, written row by row. */
  const Bayer: seq<int> :=
    [ 1, 49, 13, 61,  4, 52, 16, 64] +
    [33, 17, 45, 29, 36, 20, 48, 32] +
    [ 9, 57,  5, 53, 12, 60,  8, 56] +
    [41, 25, 37, 21, 44, 28, 40, 24] +
    [ 3, 51, 15, 63,  2, 50, 14, 62] +
    [35, 19, 47, 31, 34, 18, 46, 30] +
    [11, 59,  7, 55, 10, 58,  6, 54] +
    [43, 27, 39, 23, 42, 26, 38, 22]

  /** For each threshold `t` in 1..64, the index at which `Bayer` holds it. */
  const BayerPosition: seq<int> :=
    [ 0, 36, 32,  4, 18, 54, 50, 22] +
    [16, 52, 48, 20,  2, 38, 34,  6] +
    [ 9, 45, 41, 13, 27, 63, 59, 31] +
    [25, 61, 57, 29, 11, 47, 43, 15] +
    [ 8, 44, 40, 12, 26, 62, 58, 30] +
    [24, 60, 56, 28, 10, 46, 42, 14] +
    [ 1, 37, 33,  5, 19, 55, 51, 23] +
    [17, 53, 49, 21,  3, 39, 35,  7]

  /** At index `k`, `BayerPosition` undoes `Bayer` and `Bayer` undoes `BayerPosition`. */
  predicate InverseAt(k: int)
    requires 0 <= k < Shades
  {
    1 <= Bayer[k] <= Shades && BayerPosition[Bayer[k] - 1] == k &&
    0 <= BayerPosition[k] < Shades && Bayer[BayerPosition[k]] == k + 1
  }

  lemma InverseOnRow0()
    ensures forall k :: 0 <= k < 8 ==> InverseAt(k)
  {
    forall k | 0 <= k < 8
      ensures InverseAt(k)
    {
      if k == 0 { } else if k == 1 { } else if k == 2 { } else if k == 3 { } else if k == 4 { } else if k == 5 { } else if k == 6 { } else if k == 7 { }
    }
  }

  lemma InverseOnRow1()
    ensures forall k :: 8 <= k < 16 ==> InverseAt(k)
  {
    forall k | 8 <= k < 16
      ensures InverseAt(k)
    {
      if k == 8 { } else if k == 9 { } else if k == 10 { } else if k == 11 { } else if k == 12 { } else if k == 13 { } else if k == 14 { } else if k == 15 { }
    }
  }

  lemma InverseOnRow2()
    ensures forall k :: 16 <= k < 24 ==> InverseAt(k)
  {
    forall k | 16 <= k < 24
      ensures InverseAt(k)
    {
      if k == 16 { } else if k == 17 { } else if k == 18 { } else if k == 19 { } else if k == 20 { } else if k == 21 { } else if k == 22 { } else if k == 23 { }
    }
  }

  lemma InverseOnRow3()
    ensures forall k :: 24 <= k < 32 ==> InverseAt(k)
  {
    forall k | 24 <= k < 32
      ensures InverseAt(k)
    {
      if k == 24 { } else if k == 25 { } else if k == 26 { } else if k == 27 { } else if k == 28 { } else if k == 29 { } else if k == 30 { } else if k == 31 { }
    }
  }

  lemma InverseOnRow4()
    ensures forall k :: 32 <= k < 40 ==> InverseAt(k)
  {
    forall k | 32 <= k < 40
      ensures InverseAt(k)
    {
      if k == 32 { } else if k == 33 { } else if k == 34 { } else if k == 35 { } else if k == 36 { } else if k == 37 { } else if k == 38 { } else if k == 39 { }
    }
  }

  lemma InverseOnRow5()
    ensures forall k :: 40 <= k < 48 ==> InverseAt(k)
  {
    forall k | 40 <= k < 48
      ensures InverseAt(k)
    {
      if k == 40 { } else if k == 41 { } else if k == 42 { } else if k == 43 { } else if k == 44 { } else if k == 45 { } else if k == 46 { } else if k == 47 { }
    }
  }

  lemma InverseOnRow6()
    ensures forall k :: 48 <= k < 56 ==> InverseAt(k)
  {
    forall k | 48 <= k < 56
      ensures InverseAt(k)
    {
      if k == 48 { } else if k == 49 { } else if k == 50 { } else if k == 51 { } else if k == 52 { } else if k == 53 { } else if k == 54 { } else if k == 55 { }
    }
  }

  lemma InverseOnRow7()
    ensures forall k :: 56 <= k < 64 ==> InverseAt(k)
  {
    forall k | 56 <= k < 64
      ensures InverseAt(k)
    {
      if k == 56 { } else if k == 57 { } else if k == 58 { } else if k == 59 { } else if k == 60 { } else if k == 61 { } else if k == 62 { } else if k == 63 { }
    }
  }

  /** `BayerPosition` is the inverse of `Bayer` on all 64 indices. */
  lemma BayerInverse()
    ensures forall k :: 0 <= k < Shades ==> InverseAt(k)
  {
    forall k | 0 <= k < Shades
      ensures InverseAt(k)
    {
      if k < 8 { InverseOnRow0(); }
      else if k < 16 { InverseOnRow1(); }
      else if k < 24 { InverseOnRow2(); }
      else if k < 32 { InverseOnRow3(); }
      else if k < 40 { InverseOnRow4(); }
      else if k < 48 { InverseOnRow5(); }
      else if k < 56 { InverseOnRow6(); }
      else { InverseOnRow7(); }
    }
  }

  /** The matrix holds each of the thresholds 1..64 exactly once. */
  lemma BayerIsPermutation()
    ensures |Bayer| == Shades
    ensures forall i :: 0 <= i < Shades ==> 1 <= Bayer[i] <= Shades
    ensures forall i, j :: 0 <= i < j < Shades ==> Bayer[i] != Bayer[j]
    ensures forall t :: 1 <= t <= Shades ==> t in Bayer
  {
    BayerInverse();
    forall i, j | 0 <= i < j < Shades
      ensures Bayer[i] != Bayer[j]
    {
      assert InverseAt(i) && InverseAt(j);
    }
    forall t | 1 <= t <= Shades
      ensures t in Bayer
    {
      assert InverseAt(t - 1);
    }
  }

  /** A row-major 8x8 threshold matrix whose entries lie in 1..64. The properties
      of dithering below hold for every such matrix; `Bayer` is one of them. */
  predicate IsThresholdMatrix(m: seq<int>) {
    |m| == Shades && forall k :: 0 <= k < Shades ==> 1 <= m[k] <= Shades
  }

  lemma BayerIsThresholdMatrix()
    ensures IsThresholdMatrix(Bayer)
  {
    BayerIsPermutation();
  }

  /** The index `((y % n) * n) + (x % n)` into the matrix is always in 0..63. */
  lemma MatrixIndexInRange(x: nat, y: nat)
    ensures 0 <= (y % N) * N + x % N < Shades
  {
  }

  /** `bayer[((y % n) * n) + (x % n)]`: the threshold for column `x`, row `y`,
      which lies in 1..64. */
  function Threshold(m: seq<int>, x: nat, y: nat): (t: int)
    requires IsThresholdMatrix(m)
    ensures 1 <= t <= Shades
  {
    m[(y % N) * N + x % N]
  }

  /** The quantised gray level `(Uint8)(((r + g + b) / 3.0f) * shades / 255.0f)`,
      taken exactly: `floor((r + g + b) * 64 / 765)`. */
  function Level(p: Pixel): (q: nat)
    ensures q <= Shades
  {
    Sum(p) * Shades / 765
  }

  /** One pixel against threshold `t`: white when its level plus the bias exceeds `t`. */
  function DitherPixel(p: Pixel, t: int): (q: Pixel)
    ensures q == Black || q == White
  {
    if Level(p) + Bias > t then White else Black
  }

  /** The threshold of every pixel of a surface of `n` pixels and width `w`:
      pixel `i` sits at column `i % w` and row `i / w`. */
  function Thresholds(n: nat, w: nat, m: seq<int>): (ts: seq<int>)
    requires (w > 0 || n == 0) && IsThresholdMatrix(m)
    ensures |ts| == n
    ensures forall i :: 0 <= i < n ==> 1 <= ts[i] <= Shades
  {
    seq(n, i requires 0 <= i < n => Threshold(m, i % w, i / w))
  }

  /** Every pixel of `s` compared with its own threshold in `ts`. */
  function DitherWith(s: seq<Pixel>, ts: seq<int>): (t: seq<Pixel>)
    requires |ts| == |s|
    ensures |t| == |s|
  {
    seq(|s|, i requires 0 <= i < |s| => DitherPixel(s[i], ts[i]))
  }

  /** The surface of width `w` after `set_dithering` with threshold matrix `m`
      (the source always uses `Bayer`). */
  function Dithered(s: seq<Pixel>, w: nat, m: seq<int>): (t: seq<Pixel>)
    requires (w > 0 || |s| == 0) && IsThresholdMatrix(m)
    ensures |t| == |s|
  {
    DitherWith(s, Thresholds(|s|, w, m))
  }

  /** Every pixel of a dithered surface is pure black or pure white. */
  lemma DitheredIsBinary(s: seq<Pixel>, w: nat, m: seq<int>)
    requires (w > 0 || |s| == 0) && IsThresholdMatrix(m)
    ensures forall i :: 0 <= i < |s| ==> Dithered(s, w, m)[i] == Black || Dithered(s, w, m)[i] == White
  {
  }

  /** Pixel `i` of the dithered surface is white exactly when its quantised level,
      biased by -5, exceeds the threshold at column `i % w`, row `i / w`. */
  lemma DitheredWhiteIff(s: seq<Pixel>, w: nat, m: seq<int>, i: nat)
    requires w > 0 && i < |s| && IsThresholdMatrix(m)
    ensures Dithered(s, w, m)[i] == White <==> Level(s[i]) + Bias > Threshold(m, i % w, i / w)
    ensures Dithered(s, w, m)[i] == Black <==> Level(s[i]) + Bias <= Threshold(m, i % w, i / w)
  {
  }

  /** A black pixel dithers to black against any threshold of the matrix. */
  lemma DitherKeepsBlack(t: int)
    requires 1 <= t
    ensures DitherPixel(Black, t) == Black
  {
    assert Level(Black) == 0;
    assert !(Level(Black) + Bias > t);
  }

  /** A white pixel dithers to white exactly where the threshold is below 64 - 5 = 59. */
  lemma DitherWhitePixel(t: int)
    ensures DitherPixel(White, t) == White <==> t < 59
  {
    assert Level(White) == 64;
    assert Level(White) + Bias > t <==> t < 59;
  }

  /** A brighter pixel (larger channel sum) never dithers darker against the same threshold. */
  lemma DitherMonotone(p: Pixel, q: Pixel, t: int)
    requires Sum(p) <= Sum(q)
    ensures DitherPixel(p, t) == White ==> DitherPixel(q, t) == White
  {
    DivMonotone(Sum(p) * Shades, Sum(q) * Shades, 765);
  }

  /** Re-dithering a dithered pixel against the same threshold gives it back: it
      came out white only where the threshold is below 64 - 5, and a white pixel
      is re-dithered to white exactly there. */
  lemma DitherPixelIdempotent(p: Pixel, t: int)
    requires 1 <= t
    ensures DitherPixel(DitherPixel(p, t), t) == DitherPixel(p, t)
  {
    if Level(p) + Bias > t {
      assert DitherPixel(p, t) == White;
      assert t < 59;
      DitherWhitePixel(t);
    } else {
      assert DitherPixel(p, t) == Black;
      DitherKeepsBlack(t);
    }
  }

  /** Re-dithering against the same thresholds changes nothing, as long as
      every threshold is at least 1 (as every entry of a threshold matrix is). */
  lemma DitherWithIdempotent(s: seq<Pixel>, ts: seq<int>)
    requires |ts| == |s|
    requires forall i :: 0 <= i < |ts| ==> 1 <= ts[i]
    ensures DitherWith(DitherWith(s, ts), ts) == DitherWith(s, ts)
  {
    var t := DitherWith(s, ts);
    var u := DitherWith(t, ts);
    forall i | 0 <= i < |t|
      ensures u[i] == t[i]
    {
      DitherPixelIdempotent(s[i], ts[i]);
    }
    assert u == t;
  }

  /** Dithering a dithered surface again, with the same width and matrix, changes nothing. */
  lemma DitherIdempotent(s: seq<Pixel>, w: nat, m: seq<int>)
    requires (w > 0 || |s| == 0) && IsThresholdMatrix(m)
    ensures Dithered(Dithered(s, w, m), w, m) == Dithered(s, w, m)
  {
    DitherWithIdempotent(s, Thresholds(|s|, w, m));
  }
}
