/** The aspect-ratio fit of `Image::get_texture`: given the surface's width `w` and
    height `h` and the caller's `window_width` and `window_height`, keep the side of
    the window along the longer side of the image and derive the other from the
    aspect ratio `w / h`. Floats are modelled as exact reals. */
module Fit {

  /** The pair `(window_width, window_height)` that `get_texture` writes back. */
  datatype Size = Size(width: real, height: real)

  /** `aspect_ratio`: 1 for a square surface, `w / h` otherwise. */
  function AspectRatio(w: nat, h: nat): (a: real)
    requires w == h || h > 0
    ensures w == h ==> a == 1.0
    ensures a * h as real == w as real || w == h
  {
    if w != h then w as real / h as real else 1.0
  }

  /** The window size after the fit. For `w > h` the height becomes
      `window_width / (w / h)`, written `window_width * h / w` (a float division by
      `h = 0` gives an infinite ratio and so a height of 0 there, which is what this
      form gives too); otherwise the width becomes `window_height * (w / h)`. */
  function FitWindow(w: nat, h: nat, window: Size): (r: Size)
    ensures w > h ==> r.width == window.width
    ensures w <= h ==> r.height == window.height
    ensures w == h ==> r == Size(window.height, window.height)
  {
    if w > h then Size(window.width, window.width * h as real / w as real)
    else Size(window.height * AspectRatio(w, h), window.height)
  }

  /** The fitted window has the surface's aspect ratio: width * h == height * w. */
  lemma FitKeepsAspectRatio(w: nat, h: nat, window: Size)
    ensures FitWindow(w, h, window).width * h as real == FitWindow(w, h, window).height * w as real
  {
    var wr, hr := w as real, h as real;
    if w > h {
      var x := window.width * hr / wr;
      assert FitWindow(w, h, window) == Size(window.width, x);
      assert x * wr == window.width * hr;
    } else if w < h {
      var a := wr / hr;
      assert FitWindow(w, h, window) == Size(window.height * a, window.height);
      assert a * hr == wr;
      assert window.height * a * hr == window.height * (a * hr);
    }
  }

  /** For a landscape surface the derived height is never larger than the kept width. */
  lemma FitLandscapeHeight(w: nat, h: nat, window: Size)
    requires window.width >= 0.0 && w > h
    ensures FitWindow(w, h, window).height <= window.width
  {
    ShrinkByRatio(window.width, h as real, w as real);
  }

  /** For a portrait surface the derived width is never larger than the kept height. */
  lemma FitPortraitWidth(w: nat, h: nat, window: Size)
    requires window.height >= 0.0 && w < h
    ensures FitWindow(w, h, window).width <= window.height
  {
    ShrinkByRatio(window.height, w as real, h as real);
  }

  /** Scaling a non-negative length by a ratio of at most 1 does not enlarge it. */
  lemma ShrinkByRatio(a: real, b: real, c: real)
    requires a >= 0.0 && 0.0 <= b <= c && c > 0.0
    ensures a * b / c <= a
    ensures a * (b / c) <= a
  {
    assert a * b <= a * c;
    assert a * b / c <= a * c / c;
    assert a * c / c == a;
    assert a * (b / c) == a * b / c;
  }

  /** A common non-zero factor of numerator and denominator cancels. */
  lemma CancelCommonFactor(a: real, b: real, c: real, k: real)
    requires k != 0.0 && c != 0.0
    ensures a * (k * b) / (k * c) == a * b / c
  {
    var x := a * b / c;
    assert x * c == a * b;
    assert x * (k * c) == k * (x * c);
    assert a * (k * b) == k * (a * b);
    assert k * c != 0.0;
  }

  /** The fit depends on the surface only through its aspect ratio: scaling both
      sides by the same factor gives the same window. */
  lemma {:induction false} FitScaleInvariant(w: nat, h: nat, k: nat, window: Size)
    requires k > 0
    ensures FitWindow(k * w, k * h, window) == FitWindow(w, h, window)
  {
    var kr, wr, hr := k as real, w as real, h as real;
    assert (k * w) as real == kr * wr && (k * h) as real == kr * hr;
    if w > h {
      assert k * w > k * h;
      CancelCommonFactor(window.width, hr, wr, kr);
    } else if w < h {
      assert k * w < k * h;
      CancelCommonFactor(1.0, wr, hr, kr);
      assert AspectRatio(k * w, k * h) == AspectRatio(w, h);
    }
  }

  /** The sizes of the worked examples: a 1600x900 surface in a 700x700 window,
      its 900x1600 transpose, and a 500x500 square. */
  lemma FitExamples()
    ensures FitWindow(1600, 900, Size(700.0, 700.0)) == Size(700.0, 393.75)
    ensures FitWindow(900, 1600, Size(700.0, 700.0)) == Size(393.75, 700.0)
    ensures FitWindow(500, 500, Size(640.0, 480.0)) == Size(480.0, 480.0)
  {
  }
}
