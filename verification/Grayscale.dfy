/** `Image::set_grayscale`: every pixel becomes the integer mean of its channels. */
module Grayscale {
  import opened Pixels

  /** `(r + g + b) / 3` stored into a `Uint8`: the floor of the channel mean. */
  function Gray(p: Pixel): (v: byte)
    ensures 3 * (v as int) <= Sum(p) < 3 * (v as int) + 3
    ensures v <= p.r || v <= p.g || v <= p.b
    ensures v >= p.r || v >= p.g || v >= p.b
  {
    (Sum(p) / 3) as byte
  }

  function GrayPixel(p: Pixel): Pixel {
    var v := Gray(p); Pixel(v, v, v)
  }

  /** The surface after `set_grayscale`: same length, every pixel gray, and its
      value the floor of the mean of the original pixel at the same index. */
  function Grayscaled(s: seq<Pixel>): (t: seq<Pixel>)
    ensures |t| == |s|
    ensures forall i :: 0 <= i < |t| ==> IsGray(t[i])
    ensures forall i :: 0 <= i < |t| ==> 3 * (t[i].r as int) <= Sum(s[i]) < 3 * (t[i].r as int) + 3
  {
    seq(|s|, i requires 0 <= i < |s| => GrayPixel(s[i]))
  }

  /** A gray pixel `(v, v, v)` has mean exactly `v`. */
  lemma GrayOfGray(p: Pixel)
    requires IsGray(p)
    ensures Gray(p) == p.r
  {
  }

  /** Applying `set_grayscale` twice gives the same surface as applying it once. */
  lemma GrayscaleIdempotent(s: seq<Pixel>)
    ensures Grayscaled(Grayscaled(s)) == Grayscaled(s)
  {
    var t := Grayscaled(s);
    forall i | 0 <= i < |t|
      ensures GrayPixel(t[i]) == t[i]
    {
      GrayOfGray(t[i]);
    }
  }

  /** `set_grayscale` leaves a surface unchanged exactly when all its pixels are already gray. */
  lemma GrayscaleFixedPoints(s: seq<Pixel>)
    ensures Grayscaled(s) == s <==> forall i :: 0 <= i < |s| ==> IsGray(s[i])
  {
    if forall i :: 0 <= i < |s| ==> IsGray(s[i]) {
      forall i | 0 <= i < |s|
        ensures Grayscaled(s)[i] == s[i]
      {
        GrayOfGray(s[i]);
      }
    }
  }
}
