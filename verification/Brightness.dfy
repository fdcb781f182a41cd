/** `Image::set_brightness` and `truncate_color`. The `float` factor is modelled as
    the rational `num / den` with `den > 0`; every product `channel * factor` is then
    non-negative, so the `(Uint8)` truncation toward zero is the integer floor. */
module Brightness {
  import opened Pixels
  import opened Arith

  /** The default argument of `set_brightness`: one half. */
  const DefaultNum := 1
  const DefaultDen := 2

  /** The guard of `set_brightness`: a factor below 0, above 2 or equal to 1 changes nothing. */
  predicate IsNoOp(num: int, den: int)
    requires den > 0
    ensures !IsNoOp(num, den) ==> 0 <= num <= 2 * den
    ensures num == 0 ==> !IsNoOp(num, den)
  {
    num < 0 || num > 2 * den || num == den
  }

  /** `truncate_color` as it is meant to work: clamp a non-negative value to [0, 255]. */
  function TruncateColor(x: int): (c: byte)
    ensures 0 <= x <= 255 ==> c as int == x
    ensures x > 255 ==> c == 255
    ensures x < 0 ==> c == 0
  {
    if x < 0 then 0 else if x > 255 then 255 else x as byte
  }

  /** `truncate_color` as written: `(Uint8) color` comes first, so the `min`/`max`
      compare two `Uint8` values and can change nothing. The conversion of a float
      above 255 is undefined in C++; the usual platform result, keeping the low
      eight bits of the integer part, is what this function returns. */
  function TruncateColorAsWritten(x: nat): (c: byte)
    ensures x <= 255 ==> c as int == x
  {
    var cast := (x % 256) as byte;
    var lo := if cast < 255 then cast else 255;
    if lo > 0 then lo else 0
  }

  /** The clamp as written never changes the value of the cast: on 400, the value a
      channel of 200 reaches under factor 2, it yields 144 where 255 was meant. */
  lemma AsWrittenDoesNotClamp()
    ensures TruncateColorAsWritten(200 * 2) == 144
    ensures TruncateColor(200 * 2) == 255
    ensures forall x: nat :: TruncateColorAsWritten(x) as int == x % 256
  {
  }

  /** One channel under a factor the guard lets through: `truncate_color(c * factor)`. */
  function ScaleChannel(c: byte, num: int, den: int): (o: byte)
    requires 0 <= num <= 2 * den && den > 0
    ensures o as int * den <= c as int * num
    ensures c as int * num < (o as int + 1) * den || o == 255
  {
    TruncateColor(c as int * num / den)
  }

  function ScalePixel(p: Pixel, num: int, den: int): Pixel
    requires 0 <= num <= 2 * den && den > 0
  {
    Pixel(ScaleChannel(p.r, num, den), ScaleChannel(p.g, num, den), ScaleChannel(p.b, num, den))
  }

  /** The surface after `set_brightness(num / den)`: unchanged under the guard;
      otherwise every channel is scaled on its own, so a gray pixel stays gray
      and a black pixel stays black. */
  function Brightened(s: seq<Pixel>, num: int, den: int): (t: seq<Pixel>)
    requires den > 0
    ensures |t| == |s|
    ensures IsNoOp(num, den) ==> t == s
    ensures forall i :: 0 <= i < |s| && IsGray(s[i]) ==> IsGray(t[i])
    ensures forall i :: 0 <= i < |s| && s[i] == Black ==> t[i] == Black
  {
    if IsNoOp(num, den) then s
    else seq(|s|, i requires 0 <= i < |s| => ScalePixel(s[i], num, den))
  }

  /** A factor outside [0, 2], or exactly 1, leaves the surface as it was. */
  lemma BrightnessGuard(s: seq<Pixel>, num: int, den: int)
    requires den > 0
    ensures (num < 0 || num > 2 * den || num == den) ==> Brightened(s, num, den) == s
  {
  }

  /** Factor 0 is not guarded: it turns every pixel black. */
  lemma BrightnessZeroBlacksOut(s: seq<Pixel>, den: int)
    requires den > 0
    ensures forall i :: 0 <= i < |s| ==> Brightened(s, 0, den)[i] == Black
  {
  }

  /** One channel under a factor in [0, 1) is the floor of `c * factor`, never above `c`. */
  lemma {:induction false} DarkenChannel(c: byte, num: int, den: int)
    requires 0 <= num < den
    ensures ScaleChannel(c, num, den) as int == c as int * num / den
    ensures ScaleChannel(c, num, den) <= c
  {
    var x := c as int * num;
    var y := c as int * den;
    MulMonotone(c as int, num, den);
    DivMonotone(x, y, den);
    MulDivCancel(c as int, den);
  }

  /** For `0 <= factor < 1` every channel becomes `floor(c * factor)`, never above `c`. */
  lemma BrightnessDarkens(s: seq<Pixel>, num: int, den: int)
    requires 0 <= num < den
    ensures forall i, c :: 0 <= i < |s| ==>
      ChannelOf(Brightened(s, num, den)[i], c) as int == ChannelOf(s[i], c) as int * num / den
      <= ChannelOf(s[i], c) as int
  {
    forall i, c | 0 <= i < |s|
      ensures ChannelOf(Brightened(s, num, den)[i], c) as int == ChannelOf(s[i], c) as int * num / den
        <= ChannelOf(s[i], c) as int
    {
      DarkenChannel(ChannelOf(s[i], c), num, den);
    }
  }

  /** One channel under a factor in (1, 2] is `min(255, floor(c * factor))`, never below `c`. */
  lemma {:induction false} BrightenChannel(c: byte, num: int, den: int)
    requires den < num <= 2 * den
    ensures ScaleChannel(c, num, den) as int == if c as int * num / den > 255 then 255 else c as int * num / den
    ensures ScaleChannel(c, num, den) >= c
  {
    var x := c as int * num;
    var y := c as int * den;
    MulMonotone(c as int, den, num);
    DivMonotone(y, x, den);
    MulDivCancel(c as int, den);
  }

  /** For `1 < factor <= 2` every channel becomes `min(255, floor(c * factor))`, never below `c`. */
  lemma BrightnessBrightens(s: seq<Pixel>, num: int, den: int)
    requires den < num <= 2 * den
    ensures forall i, c :: 0 <= i < |s| ==>
      ChannelOf(s[i], c) <= ChannelOf(Brightened(s, num, den)[i], c) &&
      ChannelOf(Brightened(s, num, den)[i], c) as int ==
        (if ChannelOf(s[i], c) as int * num / den > 255 then 255 else ChannelOf(s[i], c) as int * num / den)
  {
    forall i, c | 0 <= i < |s|
      ensures ChannelOf(s[i], c) <= ChannelOf(Brightened(s, num, den)[i], c) &&
        ChannelOf(Brightened(s, num, den)[i], c) as int ==
          (if ChannelOf(s[i], c) as int * num / den > 255 then 255 else ChannelOf(s[i], c) as int * num / den)
    {
      BrightenChannel(ChannelOf(s[i], c), num, den);
    }
  }
}
