/** The colour values the filters of `Image` read and write: an RGB24 pixel as
    `SDL_GetRGB` splits it into three `Uint8` channels. */
module Pixels {

  /** An 8-bit unsigned channel value (`Uint8`). */
  newtype byte = x: int | 0 <= x < 256

  /** One pixel of the surface, as the triple `SDL_GetRGB` returns and `SDL_MapRGB` packs. */
  datatype Pixel = Pixel(r: byte, g: byte, b: byte)

  /** The three colour channels. */
  datatype Channel = Red | Green | Blue

  const Black := Pixel(0, 0, 0)
  const White := Pixel(255, 255, 255)

  function ChannelOf(p: Pixel, c: Channel): byte {
    match c
    case Red => p.r
    case Green => p.g
    case Blue => p.b
  }

  /** `r + g + b`, computed in `int` as C++ promotes the three `Uint8` operands. */
  function Sum(p: Pixel): (n: nat)
    ensures n <= 765
  {
    p.r as int + p.g as int + p.b as int
  }

  /** A pixel whose three channels are equal. */
  predicate IsGray(p: Pixel) {
    p.r == p.g == p.b
  }
}
