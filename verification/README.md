# Image filters and fit of an SDL image viewer, in Dafny

This project models the core of a small image viewer: the `Image` class of
`src/image.h`. It covers the four pixel filters that rewrite the decoded surface
in place (grayscale, brightness, 8x8 Bayer ordered dithering, histogram auto-tone).
It also covers the aspect-ratio fit that `get_texture` applies to the caller's
window size, and the `is_old` / `load` / `reset` lifecycle of an image.

Layout:

- `Pixels.dfy`: `byte` (a `Uint8` channel), `Pixel` (the RGB triple that
  `SDL_GetRGB` and `SDL_MapRGB` read and write; packing is the identity here) and
  `Channel`.
- `Grayscale.dfy`, `Brightness.dfy`, `Dithering.dfy`, `AutoTone.dfy`: one pure
  module per filter. Each defines the filter's result on a row-major pixel
  sequence, plus the lemmas about it.
- `Arith.dfy`: facts about integer division that the channel arithmetic and the
  pixel coordinates need.
- `Surface.dfy`: class `Raster`, the decoded surface. It has `const` width,
  height and pixel array, and the filter methods. Each method is a loop over the
  pixel index `i` in `0 .. w*h`, proved equal to the pure definition applied to
  the old buffer.
- `Fit.dfy`: the window-size arithmetic of `get_texture`, over `real`.
- `Images.dfy`: class `Image`, with the file name, the surface or none, and a
  flag for whether a texture is held.

Float arithmetic is modelled with exact rational or real arithmetic; `float`
rounding is not modelled:

- The brightness factor is the rational `num / den`, read as the decimal the
  caller meant (one half by default). A `float` factor such as `0.7f` is not
  exactly 7/10, so a product near an integer can truncate differently.
- The dithering level `(Uint8)(((r+g+b)/3.0f) * 64 / 255.0f)` is
  `(r+g+b) * 64 / 765`. This is not the same as taking the integer mean first.
- The auto-tone value `(Uint8)((float)cdfR[v] / N * 255.0f)` is `cdfR[v] * 255 / N`.
- The fit is computed over `real`.

Behaviour that the code has and that is modelled as written:

- The fit for a square surface sets the width to the window's height. It does
  not leave the window unchanged.
- `set_brightness` guards only `factor < 0`, `factor > 2` and `factor == 1`.
  Factor 0 turns the surface black.
- Channels are truncated, not rounded.
- Auto-tone remaps all three channels through the red CDF. It computes the
  green and blue CDFs but never uses them.
- Auto-tone needs no guard for an empty surface, because its loops do not run.
- `load` records the file name even when decoding fails.
- The dithering definitions take the threshold matrix as a parameter, and
  `set_dithering` is proved to use the 8x8 Bayer matrix. Every property of the
  dithered surface holds for any matrix of 64 entries in 1..64, which the Bayer
  matrix is.
- Re-dithering a dithered surface of the same width changes nothing
  (`DitherIdempotent`). A pixel comes out white only where its threshold is
  below 64 - 5, and a white pixel is re-dithered to white exactly there.

## Model

| member | source | states |
|---|---|---|
| `Grayscale.Gray` | src/image.h:119-121 | the gray value is the floor of the mean of the three channels and lies between their minimum and maximum |
| `Grayscale.Grayscaled` | src/image.h:116-127 | the grayscaled surface has the same length, every pixel has three equal channels, and each is the floor of the mean of the original pixel at that index |
| `Grayscale.GrayscaleIdempotent` | src/image.h:116-127 | applying grayscale twice gives the same surface as applying it once |
| `Grayscale.GrayscaleFixedPoints` | src/image.h:116-127 | grayscale leaves a surface unchanged if and only if every pixel already has three equal channels |
| `Surface.Raster.SetGrayscale` | src/image.h:116-127 | the in-place loop leaves the buffer equal to the grayscaled old buffer |
| `Brightness.TruncateColor` | src/image.h:60-62 | the intended clamp: values in 0..255 are kept, values above 255 become 255, negative values become 0 |
| `Brightness.TruncateColorAsWritten` | src/image.h:60-62 | with the cast before the clamp, values up to 255 are kept as they are |
| `Brightness.AsWrittenDoesNotClamp` | src/image.h:60-62 | the clamp as written returns the cast value modulo 256 for every input; on 400 it gives 144 where the intended clamp gives 255 |
| `Brightness.ScaleChannel` | src/image.h:139-141 | a scaled channel is the floor of `c * num / den`, or 255 when that floor would exceed 255 |
| `Brightness.IsNoOp` | src/image.h:130 | a factor that passes the guard lies in [0, 2], and factor 0 passes it |
| `Brightness.Brightened` | src/image.h:129-147 | the surface after `set_brightness` has the same length, is unchanged under the guard, and keeps gray pixels gray and black pixels black |
| `Brightness.BrightnessGuard` | src/image.h:129-132 | a factor below 0, above 2 or equal to 1 leaves the surface unchanged |
| `Brightness.BrightnessZeroBlacksOut` | src/image.h:129-147 | factor 0 passes the guard and turns every pixel black |
| `Brightness.BrightnessDarkens` | src/image.h:135-144 | for a factor in [0, 1), every channel becomes exactly `floor(c * factor)` and never exceeds its old value |
| `Brightness.BrightnessBrightens` | src/image.h:135-144 | with the intended clamp (see Findings): for a factor in (1, 2], every channel becomes `min(255, floor(c * factor))` and never falls below its old value |
| `Surface.Raster.SetBrightness` | src/image.h:129-147 | with the intended clamp (see Findings): the in-place loop, after the guard, leaves the buffer equal to the brightened old buffer; without arguments the factor is one half |
| `Dithering.BayerIsPermutation` | src/image.h:153-162 | the 8x8 matrix holds 64 entries, each of 1..64 exactly once |
| `Dithering.BayerIsThresholdMatrix` | src/image.h:153-162 | the Bayer matrix has 64 entries, all in 1..64 |
| `Dithering.MatrixIndexInRange` | src/image.h:170-176 | the matrix index `(y % 8) * 8 + x % 8` is in 0..63 for every column and row |
| `Dithering.Threshold` | src/image.h:170-176 | the threshold read at column `x`, row `y` is in 1..64 |
| `Dithering.Thresholds` | src/image.h:165-176 | every pixel of a surface gets a threshold, each in 1..64 |
| `Dithering.Level` | src/image.h:173-174 | the quantised gray level is at most 64 |
| `Dithering.DitherPixel` | src/image.h:176-184 | a pixel compared with a threshold becomes pure black or pure white |
| `Dithering.DitherWith` | src/image.h:170-184 | comparing each pixel with its own threshold keeps the surface length |
| `Dithering.Dithered` | src/image.h:165-186 | the dithered surface has the same length |
| `Dithering.DitheredIsBinary` | src/image.h:178-184 | every pixel of the dithered surface is pure black or pure white |
| `Dithering.DitheredWhiteIff` | src/image.h:170-184 | pixel `i` is white if and only if its level minus 5 exceeds the threshold at column `i % w`, row `i / w`; otherwise it is black |
| `Dithering.DitherKeepsBlack` | src/image.h:173-184 | a black pixel dithers to black against every threshold of at least 1 |
| `Dithering.DitherWhitePixel` | src/image.h:173-184 | a white pixel dithers to white exactly where the threshold is below 59 |
| `Dithering.DitherMonotone` | src/image.h:173-184 | a pixel with a larger channel sum never dithers darker against the same threshold |
| `Dithering.DitherPixelIdempotent` | src/image.h:173-184 | re-dithering a dithered pixel against the same threshold returns it unchanged |
| `Dithering.DitherWithIdempotent` | src/image.h:165-186 | re-dithering against the same thresholds, all at least 1, changes nothing |
| `Dithering.DitherIdempotent` | src/image.h:165-186 | re-dithering a dithered surface with the same width and matrix changes nothing |
| `Surface.Raster.SetDithering` | src/image.h:148-187 | `set_dithering` leaves the buffer equal to the old buffer dithered with the Bayer matrix for the surface's width |
| `Surface.Raster.DitherAgainst` | src/image.h:163-184 | the in-place loop over `i`, with column `x = i % w` and row `y = i / w` (kept as a running column and row) and the matrix entry at `(y % 8) * 8 + x % 8`, leaves the buffer equal to the dithered old buffer for any threshold matrix |
| `AutoTone.Count` | src/image.h:198-204 | a histogram bin never counts more pixels than the surface has |
| `AutoTone.CountAtMost` | src/image.h:207-220 | a cumulative count never exceeds the number of pixels |
| `AutoTone.PrefixSum` | src/image.h:211-217 | the running sum `sumR` of the histogram after `k` bins equals the number of pixels whose channel is below `k` |
| `AutoTone.HistogramTotal` | src/image.h:192-220 | each histogram sums to the number of pixels `N`, and the CDF entry for 255 equals `N` |
| `AutoTone.PrefixSumMonotone` | src/image.h:213-220 | the running sums are non-decreasing over the bins |
| `AutoTone.CountAtMostMonotone` | src/image.h:213-220 | the CDF is non-decreasing in the channel value |
| `AutoTone.Equalize` | src/image.h:228-230 | the remap of a cumulative count fits in a byte: a count of 0 maps to 0, and a count of `N` maps to 255 |
| `AutoTone.ToneLevel` | src/image.h:228-230 | a value at or above every red value of the surface (a red CDF entry of `N`) is remapped to 255, and a value below every red value (a red CDF entry of 0) to 0 |
| `AutoTone.TonePixel` | src/image.h:224-233 | because all three channels go through the red CDF, a gray pixel stays gray |
| `AutoTone.ToneLevelMonotone` | src/image.h:224-234 | the remap is monotone in the input channel value |
| `AutoTone.ToneLevelOfMaximum` | src/image.h:224-234 | a value at or above every red value of the surface maps to 255 |
| `AutoTone.AutoToned` | src/image.h:222-234 | the auto-toned surface has the same length; an empty surface stays empty |
| `AutoTone.AutoToneEmpty` | src/image.h:191-237 | auto-tone of a surface with no pixels is the empty surface |
| `Surface.Raster.Histograms` | src/image.h:192-205 | the histogram loop leaves bin `v` of each channel equal to the number of pixels holding `v` in that channel |
| `Surface.Raster.CumulativeSums` | src/image.h:207-220 | the accumulator loop leaves CDF entry `v` of each channel equal to the number of pixels whose value in that channel is at most `v` |
| `Surface.Raster.SetAutoTone` | src/image.h:191-237 | histograms, CDFs and the remap loop leave the buffer equal to the auto-toned old buffer, with every channel remapped through the red CDF |
| `Surface.Raster.Equalization` | src/image.h:222-234 | the remap loop, given the red CDF, leaves the buffer equal to the auto-toned old buffer, with every channel remapped through the red CDF |
| `Fit.AspectRatio` | src/image.h:98-101 | the aspect ratio is 1 for a square surface and `w / h` otherwise |
| `Fit.FitWindow` | src/image.h:98-107 | a landscape surface keeps the window width and a portrait or square surface keeps the window height; a square surface gets a square window whose side is the window height |
| `Fit.FitKeepsAspectRatio` | src/image.h:98-107 | the fitted size has the surface's aspect ratio: width times `h` equals height times `w` |
| `Fit.FitLandscapeHeight` | src/image.h:103-104 | for a landscape surface the derived height is never larger than the kept width |
| `Fit.FitPortraitWidth` | src/image.h:105-107 | for a portrait surface the derived width is never larger than the kept height |
| `Fit.FitScaleInvariant` | src/image.h:98-107 | surfaces with the same aspect ratio get the same window |
| `Fit.FitExamples` | src/image.h:98-107 | 1600x900 in 700x700 gives 700x393.75, 900x1600 gives 393.75x700, and a square surface in 640x480 gives 480x480 |
| `Surface.Raster.constructor` | src/image.h:73 | a decoded surface holds exactly `w * h` pixels |
| `Images.Image.IsOld` | src/image.h:41-43 | an old image holds no surface |
| `Images.Image.constructor` | src/image.h:19 | a default-constructed image is old |
| `Images.Image.FromFile` | src/image.h:21-23 | constructing from a name records the name and the decoded surface, and the image is old only for an empty name that failed to decode |
| `Images.Image.Load` | src/image.h:72-81 | load stores the decoded surface or none, and it records the name even when decoding failed, so a failed load of a non-empty name is not old; the texture is untouched |
| `Images.Image.Reset` | src/image.h:83-90 | after reset the image is old |
| `Images.Image.GetTexture` | src/image.h:92-114 | with the intended surface guard (see Findings): an old image, or one without a surface, gives no texture and leaves both window dimensions as they were; otherwise the window size becomes the fitted size and the texture is whatever the factory returned |
| `Images.FailedLoadPassesOldGuard` | src/image.h:72-81 | after a failed load of a non-empty name the image is not old, so the `is_old` guard of `get_texture` lets it through, and it has no surface |

## Left out

- Decoding (`IMG_Load`), surface conversion (`SDL_ConvertSurface`) and texture creation (`SDL_CreateTextureFromSurface`) are foreign library calls. Their outcomes are parameters: the decoded `Raster` or null, and whether a texture was created. Surface locking, destruction and error printing are not modelled.
- The packed `Uint32` pixel layout that the filters index is not modelled. Storage is abstracted to RGB triples. The discarded result of `SDL_ConvertSurface` is not reproduced.
- The copy constructor and `operator=` are not modelled. Both re-load the file from disk, which is I/O.
- Exact `float` rounding is not modelled, including the binary value of the brightness factor. Brightness, the dithering level, the auto-tone remap and the fit use exact rational or real arithmetic. The `int` loop bound `w * h` and the `size_t` counters are unbounded here.
- Brightness.TruncateColor: models the clamp the code intends, not the code. The code casts to `Uint8` before clamping (see Findings), and for values above 255 that cast is undefined behaviour in C++.
- The filters are methods of `Raster` instead of `Image`, and they do not return the `Image &` used for chaining. They change only `image->pixels`. Calling a filter on an image with no surface dereferences null in the code; that case is not modelled.
- Images.Image.GetTexture: returns no texture for an image that is not old but has no surface. The code dereferences a null surface there (see Findings); that crash is not modelled.
- Old textures and surfaces leak when `get_texture` or `load` runs again. This is not modelled; the texture is a flag that is overwritten.
- The duplicate fit arithmetic in `src/main.cpp`, the event loop, the file dialog and `src/style.h` are UI glue. They are not part of this model.

## Findings

| source | as written | input that shows it | evidently intended | confidence | as-written member | corrected member |
|---|---|---|---|---|---|---|
| src/image.h:60-62 | `(Uint8) color` is taken before `std::min`/`std::max`, so the clamp compares two `Uint8` values and never changes anything | `set_brightness(2.0)` on a channel of 200: `truncate_color(400.0)` casts 400 to `Uint8` (undefined; on common platforms 144) | clamp 400 to 255, then cast | high that the clamp is inert; the wrapped value is platform behaviour; not executed | `Brightness.AsWrittenDoesNotClamp` | `Brightness.TruncateColor` |
| src/image.h:94-99 | `get_texture` returns early only for an image that `is_old`, then reads `image->w`; `load` (src/image.h:72-81) records the name even when `IMG_Load` fails | `load("missing.tif")` then `get_texture(...)`: the image is not old and `image` is null | no texture for an image without a surface (or a failed load that leaves the image old) | high; not executed | `Images.FailedLoadPassesOldGuard` | `Images.Image.GetTexture` |
