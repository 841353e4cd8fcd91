# nft maker: the recolouring engine

nft maker makes collectible-style images from two PNG templates, a base and
an accessory. Each template is recoloured several times. Every variation
gets a random base colour, drawn so that it stays away from two skin tones.
Then every accessory variation is composited over every base variation.

This project models that engine in Dafny and proves properties of the model:

- `Colors` (colors.dfy) models the three colour helpers:
  - `random_color` draws three channels from a stream of random draws;
  - `darker_color` scales each channel by 0.7 and truncates;
  - `color_similarity` compares the squared RGB distance with the square of a threshold.
- `Binary64` (binary64.dfy) defines `int(c * 0.7)` as IEEE 754 binary64
  computes it, in integers. The exact product of `c` and the double nearest
  0.7 is rounded to 53 significant bits, ties to even, then truncated.
  - Off the multiples of ten this is the real-number floor of `c * 0.7`.
  - At 90, 170 and 180 it is one lower: 62, 118 and 125.
  - `Colors.Darken` is proved equal to it on every channel from 0 to 255.
- `Arith` (arith.dfy) holds two facts about multiplication and division
  that the index and rounding proofs use.
- `Palette` (palette.dfy) models the rejection-sampling loop that chooses a
  base colour.
  - The random source is the finite sequence `draws` of values that
    `random.randint(0, 255)` returns, in order. A candidate colour takes three of them.
  - `FirstAccepted` is the specification of one run of the loop.
  - `Sample` is the specification of `n` runs in a row.
  - The `while` loop, `PickBaseColor`, is proved against `FirstAccepted`.
- `Recolor` (recolor.dfy) models the per-pixel classification and the layer loop.
  - `RecolorPixel` applies five rules in priority order: transparent, black, white,
    skin tone, anything else.
  - `Image` is an RGBA image over a two-dimensional pixel array.
  - `RecolorLayer` is the nested `for y` / `for x` loop that fills a freshly allocated image.
  - `CreateColorVariations` is the outer loop, proved against `Sample` and `RecolorPixel`.
- `Combine` (combine.dfy) models the `product` loop that builds one composite per
  ordered (base, accessory) pair, and one whole press of "Generate".
  - The compositing function is a parameter.
  - The loop is specified by `Pairs`.
  - Lemmas give the count and the index of each pair.

## Model

| member | source | states |
|---|---|---|
| Colors.WithAlpha | cod.py:49 | `color + (alpha,)` has the colour as its RGB part and the given alpha |
| Colors.RandomColor | cod.py:12-13 | `random_color()` is three successive draws, red, green, blue; `EveryColorDrawable` shows every colour can come out |
| Colors.EveryColorDrawable | cod.py:12-13 | `random_color` can return any colour: three draws equal to its channels, red first, produce it |
| Colors.Darken | cod.py:15-16 | one darkened channel is the real floor of `c * 0.7`, except at 90, 170 and 180 where it is one lower; never above `c`, and strictly below it when `c > 0` |
| Colors.DarkenIsBinary64 | cod.py:15-16 | `Darken` equals the binary64 `int(c * 0.7)` for every channel value |
| Colors.DarkerColor | cod.py:15-16 | every channel of `darker_color(c)` is the real floor of `channel * 0.7` or one below it, and at most the original channel |
| Colors.DarkerColorIsBinary64 | cod.py:15-16 | every channel of `DarkerColor` is the binary64 `int(channel * 0.7)` |
| Binary64.MulPoint7Trunc | cod.py:16 | `int(c * 0.7)` as binary64 computes it; its values are stated by `TruncOffTen` and `TruncTens` |
| Binary64.TruncOffTen | cod.py:16 | for a channel that is not a multiple of ten, `int(c * 0.7)` is `c * 7 // 10`: the rounding error is far smaller than the distance to the nearest integer |
| Binary64.TruncTens | cod.py:16 | for `c = 10 * j`, `int(c * 0.7)` is `7 * j`, except at `c` = 90, 170 and 180, where the product rounds to just below the integer and truncates to `7 * j - 1` |
| Colors.SquaredDistance | cod.py:18-19 | the squared RGB distance is zero exactly when the two colours are equal |
| Colors.Similar | cod.py:18-19 | `color_similarity`: squared distance below `threshold ** 2`; `SimilarSymmetric` and `SimilarToItself` state its properties |
| Colors.SimilarSymmetric | cod.py:18-19 | `color_similarity` does not depend on the order of its two colours |
| Colors.SimilarToItself | cod.py:18-19 | a colour is similar to itself exactly when the threshold is nonzero |
| Palette.AnySimilar | cod.py:35 | the `any(...)` test of the loop: some avoided colour is similar to the candidate; `FirstAccepted` and `RejectedBeforeFirst` state how the loop uses it |
| Palette.FirstAccepted | cod.py:33-36 | the accepted candidate is a whole candidate (a multiple of three draws on), lies inside the stream, and is similar to no avoided colour |
| Palette.RejectedBeforeFirst | cod.py:35-36 | every candidate before the accepted one, or every candidate when none is accepted, is similar to some avoided colour |
| Palette.PickBaseColor | cod.py:33-36 | the `while` loop returns exactly the first accepted candidate, then points just past it; its squared distance to every avoided colour is at least `threshold ** 2` |
| Palette.Sample | cod.py:32-36 | `n` successful runs of the sampling loop give exactly `n` base colours and never move backwards in the stream |
| Palette.SampleStep | cod.py:32-36 | the first of `n` samples is the first accepted candidate, and the other `n - 1` are sampled right after it |
| Palette.SampleAvoids | cod.py:32-36 | every sampled base colour keeps squared distance at least `threshold ** 2` from every avoided colour |
| Palette.NothingToAvoid | cod.py:29-36 | with an empty or absent avoid list the first candidate is taken |
| Recolor.RecolorPixel | cod.py:44-53 | the five-way classification of one pixel; `PixelRules`, `OutputPalette`, `TransparencyPreserved` and the lemmas below state its properties |
| Recolor.PixelRules | cod.py:44-53 | the five rules with their precedence: alpha 0 gives (0,0,0,0) whatever the colour; black gives opaque black; white gives the opaque base colour; a skin tone is copied with its own alpha; anything else gives the opaque darkened base colour |
| Recolor.OutputPalette | cod.py:44-53 | every output pixel is transparent black, opaque black, the opaque base colour, the opaque darkened base colour or a copied skin tone |
| Recolor.WhiteShowsBase | cod.py:48-49 | a white template pixel shows the base colour, so different base colours give different outputs there |
| Recolor.TransparencyPreserved | cod.py:44-53 | an output pixel is transparent exactly when its source pixel is; every other output pixel except a copied skin tone is fully opaque |
| Recolor.BaseColorIrrelevant | cod.py:44-51 | transparent, black and skin-tone pixels come out the same for every base colour |
| Recolor.GrayIsDarkened | cod.py:52-53 | the gray (70, 70, 70) of the template guidelines falls to the catch-all rule and gets the darkened base colour, like every unrecognised colour |
| Recolor.DarkerNeverRetained | cod.py:50-53 | a darkened colour has red at most 178, so it is never a skin tone |
| Recolor.SkinToneOnlyFromTemplate | cod.py:35-53 | when the base colour keeps away from the skin tones with a nonzero threshold, a skin tone in the output is always a pixel copied from the template |
| Recolor.RecolorExample | cod.py:44-53 | one pixel per rule under base colour (10, 20, 30): a transparent pixel is cleared, black stays opaque black, white becomes (10, 20, 30), a half-transparent skin tone is copied with its alpha, and gray becomes (7, 14, 21). Under base colour (90, 170, 180), gray becomes (62, 118, 125) |
| Recolor.Image.constructor | cod.py:38-39 | `Image.new("RGBA", size)` has the requested size and every pixel transparent black |
| Recolor.RecolorLayer | cod.py:38-53 | the nested loops produce a new image of the template's size in which every pixel is the template's pixel at the same place put through the five rules |
| Recolor.Count | cod.py:32 | `range(variations)` runs `variations` times, and not at all for a count of zero or below |
| Recolor.NextVariation | cod.py:33-55 | one pass of the variation loop recolours the template with the next sampled base colour and leaves the remaining samples to the passes after it |
| Recolor.CreateColorVariations | cod.py:24-56 | returns exactly `variations` images. Image `k` is a new image with a new pixel array, the template's size, recoloured with the `k`-th base colour the sampling loop accepts. It returns the stream position after the last draw. The template is only read |
| Combine.Row | cod.py:143-145 | the composites of one base variation with each accessory variation, in order |
| Combine.Pairs | cod.py:143-145 | `product` order: one row per base variation, bases in order; `PairsLength`, `PairOf` and `PairAt` state its size and indexing |
| Combine.PairsLength | cod.py:142-145 | the combination holds `len(base_variations) * len(accessory_variations)` images |
| Combine.PairOf | cod.py:142-145 | every combined image is the composite of one ordered pair: the one at index `k` pairs base `k / m` with accessory `k % m`, where `m` is the number of accessory variations |
| Combine.PairAt | cod.py:142-145 | every ordered pair (base `i`, accessory `j`) has its composite in the combination, at index `i * m + j` |
| Combine.CombineVariations | cod.py:142-145 | the nested append loop yields exactly the pairs in `product` order, `len(bases) * len(accessories)` of them |
| Combine.AvoidColorsAreRetained | cod.py:137 | the caller's `avoid_colors` holds the same two colours as the engine's `retain_colors` (cod.py:28) |
| Combine.SkinTonesOnlyCopied | cod.py:33-53 | in every variation the generator makes with its default avoid list and threshold, a skin tone in the output is a pixel copied from the template |
| Combine.BlackAccepted | cod.py:137-138 | with the default avoid colours and threshold 50, a black candidate is accepted at once, so the sampling loop can end |
| Combine.GenerateCombinations | cod.py:137-145 | the two layers get the requested numbers of variations, drawn one after the other from one random stream. Every pair handed to the compositor has matching sizes, and the result is the product-ordered combination of `numBase * numAccessory` images (a count of zero or below giving no variations) |

## Left out

- The Streamlit page is not modelled: configuration, uploaders, sliders, the button, messages and the download button. It is front-end I/O.
- `save_images_to_zip` is not modelled. It is PNG and ZIP encoding done by foreign libraries.
- `resize_image` and `Image.open(...).convert("RGBA")` are not modelled. They are PIL decoding and resampling. The model starts from two decoded RGBA templates of one common size.
- `Image.alpha_composite` is a parameter of `GenerateCombinations`. Its pixel arithmetic is not modelled, and neither is the size of its result. The parameter is a function that cannot read the heap, so it sees the two images' sizes but not their pixel data; the pairing and count results do not depend on it.
- The timing code around the generation is not modelled.
- `RandomColor` reads from a finite sequence of draws, not from a random generator. The sequence is given as an input.
- `CreateColorVariations` requires the supplied stream to contain enough accepted candidates. If no candidate can ever pass, for example when the threshold makes every colour similar to an avoided one, the source's `while` loop runs forever. The model does not capture that.
- `GenerateCombinations` requires the same of the stream for both layers. The draws are consumed first by the base layer, then by the accessory layer.
- `darker_color` is modelled with its default factor 0.7 only, as the engine never passes another. Its binary64 product assumes the default rounding mode, round to nearest with ties to even.
- `CreateColorVariations` says each returned image has a new pixel array. It does not say that the arrays of two variations are distinct from each other.
- `avoid_colors=None` is modelled as the empty sequence, which is what `avoid_colors or []` turns it into.
- `similarity_threshold` is modelled as an integer: the engine's only callers leave it at its default, 50.
