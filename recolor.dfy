/** The recolouring of one layer (`create_color_variations` in cod.py): a
    five-way classification of every pixel of a template, written into a
    freshly allocated image, once per variation. */
module Recolor {
  import opened Colors
  import opened Palette

  /** The skin tones copied through unchanged, `retain_colors`. */
  const RetainColors: seq<Color> := [Color(229, 170, 122), Color(207, 153, 112)]

  const Black: Color := Color(0, 0, 0)
  const White: Color := Color(255, 255, 255)
  /** The "gray" of the template guidelines, which has no rule of its own. */
  const Gray: Color := Color(70, 70, 70)

  /** The output pixel for source pixel `p` in the variation whose base
      colour is `base`. The rules are tried in order: transparent, black,
      white, retained, anything else. */
  function RecolorPixel(p: Pixel, base: Color): Pixel
  {
    if p.a == 0 then Pixel(0, 0, 0, 0)
    else if p.Rgb() == Black then Pixel(0, 0, 0, 255)
    else if p.Rgb() == White then WithAlpha(base, 255)
    else if p.Rgb() in RetainColors then p
    else WithAlpha(DarkerColor(base), 255)
  }

  /** The five rules, each under the guard that its earlier rules fail: a
      transparent pixel is cleared whatever its colour, and no rule applies
      to a pixel an earlier rule has claimed. */
  lemma PixelRules(p: Pixel, base: Color)
    ensures p.a == 0 ==> RecolorPixel(p, base) == Pixel(0, 0, 0, 0)
    ensures p.a != 0 && p.Rgb() == Black ==> RecolorPixel(p, base) == Pixel(0, 0, 0, 255)
    ensures p.a != 0 && p.Rgb() == White ==> RecolorPixel(p, base) == WithAlpha(base, 255)
    ensures p.a != 0 && p.Rgb() in RetainColors ==> RecolorPixel(p, base) == p
    ensures p.a != 0 && p.Rgb() != Black && p.Rgb() != White && p.Rgb() !in RetainColors ==>
              RecolorPixel(p, base) == WithAlpha(DarkerColor(base), 255)
  {
  }

  /** Every output pixel is transparent black, opaque black, the opaque base
      colour, the opaque darkened base colour, or a skin tone copied from
      the template: a variation draws on at most four colours besides the
      skin tones. */
  lemma OutputPalette(p: Pixel, base: Color)
    ensures var q := RecolorPixel(p, base);
            || q == Pixel(0, 0, 0, 0)
            || q == Pixel(0, 0, 0, 255)
            || q == WithAlpha(base, 255)
            || q == WithAlpha(DarkerColor(base), 255)
            || (q == p && p.Rgb() in RetainColors)
  {
  }

  /** An opaque white pixel of the template shows the base colour of the
      variation, so two variations with different base colours differ
      wherever the template is white. */
  lemma WhiteShowsBase(p: Pixel, base1: Color, base2: Color)
    requires p.a != 0 && p.Rgb() == White
    ensures RecolorPixel(p, base1) == WithAlpha(base1, 255)
    ensures base1 != base2 ==> RecolorPixel(p, base1) != RecolorPixel(p, base2)
  {
  }

  /** An output pixel is transparent exactly when its source pixel is;
      every other output pixel is opaque unless it is a copied skin tone. */
  lemma TransparencyPreserved(p: Pixel, base: Color)
    ensures RecolorPixel(p, base).a == 0 <==> p.a == 0
    ensures p.a != 0 && p.Rgb() !in RetainColors ==> RecolorPixel(p, base).a == 255
  {
  }

  /** Transparent, black and skin-tone pixels come out the same whatever
      the base colour of the variation. */
  lemma BaseColorIrrelevant(p: Pixel, base1: Color, base2: Color)
    requires p.a == 0 || p.Rgb() == Black || p.Rgb() in RetainColors
    ensures RecolorPixel(p, base1) == RecolorPixel(p, base2)
  {
  }

  /** The documented gray (70, 70, 70) gets the darkened base colour: the
      catch-all rule, which every unrecognised colour shares. */
  lemma GrayIsDarkened(p: Pixel, base: Color)
    requires p.a != 0 && p.Rgb() == Gray
    ensures RecolorPixel(p, base) == WithAlpha(DarkerColor(base), 255)
    ensures forall c: Color :: c != Black && c != White && c !in RetainColors ==>
              RecolorPixel(Pixel(c.r, c.g, c.b, p.a), base) == RecolorPixel(p, base)
  {
  }

  /** No darkened colour is a skin tone: every channel of a darkened colour
      is at most 178, below the red channel of both retained colours. */
  lemma DarkerNeverRetained(c: Color)
    ensures DarkerColor(c).r <= 178
    ensures DarkerColor(c) !in RetainColors
  {
  }

  /** When the base colour was drawn avoiding the skin tones with a nonzero
      threshold (as the generator does), a skin tone in the output can only
      be a pixel copied from the template. */
  lemma SkinToneOnlyFromTemplate(p: Pixel, base: Color, threshold: int)
    requires threshold != 0
    requires forall i :: 0 <= i < |RetainColors| ==> SquaredDistance(base, RetainColors[i]) >= threshold * threshold
    requires RecolorPixel(p, base).Rgb() in RetainColors
    ensures RecolorPixel(p, base) == p
  {
    assert threshold * threshold > 0;
    DarkerNeverRetained(base);
  }

  /** Five template pixels, one per rule, recoloured with base colour
      (10, 20, 30); and the catch-all rule under base colour (90, 170, 180),
      whose three channels are the ones where the double product
      `c * 0.7` truncates one below the real floor. */
  lemma RecolorExample()
    ensures RecolorPixel(Pixel(12, 34, 56, 0), Color(10, 20, 30)) == Pixel(0, 0, 0, 0)
    ensures RecolorPixel(Pixel(0, 0, 0, 255), Color(10, 20, 30)) == Pixel(0, 0, 0, 255)
    ensures RecolorPixel(Pixel(255, 255, 255, 255), Color(10, 20, 30)) == Pixel(10, 20, 30, 255)
    ensures RecolorPixel(Pixel(229, 170, 122, 128), Color(10, 20, 30)) == Pixel(229, 170, 122, 128)
    ensures RecolorPixel(Pixel(70, 70, 70, 255), Color(10, 20, 30)) == Pixel(7, 14, 21, 255)
    ensures RecolorPixel(Pixel(70, 70, 70, 255), Color(90, 170, 180)) == Pixel(62, 118, 125, 255)
  {
  }

  /** An RGBA image: `size` is (width, height) and `pixels[x, y]` is the
      pixel at column x, row y. */
  class Image {
    const width: nat
    const height: nat
    const pixels: array2<Pixel>

    ghost predicate Valid()
    {
      pixels.Length0 == width && pixels.Length1 == height
    }

    /** `Image.new("RGBA", (width, height))`: every pixel transparent black. */
    constructor (width: nat, height: nat)
      ensures Valid() && this.width == width && this.height == height
      ensures fresh(pixels)
      ensures forall x, y :: 0 <= x < width && 0 <= y < height ==> pixels[x, y] == Pixel(0, 0, 0, 0)
    {
      this.width := width;
      this.height := height;
      pixels := new Pixel[width, height]((x, y) => Pixel(0, 0, 0, 0));
    }
  }

  /** `out` is `img` recoloured with `base`: the same size, and every pixel
      the template's pixel at the same place put through `RecolorPixel`. */
  ghost predicate IsRecoloring(out: Image, img: Image, base: Color)
    reads out.pixels, img.pixels
  {
    && out.Valid() && img.Valid()
    && out.width == img.width && out.height == img.height
    && forall x, y :: 0 <= x < img.width && 0 <= y < img.height ==>
         out.pixels[x, y] == RecolorPixel(img.pixels[x, y], base)
  }

  /** One variation of a layer: a new image of the template's size whose
      every pixel is the template's pixel recoloured with `base`. The
      template is only read. */
  method RecolorLayer(img: Image, base: Color) returns (out: Image)
    requires img.Valid()
    ensures fresh(out) && fresh(out.pixels)
    ensures IsRecoloring(out, img, base)
  {
    out := new Image(img.width, img.height);
    for y := 0 to img.height
      invariant forall x', y' :: 0 <= x' < img.width && 0 <= y' < y ==>
                  out.pixels[x', y'] == RecolorPixel(img.pixels[x', y'], base)
    {
      for x := 0 to img.width
        invariant forall x', y' :: 0 <= x' < img.width && 0 <= y' < y ==>
                    out.pixels[x', y'] == RecolorPixel(img.pixels[x', y'], base)
        invariant forall x' :: 0 <= x' < x ==> out.pixels[x', y] == RecolorPixel(img.pixels[x', y], base)
      {
        out.pixels[x, y] := RecolorPixel(img.pixels[x, y], base);
      }
    }
  }

  /** The number of passes of `for _ in range(variations)`. */
  function Count(variations: int): (n: nat)
    ensures variations <= 0 ==> n == 0
    ensures variations >= 0 ==> n == variations
  {
    if variations < 0 then 0 else variations
  }

  /** One pass of the variation loop: run the sampling loop for the next
      base colour, then recolour the template with it. Of the `n` samples
      still due from `at`, the pass consumes the first and leaves the rest
      due from `next`. */
  method NextVariation(img: Image, avoid: seq<Color>, threshold: int, draws: seq<Channel>, at: nat,
                       n: nat, ghost bases: seq<Color>, ghost end: nat)
    returns (out: Image, next: nat)
    requires img.Valid()
    requires n > 0 && Sample(draws, at, avoid, threshold, n) == Some((bases, end))
    ensures fresh(out) && fresh(out.pixels)
    ensures IsRecoloring(out, img, bases[0])
    ensures Sample(draws, next, avoid, threshold, n - 1) == Some((bases[1..], end))
  {
    SampleStep(draws, at, avoid, threshold, n, bases, end);
    var base;
    base, next := PickBaseColor(draws, at, avoid, threshold);
    out := RecolorLayer(img, base);
  }

  /** `create_color_variations(img, variations, avoid, threshold)`: one new
      image per variation, each recoloured with the next base colour the
      sampling loop accepts from the random stream `draws` (from `at` on);
      also returns the position of the next unused draw. */
  method CreateColorVariations(img: Image, variations: int, avoid: seq<Color>, threshold: int,
                               draws: seq<Channel>, at: nat)
    returns (images: seq<Image>, next: nat)
    requires img.Valid()
    requires Sample(draws, at, avoid, threshold, Count(variations)).Some?
    ensures |images| == Count(variations)
    ensures next == Sample(draws, at, avoid, threshold, Count(variations)).value.1
    ensures forall k :: 0 <= k < |images| ==> fresh(images[k]) && fresh(images[k].pixels)
    ensures forall k :: 0 <= k < |images| ==>
              IsRecoloring(images[k], img, Sample(draws, at, avoid, threshold, Count(variations)).value.0[k])
  {
    var n := Count(variations);
    ghost var all := Sample(draws, at, avoid, threshold, n).value;
    images := [];
    next := at;
    for i := 0 to n
      invariant |images| == i
      invariant Sample(draws, next, avoid, threshold, n - i) == Some((all.0[i..], all.1))
      invariant forall k :: 0 <= k < i ==> fresh(images[k]) && fresh(images[k].pixels)
      invariant forall k :: 0 <= k < i ==> IsRecoloring(images[k], img, all.0[k])
    {
      var out;
      out, next := NextVariation(img, avoid, threshold, draws, next, n - i, all.0[i..], all.1);
      assert all.0[i..][1..] == all.0[i + 1..];
      images := images + [out];
    }
  }
}
