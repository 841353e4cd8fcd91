/** Colours and pixels of the recolouring engine, and the three helpers
    `random_color`, `darker_color` and `color_similarity` of cod.py. */
module Colors {
  import opened Binary64

  /** One 8-bit colour channel, as an RGBA image stores it. */
  type Channel = c: int | 0 <= c <= 255

  /** An RGB triple. */
  datatype Color = Color(r: Channel, g: Channel, b: Channel)

  /** One RGBA pixel of an image. */
  datatype Pixel = Pixel(r: Channel, g: Channel, b: Channel, a: Channel) {
    /** The colour part of the pixel, `pixel[:3]`. */
    function Rgb(): Color { Color(r, g, b) }
  }

  /** The pixel `color + (alpha,)`. */
  function WithAlpha(c: Color, alpha: Channel): (p: Pixel)
    ensures p.Rgb() == c && p.a == alpha
  {
    Pixel(c.r, c.g, c.b, alpha)
  }

  /** `random_color()`: three successive draws of `random.randint(0, 255)`
      taken from the stream `draws` at position `at`, red first. */
  function RandomColor(draws: seq<Channel>, at: nat): Color
    requires at + 3 <= |draws|
  {
    Color(draws[at], draws[at + 1], draws[at + 2])
  }

  /** Every colour of the RGB cube is drawn by some three draws: by its own
      channels, in the order red, green, blue. */
  lemma EveryColorDrawable(c: Color, draws: seq<Channel>, at: nat)
    requires at + 3 <= |draws| && draws[at..at + 3] == [c.r, c.g, c.b]
    ensures RandomColor(draws, at) == c
  {
    assert draws[at..at + 3][1] == draws[at + 1];
    assert draws[at..at + 3][2] == draws[at + 2];
  }

  /** `int(c * 0.7)` for one channel, in binary64: the real-number floor
      of `c * 0.7`, except at 90, 170 and 180, where the double product
      rounds to just below the integer and truncates one lower. */
  function Darken(c: Channel): (d: Channel)
    ensures c != 90 && c != 170 && c != 180 ==> d == (c as real * 0.7).Floor
    ensures c == 90 || c == 170 || c == 180 ==> d == (c as real * 0.7).Floor - 1
    ensures d <= c && (c > 0 ==> d < c)
  {
    c * 7 / 10 - (if c == 90 || c == 170 || c == 180 then 1 else 0)
  }

  /** `Darken` is the program's binary64 computation for every channel. */
  lemma DarkenIsBinary64(c: Channel)
    ensures Darken(c) == MulPoint7Trunc(c)
  {
    if c == 0 {
      assert RoundToPrecision(0) == 0;
    } else if c % 10 != 0 {
      TruncOffTen(c);
    } else {
      TruncTens(c / 10);
    }
  }

  /** `darker_color(color)` with its default factor 0.7: every channel
      darkened as `Darken` does, so within one of the real floor of
      `channel * 0.7` and never above the original channel. */
  function DarkerColor(c: Color): (d: Color)
    ensures (c.r as real * 0.7).Floor - 1 <= d.r <= (c.r as real * 0.7).Floor
    ensures (c.g as real * 0.7).Floor - 1 <= d.g <= (c.g as real * 0.7).Floor
    ensures (c.b as real * 0.7).Floor - 1 <= d.b <= (c.b as real * 0.7).Floor
    ensures d.r <= c.r && d.g <= c.g && d.b <= c.b
  {
    Color(Darken(c.r), Darken(c.g), Darken(c.b))
  }

  /** `DarkerColor` is the program's binary64 computation on every channel. */
  lemma DarkerColorIsBinary64(c: Color)
    ensures DarkerColor(c).r == MulPoint7Trunc(c.r)
    ensures DarkerColor(c).g == MulPoint7Trunc(c.g)
    ensures DarkerColor(c).b == MulPoint7Trunc(c.b)
  {
    DarkenIsBinary64(c.r);
    DarkenIsBinary64(c.g);
    DarkenIsBinary64(c.b);
  }

  lemma SquareNonNegative(x: int)
    ensures x * x >= 0
  {
  }

  /** The sum of the squared channel differences of two colours. */
  function SquaredDistance(c1: Color, c2: Color): (d: nat)
    ensures d == 0 <==> c1 == c2
  {
    var dr, dg, db := c1.r - c2.r, c1.g - c2.g, c1.b - c2.b;
    SquareNonNegative(dr);
    SquareNonNegative(dg);
    SquareNonNegative(db);
    dr * dr + dg * dg + db * db
  }

  /** `color_similarity(c1, c2, threshold)`: the squared distance lies below
      `threshold ** 2`. */
  predicate Similar(c1: Color, c2: Color, threshold: int)
  {
    SquaredDistance(c1, c2) < threshold * threshold
  }

  /** Similarity does not depend on the order of its two colours. */
  lemma SimilarSymmetric(c1: Color, c2: Color, threshold: int)
    ensures Similar(c1, c2, threshold) <==> Similar(c2, c1, threshold)
  {
    assert SquaredDistance(c1, c2) == SquaredDistance(c2, c1);
  }

  /** A colour is similar to itself exactly when the threshold is not zero:
      the exclusion zone around a colour contains the colour itself. */
  lemma SimilarToItself(c: Color, threshold: int)
    ensures Similar(c, c, threshold) <==> threshold != 0
  {
    assert SquaredDistance(c, c) == 0;
    if threshold != 0 {
      assert threshold * threshold > 0;
    }
  }
}
