/** Pairing every base variation with every accessory variation (the
    `product` loop of cod.py), and the generation pipeline that feeds it.
    The compositing of two images is a parameter: the model keeps only how
    the pairs are formed and counted. */
module Combine {
  import opened Colors
  import opened Palette
  import opened Recolor
  import opened Arith

  /** The composites of one base variation `b` with each accessory, in order. */
  function Row<B, A, C>(b: B, accessories: seq<A>, composite: (B, A) -> C): seq<C>
  {
    seq(|accessories|, j requires 0 <= j < |accessories| => composite(b, accessories[j]))
  }

  /** `[composite(b, a) for b, a in product(bases, accessories)]`: rows of
      composites, one row per base variation, bases in order. */
  function Pairs<B, A, C>(bases: seq<B>, accessories: seq<A>, composite: (B, A) -> C): seq<C>
  {
    if bases == [] then []
    else Pairs(bases[..|bases| - 1], accessories, composite) + Row(bases[|bases| - 1], accessories, composite)
  }

  lemma DivModOfRow(m: nat, n: nat, j: nat)
    requires j < n
    ensures m * n + j < (m + 1) * n
    ensures (m * n + j) / n == m && (m * n + j) % n == j
  {
    assert (m + 1) * n == m * n + n;
    DivModUnique(m * n + j, n, m, j);
  }

  lemma BelowProduct(i: nat, m: nat, n: nat)
    requires i < m
    ensures (i + 1) * n <= m * n
  {
    MulLeftMono(i + 1, m, n);
  }

  /** The combination holds exactly |bases| * |accessories| images. */
  lemma {:induction false} PairsLength<B, A, C>(bases: seq<B>, accessories: seq<A>, composite: (B, A) -> C)
    ensures |Pairs(bases, accessories, composite)| == |bases| * |accessories|
  {
    if bases != [] {
      var m := |bases| - 1;
      PairsLength(bases[..m], accessories, composite);
      assert (m + 1) * |accessories| == m * |accessories| + |accessories|;
    }
  }

  /** Every image of the combination is a composite of one pair: the one at
      index k is the (k / |accessories|)-th base variation under the
      (k % |accessories|)-th accessory variation. */
  lemma {:induction false} PairOf<B, A, C>(bases: seq<B>, accessories: seq<A>, composite: (B, A) -> C, k: nat)
    requires k < |Pairs(bases, accessories, composite)|
    ensures |accessories| > 0 && k / |accessories| < |bases|
    ensures Pairs(bases, accessories, composite)[k]
            == composite(bases[k / |accessories|], accessories[k % |accessories|])
  {
    var n := |accessories|;
    var m := |bases| - 1;
    var init := bases[..m];
    var q := Pairs(init, accessories, composite);
    var row := Row(bases[m], accessories, composite);
    assert Pairs(bases, accessories, composite) == q + row;
    PairsLength(init, accessories, composite);
    if k < |q| {
      PairOf(init, accessories, composite, k);
      assert init[k / n] == bases[k / n];
    } else {
      DivModOfRow(m, n, k - |q|);
    }
  }

  /** Every ordered pair (i, j) of a base and an accessory variation has its
      composite in the combination, at index i * |accessories| + j. */
  lemma {:induction false} PairAt<B, A, C>(bases: seq<B>, accessories: seq<A>, composite: (B, A) -> C, i: nat, j: nat)
    requires i < |bases| && j < |accessories|
    ensures i * |accessories| + j < |Pairs(bases, accessories, composite)|
    ensures Pairs(bases, accessories, composite)[i * |accessories| + j] == composite(bases[i], accessories[j])
  {
    var n := |accessories|;
    var m := |bases| - 1;
    var init := bases[..m];
    var q := Pairs(init, accessories, composite);
    assert Pairs(bases, accessories, composite) == q + Row(bases[m], accessories, composite);
    PairsLength(init, accessories, composite);
    DivModOfRow(i, n, j);
    if i < m {
      BelowProduct(i, m, n);
      PairAt(init, accessories, composite, i, j);
    }
  }

  /** The combination loop: for each base variation in order, and within it
      each accessory variation in order, append their composite. */
  method CombineVariations<B, A, C>(bases: seq<B>, accessories: seq<A>, composite: (B, A) -> C)
    returns (combined: seq<C>)
    ensures combined == Pairs(bases, accessories, composite)
    ensures |combined| == |bases| * |accessories|
  {
    combined := [];
    for i := 0 to |bases|
      invariant combined == Pairs(bases[..i], accessories, composite)
    {
      for j := 0 to |accessories|
        invariant combined == Pairs(bases[..i], accessories, composite) + Row(bases[i], accessories[..j], composite)
      {
        combined := combined + [composite(bases[i], accessories[j])];
      }
      assert bases[..i + 1][..i] == bases[..i];
      assert accessories[..|accessories|] == accessories;
    }
    assert bases[..|bases|] == bases;
    PairsLength(bases, accessories, composite);
  }

  /** The colours that base colours must keep away from, `avoid_colors`. */
  const AvoidColors: seq<Color> := [Color(229, 170, 122), Color(207, 153, 112)]

  /** The default `similarity_threshold`. */
  const Threshold: int := 50

  /** With the defaults the sampling loop can end: black keeps well away
      from both skin tones, so a candidate drawn as three zeros is accepted
      at once. */
  lemma BlackAccepted(draws: seq<Channel>, at: nat)
    requires at + 3 <= |draws| && draws[at] == 0 && draws[at + 1] == 0 && draws[at + 2] == 0
    ensures FirstAccepted(draws, at, AvoidColors, Threshold) == Some(at)
  {
    assert RandomColor(draws, at) == Black;
    assert !Similar(Black, AvoidColors[0], Threshold) && !Similar(Black, AvoidColors[1], Threshold);
  }

  /** The colours the generator avoids are exactly the skin tones the
      recolouring copies through. */
  lemma AvoidColorsAreRetained()
    ensures AvoidColors == RetainColors
  {
  }

  /** In every variation the generator makes, a skin tone in the output is
      a pixel copied from the template: the base colour was drawn away from
      the avoided colours, which are the retained ones, with threshold 50. */
  lemma {:induction false} SkinTonesOnlyCopied(draws: seq<Channel>, at: nat, n: nat, k: nat, p: Pixel)
    requires Sample(draws, at, AvoidColors, Threshold, n).Some? && k < n
    requires RecolorPixel(p, Sample(draws, at, AvoidColors, Threshold, n).value.0[k]).Rgb() in RetainColors
    ensures RecolorPixel(p, Sample(draws, at, AvoidColors, Threshold, n).value.0[k]) == p
  {
    var base := Sample(draws, at, AvoidColors, Threshold, n).value.0[k];
    AvoidColorsAreRetained();
    forall i | 0 <= i < |RetainColors|
      ensures SquaredDistance(base, RetainColors[i]) >= Threshold * Threshold
    {
      SampleAvoids(draws, at, AvoidColors, Threshold, n, k, i);
    }
    SkinToneOnlyFromTemplate(p, base, Threshold);
  }

  /** One press of "Generate": recolour the base template, then the accessory
      template (both already decoded and resized to one common size), each
      with base colours drawn from the same random stream and kept away from
      the skin tones, then composite every accessory variation over every
      base variation. Every pair handed to the compositor has matching sizes. */
  method GenerateCombinations<T>(baseImg: Image, accessoryImg: Image, numBase: int, numAccessory: int,
                                 draws: seq<Channel>, composite: (Image, Image) -> T)
    returns (baseVariations: seq<Image>, accessoryVariations: seq<Image>, combined: seq<T>)
    requires baseImg.Valid() && accessoryImg.Valid()
    requires baseImg.width == accessoryImg.width && baseImg.height == accessoryImg.height
    requires Sample(draws, 0, AvoidColors, Threshold, Count(numBase)).Some?
    requires Sample(draws, Sample(draws, 0, AvoidColors, Threshold, Count(numBase)).value.1,
                    AvoidColors, Threshold, Count(numAccessory)).Some?
    ensures |baseVariations| == Count(numBase) && |accessoryVariations| == Count(numAccessory)
    ensures forall k :: 0 <= k < |baseVariations| ==>
              IsRecoloring(baseVariations[k], baseImg,
                           Sample(draws, 0, AvoidColors, Threshold, Count(numBase)).value.0[k])
    ensures forall k :: 0 <= k < |accessoryVariations| ==>
              IsRecoloring(accessoryVariations[k], accessoryImg,
                           Sample(draws, Sample(draws, 0, AvoidColors, Threshold, Count(numBase)).value.1,
                                  AvoidColors, Threshold, Count(numAccessory)).value.0[k])
    ensures forall i, j :: 0 <= i < |baseVariations| && 0 <= j < |accessoryVariations| ==>
              baseVariations[i].width == accessoryVariations[j].width &&
              baseVariations[i].height == accessoryVariations[j].height
    ensures combined == Pairs(baseVariations, accessoryVariations, composite)
    ensures |combined| == Count(numBase) * Count(numAccessory)
  {
    var next;
    baseVariations, next := CreateColorVariations(baseImg, numBase, AvoidColors, Threshold, draws, 0);
    accessoryVariations, next := CreateColorVariations(accessoryImg, numAccessory, AvoidColors, Threshold, draws, next);
    combined := CombineVariations(baseVariations, accessoryVariations, composite);
  }
}
