/** The per-pixel image arithmetic of the offroad tile: a road mask derived
    from the rendered road raster (`vecttile_mask`) and multiplied into the
    heatmap's alpha channel (`adjust_alpha`). Values are exact reals. */
module Raster {
  import opened Results

  /** A pixel of the road renderer's 8-bit RGBA output, one byte per channel
      (the same byte type as file contents); alpha is channel 3. */
  datatype Rgba8 = Rgba8(r: bv8, g: bv8, b: bv8, a: bv8)

  /** A pixel of the decoded heatmap. PNG decoding yields channel values as
      reals (in [0, 1] for an 8-bit PNG); alpha is channel 3. */
  datatype Pixel = Pixel(r: real, g: real, b: real, a: real)

  /** Element-wise multiplication needs both grids to have the same shape. */
  datatype RasterError = DimensionMismatch

  /** Row for row, `p` and `q` have the same dimensions. */
  predicate SameShape<A, B>(p: seq<seq<A>>, q: seq<seq<B>>) {
    |p| == |q| && forall i :: 0 <= i < |p| ==> |p[i]| == |q[i]|
  }

  /** Mask weight of one rendered pixel: one minus its alpha scaled to [0, 1]. */
  function MaskValue(a: bv8): (m: real)
    ensures 0.0 <= m <= 1.0
    ensures m == 0.0 <==> a == 255
    ensures m == 1.0 <==> a == 0
    ensures a as int as real == 255.0 * (1.0 - m)
  {
    1.0 - (a as int as real) / 255.0
  }

  /** The road mask of `vecttile_mask`: 1 where no road was drawn (keep the
      heatmap), 0 where a road is fully opaque (hide the heatmap). */
  function VecttileMask(img: seq<seq<Rgba8>>): (m: seq<seq<real>>)
    ensures SameShape(m, img)
    ensures forall i, j :: 0 <= i < |m| && 0 <= j < |m[i]| ==> 0.0 <= m[i][j] <= 1.0
    ensures forall i, j :: 0 <= i < |m| && 0 <= j < |m[i]| ==> (m[i][j] == 0.0 <==> img[i][j].a == 255)
    ensures forall i, j :: 0 <= i < |m| && 0 <= j < |m[i]| ==> (m[i][j] == 1.0 <==> img[i][j].a == 0)
    ensures forall i, j :: 0 <= i < |m| && 0 <= j < |m[i]| ==> img[i][j].a as int as real == 255.0 * (1.0 - m[i][j])
  {
    seq(|img|, i requires 0 <= i < |img| =>
      seq(|img[i]|, j requires 0 <= j < |img[i]| => MaskValue(img[i][j].a)))
  }

  /** `adjust_alpha(rgba, mask)`: multiplies each pixel's alpha by its mask
      weight and keeps the colour channels. Operands whose shapes differ are
      the error case; numpy would broadcast a dimension of size 1, which the
      source's fixed 256 x 256 render never produces. */
  function AdjustAlpha(rgba: seq<seq<Pixel>>, mask: seq<seq<real>>): (r: Result<seq<seq<Pixel>>, RasterError>)
    ensures r.Ok? <==> SameShape(rgba, mask)
    ensures r.Ok? ==> SameShape(r.value, rgba)
    ensures r.Ok? ==> forall i, j :: 0 <= i < |rgba| && 0 <= j < |rgba[i]| ==>
              && r.value[i][j].r == rgba[i][j].r
              && r.value[i][j].g == rgba[i][j].g
              && r.value[i][j].b == rgba[i][j].b
              && r.value[i][j].a == rgba[i][j].a * mask[i][j]
  {
    if !SameShape(rgba, mask) then Err(DimensionMismatch)
    else
      Ok(seq(|rgba|, i requires 0 <= i < |rgba| =>
        seq(|rgba[i]|, j requires 0 <= j < |rgba[i]| => rgba[i][j].(a := rgba[i][j].a * mask[i][j]))))
  }

  predicate InUnitRange(m: seq<seq<real>>) {
    forall i, j :: 0 <= i < |m| && 0 <= j < |m[i]| ==> 0.0 <= m[i][j] <= 1.0
  }

  predicate AlphaInUnitRange(p: seq<seq<Pixel>>) {
    forall i, j :: 0 <= i < |p| && 0 <= j < |p[i]| ==> 0.0 <= p[i][j].a <= 1.0
  }

  lemma ScaleDown(a: real, m: real, p: real)
    requires 0.0 <= a && 0.0 <= m <= 1.0 && p == a * m
    ensures 0.0 <= p <= a
  {
    assert a * m <= a * 1.0;
  }

  /** With a mask in [0, 1], compositing only makes pixels more transparent:
      each new alpha lies between 0 and the old alpha, so a heatmap whose
      alpha is in [0, 1] keeps it there. */
  lemma AdjustAlphaOnlyFades(rgba: seq<seq<Pixel>>, mask: seq<seq<real>>)
    requires SameShape(rgba, mask) && InUnitRange(mask)
    requires forall i, j :: 0 <= i < |rgba| && 0 <= j < |rgba[i]| ==> 0.0 <= rgba[i][j].a
    ensures AdjustAlpha(rgba, mask).Ok?
    ensures forall i, j :: 0 <= i < |rgba| && 0 <= j < |rgba[i]| ==>
              0.0 <= AdjustAlpha(rgba, mask).value[i][j].a <= rgba[i][j].a
    ensures AlphaInUnitRange(rgba) ==> AlphaInUnitRange(AdjustAlpha(rgba, mask).value)
  {
    var out: seq<seq<Pixel>> := AdjustAlpha(rgba, mask).value;
    forall i, j | 0 <= i < |rgba| && 0 <= j < |rgba[i]|
      ensures 0.0 <= out[i][j].a <= rgba[i][j].a
    {
      ScaleDown(rgba[i][j].a, mask[i][j], out[i][j].a);
    }
  }

  /** The offroad image by definition, pixel by pixel and without an
      intermediate mask: colours kept, alpha scaled by one minus the road's
      alpha over 255. */
  function OffroadImage(heat: seq<seq<Pixel>>, road: seq<seq<Rgba8>>): seq<seq<Pixel>>
    requires SameShape(heat, road)
  {
    seq(|heat|, i requires 0 <= i < |heat| =>
      seq(|heat[i]|, j requires 0 <= j < |heat[i]| => Faded(heat[i][j], road[i][j].a)))
  }

  /** One heatmap pixel under a road pixel of alpha `a`. */
  function Faded(h: Pixel, a: bv8): Pixel {
    Pixel(h.r, h.g, h.b, h.a * (1.0 - (a as int as real) / 255.0))
  }

  lemma MaskedPixel(h: Pixel, a: bv8, m: real)
    requires m == MaskValue(a)
    ensures h.(a := h.a * m) == Faded(h, a)
    ensures a == 255 ==> h.a * m == 0.0
    ensures a == 0 ==> h.(a := h.a * m) == h
  {
  }

  lemma MaskedRow(hrow: seq<Pixel>, rrow: seq<Rgba8>, mrow: seq<real>, orow: seq<Pixel>, wrow: seq<Pixel>)
    requires |hrow| == |rrow| == |mrow| == |orow| == |wrow|
    requires forall j :: 0 <= j < |mrow| ==> mrow[j] == MaskValue(rrow[j].a)
    requires forall j :: 0 <= j < |orow| ==> orow[j] == hrow[j].(a := hrow[j].a * mrow[j])
    requires forall j :: 0 <= j < |wrow| ==> wrow[j] == Faded(hrow[j], rrow[j].a)
    ensures orow == wrow
    ensures forall j :: 0 <= j < |orow| ==>
              && (rrow[j].a == 255 ==> orow[j].a == 0.0)
              && (rrow[j].a == 0 ==> orow[j] == hrow[j])
  {
    forall j | 0 <= j < |orow|
      ensures orow[j] == wrow[j]
      ensures rrow[j].a == 255 ==> orow[j].a == 0.0
      ensures rrow[j].a == 0 ==> orow[j] == hrow[j]
    {
      MaskedPixel(hrow[j], rrow[j].a, mrow[j]);
    }
  }

  /** Row `i` of the masked heatmap is row `i` of the offroad image. */
  lemma HeatmapRow(heat: seq<seq<Pixel>>, road: seq<seq<Rgba8>>, i: int)
    requires SameShape(heat, road) && 0 <= i < |heat|
    ensures SameShape(heat, VecttileMask(road))
    ensures
      var out := AdjustAlpha(heat, VecttileMask(road)).value;
      && out[i] == OffroadImage(heat, road)[i]
      && forall j :: 0 <= j < |heat[i]| ==>
           && (road[i][j].a == 255 ==> out[i][j].a == 0.0)
           && (road[i][j].a == 0 ==> out[i][j] == heat[i][j])
  {
    var mask := VecttileMask(road);
    var out: seq<seq<Pixel>> := AdjustAlpha(heat, mask).value;
    var want := OffroadImage(heat, road);
    MaskRow(road, i);
    OffroadRow(heat, road, i);
    MaskedRow(heat[i], road[i], mask[i], out[i], want[i]);
  }

  lemma MaskRow(road: seq<seq<Rgba8>>, i: int)
    requires 0 <= i < |road|
    ensures |VecttileMask(road)[i]| == |road[i]|
    ensures forall j :: 0 <= j < |road[i]| ==> VecttileMask(road)[i][j] == MaskValue(road[i][j].a)
  {
  }

  lemma OffroadRow(heat: seq<seq<Pixel>>, road: seq<seq<Rgba8>>, i: int)
    requires SameShape(heat, road) && 0 <= i < |heat|
    ensures |OffroadImage(heat, road)[i]| == |heat[i]|
    ensures forall j :: 0 <= j < |heat[i]| ==> OffroadImage(heat, road)[i][j] == Faded(heat[i][j], road[i][j].a)
  {
  }

  /** Masking then adjusting alpha computes exactly the offroad image, and
      fails exactly when the heatmap and the road raster differ in shape.
      Where a road is fully opaque the result is fully transparent; where no
      road was drawn the heatmap's pixel is unchanged. */
  lemma MaskedHeatmap(heat: seq<seq<Pixel>>, road: seq<seq<Rgba8>>)
    ensures AdjustAlpha(heat, VecttileMask(road)).Ok? <==> SameShape(heat, road)
    ensures SameShape(heat, road) ==>
      var out := AdjustAlpha(heat, VecttileMask(road)).value;
      out == OffroadImage(heat, road) &&
      forall i, j :: 0 <= i < |heat| && 0 <= j < |heat[i]| ==>
        && (road[i][j].a == 255 ==> out[i][j].a == 0.0)
        && (road[i][j].a == 0 ==> out[i][j] == heat[i][j])
  {
    var mask := VecttileMask(road);
    assert SameShape(heat, mask) <==> SameShape(heat, road);
    if SameShape(heat, road) {
      var out: seq<seq<Pixel>> := AdjustAlpha(heat, mask).value;
      var want := OffroadImage(heat, road);
      forall i | 0 <= i < |heat|
        ensures out[i] == want[i]
        ensures forall j :: 0 <= j < |heat[i]| ==>
                  && (road[i][j].a == 255 ==> out[i][j].a == 0.0)
                  && (road[i][j].a == 0 ==> out[i][j] == heat[i][j])
      {
        HeatmapRow(heat, road, i);
      }
      assert |out| == |want|;
      assert out == want;
    }
  }
}
