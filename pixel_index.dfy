/**
 * _calculate_pixel_index: the byte offset a canvas cell (x, y) of a
 * d-by-d canvas reads its three channels from. NONE, MIRROR and MOSAIC
 * are exact integer formulas and are NOT reduced modulo the data
 * length (channel extraction absorbs offsets past the end). The five
 * floating-point styles take their float part from FloatArith and keep
 * their integer steps: ROTATE and KALEIDOSCOPE round down to a multiple
 * of three, SPIRAL, WAVES and FRACTAL reduce modulo the data length.
 */
module PixelIndex {
  import opened ArtTypes

  /** The byte offset of pixel number k: three bytes per pixel. */
  function Offset(k: nat): (r: nat)
    ensures r % BytesPerPixel == 0 && r / BytesPerPixel == k
  {
    k * BytesPerPixel
  }

  /** NONE: raster order, column-major in x. */
  function NoneIndex(x: nat, y: nat, d: nat): (r: nat)
    ensures r % BytesPerPixel == 0 && r / BytesPerPixel == x * d + y
  {
    Offset(x * d + y)
  }

  /** MIRROR: each coordinate folded onto the nearer half before raster order. */
  function MirrorIndex(x: nat, y: nat, d: nat): (r: nat)
    requires x < d && y < d
    ensures 2 * Min(x, d - 1 - x) < d && 2 * Min(y, d - 1 - y) < d
    ensures r == NoneIndex(Min(x, d - 1 - x), Min(y, d - 1 - y), d)
  {
    var mx: nat := Min(x, d - x - 1);
    var my: nat := Min(y, d - y - 1);
    Offset(mx * d + my)
  }

  /** MOSAIC: each coordinate snapped down to its 20-pixel tile before raster order. */
  function MosaicIndex(x: nat, y: nat, d: nat): (r: nat)
    ensures r == NoneIndex(x - x % MosaicTile, y - y % MosaicTile, d)
  {
    var tx := (x / MosaicTile) * MosaicTile;
    var ty := (y / MosaicTile) * MosaicTile;
    Offset(tx * d + ty)
  }

  /** Whether the offset of this style needs `% dataLength`, which raises on an empty buffer. */
  predicate RaisesZeroDivision(style: EffectStyle, dataLength: nat) {
    style.UsesFloat() && dataLength == 0
  }

  /** _calculate_pixel_index, one case per effect style. */
  function CalculatePixelIndex(fa: FloatArith, x: nat, y: nat, d: nat, style: EffectStyle, dataLength: nat): (r: Result<nat>)
    requires x < d && y < d
    ensures r.ZeroDivisionError? <==> RaisesZeroDivision(style, dataLength)
    ensures r.Ok? && !(style.Spiral? || style.Waves? || style.Fractal?) ==> r.value % BytesPerPixel == 0
    ensures r.Ok? && (style.Spiral? || style.Waves? || style.Fractal?) ==> r.value < dataLength
    ensures style.NoEffect? ==> r == Ok(NoneIndex(x, y, d))
    ensures style.Mirror? ==> r == Ok(MirrorIndex(x, y, d))
    ensures style.Mosaic? ==> r == Ok(MosaicIndex(x, y, d))
    ensures r.Ok? && (style.Rotate? || style.Kaleidoscope?) ==>
              var t := fa.angular(style, x, y, d, dataLength); r.value <= t < r.value + BytesPerPixel
  {
    match style
    case Mirror => Ok(MirrorIndex(x, y, d))
    case Rotate | Kaleidoscope =>
      if dataLength == 0 then ZeroDivisionError
      else
        var t := fa.angular(style, x, y, d, dataLength);
        Ok(t - t % BytesPerPixel)
    case Spiral | Waves | Fractal =>
      if dataLength == 0 then ZeroDivisionError
      else Ok(fa.scaled(style, x, y, d) % dataLength)
    case Mosaic => Ok(MosaicIndex(x, y, d))
    case NoEffect => Ok(NoneIndex(x, y, d))
  }

  lemma MulMonotone(a: nat, b: nat, d: nat)
    requires a <= b
    ensures a * d <= b * d
  {
  }

  /** Raster number x*d + y of an in-range cell lies below d*d. */
  lemma {:induction false} RasterBound(x: nat, y: nat, d: nat)
    requires x < d && y < d
    ensures x * d + y < d * d
  {
    MulMonotone(x + 1, d, d);
    assert x * d + y < (x + 1) * d;
  }

  /** Raster numbers follow the column order: an earlier column gives a smaller number. */
  lemma {:induction false} RasterOrder(x: nat, y: nat, x': nat, y': nat, d: nat)
    requires y < d
    ensures x < x' ==> x * d + y < x' * d + y'
  {
    if x < x' {
      MulMonotone(x + 1, x', d);
      assert x * d + y < (x + 1) * d;
    }
  }

  /** Distinct in-range cells have distinct raster numbers. */
  lemma {:induction false} RasterInjective(x: nat, y: nat, x': nat, y': nat, d: nat)
    requires x < d && y < d && x' < d && y' < d
    requires x * d + y == x' * d + y'
    ensures x == x' && y == y'
  {
    RasterOrder(x, y, x', y', d);
    RasterOrder(x', y', x, y, d);
  }

  /** NONE gives distinct cells distinct offsets, all multiples of three below 3*d*d. */
  lemma {:induction false} NoneIndexInjective(x: nat, y: nat, x': nat, y': nat, d: nat)
    requires x < d && y < d && x' < d && y' < d
    ensures NoneIndex(x, y, d) % 3 == 0 && NoneIndex(x, y, d) < 3 * d * d
    ensures NoneIndex(x, y, d) == NoneIndex(x', y', d) ==> x == x' && y == y'
  {
    RasterBound(x, y, d);
    assert 3 * d * d == 3 * (d * d);
    if NoneIndex(x, y, d) == NoneIndex(x', y', d) {
      RasterInjective(x, y, x', y', d);
    }
  }

  /** MIRROR reads the same offset for a cell and its reflections in both axes. */
  lemma MirrorSymmetric(x: nat, y: nat, d: nat)
    requires x < d && y < d
    ensures MirrorIndex(x, y, d) == MirrorIndex(d - 1 - x, y, d)
    ensures MirrorIndex(x, y, d) == MirrorIndex(x, d - 1 - y, d)
    ensures MirrorIndex(x, y, d) == MirrorIndex(d - 1 - x, d - 1 - y, d)
  {
  }

  /** MIRROR agrees with NONE on the top-left quadrant and never reads further than NONE. */
  lemma {:induction false} MirrorWithinNone(x: nat, y: nat, d: nat)
    requires x < d && y < d
    ensures MirrorIndex(x, y, d) <= NoneIndex(x, y, d)
    ensures 2 * x < d && 2 * y < d ==> MirrorIndex(x, y, d) == NoneIndex(x, y, d)
  {
    MulMonotone(Min(x, d - x - 1), x, d);
  }

  /** MOSAIC reads one offset for every cell of a 20-by-20 tile. */
  lemma MosaicTileConstant(x: nat, y: nat, x': nat, y': nat, d: nat)
    requires x / MosaicTile == x' / MosaicTile && y / MosaicTile == y' / MosaicTile
    ensures MosaicIndex(x, y, d) == MosaicIndex(x', y', d)
  {
  }

  /** MOSAIC never reads further than NONE, and agrees with it at each tile's corner. */
  lemma {:induction false} MosaicWithinNone(x: nat, y: nat, d: nat)
    ensures MosaicIndex(x, y, d) <= NoneIndex(x, y, d)
    ensures x % MosaicTile == 0 && y % MosaicTile == 0 ==> MosaicIndex(x, y, d) == NoneIndex(x, y, d)
  {
    MulMonotone((x / MosaicTile) * MosaicTile, x, d);
  }
}
