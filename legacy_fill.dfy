/**
 * The fill loop of the original script's generateImage (main.py): one
 * byte counter walks the buffer, three channels per cell, column after
 * column. The counter stops at the last byte instead of running past
 * it, so once it gets there every remaining channel repeats that byte.
 */
module LegacyFill {
  import opened ArtTypes
  import opened Dimensions
  import opened ScanOrder
  import PixelIndex
  import Canvas

  /** The value of the counter at the k-th channel read (counting from 0): it saturates at the last byte. */
  function CounterAt(dataLength: nat, k: nat): (c: nat)
    requires dataLength > 0
    ensures c < dataLength
    ensures c == k || c == dataLength - 1
    ensures c <= k
  {
    Min(k, dataLength - 1)
  }

  /** The k-th channel read: the byte under the counter. */
  function ReadAt(data: seq<byte>, k: nat): (b: byte)
    requires |data| > 0
    ensures k < |data| ==> b == data[k]
    ensures k >= |data| - 1 ==> b == data[|data| - 1]
  {
    data[CounterAt(|data|, k)]
  }

  /**
   * The pixel the loop writes as its pixel number n (cell (x, y) is
   * number x*side + y): channel reads 3n, 3n + 1 and 3n + 2, alpha 255.
   */
  function LegacyPixel(data: seq<byte>, n: nat): (p: Rgba)
    requires |data| > 0
    ensures p.a == DefaultAlpha
    ensures 3 * n + 2 < |data| ==> p == Rgba(data[3 * n], data[3 * n + 1], data[3 * n + 2], DefaultAlpha)
    ensures 3 * n >= |data| - 1 ==> p.r == p.g == p.b == data[|data| - 1]
  {
    Rgba(ReadAt(data, 3 * n), ReadAt(data, 3 * n + 1), ReadAt(data, 3 * n + 2), DefaultAlpha)
  }

  /** The pixel the loop writes at cell (x, y) of a canvas with the given side. */
  function LegacyCellPixel(data: seq<byte>, side: nat, x: nat, y: nat): Rgba
    requires |data| > 0
  {
    LegacyPixel(data, x * side + y)
  }

  /** The counter's value at each of the first |counters| reads. */
  ghost predicate CounterTrace(dataLength: nat, counters: seq<nat>)
    requires dataLength > 0
  {
    forall k | 0 <= k < |counters| :: counters[k] == CounterAt(dataLength, k)
  }

  /**
   * The channel loop of generateImage (`for i in range(3)`): three reads
   * under the counter, which advances after each read unless it already
   * sits on the last byte. `counters` records the counter at every read
   * made so far, and is extended by these three.
   */
  method ReadChannels(data: seq<byte>, pixelCount: nat, ghost counters: seq<nat>)
    returns (rgbValue: seq<byte>, pixelCount': nat, ghost counters': seq<nat>)
    requires |data| > 0 && CounterTrace(|data|, counters) && pixelCount == CounterAt(|data|, |counters|)
    ensures var done := |counters|;
            rgbValue == [ReadAt(data, done), ReadAt(data, done + 1), ReadAt(data, done + 2)]
    ensures |counters'| == |counters| + 3 && CounterTrace(|data|, counters')
    ensures pixelCount' == CounterAt(|data|, |counters'|)
  {
    ghost var done := |counters|;
    rgbValue, pixelCount', counters' := [0, 0, 0], pixelCount, counters;
    for i := 0 to 3
      invariant |rgbValue| == 3 && |counters'| == done + i
      invariant CounterTrace(|data|, counters')
      invariant pixelCount' == CounterAt(|data|, done + i)
      invariant forall c | 0 <= c < i :: rgbValue[c] == ReadAt(data, done + c)
    {
      rgbValue := rgbValue[i := data[pixelCount']];
      counters' := counters' + [pixelCount'];
      if pixelCount' < |data| - 1 {
        pixelCount' := pixelCount' + 1;
      }
    }
  }

  /**
   * The pixel loop of generateImage. Besides the image it returns, as
   * ghost traces, the cells in the order they are written and the value
   * of the counter at each channel read.
   */
  method GenerateImage(data: seq<byte>) returns (img: array2<Rgba>, ghost writes: seq<Cell>, ghost counters: seq<nat>)
    ensures fresh(img)
    ensures img.Length0 == CalculateDimensions(|data|) && img.Length1 == img.Length0
    ensures img.Length0 > 0 ==> |data| > 0
    ensures forall x, y | 0 <= x < img.Length0 && 0 <= y < img.Length1 ::
              |data| > 0 && img[x, y] == LegacyCellPixel(data, img.Length0, x, y)
    ensures writes == ColumnMajor(img.Length0, img.Length0)
    ensures |counters| == 3 * |writes|
    ensures forall k | 0 <= k < |counters| :: |data| > 0 && counters[k] == CounterAt(|data|, k)
  {
    var side := CalculateDimensions(|data|);
    EmptyIffZeroSide(|data|);
    img := new Rgba[side, side]((_, _) => Black);
    writes, counters := [], [];
    var pixelCount := 0;
    for x := 0 to side
      invariant |writes| == x * side && |counters| == 3 * |writes|
      invariant writes == ColumnMajor(x, side)
      invariant side > 0 ==> CounterTrace(|data|, counters) && pixelCount == CounterAt(|data|, |counters|)
      invariant forall i, j | 0 <= i < x && 0 <= j < side :: img[i, j] == LegacyCellPixel(data, side, i, j)
    {
      ghost var columnStart := |writes|;
      for y := 0 to side
        invariant |writes| == columnStart + y && |counters| == 3 * |writes|
        invariant writes == ColumnMajor(x, side) + ColumnOrder(x, y)
        invariant CounterTrace(|data|, counters) && pixelCount == CounterAt(|data|, |counters|)
        invariant forall i, j | 0 <= i < side && 0 <= j < side && (i < x || (i == x && j < y)) ::
                    img[i, j] == LegacyCellPixel(data, side, i, j)
      {
        var rgbValue;
        rgbValue, pixelCount, counters := ReadChannels(data, pixelCount, counters);
        var pixel := Rgba(rgbValue[0], rgbValue[1], rgbValue[2], DefaultAlpha);
        assert pixel == LegacyCellPixel(data, side, x, y);
        label before:
        img[x, y] := pixel;
        forall i, j | 0 <= i < side && 0 <= j < side && (i < x || (i == x && j <= y))
          ensures img[i, j] == LegacyCellPixel(data, side, i, j)
        {
          if i != x || j != y {
            assert img[i, j] == old@before(img[i, j]);
          }
        }
        ColumnOrderExtend(x, y);
        writes := writes + [Cell(x, y)];
      }
      assert x * side + side == (x + 1) * side;
    }
  }

  /** The counter only moves forward and never leaves the buffer. */
  lemma CounterMonotone(dataLength: nat, k: nat, k': nat)
    requires dataLength > 0 && k <= k'
    ensures CounterAt(dataLength, k) <= CounterAt(dataLength, k') < dataLength
  {
  }

  /** Once the counter has reached the last byte, every later read repeats it. */
  lemma SaturatesAtLastByte(data: seq<byte>, k: nat)
    requires |data| > 0 && k >= |data| - 1
    ensures ReadAt(data, k) == data[|data| - 1]
  {
  }

  /**
   * Where all three channels of a cell lie inside the buffer, the loop
   * writes the colour the renderer produces with NONE and NORMAL.
   */
  lemma {:induction false} AgreesWithRendererInside(fa: FloatArith, data: seq<byte>, side: nat, x: nat, y: nat)
    requires x < side && y < side && 3 * (x * side + y) + 2 < |data|
    ensures LegacyPixel(data, x * side + y) == Canvas.Pixel(fa, data, side, NoEffect, Normal, x, y)
  {
    assert PixelIndex.NoneIndex(x, y, side) == 3 * (x * side + y);
  }

  /**
   * Where a cell starts past the end of a non-empty buffer, the loop
   * repeats the last byte in all three channels while the renderer
   * shows black.
   */
  lemma {:induction false} DiffersFromRendererPastEnd(fa: FloatArith, data: seq<byte>, side: nat, x: nat, y: nat)
    requires |data| > 0 && x < side && y < side && 3 * (x * side + y) >= |data|
    ensures var last := data[|data| - 1];
            LegacyPixel(data, x * side + y) == Rgba(last, last, last, DefaultAlpha)
    ensures Canvas.Pixel(fa, data, side, NoEffect, Normal, x, y) == Black
  {
    assert PixelIndex.NoneIndex(x, y, side) == 3 * (x * side + y);
  }
}
