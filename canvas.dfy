/**
 * get_rgb_values and create_image: read three channels at the offset the
 * effect style chooses, colour them, and write each cell of a fresh
 * d-by-d RGBA canvas with full opacity, column after column.
 */
module Canvas {
  import opened ArtTypes
  import opened ColorModes
  import opened PixelIndex
  import opened ScanOrder
  import opened Dimensions

  /** One channel read: the byte at offset i, or 0 when i is past the end of the buffer. */
  function ChannelAt(data: seq<byte>, i: nat): (c: byte)
    ensures i < |data| ==> c == data[i]
    ensures i >= |data| ==> c == 0
  {
    if i < |data| then data[i] else 0
  }

  /**
   * get_rgb_values: the channels at start, start + 1 and start + 2, each
   * defaulting to 0 on its own, then the colour mode. Never fails.
   */
  function GetRgbValues(fa: FloatArith, data: seq<byte>, start: nat, mode: ColorMode): (c: Rgb)
    ensures mode.Normal? && start + 2 < |data| ==> c == Rgb(data[start], data[start + 1], data[start + 2])
    ensures mode.Normal? && start < |data| <= start + 2 ==> c.r == data[start] && c.b == 0
    ensures mode.Normal? && start + 1 < |data| ==> c.g == data[start + 1]
    ensures mode.Normal? && start + 1 >= |data| ==> c.g == 0
    ensures mode.Normal? && |data| <= start ==> c == Rgb(0, 0, 0)
  {
    ApplyColorMode(fa, ChannelAt(data, start), ChannelAt(data, start + 1), ChannelAt(data, start + 2), mode)
  }

  /** The pixel create_image puts at (x, y): the coloured channels at the style's offset, alpha 255. */
  function Pixel(fa: FloatArith, data: seq<byte>, d: nat, style: EffectStyle, mode: ColorMode, x: nat, y: nat): (p: Rgba)
    requires x < d && y < d && !RaisesZeroDivision(style, |data|)
    ensures p.a == DefaultAlpha
  {
    var c := GetRgbValues(fa, data, CalculatePixelIndex(fa, x, y, d, style, |data|).value, mode);
    Rgba(c.r, c.g, c.b, DefaultAlpha)
  }

  /**
   * create_image. A float style over an empty buffer raises
   * ZeroDivisionError at the first cell, before anything is written;
   * otherwise every cell is written once, in column-major order, with
   * its Pixel.
   */
  method CreateImage(fa: FloatArith, data: seq<byte>, d: nat, style: EffectStyle, mode: ColorMode)
    returns (result: Result<array2<Rgba>>, ghost writes: seq<Cell>)
    ensures result.ZeroDivisionError? <==> d > 0 && RaisesZeroDivision(style, |data|)
    ensures result.ZeroDivisionError? ==> writes == []
    ensures result.Ok? ==> fresh(result.value)
    ensures result.Ok? ==> result.value.Length0 == d && result.value.Length1 == d
    ensures result.Ok? ==> writes == ColumnMajor(d, d)
    ensures result.Ok? ==> forall x, y | 0 <= x < d && 0 <= y < d ::
              result.value[x, y] == Pixel(fa, data, d, style, mode, x, y)
  {
    var img := new Rgba[d, d]((_, _) => Black);
    writes := [];
    for x := 0 to d
      invariant x > 0 ==> !RaisesZeroDivision(style, |data|)
      invariant writes == ColumnMajor(x, d)
      invariant forall i, j | 0 <= i < x && 0 <= j < d :: img[i, j] == Pixel(fa, data, d, style, mode, i, j)
    {
      for y := 0 to d
        invariant x > 0 || y > 0 ==> !RaisesZeroDivision(style, |data|)
        invariant writes == ColumnMajor(x, d) + ColumnOrder(x, y)
        invariant forall i, j | 0 <= i < x && 0 <= j < d :: img[i, j] == Pixel(fa, data, d, style, mode, i, j)
        invariant forall j | 0 <= j < y :: img[x, j] == Pixel(fa, data, d, style, mode, x, j)
      {
        var index := CalculatePixelIndex(fa, x, y, d, style, |data|);
        if index.ZeroDivisionError? {
          return ZeroDivisionError, writes;
        }
        var rgb := GetRgbValues(fa, data, index.value, mode);
        var pixel := Rgba(rgb.r, rgb.g, rgb.b, DefaultAlpha);
        assert pixel == Pixel(fa, data, d, style, mode, x, y);
        label before:
        img[x, y] := pixel;
        forall i, j | 0 <= i < d && 0 <= j < d && (i != x || j != y)
          ensures img[i, j] == old@before(img[i, j])
        {
        }
        ColumnOrderExtend(x, y);
        writes := writes + [Cell(x, y)];
      }
    }
    result := Ok(img);
  }

  /** Channel i of a pixel: 0 red, 1 green, 2 blue. */
  function Channel(p: Rgba, i: nat): nat
    requires i < 3
  {
    if i == 0 then p.r else if i == 1 then p.g else p.b
  }

  /** Pixel number p of a d-by-d canvas sits at cell (p / d, p % d). */
  lemma {:induction false} CellOfPixelNumber(p: nat, d: nat)
    requires p < d * d
    ensures d > 0 && p / d < d && p % d < d && (p / d) * d + p % d == p
  {
    var x := p / d;
    if x >= d {
      MulMonotone(d, x, d);
    }
  }

  /** Byte j of the buffer is channel j % 3 of cell ((j / 3) / d, (j / 3) % d) under NONE and NORMAL. */
  predicate ShowsByte(fa: FloatArith, data: seq<byte>, d: nat, j: nat)
    requires j < |data|
  {
    var p := j / 3;
    d > 0 && p / d < d && p % d < d &&
    Channel(Pixel(fa, data, d, NoEffect, Normal, p / d, p % d), j % 3) == data[j]
  }

  /** A side that holds the buffer (3*d*d >= |data|) makes NONE and NORMAL show every byte. */
  lemma {:induction false} NoneShowsEveryByte(fa: FloatArith, data: seq<byte>, d: nat, j: nat)
    requires j < |data| && 3 * d * d >= |data|
    ensures ShowsByte(fa, data, d, j)
  {
    var p := j / 3;
    assert 3 * d * d == 3 * (d * d);
    CellOfPixelNumber(p, d);
    assert NoneIndex(p / d, p % d, d) == 3 * p;
    NormalChannelRead(fa, data, d, NoEffect, p / d, p % d, j % 3);
  }

  /** In particular the side calculate_dimensions picks loses no byte of the buffer under NONE and NORMAL. */
  lemma {:induction false} ComputedSideShowsEveryByte(fa: FloatArith, data: seq<byte>, j: nat)
    requires j < |data|
    ensures ShowsByte(fa, data, CalculateDimensions(|data|), j)
  {
    NoneShowsEveryByte(fa, data, CalculateDimensions(|data|), j);
  }

  /** Under NORMAL, channel i of a pixel is the byte i places after the style's offset, or 0. */
  lemma NormalChannelRead(fa: FloatArith, data: seq<byte>, d: nat, style: EffectStyle, x: nat, y: nat, i: nat)
    requires x < d && y < d && i < 3 && !RaisesZeroDivision(style, |data|)
    ensures Channel(Pixel(fa, data, d, style, Normal, x, y), i)
         == ChannelAt(data, CalculatePixelIndex(fa, x, y, d, style, |data|).value + i)
    ensures style.NoEffect? ==> Channel(Pixel(fa, data, d, style, Normal, x, y), i) == ChannelAt(data, NoneIndex(x, y, d) + i)
  {
  }

  /** Under NONE and NORMAL, a cell whose offset lies past the end of the buffer is black. */
  lemma NoneBlackPastEnd(fa: FloatArith, data: seq<byte>, d: nat, x: nat, y: nat)
    requires x < d && y < d && NoneIndex(x, y, d) >= |data|
    ensures Pixel(fa, data, d, NoEffect, Normal, x, y) == Black
  {
  }

  /** bytes([255, 0, 0] * n): n red pixels. */
  function RedPattern(n: nat): (s: seq<byte>)
    ensures |s| == 3 * n
    ensures forall i | 0 <= i < |s| :: s[i] == if i % 3 == 0 then 255 else 0
  {
    seq(3 * n, i => if i % 3 == 0 then 255 else 0)
  }

  /** bytes(range(256)). */
  function Gradient(): (s: seq<byte>)
    ensures |s| == 256 && forall i | 0 <= i < 256 :: s[i] == i
  {
    seq(256, i requires 0 <= i < 256 => i)
  }

  /** n zero bytes. */
  function Zeros(n: nat): (s: seq<byte>)
    ensures |s| == n
  {
    seq(n, _ => 0)
  }

  /** get_rgb_values on (100, 150, 200) from offset 0, as the unit tests call it. */
  lemma {:induction false} RgbValuesExamples(fa: FloatArith)
    ensures GetRgbValues(fa, [100, 150, 200], 0, Normal) == Rgb(100, 150, 200)
    ensures var c := GetRgbValues(fa, [100, 150, 200], 0, Grayscale); c.r == c.g == c.b
    ensures GetRgbValues(fa, [100, 150, 200], 0, Complement) == Rgb(155, 105, 55)
    ensures var c := GetRgbValues(fa, [100, 150, 200], 0, Neon); c.r <= 255 && c.g <= 255 && c.b <= 255
  {
    var data: seq<byte> := [100, 150, 200];
    assert ChannelAt(data, 0) == 100 && ChannelAt(data, 1) == 150 && ChannelAt(data, 2) == 200;
  }

  /** The first pixel of the red pattern and of the gradient, as the unit tests check them. */
  lemma {:induction false} FirstPixelExamples(fa: FloatArith)
    ensures Pixel(fa, RedPattern(16), 4, NoEffect, Normal, 0, 0) == Rgba(255, 0, 0, 255)
    ensures Pixel(fa, Gradient(), 10, NoEffect, Normal, 0, 0) == Rgba(0, 1, 2, 255)
  {
    var red := RedPattern(16);
    assert red[0] == 255 && red[1] == 0 && red[2] == 0;
  }

  /** The unit tests' all-zero buffer: 48 zero bytes on a 4-by-4 canvas start with a black pixel. */
  lemma {:induction false} ZeroBufferExample(fa: FloatArith)
    ensures Pixel(fa, Zeros(48), 4, NoEffect, Normal, 0, 0) == Black
  {
    assert ChannelAt(Zeros(48), 0) == 0;
  }

  /** Nine zero bytes: calculate_dimensions asks for a 2-by-2 canvas, and every pixel of it is black. */
  lemma {:induction false} NineZeroBytes(fa: FloatArith)
    ensures CalculateDimensions(9) == 2
    ensures forall x, y | 0 <= x < 2 && 0 <= y < 2 ::
              Pixel(fa, Zeros(9), 2, NoEffect, Normal, x, y) == Black
  {
    DimensionsExamples();
  }
}
