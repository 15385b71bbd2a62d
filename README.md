# Bin2Art core in Dafny

Bin2Art turns an arbitrary binary file into a picture: three consecutive
bytes become one RGB pixel of a square RGBA canvas, optionally recoloured by a
colour mode and rearranged by an effect style. This project models the
pixel-generation core of `ImageProcessor` in `bin2art.py`, plus the older
fill loop in `main.py`. It proves what the two promise about canvas size,
channel extraction, colour transforms, pixel offsets and the order in which
cells are written.

Modules:

| file | module | models |
|---|---|---|
| `art_types.dfy` | `ArtTypes` | `ColorMode`, `EffectStyle`, the `Config` constants, colours, cells, the `ZeroDivisionError` outcome, and `FloatArith`, which supplies the floating-point steps |
| `dimensions.dfy` | `Dimensions` | `calculate_dimensions` |
| `color_modes.dfy` | `ColorModes` | `_apply_color_mode` |
| `pixel_index.dfy` | `PixelIndex` | `_calculate_pixel_index` |
| `scan_order.dfy` | `ScanOrder` | the column-major `for x … for y …` visiting order |
| `canvas.dfy` | `Canvas` | `get_rgb_values`, `create_image`, and the pixels the unit tests check |
| `legacy_fill.dfy` | `LegacyFill` | the `generateImage` pixel loop of `main.py`, with its saturating byte counter |

Decisions that shape the model:

- **Canvas side.** `int(ceil(sqrt(L / 3)))` is modelled as the exact integer
  it is meant to compute: the least `n` with `3·n² ≥ L`.
- **Floating-point steps.** GRAYSCALE luma, the SEPIA dot products, and the
  `atan2`/`sqrt`/`sin` parts of ROTATE, KALEIDOSCOPE, SPIRAL, WAVES and
  FRACTAL are passed in as the total functions of a `FloatArith` value. The
  integer steps around them are kept exactly:
  - SEPIA's `min(…, 255)`;
  - ROTATE and KALEIDOSCOPE round down to a multiple of 3;
  - SPIRAL, WAVES and FRACTAL reduce `% data_length`.
- **Exact colour modes.** NEON, PASTEL and AMPLIFIED only halve, or divide by
  a power of two, so they are exact in integers:
  - NEON is `min(⌊3c/2⌋, 255)`;
  - PASTEL is `⌊(c + 255)/2⌋`;
  - AMPLIFIED is `⌊c²·255/16384⌋`.
- **Empty buffer.** The five float styles compute `% data_length`, which
  raises `ZeroDivisionError` when `data_length` is 0. The model returns
  `ZeroDivisionError`. `create_image` then fails at its first cell, before
  anything is written.
- **Offsets and clamping, as the code does them.**
  - NONE, MIRROR and MOSAIC offsets are *not* reduced modulo the data
    length (bin2art.py:138-141, 159-163, 169-170). Offsets past the end
    read as black through the zero defaults of `get_rgb_values`.
  - AMPLIFIED is *not* clamped (bin2art.py:113-116): every channel above
    128 maps above 255.

## Model

| member | source | states |
|---|---|---|
| Dimensions.CalculateDimensions | bin2art.py:79-81 | the side n holds the buffer (3·n² ≥ L), and n − 1 would not (n = 0 or 3·(n−1)² < L) |
| Dimensions.DimensionsLeast | bin2art.py:79-81 | no side m with 3·m² ≥ L is smaller than the computed side: it is the least such side |
| Dimensions.DimensionsUnique | bin2art.py:79-81 | any n that holds the buffer while n − 1 does not is the computed side |
| Dimensions.EmptyIffZeroSide | bin2art.py:79-81 | the side is 0 exactly when the buffer is empty |
| Dimensions.DimensionsExamples | tests/test_bin2art.py:146-158 | the unit test's cases: 9 bytes give side 2, 27 give 3, 100 give 6; the lemma adds that 0 bytes give side 0 |
| ColorModes.ComplementChannel | bin2art.py:117-120 | the output channel and the input channel sum to 255 |
| ColorModes.NeonChannel | bin2art.py:101-106 | the output lies between c and 255; when 1.5·c is below 255 the output is its truncation (2r ≤ 3c < 2r + 2); otherwise it is exactly 255 |
| ColorModes.PastelChannel | bin2art.py:107-112 | the output lies in [127, 255], is at least c, and is the truncated midpoint of c and 255 |
| ColorModes.AmplifiedChannel | bin2art.py:113-116 | the output is the truncation of (c/128)²·255: r·16384 ≤ 255·c² < (r+1)·16384 |
| ColorModes.SepiaChannel | bin2art.py:96-100 | the output is the smaller of the channel's dot product and 255: at most both, and equal to one of them |
| ColorModes.ApplyColorMode | bin2art.py:91-122 | each mode applies its own channel transform: NORMAL is the identity; COMPLEMENT sums to 255 per channel; GRAYSCALE gives three equal channels, all the luma; NEON, PASTEL, AMPLIFIED and SEPIA give NeonChannel, PastelChannel, AmplifiedChannel and SepiaChannel of each channel; NEON, PASTEL and SEPIA stay within 255, and NEON and PASTEL never darken a channel |
| ColorModes.ComplementInvolution | bin2art.py:117-120 | COMPLEMENT yields a byte colour, and applying it twice gives back the input |
| ColorModes.NormalIdempotent | bin2art.py:121-122 | NORMAL yields a byte colour and applying it again changes nothing |
| ColorModes.ColorModeExamples | tests/test_bin2art.py:220-231 | on (100, 150, 200): NORMAL keeps it, COMPLEMENT gives (155, 105, 55), NEON gives (150, 225, 255), all within 255 |
| ColorModes.AmplifiedFixedPoints | bin2art.py:113-116 | AMPLIFIED maps 0 to 0 and 128 to 255 |
| ColorModes.AmplifiedMonotone | bin2art.py:113-116 | AMPLIFIED preserves the order of channel values |
| ColorModes.AmplifiedOvershoots | bin2art.py:113-122 | with no clamp, every channel above 128 maps into (255, 1012] |
| PixelIndex.Offset | bin2art.py:141 | pixel number k starts at a multiple of 3, and dividing by 3 gives k back |
| PixelIndex.NoneIndex | bin2art.py:169-170 | the NONE offset is a multiple of 3 whose quotient by 3 is the raster number x·d + y |
| PixelIndex.MirrorIndex | bin2art.py:138-141 | the MIRROR offset is the NONE offset of the cell folded onto the nearer half in each axis, which lies in the top-left quadrant |
| PixelIndex.MosaicIndex | bin2art.py:159-163 | the MOSAIC offset is the NONE offset of the cell moved back to the start of its 20-pixel tile in each axis |
| PixelIndex.CalculatePixelIndex | bin2art.py:136-172 | fails with ZeroDivisionError exactly for a float style over an empty buffer; NONE, MIRROR and MOSAIC give their own offsets (NoneIndex, MirrorIndex, MosaicIndex); ROTATE and KALEIDOSCOPE round the angular value down to a multiple of 3; SPIRAL, WAVES and FRACTAL land below the data length |
| PixelIndex.RasterBound | bin2art.py:169-170 | the raster number x·d + y of an in-range cell is below d² |
| PixelIndex.RasterOrder | bin2art.py:169-170 | a cell in an earlier column has a smaller raster number, whatever the rows |
| PixelIndex.RasterInjective | bin2art.py:169-170 | distinct in-range cells have distinct raster numbers |
| PixelIndex.NoneIndexInjective | bin2art.py:169-170 | NONE gives distinct cells distinct offsets, each a multiple of 3 below 3·d² |
| PixelIndex.MirrorSymmetric | bin2art.py:138-141 | MIRROR gives the same offset to a cell and to its reflections in x, in y, and in both |
| PixelIndex.MirrorWithinNone | bin2art.py:138-141 | a MIRROR offset is never beyond the NONE offset of the same cell, and equals it on the top-left quadrant |
| PixelIndex.MosaicTileConstant | bin2art.py:159-163 | MOSAIC gives one offset to all cells of a 20×20 tile |
| PixelIndex.MosaicWithinNone | bin2art.py:159-163 | a MOSAIC offset is never beyond the NONE offset, and equals it at each tile's corner |
| ScanOrder.ColumnOrderOnce | bin2art.py:129 | one pass of the inner loop visits each cell (x, y) with y < d once and no other cell |
| ScanOrder.ColumnMajor | bin2art.py:128-129 | every cell the first `columns` passes of the double loop visit lies inside the columns × rows canvas |
| ScanOrder.ColumnMajorOnce | bin2art.py:128-129 | the double loop visits each cell of the canvas exactly once and nothing outside it |
| ScanOrder.ColumnMajorLength | bin2art.py:128-129 | the double loop visits columns·rows cells |
| Canvas.GetRgbValues | bin2art.py:83-89 | under NORMAL: three in-range bytes come back as they are; each channel past the end reads 0, on its own; a start past the end gives black |
| Canvas.ChannelAt | bin2art.py:85-87 | a channel read gives the byte at its offset, or 0 when the offset is past the end |
| Canvas.Pixel | bin2art.py:130-132 | every pixel is fully opaque (alpha 255) |
| Canvas.CreateImage | bin2art.py:124-134 | a d×d canvas whose every cell holds its Pixel, written once each in column-major order; or, exactly when d > 0 and a float style meets an empty buffer, ZeroDivisionError with nothing written |
| Canvas.CellOfPixelNumber | bin2art.py:169-170 | pixel number p of a d×d canvas sits at the in-range cell (p / d, p % d) |
| Canvas.NoneShowsEveryByte | bin2art.py:128-132 | on any side that holds the buffer, NONE and NORMAL show every byte j as channel j % 3 of cell ((j/3)/d, (j/3)%d) |
| Canvas.ComputedSideShowsEveryByte | bin2art.py:79-81 | on the side calculate_dimensions picks, NONE and NORMAL lose no byte |
| Canvas.NormalChannelRead | bin2art.py:83-89 | under NORMAL, channel i of a pixel is the byte i places after the style's offset, or 0 past the end |
| Canvas.NoneBlackPastEnd | bin2art.py:85-87 | under NONE and NORMAL, a cell whose offset is past the end of the buffer is black |
| Canvas.RedPattern | tests/test_bin2art.py:270 | `[255, 0, 0] * n`: 3·n bytes, 255 at every multiple of 3 and 0 elsewhere |
| Canvas.Gradient | tests/test_bin2art.py:276 | `bytes(range(256))` holds byte i at position i |
| Canvas.RgbValuesExamples | tests/test_bin2art.py:160-231 | get_rgb_values on (100, 150, 200) from offset 0: NORMAL gives it back, GRAYSCALE gives equal channels, COMPLEMENT gives (155, 105, 55), NEON stays within 255 |
| Canvas.FirstPixelExamples | tests/test_bin2art.py:267-279 | the first pixel of the red pattern on a 4×4 canvas is (255, 0, 0, 255), that of the gradient on a 10×10 canvas (0, 1, 2, 255) |
| Canvas.ZeroBufferExample | tests/test_bin2art.py:280-285 | the first pixel of 48 zero bytes on a 4×4 canvas is black |
| Canvas.NineZeroBytes | bin2art.py:79-89 | nine zero bytes get a 2×2 canvas, and every pixel of it is black |
| LegacyFill.CounterAt | main.py:26-33 | the counter at the k-th channel read stays below the data length, never exceeds k, and equals k or the last index |
| LegacyFill.ReadAt | main.py:31-33 | the k-th channel read gives byte k while k is inside the buffer, and the last byte from the last index on |
| LegacyFill.LegacyPixel | main.py:29-34 | pixel number n takes channels 3n, 3n + 1 and 3n + 2, with alpha 255: the three bytes themselves while they lie inside the buffer, and the last byte in every channel once 3n reaches the last index |
| LegacyFill.ReadChannels | main.py:30-33 | the three channels are the reads at the counter's next three positions, and the counter and its trace advance by three reads, saturating at the last byte |
| LegacyFill.GenerateImage | main.py:24-34 | a canvas of the calculated side whose cell (x, y) holds LegacyPixel of pixel number x·side + y, written once each in column-major order; the counter's value at the k-th read is min(k, len − 1) |
| LegacyFill.CounterMonotone | main.py:32-33 | the counter never decreases and never leaves the buffer |
| LegacyFill.SaturatesAtLastByte | main.py:31-33 | once the counter reaches the last byte, every later channel repeats it |
| LegacyFill.AgreesWithRendererInside | main.py:27-34 | where a cell's three channels lie inside the buffer, the old loop and create_image with NONE/NORMAL write the same pixel |
| LegacyFill.DiffersFromRendererPastEnd | main.py:27-34 | where a cell starts past the end, the old loop repeats the last byte in all three channels while create_image shows black |

## Left out

- Floating-point arithmetic. Three kinds are not computed; `FloatArith` supplies them as given total functions:
  - GRAYSCALE luma and the SEPIA dot products;
  - the `atan2`/`sqrt`/`sin`/`cos` parts of ROTATE, KALEIDOSCOPE, SPIRAL, WAVES and FRACTAL;
  - their rounding.
- Dimensions.CalculateDimensions: computes the exact least side. It does not model the rounding of numpy's float `sqrt` and `ceil`, which can differ for buffers far larger than any file this tool reads.
- Canvas.CreateImage: keeps channels as unbounded naturals. It does not model how the imaging library stores a value above 255, which AMPLIFIED can produce, in an 8-bit channel.
- LegacyFill.GenerateImage: gives each pixel alpha 255. This assumes the imaging library completes the 3-tuple that `putpixel` writes into an RGBA image with full opacity; the library is not part of this model.
- The imaging library is not modelled:
  - the canvas is an `array2`;
  - `apply_effects` (blur, colour and contrast enhancement, posterize) is not modelled;
  - resizing to the output size and saving in a file format are not modelled.
- File handling is not part of this model: memory-mapped loading, output names, the extension filter and directory listing.
- Command-line handling is not part of this model: `ArtGenerator`, argument parsing and the per-file driver loops in both scripts.
- The test harnesses are not modelled. Their expected values appear as the example lemmas.
