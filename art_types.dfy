/**
 * The vocabulary shared by the renderer (bin2art.py) and the original
 * script (main.py): bytes of the source buffer, colour triples, RGBA
 * pixels, canvas cells, the two enumerations and the configuration
 * constants the core reads.
 */
module ArtTypes {

  /** One byte of the source buffer. */
  type byte = x: int | 0 <= x < 256

  /** Config.BYTES_PER_PIXEL: one pixel is fed by three consecutive bytes. */
  const BytesPerPixel: nat := 3

  /** Config.DEFAULT_ALPHA: every pixel the renderer writes is opaque. */
  const DefaultAlpha: nat := 255

  /** The fixed tile edge of the MOSAIC style. */
  const MosaicTile: nat := 20

  /** The colour transforms a render can select (ColorMode). */
  datatype ColorMode = Normal | Complement | Amplified | Grayscale | Sepia | Neon | Pastel

  /** The layouts mapping a canvas cell to a byte offset (EffectStyle). */
  datatype EffectStyle = NoEffect | Mirror | Rotate | Kaleidoscope | Spiral | Waves | Mosaic | Fractal
  {
    /** The styles whose offset is computed in floating point and reduced modulo the data length. */
    predicate UsesFloat() {
      !(NoEffect? || Mirror? || Mosaic?)
    }
  }

  /**
   * A colour as handed to the image: three channels. They are not
   * bytes, because AMPLIFIED can produce values above 255.
   */
  datatype Rgb = Rgb(r: nat, g: nat, b: nat)

  /** One canvas pixel. */
  datatype Rgba = Rgba(r: nat, g: nat, b: nat, a: nat)

  /** The colour "black" a fresh RGBA canvas is filled with. */
  const Black: Rgba := Rgba(0, 0, 0, 255)

  /** A canvas coordinate, (x, y) as passed to putpixel. */
  datatype Cell = Cell(x: nat, y: nat)

  /** Either a value or the ZeroDivisionError a modulo by an empty data length raises. */
  datatype Result<T> = Ok(value: T) | ZeroDivisionError

  /**
   * The floating-point computations of the core, which this model does
   * not evaluate; they are supplied as total functions.
   *   luma(r, g, b)         int(0.299*r + 0.587*g + 0.114*b)              (GRAYSCALE)
   *   sepiaRow(i, r, g, b)  int of the i-th sepia dot product, i in 0..2  (SEPIA, before min(., 255))
   *   angular(s, x, y, d, n) int((angle*distance) % n) for ROTATE, the same
   *                          with the folded angle for KALEIDOSCOPE, n > 0
   *   scaled(s, x, y, d)    the integer the SPIRAL, WAVES and FRACTAL formulas
   *                         produce before they are reduced modulo the data length
   */
  datatype FloatArith = FloatArith(
    luma: (byte, byte, byte) -> nat,
    sepiaRow: (nat, byte, byte, byte) -> nat,
    angular: (EffectStyle, nat, nat, nat, nat) -> nat,
    scaled: (EffectStyle, nat, nat, nat) -> int)

  function Min(a: int, b: int): int {
    if a < b then a else b
  }
}
