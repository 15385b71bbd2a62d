/**
 * The colour transforms of _apply_color_mode. NORMAL, COMPLEMENT, NEON,
 * PASTEL and AMPLIFIED are exact in integers (their floats are halves
 * and quotients by powers of two); GRAYSCALE and SEPIA take their
 * floating-point dot products from FloatArith.
 */
module ColorModes {
  import opened ArtTypes

  /** COMPLEMENT: 255 - c. */
  function ComplementChannel(c: byte): (r: byte)
    ensures r + c == 255
  {
    255 - c
  }

  /** NEON: int(min(c * 1.5, 255)), the truncated 3c/2 capped at 255. */
  function NeonChannel(c: byte): (r: nat)
    ensures c <= r <= 255
    ensures 3 * c < 510 ==> 2 * r <= 3 * c < 2 * r + 2
    ensures 3 * c >= 510 ==> r == 255
  {
    Min(3 * c / 2, 255)
  }

  /** PASTEL: int((c + 255) / 2), the channel averaged with white. */
  function PastelChannel(c: byte): (r: nat)
    ensures 127 <= r <= 255 && c <= r
    ensures 2 * r <= c + 255 < 2 * r + 2
  {
    (c + 255) / 2
  }

  /**
   * AMPLIFIED: int((c / 128) ** 2 * 255). c / 128 is a dyadic fraction, so
   * the float product is exactly c*c*255 / 16384, truncated; no clamp.
   */
  function AmplifiedChannel(c: byte): (r: nat)
    ensures r * 16384 <= c * c * 255 < (r + 1) * 16384
  {
    c * c * 255 / 16384
  }

  /** SEPIA channel i: min(int(dot product i), 255). */
  function SepiaChannel(fa: FloatArith, i: nat, r: byte, g: byte, b: byte): (c: nat)
    ensures c <= 255 && c <= fa.sepiaRow(i, r, g, b)
    ensures c == 255 || c == fa.sepiaRow(i, r, g, b)
  {
    Min(fa.sepiaRow(i, r, g, b), 255)
  }

  /** _apply_color_mode: one case per colour mode. */
  function ApplyColorMode(fa: FloatArith, r: byte, g: byte, b: byte, mode: ColorMode): (out: Rgb)
    ensures mode.Normal? ==> out == Rgb(r, g, b)
    ensures mode.Complement? ==> out.r + r == 255 && out.g + g == 255 && out.b + b == 255
    ensures mode.Grayscale? ==> out.r == out.g == out.b
    ensures mode.Neon? || mode.Pastel? || mode.Sepia? ==> out.r <= 255 && out.g <= 255 && out.b <= 255
    ensures mode.Neon? || mode.Pastel? ==> r <= out.r && g <= out.g && b <= out.b
    ensures mode.Neon? ==> out == Rgb(NeonChannel(r), NeonChannel(g), NeonChannel(b))
    ensures mode.Pastel? ==> out == Rgb(PastelChannel(r), PastelChannel(g), PastelChannel(b))
    ensures mode.Amplified? ==> out == Rgb(AmplifiedChannel(r), AmplifiedChannel(g), AmplifiedChannel(b))
    ensures mode.Sepia? ==> out == Rgb(SepiaChannel(fa, 0, r, g, b), SepiaChannel(fa, 1, r, g, b), SepiaChannel(fa, 2, r, g, b))
    ensures mode.Grayscale? ==> out.r == fa.luma(r, g, b)
  {
    match mode
    case Grayscale =>
      var gray := fa.luma(r, g, b);
      Rgb(gray, gray, gray)
    case Sepia =>
      Rgb(SepiaChannel(fa, 0, r, g, b), SepiaChannel(fa, 1, r, g, b), SepiaChannel(fa, 2, r, g, b))
    case Neon => Rgb(NeonChannel(r), NeonChannel(g), NeonChannel(b))
    case Pastel => Rgb(PastelChannel(r), PastelChannel(g), PastelChannel(b))
    case Amplified => Rgb(AmplifiedChannel(r), AmplifiedChannel(g), AmplifiedChannel(b))
    case Complement => Rgb(ComplementChannel(r), ComplementChannel(g), ComplementChannel(b))
    case Normal => Rgb(r, g, b)
  }

  /** A colour whose channels are all bytes, as ApplyColorMode can take it back. */
  predicate IsByteColour(c: Rgb) {
    c.r < 256 && c.g < 256 && c.b < 256
  }

  /** COMPLEMENT stays in byte range and undoes itself. */
  lemma ComplementInvolution(fa: FloatArith, r: byte, g: byte, b: byte)
    ensures IsByteColour(ApplyColorMode(fa, r, g, b, Complement))
    ensures var c := ApplyColorMode(fa, r, g, b, Complement);
            ApplyColorMode(fa, c.r, c.g, c.b, Complement) == Rgb(r, g, b)
  {
  }

  /** NORMAL is the identity, hence idempotent. */
  lemma NormalIdempotent(fa: FloatArith, r: byte, g: byte, b: byte)
    ensures var c := ApplyColorMode(fa, r, g, b, Normal);
            IsByteColour(c) && ApplyColorMode(fa, c.r, c.g, c.b, Normal) == c
  {
  }

  /** The unit-test triple [100, 150, 200]: NORMAL keeps it, COMPLEMENT gives (155, 105, 55), NEON stays within 255. */
  lemma ColorModeExamples(fa: FloatArith)
    ensures ApplyColorMode(fa, 100, 150, 200, Normal) == Rgb(100, 150, 200)
    ensures ApplyColorMode(fa, 100, 150, 200, Complement) == Rgb(155, 105, 55)
    ensures ApplyColorMode(fa, 100, 150, 200, Neon) == Rgb(150, 225, 255)
  {
  }

  /** AMPLIFIED sends 0 to 0 and 128 to full intensity 255. */
  lemma AmplifiedFixedPoints()
    ensures AmplifiedChannel(0) == 0
    ensures AmplifiedChannel(128) == 255
  {
  }

  /** AMPLIFIED never darkens a brighter channel below a darker one. */
  lemma {:induction false} AmplifiedMonotone(c: byte, d: byte)
    requires c <= d
    ensures AmplifiedChannel(c) <= AmplifiedChannel(d)
  {
    assert c * c <= d * d by {
      assert c * c <= c * d;
      assert c * d <= d * d;
    }
    var rc, rd := AmplifiedChannel(c), AmplifiedChannel(d);
    assert rc * 16384 < (rd + 1) * 16384;
    ProductCancel(rc, rd + 1, 16384);
  }

  lemma ProductCancel(a: nat, b: nat, k: nat)
    requires a * k < b * k
    ensures a < b
  {
  }

  /** Without a clamp, AMPLIFIED overshoots the byte range for every c above 128 (at most 1012). */
  lemma {:induction false} AmplifiedOvershoots(c: byte)
    requires c > 128
    ensures 255 < AmplifiedChannel(c) <= 1012
  {
    AmplifiedMonotone(129, c);
    AmplifiedMonotone(c, 255);
    assert AmplifiedChannel(129) == 258;
    assert AmplifiedChannel(255) == 1012;
  }
}
