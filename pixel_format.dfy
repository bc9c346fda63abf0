/** The pixel format constants of android.graphics.PixelFormat and its alpha classifier. */
module PixelFormat {

  const UNKNOWN: int := 0
  /** The system chooses a format with many alpha bits. */
  const TRANSLUCENT: int := -3
  /** The system chooses a format with at least one alpha bit. */
  const TRANSPARENT: int := -2
  /** The system chooses a format that needs no alpha bits. */
  const OPAQUE: int := -1

  const RGBA_8888: int := 1
  const RGBX_8888: int := 2
  const RGB_888: int := 3
  const RGB_565: int := 4
  const RGBA_5551: int := 6
  const RGBA_4444: int := 7
  const A_8: int := 8
  const L_8: int := 9
  const LA_88: int := 0xA
  const RGB_332: int := 0xB

  const YCbCr_422_SP: int := 0x10
  const YCbCr_420_SP: int := 0x11
  const YCbCr_422_I: int := 0x14
  const JPEG: int := 0x100

  /** The formats that carry alpha bits, or that ask the system for a format that does. */
  const ALPHA_FORMATS: seq<int> := [A_8, LA_88, RGBA_4444, RGBA_5551, RGBA_8888, TRANSLUCENT, TRANSPARENT]

  /** Every other named format. */
  const NON_ALPHA_FORMATS: seq<int> :=
    [UNKNOWN, OPAQUE, RGBX_8888, RGB_888, RGB_565, L_8, RGB_332,
     YCbCr_422_SP, YCbCr_420_SP, YCbCr_422_I, JPEG]

  /** formatHasAlpha: true exactly for the seven cases of its switch, false for every other int. */
  function FormatHasAlpha(format: int): (r: bool)
    ensures r <==> format in ALPHA_FORMATS
  {
    format == A_8 || format == LA_88 || format == RGBA_4444 || format == RGBA_5551
    || format == RGBA_8888 || format == TRANSLUCENT || format == TRANSPARENT
  }

  lemma AlphaFormatsHaveAlpha()
    ensures forall k :: 0 <= k < |ALPHA_FORMATS| ==> FormatHasAlpha(ALPHA_FORMATS[k])
  {
  }

  /** TRANSLUCENT and TRANSPARENT have alpha, OPAQUE does not. */
  lemma SystemChosenFormats()
    ensures FormatHasAlpha(TRANSLUCENT) && FormatHasAlpha(TRANSPARENT) && !FormatHasAlpha(OPAQUE)
  {
  }

  lemma OtherFormatsHaveNoAlpha()
    ensures forall k :: 0 <= k < |NON_ALPHA_FORMATS| ==> !FormatHasAlpha(NON_ALPHA_FORMATS[k])
  {
  }

  /** The seven alpha constants are pairwise distinct, and none of them is another named format. */
  lemma FormatConstantsDistinct()
    ensures forall i, j :: 0 <= i < j < |ALPHA_FORMATS| ==> ALPHA_FORMATS[i] != ALPHA_FORMATS[j]
    ensures forall i, j :: 0 <= i < |ALPHA_FORMATS| && 0 <= j < |NON_ALPHA_FORMATS| ==> ALPHA_FORMATS[i] != NON_ALPHA_FORMATS[j]
  {
  }
}
