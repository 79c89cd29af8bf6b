/**
 * Paper and canvas sizes: unit conversions between inches, millimetres and
 * 96-dpi pixels, canvas descriptions, portrait/landscape page pairs and the
 * named paper formats.
 */
module Sizes {
  import Js

  /** The SVG `viewBox` "0 0 {width} {height}", kept as its four numbers. */
  datatype ViewBox = ViewBox(minX: int, minY: int, width: int, height: int)

  datatype CanvasSize = CanvasSize(
    inches: (real, real),
    millimeters: (real, real),
    pixels: (int, int),
    viewBox: ViewBox,
    widthToHeightRatio: Js.Num)

  datatype PaperSize = PaperSize(landscape: CanvasSize, portrait: CanvasSize)

  const DefaultDpi: real := 96.0
  const MillimetersPerInch: real := 25.4

  /** `inchesToPixels`: the whole number of pixels the length covers. */
  function InchesToPixels(inches: real, dpi: real): (px: int)
    ensures px as real <= inches * dpi < px as real + 1.0
  {
    (inches * dpi).Floor
  }

  /** `millimetersToPixels`. */
  function MillimetersToPixels(millimeters: real, dpi: real): (px: int)
    ensures px as real <= (millimeters / MillimetersPerInch) * dpi < px as real + 1.0
  {
    InchesToPixels(millimeters / MillimetersPerInch, dpi)
  }

  /** `inchesToMillimeters`. */
  function InchesToMillimeters(inches: real): real {
    inches * MillimetersPerInch
  }

  /** A length given in inches and converted to millimetres maps to the same pixels. */
  lemma MillimetersRoundTrip(inches: real, dpi: real)
    ensures MillimetersToPixels(InchesToMillimeters(inches), dpi) == InchesToPixels(inches, dpi)
  {
    assert InchesToMillimeters(inches) / MillimetersPerInch == inches;
  }

  /** Pixel counts grow with the length. */
  lemma InchesToPixelsMonotone(a: real, b: real, dpi: real)
    requires a <= b && dpi >= 0.0
    ensures InchesToPixels(a, dpi) <= InchesToPixels(b, dpi)
  {
    assert a * dpi <= b * dpi;
  }

  /** `createCanvasSize(width, height)`. */
  function CreateCanvasSize(width: real, height: real): (c: CanvasSize)
    ensures c.inches == (width, height)
    ensures c.millimeters == (InchesToMillimeters(width), InchesToMillimeters(height))
    ensures c.pixels.0 as real <= 96.0 * width < c.pixels.0 as real + 1.0
    ensures c.pixels.1 as real <= 96.0 * height < c.pixels.1 as real + 1.0
    ensures c.viewBox == ViewBox(0, 0, c.pixels.0, c.pixels.1)
    ensures height != 0.0 ==> c.widthToHeightRatio == Js.Fin(width / height)
  {
    var pixels := (InchesToPixels(width, DefaultDpi), InchesToPixels(height, DefaultDpi));
    CanvasSize(
      (width, height),
      (InchesToMillimeters(width), InchesToMillimeters(height)),
      pixels,
      ViewBox(0, 0, pixels.0, pixels.1),
      Js.Div(Js.Fin(width), Js.Fin(height)))
  }

  /** `createPageSize(width, height)`: portrait as given, landscape turned a quarter. */
  function CreatePageSize(width: real, height: real): (r: PaperSize)
    ensures r.portrait.inches == (width, height) && r.landscape.inches == (height, width)
  {
    PaperSize(CreateCanvasSize(height, width), CreateCanvasSize(width, height))
  }

  /**
   * The landscape canvas is the portrait one with its sides swapped, so its
   * width-to-height ratio is the reciprocal of the portrait ratio.
   */
  lemma LandscapeIsTurnedPortrait(width: real, height: real)
    requires width > 0.0 && height > 0.0
    ensures var p := CreatePageSize(width, height);
      && p.landscape.inches == (p.portrait.inches.1, p.portrait.inches.0)
      && p.landscape.pixels == (p.portrait.pixels.1, p.portrait.pixels.0)
      && p.landscape.widthToHeightRatio.Fin? && p.portrait.widthToHeightRatio.Fin?
      && p.landscape.widthToHeightRatio.v * p.portrait.widthToHeightRatio.v == 1.0
  {
    assert (height / width) * (width / height) == 1.0;
  }

  /** The named formats of `Sizes`. */
  datatype Paper = A4 | A3 | Bristol9x12 | Bristol11x17

  /** The inches of each named format, portrait. */
  function PaperInches(p: Paper): (real, real) {
    match p
    case A4 => (8.3, 11.7)
    case A3 => (11.7, 16.5)
    case Bristol9x12 => (9.0157, 12.0078)
    case Bristol11x17 => (11.0, 17.0)
  }

  /** `Sizes[p]()`. */
  function PaperSizeOf(p: Paper): PaperSize {
    CreatePageSize(PaperInches(p).0, PaperInches(p).1)
  }

  /** Every named format is taller than wide in portrait, and wider than tall in landscape, in inches and in pixels. */
  lemma PapersArePortrait(p: Paper)
    ensures var s := PaperSizeOf(p);
      && s.portrait.inches.0 <= s.portrait.inches.1
      && s.portrait.pixels.0 <= s.portrait.pixels.1
      && s.landscape.pixels.0 >= s.landscape.pixels.1
  {
    var (w, h) := PaperInches(p);
    InchesToPixelsMonotone(w, h, DefaultDpi);
  }
}
