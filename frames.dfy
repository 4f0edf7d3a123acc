/**
 * Frames: the model of an 8-bit, three-channel cv::Mat (BGR order) and of the
 * conversions between its byte channels and the normalized 0..1 float channels
 * the keying arithmetic works in.
 */
module Frames {

  /** One unsigned 8-bit channel value (CV_8U). */
  type byte = x: int | 0 <= x < 256

  /** A pixel of an 8-bit BGR frame. */
  datatype Bgr8 = Bgr8(b: byte, g: byte, r: byte)

  /** A pixel of a normalized float BGR frame (CV_32FC3 after scaling by 1/255). */
  datatype BgrF = BgrF(b: real, g: real, r: real)

  /** A pixel in HSV space: hue in degrees, saturation and value in 0..1. */
  datatype Hsv = Hsv(h: real, s: real, v: real)

  datatype Size = Size(rows: nat, cols: nat) {
    function Area(): nat { rows * cols }
  }

  /** A frame: its size and its pixels in row-major order. */
  datatype Frame = Frame(size: Size, pixels: seq<Bgr8>) {
    /** The pixel buffer holds exactly one pixel per cell of the grid. */
    predicate Valid() { |pixels| == size.Area() }

    /** cv::Mat::empty(): the matrix holds no element. */
    predicate IsEmpty() { |pixels| == 0 }
  }

  /** What MediaSource::readNext reports: the returned flag and the frame argument afterwards. */
  datatype Fetch = Fetch(ok: bool, frame: Frame)

  /** A released or default-constructed cv::Mat. */
  const EmptyFrame: Frame := Frame(Size(0, 0), [])

  /** A frame that a decoder produced: well formed and not empty. */
  type Image = f: Frame | f.Valid() && !f.IsEmpty() witness Frame(Size(1, 1), [Bgr8(0, 0, 0)])

  /** convertTo(CV_32F, 1.0/255) on one channel. */
  function Unit(x: byte): real { x as real / 255.0 }

  function Normalize(p: Bgr8): BgrF { BgrF(Unit(p.b), Unit(p.g), Unit(p.r)) }

  /** cvRound: round to the nearest integer, ties to the even one. */
  function RoundHalfEven(x: real): (n: int)
    ensures -0.5 <= n as real - x <= 0.5
  {
    var f := x.Floor;
    var d := x - f as real;
    if d < 0.5 then f
    else if d > 0.5 then f + 1
    else if f % 2 == 0 then f else f + 1
  }

  /** saturate_cast<uchar>: clamp an integer into 0..255. */
  function Saturate(n: int): (b: byte)
    ensures 0 <= n < 256 ==> b == n
    ensures n < 0 ==> b == 0
    ensures n >= 256 ==> b == 255
  {
    if n < 0 then 0 else if n > 255 then 255 else n
  }

  /** convertTo(CV_8U, 255) on one channel: scale, round, saturate. */
  function Quantize(x: real): byte { Saturate(RoundHalfEven(x * 255.0)) }

  function QuantizePixel(p: BgrF): Bgr8 { Bgr8(Quantize(p.b), Quantize(p.g), Quantize(p.r)) }

  /** On a normalized channel no saturation happens: the byte is the nearest one to 255·x. */
  lemma QuantizeUnitInterval(x: real)
    requires 0.0 <= x <= 1.0
    ensures Quantize(x) == RoundHalfEven(x * 255.0)
    ensures -0.5 <= Quantize(x) as real - x * 255.0 <= 0.5
  {
    var n := RoundHalfEven(x * 255.0);
    assert 0 <= n <= 255;
  }

  /** Scaling a byte to 0..1 and back reproduces it exactly. */
  lemma QuantizeUnit(x: byte)
    ensures Quantize(Unit(x)) == x
  {
    var y := Unit(x) * 255.0;
    assert y == x as real;
    assert y.Floor == x;
  }

  lemma QuantizeNormalize(p: Bgr8)
    ensures QuantizePixel(Normalize(p)) == p
  {
    QuantizeUnit(p.b);
    QuantizeUnit(p.g);
    QuantizeUnit(p.r);
  }
}
