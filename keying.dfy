/**
 * Keying: the per-pixel rule that marks a pixel as key-coloured (a hue band around
 * the key hue that wraps around the colour circle, with saturation and value
 * floors), the mask it produces, and the alpha compositing of two frames.
 */
module Keying {
  import opened Wrappers
  import opened Frames

  /** The extent of the hue channel (hsvRange[0]); saturation and value extend to 1. */
  const HueRange: real := 360.0

  /** Half-width of the hue band: `tolerance` percent of the full circle. */
  function Span(tolerance: int): real { tolerance as real / 100.0 * HueRange }

  /** cv::inRange on one pixel: every channel within its inclusive bounds. */
  predicate InRange(p: Hsv, lower: Hsv, upper: Hsv)
  {
    && lower.h <= p.h <= upper.h
    && lower.s <= p.s <= upper.s
    && lower.v <= p.v <= upper.v
  }

  /** The lower corner of the primary band. */
  function LowerBound(keyHue: real, tolerance: int, defringe: int): (lo: Hsv)
    ensures lo.s == lo.v == defringe as real / 100.0
    ensures 0 <= tolerance <= 100 ==> keyHue - HueRange <= lo.h <= keyHue
  {
    Hsv(keyHue - Span(tolerance), defringe as real / 100.0, defringe as real / 100.0)
  }

  /** The upper corner of the primary band. */
  function UpperBound(keyHue: real, tolerance: int): (hi: Hsv)
    ensures hi.s == hi.v == 1.0
    ensures 0 <= tolerance <= 100 ==> keyHue <= hi.h <= keyHue + HueRange
  {
    Hsv(keyHue + Span(tolerance), 1.0, 1.0)
  }

  /** The extra band for hues that wrap around the circle, when one applies: the part
      of the band below 0 folded up to the top, or the part above 360 folded down to 0. */
  function WrapBand(keyHue: real, tolerance: int, defringe: int): (band: Option<(Hsv, Hsv)>)
    ensures 0.0 <= LowerBound(keyHue, tolerance, defringe).h && UpperBound(keyHue, tolerance).h <= HueRange ==> band.None?
    ensures band.Some? ==>
              && band.value.0.s == band.value.0.v == defringe as real / 100.0
              && band.value.1.s == band.value.1.v == 1.0
    ensures 0.0 <= keyHue < HueRange && 0 <= tolerance <= 100 && band.Some? ==>
              0.0 <= band.value.0.h <= band.value.1.h <= HueRange
  {
    var lower := LowerBound(keyHue, tolerance, defringe);
    var upper := UpperBound(keyHue, tolerance);
    if lower.h < 0.0 && upper.h < HueRange then
      Some((lower.(h := lower.h + HueRange), upper.(h := HueRange)))
    else if lower.h > 0.0 && upper.h > HueRange then
      Some((lower.(h := 0.0), upper.(h := upper.h - HueRange)))
    else None
  }

  /** The keying rule: the pixel lies in the primary band or in the wrap-around band. */
  predicate Matches(p: Hsv, keyHue: real, tolerance: int, defringe: int)
    ensures Matches(p, keyHue, tolerance, defringe) ==> AboveFloors(p, defringe)
  {
    || InRange(p, LowerBound(keyHue, tolerance, defringe), UpperBound(keyHue, tolerance))
    || (var band := WrapBand(keyHue, tolerance, defringe);
        band.Some? && InRange(p, band.value.0, band.value.1))
  }

  /** The distance between two hues along the colour circle. */
  function CircularDistance(a: real, b: real): real
  {
    var d := if a >= b then a - b else b - a;
    if d <= HueRange - d then d else HueRange - d
  }

  /** Both bands carry the same saturation and value floors. */
  predicate AboveFloors(p: Hsv, defringe: int)
  {
    defringe as real / 100.0 <= p.s <= 1.0 && defringe as real / 100.0 <= p.v <= 1.0
  }

  /** Every matched pixel is within the tolerance of the key hue around the circle and
      above the saturation and value floors. */
  lemma MatchSound(p: Hsv, keyHue: real, tolerance: int, defringe: int)
    requires 0.0 <= keyHue < HueRange && 0.0 <= p.h < HueRange
    requires 0 <= tolerance <= 100
    requires Matches(p, keyHue, tolerance, defringe)
    ensures CircularDistance(p.h, keyHue) <= Span(tolerance)
    ensures AboveFloors(p, defringe)
  {
  }

  /** Every pixel above the floors whose hue is strictly closer to the key hue than the
      tolerance, around the circle, is matched. */
  lemma MatchComplete(p: Hsv, keyHue: real, tolerance: int, defringe: int)
    requires 0.0 <= keyHue < HueRange && 0.0 <= p.h < HueRange
    requires 0 <= tolerance <= 100
    requires AboveFloors(p, defringe)
    requires CircularDistance(p.h, keyHue) < Span(tolerance)
    ensures Matches(p, keyHue, tolerance, defringe)
  {
  }

  /** Completeness cannot be extended to hues exactly at the tolerance: with the band's
      upper end at exactly 360 no wrap band is added, so hue 0 is left out while hue 180,
      at the same distance on the other side, is matched. */
  lemma BoundaryHueUnmatched()
    ensures CircularDistance(0.0, 270.0) == Span(25) == CircularDistance(180.0, 270.0)
    ensures !Matches(Hsv(0.0, 1.0, 1.0), 270.0, 25, 0)
    ensures Matches(Hsv(180.0, 1.0, 1.0), 270.0, 25, 0)
  {
  }

  /** Two bands that cross the ends of the circle: key 355° with tolerance 50 matches
      hue 10°, key 5° with tolerance 100 matches hue 359°. */
  lemma WrapExamples()
    ensures Matches(Hsv(10.0, 1.0, 1.0), 355.0, 50, 0)
    ensures Matches(Hsv(359.0, 1.0, 1.0), 5.0, 100, 0)
  {
  }

  /** Tolerance 0 matches the exact key hue only. */
  lemma ZeroTolerance(p: Hsv, keyHue: real, defringe: int)
    requires 0.0 <= keyHue < HueRange && 0.0 <= p.h < HueRange
    ensures Matches(p, keyHue, 0, defringe) <==> p.h == keyHue && AboveFloors(p, defringe)
  {
  }

  /** Tolerance 100 lets every hue through: the floors alone decide. */
  lemma FullTolerance(p: Hsv, keyHue: real, defringe: int)
    requires 0.0 <= keyHue < HueRange && 0.0 <= p.h < HueRange
    ensures Matches(p, keyHue, 100, defringe) <==> AboveFloors(p, defringe)
  {
  }

  /** The binary mask of a frame in HSV: 1 on key-coloured pixels, 0 elsewhere. */
  function BinaryMask(hsv: seq<Hsv>, keyHue: real, tolerance: int, defringe: int): (mask: seq<real>)
    ensures |mask| == |hsv|
    ensures forall i :: 0 <= i < |mask| ==> 0.0 <= mask[i] <= 1.0
  {
    seq(|hsv|, i requires 0 <= i < |hsv| => if Matches(hsv[i], keyHue, tolerance, defringe) then 1.0 else 0.0)
  }

  /** Before softening every mask value is exactly 0 or 1, and it is 1 exactly on matched pixels. */
  lemma BinaryMaskValues(hsv: seq<Hsv>, keyHue: real, tolerance: int, defringe: int)
    ensures var mask := BinaryMask(hsv, keyHue, tolerance, defringe);
            && |mask| == |hsv|
            && (forall i :: 0 <= i < |hsv| ==> mask[i] == 0.0 || mask[i] == 1.0)
            && (forall i :: 0 <= i < |hsv| ==> (mask[i] == 1.0 <==> Matches(hsv[i], keyHue, tolerance, defringe)))
  {
  }

  /** A whole-matrix filter with a square kernel (cv::dilate, cv::GaussianBlur), given by the
      value it leaves at each pixel index for the input matrix, its size and the kernel side. */
  type Filter = (seq<real>, Size, nat, nat) -> real

  function ApplyFilter(m: seq<real>, size: Size, ksize: nat, f: Filter): (r: seq<real>)
    ensures |r| == |m|
  {
    seq(|m|, i requires 0 <= i < |m| => f(m, size, ksize, i))
  }

  /** The side of the softening kernel: odd, and at least 3 once softening is on. */
  function KernelSide(softness: int): (k: nat)
    requires softness > 0
    ensures k == 2 * softness + 1
    ensures k % 2 == 1 && k >= 3
  {
    2 * softness + 1
  }

  /** The mask after softening, which runs (dilation, then blur, with the same kernel side)
      only when softness is positive; otherwise the binary mask is used as it is. */
  function SoftenedMask(mask: seq<real>, size: Size, softness: int, dilate: Filter, blur: Filter): (r: seq<real>)
    ensures |r| == |mask|
    ensures softness <= 0 ==> r == mask
  {
    if softness > 0 then
      var k := KernelSide(softness);
      ApplyFilter(ApplyFilter(mask, size, k, dilate), size, k, blur)
    else mask
  }

  /** The trackbar parameters: hue tolerance and defringe in percent, softness as a kernel radius. */
  datatype Params = Params(tolerance: int, softness: int, defringe: int) {
    predicate Valid() { 0 <= tolerance <= 100 && 0 <= defringe <= 100 }
  }

  /** The library kernels the keying uses and this model leaves abstract: the BGR to HSV
      conversion of one normalized pixel, dilation and Gaussian blur. */
  datatype Kernels = Kernels(toHsv: BgrF -> Hsv, dilate: Filter, blur: Filter)

  /** The frame converted to HSV, pixel by pixel. */
  function HsvOf(f: Frame, toHsv: BgrF -> Hsv): (hsv: seq<Hsv>)
    ensures |hsv| == |f.pixels|
  {
    seq(|f.pixels|, i requires 0 <= i < |f.pixels| => toHsv(Normalize(f.pixels[i])))
  }

  /** The mask of a frame: the keying rule on its HSV pixels, then the optional softening. */
  function FrameMask(fg: Frame, keyHue: real, p: Params, k: Kernels): (mask: seq<real>)
    ensures |mask| == |fg.pixels|
  {
    SoftenedMask(BinaryMask(HsvOf(fg, k.toHsv), keyHue, p.tolerance, p.defringe), fg.size, p.softness, k.dilate, k.blur)
  }

  /** The blend of one normalized channel: the background weighted by the mask, the
      foreground by its complement. */
  function Blend(fg: real, bg: real, m: real): real { bg * m + fg * (1.0 - m) }

  function BlendPixel(fg: BgrF, bg: BgrF, m: real): BgrF
  {
    BgrF(Blend(fg.b, bg.b, m), Blend(fg.g, bg.g, m), Blend(fg.r, bg.r, m))
  }

  /** Mask 0 keeps the foreground, mask 1 takes the background. */
  lemma BlendEndpoints(fg: real, bg: real)
    ensures Blend(fg, bg, 0.0) == fg && Blend(fg, bg, 1.0) == bg
  {
  }

  /** A blend of channels in 0..1 with a mask in 0..1 stays in 0..1, between the two inputs. */
  lemma BlendBounds(fg: real, bg: real, m: real)
    requires 0.0 <= fg <= 1.0 && 0.0 <= bg <= 1.0 && 0.0 <= m <= 1.0
    ensures 0.0 <= Blend(fg, bg, m) <= 1.0
    ensures (if fg <= bg then fg else bg) <= Blend(fg, bg, m) <= (if fg <= bg then bg else fg)
  {
    var lo := if fg <= bg then fg else bg;
    var hi := if fg <= bg then bg else fg;
    assert bg * m + fg * (1.0 - m) - lo == (bg - lo) * m + (fg - lo) * (1.0 - m);
    assert hi - (bg * m + fg * (1.0 - m)) == (hi - bg) * m + (hi - fg) * (1.0 - m);
    NonNegativeProduct(bg - lo, m);
    NonNegativeProduct(fg - lo, 1.0 - m);
    NonNegativeProduct(hi - bg, m);
    NonNegativeProduct(hi - fg, 1.0 - m);
  }

  lemma NonNegativeProduct(x: real, y: real)
    requires x >= 0.0 && y >= 0.0
    ensures x * y >= 0.0
  {
  }

  /** The composited frame: each output channel is bg·m + fg·(1−m) in normalized space,
      brought back to bytes; it has the foreground's size. */
  function Composite(fg: Frame, bg: Frame, mask: seq<real>): (out: Frame)
    requires fg.Valid() && bg.Valid() && bg.size == fg.size && |mask| == |fg.pixels|
    ensures out.Valid() && out.size == fg.size
  {
    Frame(fg.size, seq(|fg.pixels|, i requires 0 <= i < |fg.pixels| =>
      QuantizePixel(BlendPixel(Normalize(fg.pixels[i]), Normalize(bg.pixels[i]), mask[i]))))
  }

  /** Every output channel is the byte nearest to 255 times the blend of the inputs' channels. */
  lemma CompositeChannels(fg: Frame, bg: Frame, mask: seq<real>, i: nat)
    requires fg.Valid() && bg.Valid() && bg.size == fg.size && |mask| == |fg.pixels|
    requires i < |fg.pixels| && 0.0 <= mask[i] <= 1.0
    ensures var out := Composite(fg, bg, mask).pixels[i];
            var b := Blend(Unit(fg.pixels[i].b), Unit(bg.pixels[i].b), mask[i]);
            var g := Blend(Unit(fg.pixels[i].g), Unit(bg.pixels[i].g), mask[i]);
            var r := Blend(Unit(fg.pixels[i].r), Unit(bg.pixels[i].r), mask[i]);
            && 0.0 <= b <= 1.0 && -0.5 <= out.b as real - 255.0 * b <= 0.5
            && 0.0 <= g <= 1.0 && -0.5 <= out.g as real - 255.0 * g <= 0.5
            && 0.0 <= r <= 1.0 && -0.5 <= out.r as real - 255.0 * r <= 0.5
  {
    var b := Blend(Unit(fg.pixels[i].b), Unit(bg.pixels[i].b), mask[i]);
    var g := Blend(Unit(fg.pixels[i].g), Unit(bg.pixels[i].g), mask[i]);
    var r := Blend(Unit(fg.pixels[i].r), Unit(bg.pixels[i].r), mask[i]);
    BlendBounds(Unit(fg.pixels[i].b), Unit(bg.pixels[i].b), mask[i]);
    BlendBounds(Unit(fg.pixels[i].g), Unit(bg.pixels[i].g), mask[i]);
    BlendBounds(Unit(fg.pixels[i].r), Unit(bg.pixels[i].r), mask[i]);
    QuantizeUnitInterval(b);
    QuantizeUnitInterval(g);
    QuantizeUnitInterval(r);
  }

  /** The keyed frame: the foreground composited over the background through the frame's mask. */
  function KeyedFrame(fg: Frame, bg: Frame, keyHsv: Hsv, p: Params, k: Kernels): (out: Frame)
    requires fg.Valid() && bg.Valid() && bg.size == fg.size
    ensures out.Valid() && out.size == fg.size
  {
    Composite(fg, bg, FrameMask(fg, keyHsv.h, p, k))
  }

  /** Without softening the mask has hard edges: every key-coloured pixel is replaced by the
      background pixel and every other pixel keeps its foreground value, exactly. */
  lemma KeyedHardEdges(fg: Frame, bg: Frame, keyHsv: Hsv, p: Params, k: Kernels)
    requires fg.Valid() && bg.Valid() && bg.size == fg.size && p.softness <= 0
    ensures var out := KeyedFrame(fg, bg, keyHsv, p, k);
            forall i :: 0 <= i < |fg.pixels| ==>
              out.pixels[i] == if Matches(k.toHsv(Normalize(fg.pixels[i])), keyHsv.h, p.tolerance, p.defringe)
                               then bg.pixels[i] else fg.pixels[i]
  {
    var out := KeyedFrame(fg, bg, keyHsv, p, k);
    var mask := FrameMask(fg, keyHsv.h, p, k);
    forall i | 0 <= i < |fg.pixels|
      ensures out.pixels[i] == if Matches(k.toHsv(Normalize(fg.pixels[i])), keyHsv.h, p.tolerance, p.defringe)
                               then bg.pixels[i] else fg.pixels[i]
    {
      QuantizeNormalize(fg.pixels[i]);
      QuantizeNormalize(bg.pixels[i]);
    }
  }

  /** A mask that is 0 everywhere reproduces the foreground exactly. */
  lemma CompositeNoMatch(fg: Frame, bg: Frame, mask: seq<real>)
    requires fg.Valid() && bg.Valid() && bg.size == fg.size && |mask| == |fg.pixels|
    requires forall i :: 0 <= i < |mask| ==> mask[i] == 0.0
    ensures Composite(fg, bg, mask) == fg
  {
    var out := Composite(fg, bg, mask);
    forall i | 0 <= i < |fg.pixels| ensures out.pixels[i] == fg.pixels[i] {
      QuantizeNormalize(fg.pixels[i]);
    }
  }

  /** A mask that is 1 everywhere reproduces the background exactly. */
  lemma CompositeFullMatch(fg: Frame, bg: Frame, mask: seq<real>)
    requires fg.Valid() && bg.Valid() && bg.size == fg.size && |mask| == |fg.pixels|
    requires forall i :: 0 <= i < |mask| ==> mask[i] == 1.0
    ensures Composite(fg, bg, mask) == bg
  {
    var out := Composite(fg, bg, mask);
    forall i | 0 <= i < |fg.pixels| ensures out.pixels[i] == bg.pixels[i] {
      QuantizeNormalize(bg.pixels[i]);
    }
  }
}
