/**
 * Matrices: the element-wise matrix operations keyOutFrame applies to its buffers
 * (conversions, inRange, bitwise_or, merge, multiply, scaling and addition), each on
 * the row-major pixel sequence of a frame.
 */
module Matrices {
  import opened Frames
  import Keying

  /** convertTo(CV_32F, 1.0/255) on a BGR frame. */
  function ToFloat(f: Frame): (m: seq<BgrF>)
    ensures |m| == |f.pixels|
    ensures forall i :: 0 <= i < |m| ==> InUnitCube(m[i])
    ensures forall i :: 0 <= i < |m| ==> QuantizePixel(m[i]) == f.pixels[i]
  {
    var m := seq(|f.pixels|, i requires 0 <= i < |f.pixels| => Normalize(f.pixels[i]));
    assert forall i :: 0 <= i < |m| ==> QuantizePixel(m[i]) == f.pixels[i] by {
      forall i | 0 <= i < |m| ensures QuantizePixel(m[i]) == f.pixels[i] {
        QuantizeNormalize(f.pixels[i]);
      }
    }
    m
  }

  /** Every channel of a float pixel lies in 0..1. */
  predicate InUnitCube(p: BgrF)
  {
    0.0 <= p.b <= 1.0 && 0.0 <= p.g <= 1.0 && 0.0 <= p.r <= 1.0
  }

  /** cvtColor(COLOR_BGR2HSV) on a normalized float frame. */
  function ToHsv(m: seq<BgrF>, toHsv: BgrF -> Hsv): (r: seq<Hsv>)
    ensures |r| == |m|
    ensures forall i :: 0 <= i < |m| ==> r[i] == toHsv(m[i])
  {
    seq(|m|, i requires 0 <= i < |m| => toHsv(m[i]))
  }

  /** cv::inRange: 255 where every channel lies within the bounds, 0 elsewhere. */
  function InRange(m: seq<Hsv>, lower: Hsv, upper: Hsv): (r: seq<byte>)
    ensures |r| == |m|
    ensures forall i :: 0 <= i < |r| ==> r[i] == 0 || r[i] == 255
    ensures forall i :: 0 <= i < |r| ==> (r[i] == 255 <==> Keying.InRange(m[i], lower, upper))
  {
    seq(|m|, i requires 0 <= i < |m| => if Keying.InRange(m[i], lower, upper) then 255 else 0)
  }

  function Or(x: byte, y: byte): byte
  {
    ((x as bv8) | (y as bv8)) as int
  }

  /** On mask values (0 or 255) the bitwise or is 255 exactly when either is. */
  lemma OrOfMaskValues(x: byte, y: byte)
    requires x == 0 || x == 255
    requires y == 0 || y == 255
    ensures Or(x, y) == if x == 255 || y == 255 then 255 else 0
  {
  }

  /** cv::bitwise_or. */
  function BitwiseOr(a: seq<byte>, b: seq<byte>): (r: seq<byte>)
    requires |a| == |b|
    ensures |r| == |a|
    ensures forall i :: 0 <= i < |r| && (a[i] == 0 || a[i] == 255) && (b[i] == 0 || b[i] == 255) ==>
              r[i] == if a[i] == 255 || b[i] == 255 then 255 else 0
  {
    var r := seq(|a|, i requires 0 <= i < |a| => Or(a[i], b[i]));
    assert forall i :: 0 <= i < |r| && (a[i] == 0 || a[i] == 255) && (b[i] == 0 || b[i] == 255) ==>
             r[i] == if a[i] == 255 || b[i] == 255 then 255 else 0 by {
      forall i | 0 <= i < |r| && (a[i] == 0 || a[i] == 255) && (b[i] == 0 || b[i] == 255)
        ensures r[i] == if a[i] == 255 || b[i] == 255 then 255 else 0
      {
        OrOfMaskValues(a[i], b[i]);
      }
    }
    r
  }

  /** convertTo(CV_32F, 1.0/255) on a one-channel mask. */
  function ToUnit(m: seq<byte>): (r: seq<real>)
    ensures |r| == |m|
    ensures forall i :: 0 <= i < |r| ==> 0.0 <= r[i] <= 1.0
    ensures forall i :: 0 <= i < |r| ==> (r[i] == 0.0 <==> m[i] == 0) && (r[i] == 1.0 <==> m[i] == 255)
  {
    seq(|m|, i requires 0 <= i < |m| => Unit(m[i]))
  }

  /** cv::merge of three copies of a one-channel matrix. */
  function Merge3(m: seq<real>): (r: seq<BgrF>)
    ensures |r| == |m|
    ensures forall i :: 0 <= i < |r| ==> r[i].b == r[i].g == r[i].r == m[i]
  {
    seq(|m|, i requires 0 <= i < |m| => BgrF(m[i], m[i], m[i]))
  }

  /** cv::multiply, channel by channel. */
  function Multiply(a: seq<BgrF>, b: seq<BgrF>): (r: seq<BgrF>)
    requires |a| == |b|
    ensures |r| == |a|
  {
    seq(|a|, i requires 0 <= i < |a| => BgrF(a[i].b * b[i].b, a[i].g * b[i].g, a[i].r * b[i].r))
  }

  /** Multiplying by a mask pixel of ones keeps a pixel; by one of zeros clears it. */
  lemma MultiplyByMask(a: seq<BgrF>, b: seq<BgrF>, i: nat)
    requires |a| == |b| && i < |a|
    ensures b[i] == BgrF(1.0, 1.0, 1.0) ==> Multiply(a, b)[i] == a[i]
    ensures b[i] == BgrF(0.0, 0.0, 0.0) ==> Multiply(a, b)[i] == BgrF(0.0, 0.0, 0.0)
  {
  }

  /** convertTo(-1, -1, 1.0): every channel x becomes 1 - x. */
  function Invert(m: seq<BgrF>): (r: seq<BgrF>)
    ensures |r| == |m|
  {
    seq(|m|, i requires 0 <= i < |m| => BgrF(1.0 - m[i].b, 1.0 - m[i].g, 1.0 - m[i].r))
  }

  /** 1 − x keeps a pixel inside the unit cube and swaps the all-zero and all-one pixels. */
  lemma InvertPixel(m: seq<BgrF>, i: nat)
    requires i < |m|
    ensures InUnitCube(Invert(m)[i]) <==> InUnitCube(m[i])
    ensures Invert(m)[i] == BgrF(1.0, 1.0, 1.0) <==> m[i] == BgrF(0.0, 0.0, 0.0)
    ensures Invert(m)[i] == BgrF(0.0, 0.0, 0.0) <==> m[i] == BgrF(1.0, 1.0, 1.0)
  {
  }

  /** Inverting twice gives the matrix back. */
  lemma InvertInvolution(m: seq<BgrF>)
    ensures Invert(Invert(m)) == m
  {
    assert forall i :: 0 <= i < |m| ==> Invert(Invert(m))[i] == m[i];
  }

  /** Matrix addition. */
  function Add(a: seq<BgrF>, b: seq<BgrF>): (r: seq<BgrF>)
    requires |a| == |b|
    ensures |r| == |a|
  {
    seq(|a|, i requires 0 <= i < |a| => BgrF(a[i].b + b[i].b, a[i].g + b[i].g, a[i].r + b[i].r))
  }

  /** Adding a zero pixel leaves the other operand's pixel. */
  lemma AddZero(a: seq<BgrF>, b: seq<BgrF>, i: nat)
    requires |a| == |b| && i < |a|
    ensures b[i] == BgrF(0.0, 0.0, 0.0) ==> Add(a, b)[i] == a[i]
    ensures a[i] == BgrF(0.0, 0.0, 0.0) ==> Add(a, b)[i] == b[i]
  {
  }

  /** Matrix addition is commutative. */
  lemma AddCommutes(a: seq<BgrF>, b: seq<BgrF>)
    requires |a| == |b|
    ensures Add(a, b) == Add(b, a)
  {
    assert forall i :: 0 <= i < |a| ==> Add(a, b)[i] == Add(b, a)[i];
  }

  /** convertTo(CV_8U, 255): scale, round and saturate into an 8-bit frame of the given size. */
  function ToBytes(size: Size, m: seq<BgrF>): (f: Frame)
    ensures f.size == size && |f.pixels| == |m|
    ensures f.Valid() <==> |m| == size.Area()
    ensures forall i :: 0 <= i < |m| && InUnitCube(m[i]) ==> NearestBytes(f.pixels[i], m[i])
  {
    var f := Frame(size, seq(|m|, i requires 0 <= i < |m| => QuantizePixel(m[i])));
    assert forall i :: 0 <= i < |m| && InUnitCube(m[i]) ==> NearestBytes(f.pixels[i], m[i]) by {
      forall i | 0 <= i < |m| && InUnitCube(m[i])
        ensures NearestBytes(f.pixels[i], m[i])
      {
        QuantizeUnitInterval(m[i].b);
        QuantizeUnitInterval(m[i].g);
        QuantizeUnitInterval(m[i].r);
      }
    }
    f
  }

  /** Each byte channel of `q` is within half a step of 255 times the channel of `p`. */
  predicate NearestBytes(q: Bgr8, p: BgrF)
  {
    && -0.5 <= q.b as real - 255.0 * p.b <= 0.5
    && -0.5 <= q.g as real - 255.0 * p.g <= 0.5
    && -0.5 <= q.r as real - 255.0 * p.r <= 0.5
  }
}
