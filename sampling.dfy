/**
 * bilinearSample: the colour of a 4-channel raster at a fractional position,
 * as the weighted mean of the four surrounding pixels.
 */
module Sampling {
  import opened Raster
  import opened RealArith

  /** The weights of the four neighbours (x0,y0), (x1,y0), (x0,y1), (x1,y1). */
  datatype Weights = Weights(w00: real, w10: real, w01: real, w11: real)

  /** Weights for fractional offsets fx, fy; they are non-negative and sum to 1. */
  function BilinearWeights(fx: real, fy: real): (wt: Weights)
    requires 0.0 <= fx < 1.0 && 0.0 <= fy < 1.0
    ensures wt.w00 >= 0.0 && wt.w10 >= 0.0 && wt.w01 >= 0.0 && wt.w11 >= 0.0
    ensures wt.w00 + wt.w10 + wt.w01 + wt.w11 == 1.0
  {
    MulNonneg(1.0 - fx, 1.0 - fy);
    MulNonneg(fx, 1.0 - fy);
    MulNonneg(1.0 - fx, fy);
    MulNonneg(fx, fy);
    Weights((1.0 - fx) * (1.0 - fy), fx * (1.0 - fy), (1.0 - fx) * fy, fx * fy)
  }

  /** Byte offsets of the red channel of the four neighbours. */
  datatype Corners = Corners(i00: int, i10: int, i01: int, i11: int)

  /**
   * x0 = floor(x) and x1 = min(x0 + 1, w - 1), x0 then clamped into [0, w - 1];
   * likewise for y. For non-negative positions all four pixels lie in the raster.
   */
  function SampleCorners(x: real, y: real, w: int, h: int): (k: Corners)
    requires w >= 1 && h >= 1 && x >= 0.0 && y >= 0.0
    ensures 0 <= k.i00 && k.i00 + 2 < w * h * 4
    ensures 0 <= k.i10 && k.i10 + 2 < w * h * 4
    ensures 0 <= k.i01 && k.i01 + 2 < w * h * 4
    ensures 0 <= k.i11 && k.i11 + 2 < w * h * 4
  {
    var fx0, fy0 := Floor(x), Floor(y);
    var x1, y1 := Min(fx0 + 1, w - 1), Min(fy0 + 1, h - 1);
    var x0, y0 := Max(0, Min(fx0, w - 1)), Max(0, Min(fy0, h - 1));
    ByteInRange(w, h, y0, x0, 2);
    ByteInRange(w, h, y0, x1, 2);
    ByteInRange(w, h, y1, x0, 2);
    ByteInRange(w, h, y1, x1, 2);
    Corners(ByteIndex(w, y0, x0, 0), ByteIndex(w, y0, x1, 0), ByteIndex(w, y1, x0, 0), ByteIndex(w, y1, x1, 0))
  }

  /** One channel: the weighted sum of the four neighbours' values of that channel. */
  function Blend(pixels: seq<Byte>, k: Corners, wt: Weights, c: int): (v: real)
    requires 0 <= c < 3
    requires 0 <= k.i00 && k.i00 + 2 < |pixels| && 0 <= k.i10 && k.i10 + 2 < |pixels|
    requires 0 <= k.i01 && k.i01 + 2 < |pixels| && 0 <= k.i11 && k.i11 + 2 < |pixels|
    requires wt.w00 >= 0.0 && wt.w10 >= 0.0 && wt.w01 >= 0.0 && wt.w11 >= 0.0
    requires wt.w00 + wt.w10 + wt.w01 + wt.w11 == 1.0
    ensures 0.0 <= v <= 255.0
  {
    var a, b, d, e := pixels[k.i00 + c] as real, pixels[k.i10 + c] as real,
                      pixels[k.i01 + c] as real, pixels[k.i11 + c] as real;
    ConvexBytes(a, b, d, e, wt.w00, wt.w10, wt.w01, wt.w11);
    a * wt.w00 + b * wt.w10 + d * wt.w01 + e * wt.w11
  }

  /** bilinearSample(pixels, x, y, w, h): red, green and blue at (x, y), each within [0, 255]. */
  function BilinearSample(pixels: seq<Byte>, x: real, y: real, w: int, h: int): (rgb: Rgb)
    requires w >= 1 && h >= 1 && |pixels| == w * h * 4
    requires x >= 0.0 && y >= 0.0
    ensures 0.0 <= rgb.r <= 255.0 && 0.0 <= rgb.g <= 255.0 && 0.0 <= rgb.b <= 255.0
  {
    var k := SampleCorners(x, y, w, h);
    var wt := BilinearWeights(x - Floor(x) as real, y - Floor(y) as real);
    Rgb(Blend(pixels, k, wt, 0), Blend(pixels, k, wt, 1), Blend(pixels, k, wt, 2))
  }

  /** At a whole-pixel position inside the raster the sampler returns that pixel's colour exactly. */
  lemma SampleAtPixel(pixels: seq<Byte>, x: int, y: int, w: int, h: int)
    requires w >= 1 && h >= 1 && |pixels| == w * h * 4
    requires 0 <= x <= w - 1 && 0 <= y <= h - 1
    ensures var i := ByteIndex(w, y, x, 0);
      BilinearSample(pixels, x as real, y as real, w, h) ==
        Rgb(pixels[i] as real, pixels[i + 1] as real, pixels[i + 2] as real)
  {
    ByteInRange(w, h, y, x, 2);
    assert Floor(x as real) == x && Floor(y as real) == y;
    var wt := BilinearWeights(0.0, 0.0);
    assert wt == Weights(1.0, 0.0, 0.0, 0.0);
  }
}
