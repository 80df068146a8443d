/**
 * createBackgroundPlate: a copy of the frame in which the person has been
 * painted over with background, in three passes.
 *
 *  1. Inpaint: in every row that holds a person pixel, the span from the
 *     person's leftmost column minus the expand radius to the rightmost column
 *     plus the radius (clamped to the row) is repainted with a horizontal
 *     gradient between the mean background colour just left of the span and
 *     the mean background colour just right of it; its alpha becomes 255.
 *  2. Blend: every person pixel takes the 50/50 mean of its pass-1 colour and
 *     a weighted mean of the background pixels up to 20 rows above and below.
 *  3. Smooth: every person pixel off the border is replaced by a 0.4/0.15
 *     weighted mean of itself and its four neighbours in the pass-2 image.
 *
 * Channel arithmetic is exact (reals); each store rounds and clamps as a
 * Uint8ClampedArray does (`ToByte`).
 */
module Plate {
  import opened Raster
  import opened MaskUtil
  import opened RealArith

  /** How many columns either side of the fill span are sampled for its end colours. */
  const SampleRange: int := 30

  /** How many rows above and below a person pixel pass 2 looks at. */
  const VRange: int := 20

  // -------------------------------------------------------------------------
  // Pass 1: horizontal inpainting
  // -------------------------------------------------------------------------

  /** Sum of channel c over the background pixels (mask exactly 0) of row y in columns [lo, hi). */
  function EdgeSum(src: seq<Byte>, mask: seq<int>, w: nat, h: nat, y: int, lo: int, hi: int, c: int): real
    requires |src| == w * h * 4 && |mask| == w * h && 0 <= y < h && 0 <= lo && hi <= w && 0 <= c < 4
    decreases hi - lo
  {
    if hi <= lo then 0.0
    else
      EdgeSum(src, mask, w, h, y, lo, hi - 1, c)
      + (if PixelOf(mask, w, h, y, hi - 1) == 0 then ChannelOf(src, w, h, y, hi - 1, c) as real else 0.0)
  }

  /** Number of background pixels (mask exactly 0) of row y in columns [lo, hi). */
  function EdgeCount(mask: seq<int>, w: nat, h: nat, y: int, lo: int, hi: int): nat
    requires |mask| == w * h && 0 <= y < h && 0 <= lo && hi <= w
    decreases hi - lo
  {
    if hi <= lo then 0
    else EdgeCount(mask, w, h, y, lo, hi - 1) + (if PixelOf(mask, w, h, y, hi - 1) == 0 then 1 else 0)
  }

  /** A sum of n channel values lies in [0, 255 n]. */
  lemma {:induction false} EdgeSumBounds(src: seq<Byte>, mask: seq<int>, w: nat, h: nat, y: int, lo: int, hi: int, c: int)
    requires |src| == w * h * 4 && |mask| == w * h && 0 <= y < h && 0 <= lo && hi <= w && 0 <= c < 4
    ensures 0.0 <= EdgeSum(src, mask, w, h, y, lo, hi, c) <= 255.0 * EdgeCount(mask, w, h, y, lo, hi) as real
    decreases hi - lo
  {
    if lo < hi {
      EdgeSumBounds(src, mask, w, h, y, lo, hi - 1, c);
    }
  }

  /**
   * The end colour of a fill span: the mean colour of the background pixels of
   * row y in columns [lo, hi), or the colour of column `fallback` when there are none.
   */
  function EdgeColour(src: seq<Byte>, mask: seq<int>, w: nat, h: nat, y: int, lo: int, hi: int, fallback: int): (col: Rgb)
    requires |src| == w * h * 4 && |mask| == w * h && 0 <= y < h && 0 <= lo && hi <= w && 0 <= fallback < w
  {
    var n := EdgeCount(mask, w, h, y, lo, hi);
    if n > 0 then
      Rgb(EdgeSum(src, mask, w, h, y, lo, hi, 0) / n as real,
          EdgeSum(src, mask, w, h, y, lo, hi, 1) / n as real,
          EdgeSum(src, mask, w, h, y, lo, hi, 2) / n as real)
    else
      Rgb(ChannelOf(src, w, h, y, fallback, 0) as real,
          ChannelOf(src, w, h, y, fallback, 1) as real,
          ChannelOf(src, w, h, y, fallback, 2) as real)
  }

  /** Every channel of a colour lies in [0, 255]. */
  predicate ByteColour(col: Rgb)
  {
    forall c | 0 <= c < 3 :: 0.0 <= col.Channel(c) <= 255.0
  }

  lemma MeanOfBytes(sum: real, n: nat)
    requires n > 0 && 0.0 <= sum <= 255.0 * n as real
    ensures 0.0 <= sum / n as real <= 255.0
  {
  }

  /** An end colour is always a colour of bytes. */
  lemma EdgeColourBounds(src: seq<Byte>, mask: seq<int>, w: nat, h: nat, y: int, lo: int, hi: int, fallback: int)
    requires |src| == w * h * 4 && |mask| == w * h && 0 <= y < h && 0 <= lo && hi <= w && 0 <= fallback < w
    ensures ByteColour(EdgeColour(src, mask, w, h, y, lo, hi, fallback))
  {
    var n := EdgeCount(mask, w, h, y, lo, hi);
    if n > 0 {
      forall c | 0 <= c < 3
        ensures 0.0 <= EdgeSum(src, mask, w, h, y, lo, hi, c) / n as real <= 255.0
      {
        EdgeSumBounds(src, mask, w, h, y, lo, hi, c);
        MeanOfBytes(EdgeSum(src, mask, w, h, y, lo, hi, c), n);
      }
    }
  }

  /** The repaint plan of one row: the fill span [left, right] and its two end colours. */
  datatype Fill = Fill(left: int, right: int, leftColour: Rgb, rightColour: Rgb)

  /**
   * The plan for row y, or None when the row holds no person pixel. The span is
   * the person extent widened by `radius` each side and clamped to the row; the
   * left colour samples up to 30 columns left of it (falling back to the column
   * just left of it, or column 0), the right colour up to 30 columns right of it
   * (falling back to the column just right of it, or column w - 1).
   */
  function RowFill(src: seq<Byte>, mask: seq<int>, w: nat, h: nat, radius: nat, y: int): (f: Option<Fill>)
    requires |src| == w * h * 4 && |mask| == w * h && 0 <= y < h
    ensures f.Some? ==> 0 <= f.value.left <= f.value.right < w
  {
    var e := RowExtent(mask, w, h, y);
    if e.0 == -1 then None
    else
      var fl, fr := Max(0, e.0 - radius), Min(w - 1, e.1 + radius);
      Some(Fill(fl, fr,
        EdgeColour(src, mask, w, h, y, Max(0, fl - SampleRange), fl, Max(0, fl - 1)),
        EdgeColour(src, mask, w, h, y, fr + 1, Min(w - 1, fr + SampleRange) + 1, Min(w - 1, fr + 1))))
  }

  /** Linear interpolation from a (t = 0) to b (t = 1). */
  function Lerp(a: real, b: real, t: real): (v: real)
    ensures t == 0.0 ==> v == a
    ensures t == 1.0 ==> v == b
  {
    a * (1.0 - t) + b * t
  }

  /** Pass 1 repaints pixel (x, y): its row has a plan whose span is wider than one pixel and holds x. */
  predicate Repainted(src: seq<Byte>, mask: seq<int>, w: nat, h: nat, radius: nat, y: int, x: int)
    requires |src| == w * h * 4 && |mask| == w * h && 0 <= y < h
  {
    var f := RowFill(src, mask, w, h, radius, y);
    f.Some? && f.value.left < f.value.right && f.value.left <= x <= f.value.right
  }

  /** Channel c of pixel (x, y) after pass 1. */
  function InpaintValue(src: seq<Byte>, mask: seq<int>, w: nat, h: nat, radius: nat, y: int, x: int, c: int): Byte
    requires |src| == w * h * 4 && |mask| == w * h && InRaster(w, h, y, x, c)
  {
    if !Repainted(src, mask, w, h, radius, y, x) then ChannelOf(src, w, h, y, x, c)
    else if c == 3 then 255
    else
      var f := RowFill(src, mask, w, h, radius, y).value;
      var t := (x - f.left) as real / (f.right - f.left) as real;
      ToByte(Lerp(f.leftColour.Channel(c), f.rightColour.Channel(c), t))
  }

  /** The pass-1 image. */
  function Inpaint(src: seq<Byte>, mask: seq<int>, w: nat, h: nat, radius: nat): (bg: seq<Byte>)
    requires |src| == w * h * 4 && |mask| == w * h
    ensures |bg| == |src|
  {
    seq(|src|, i requires 0 <= i < |src| =>
      ByteDecomposes(w, h, i);
      InpaintValue(src, mask, w, h, radius, ByteRow(w, i), ByteCol(w, i), ByteChannel(i)))
  }

  // -------------------------------------------------------------------------
  // Pass 2: vertical blending
  // -------------------------------------------------------------------------

  /** Weight of the sample dy rows away: 1 - |dy| / 20, so the rows 20 away weigh nothing. */
  function Weight(dy: int): real
  {
    1.0 - (if dy < 0 then -dy else dy) as real / VRange as real
  }

  /** Whether row y + dy of column x is a background pixel inside the raster. */
  predicate VSampled(mask: seq<int>, w: nat, h: nat, y: int, x: int, dy: int)
    requires |mask| == w * h && 0 <= x < w
  {
    0 <= y + dy < h && PixelOf(mask, w, h, y + dy, x) == 0
  }

  /** What row y + dy adds to the weighted sum of channel c: its weighted value when sampled, else nothing. */
  function VSample(src: seq<Byte>, mask: seq<int>, w: nat, h: nat, y: int, x: int, c: int, dy: int): real
    requires |src| == w * h * 4 && |mask| == w * h && 0 <= x < w && 0 <= c < 4
  {
    if VSampled(mask, w, h, y, x, dy) then Mul(ChannelOf(src, w, h, y + dy, x, c) as real, Weight(dy)) else 0.0
  }

  /** Weighted sum of channel c over the background pixels of column x at rows y + dy, dy in [lo, hi). */
  function VSum(src: seq<Byte>, mask: seq<int>, w: nat, h: nat, y: int, x: int, c: int, lo: int, hi: int): real
    requires |src| == w * h * 4 && |mask| == w * h && 0 <= x < w && 0 <= c < 4
    decreases hi - lo
  {
    if hi <= lo then 0.0
    else VSum(src, mask, w, h, y, x, c, lo, hi - 1) + VSample(src, mask, w, h, y, x, c, hi - 1)
  }

  /** Total weight of the background pixels of column x at rows y + dy, dy in [lo, hi). */
  function VWeight(mask: seq<int>, w: nat, h: nat, y: int, x: int, lo: int, hi: int): real
    requires |mask| == w * h && 0 <= x < w
    decreases hi - lo
  {
    if hi <= lo then 0.0
    else VWeight(mask, w, h, y, x, lo, hi - 1) + (if VSampled(mask, w, h, y, x, hi - 1) then Weight(hi - 1) else 0.0)
  }

  /** The rows looked at: 20 above (dy in [-20, 0)) and 20 below (dy in [1, 21)). */
  function ColumnSum(src: seq<Byte>, mask: seq<int>, w: nat, h: nat, y: int, x: int, c: int): real
    requires |src| == w * h * 4 && |mask| == w * h && 0 <= x < w && 0 <= c < 4
  {
    VSum(src, mask, w, h, y, x, c, -VRange, 0) + VSum(src, mask, w, h, y, x, c, 1, VRange + 1)
  }

  function ColumnWeight(mask: seq<int>, w: nat, h: nat, y: int, x: int): real
    requires |mask| == w * h && 0 <= x < w
  {
    VWeight(mask, w, h, y, x, -VRange, 0) + VWeight(mask, w, h, y, x, 1, VRange + 1)
  }

  /** Channel c of pixel (x, y) after pass 2, given the pass-1 image bg. */
  function BlendValue(src: seq<Byte>, bg: seq<Byte>, mask: seq<int>, w: nat, h: nat, y: int, x: int, c: int): Byte
    requires |src| == w * h * 4 && |bg| == w * h * 4 && |mask| == w * h && InRaster(w, h, y, x, c)
  {
    var tw := ColumnWeight(mask, w, h, y, x);
    if PixelOf(mask, w, h, y, x) == 1 && c < 3 && tw > 0.0 then
      ToByte(ChannelOf(bg, w, h, y, x, c) as real * 0.5 + ColumnSum(src, mask, w, h, y, x, c) / tw * 0.5)
    else ChannelOf(bg, w, h, y, x, c)
  }

  /** The pass-2 image. */
  function Blend(src: seq<Byte>, bg: seq<Byte>, mask: seq<int>, w: nat, h: nat): (b: seq<Byte>)
    requires |src| == w * h * 4 && |bg| == w * h * 4 && |mask| == w * h
    ensures |b| == |bg|
  {
    seq(|bg|, i requires 0 <= i < |bg| =>
      ByteDecomposes(w, h, i);
      BlendValue(src, bg, mask, w, h, ByteRow(w, i), ByteCol(w, i), ByteChannel(i)))
  }

  // -------------------------------------------------------------------------
  // Pass 3: smoothing
  // -------------------------------------------------------------------------

  /** A pixel with all four neighbours inside the raster. */
  predicate Interior(w: int, h: int, y: int, x: int)
  {
    1 <= y < h - 1 && 1 <= x < w - 1
  }

  /** Channel c of pixel (x, y) after pass 3, given the pass-2 image b. */
  function SmoothValue(b: seq<Byte>, mask: seq<int>, w: nat, h: nat, y: int, x: int, c: int): Byte
    requires |b| == w * h * 4 && |mask| == w * h && InRaster(w, h, y, x, c)
  {
    if Interior(w, h, y, x) && PixelOf(mask, w, h, y, x) == 1 && c < 3 then
      ToByte(ChannelOf(b, w, h, y, x, c) as real * 0.4
        + ChannelOf(b, w, h, y - 1, x, c) as real * 0.15
        + ChannelOf(b, w, h, y + 1, x, c) as real * 0.15
        + ChannelOf(b, w, h, y, x - 1, c) as real * 0.15
        + ChannelOf(b, w, h, y, x + 1, c) as real * 0.15)
    else ChannelOf(b, w, h, y, x, c)
  }

  /** The pass-3 image. */
  function Smooth(b: seq<Byte>, mask: seq<int>, w: nat, h: nat): (s: seq<Byte>)
    requires |b| == w * h * 4 && |mask| == w * h
    ensures |s| == |b|
  {
    seq(|b|, i requires 0 <= i < |b| =>
      ByteDecomposes(w, h, i);
      SmoothValue(b, mask, w, h, ByteRow(w, i), ByteCol(w, i), ByteChannel(i)))
  }

  /** createBackgroundPlate(src, mask, w, h, radius). */
  function BackgroundPlate(src: seq<Byte>, mask: seq<int>, w: nat, h: nat, radius: nat): (plate: seq<Byte>)
    requires |src| == w * h * 4 && |mask| == w * h
    ensures |plate| == |src|
  {
    var bg := Inpaint(src, mask, w, h, radius);
    Smooth(Blend(src, bg, mask, w, h), mask, w, h)
  }

  // -------------------------------------------------------------------------
  // The passes over arrays
  // -------------------------------------------------------------------------

  /** Every byte of the pass-3 image is SmoothValue of its pixel and channel. */
  lemma SmoothIndexed(b: seq<Byte>, mask: seq<int>, w: nat, h: nat)
    requires |b| == w * h * 4 && |mask| == w * h
    ensures forall y, x, c | InRaster(w, h, y, x, c) ::
      0 <= ByteIndex(w, y, x, c) < |b| && Smooth(b, mask, w, h)[ByteIndex(w, y, x, c)] == SmoothValue(b, mask, w, h, y, x, c)
  {
    forall y, x, c | InRaster(w, h, y, x, c)
      ensures 0 <= ByteIndex(w, y, x, c) < |b| && Smooth(b, mask, w, h)[ByteIndex(w, y, x, c)] == SmoothValue(b, mask, w, h, y, x, c)
    {
      ByteInRange(w, h, y, x, c);
    }
  }

  lemma SmoothAt(b: seq<Byte>, mask: seq<int>, w: nat, h: nat, y: int, x: int, c: int)
    requires |b| == w * h * 4 && |mask| == w * h && InRaster(w, h, y, x, c)
    ensures 0 <= ByteIndex(w, y, x, c) < |b| && Smooth(b, mask, w, h)[ByteIndex(w, y, x, c)] == SmoothValue(b, mask, w, h, y, x, c)
  {
    ByteInRange(w, h, y, x, c);
  }

  /** One smoothed colour byte of an interior person pixel, read from the pass-2 buffer b. */
  method SmoothByte(b: array<Byte>, mask: seq<int>, w: nat, h: nat, y: int, x: int, c: int) returns (v: Byte)
    requires b.Length == w * h * 4 && |mask| == w * h && 0 <= c < 3
    requires Interior(w, h, y, x) && PixelOf(mask, w, h, y, x) == 1
    ensures 0 <= ByteIndex(w, y, x, c) < b.Length
    ensures v == Smooth(b[..], mask, w, h)[ByteIndex(w, y, x, c)]
  {
    ByteInRange(w, h, y, x, c);
    ByteInRange(w, h, y - 1, x, c);
    ByteInRange(w, h, y + 1, x, c);
    ByteInRange(w, h, y, x - 1, c);
    ByteInRange(w, h, y, x + 1, c);
    v := ToByte(
      b[(y * w + x) * 4 + c] as real * 0.4 +
      b[((y - 1) * w + x) * 4 + c] as real * 0.15 +
      b[((y + 1) * w + x) * 4 + c] as real * 0.15 +
      b[(y * w + x - 1) * 4 + c] as real * 0.15 +
      b[(y * w + x + 1) * 4 + c] as real * 0.15);
    SmoothAt(b[..], mask, w, h, y, x, c);
  }

  /** The channel loop of pass 3 at an interior person pixel (x, y). */
  method SmoothPixel(b: array<Byte>, mask: seq<int>, w: nat, h: nat, y: int, x: int, dst: array<Byte>)
    requires b != dst && b.Length == w * h * 4 && dst.Length == w * h * 4 && |mask| == w * h
    requires Interior(w, h, y, x) && PixelOf(mask, w, h, y, x) == 1
    requires ScannedUpTo(dst[..], Smooth(b[..], mask, w, h), b[..], w, h, y, x, 0)
    modifies dst
    ensures ScannedUpTo(dst[..], Smooth(b[..], mask, w, h), b[..], w, h, y, x + 1, 0)
  {
    ghost var s := b[..];
    ghost var target := Smooth(s, mask, w, h);
    var c := 0;
    while c < 3
      invariant 0 <= c <= 3
      invariant ScannedUpTo(dst[..], target, s, w, h, y, x, c)
    {
      var v := SmoothByte(b, mask, w, h, y, x, c);
      ScanWrite(dst[..], target, s, w, h, y, x, c);
      dst[(y * w + x) * 4 + c] := v;
      c := c + 1;
    }
    SmoothAt(s, mask, w, h, y, x, 3);
    ScanSkip(dst[..], target, s, w, h, y, x, 3, y, x + 1, 0);
  }

  /** Pass 3 over the copy `dst` of the pass-2 buffer `b`: rows 1 .. h-2, columns 1 .. w-2. */
  method SmoothFilled(b: array<Byte>, mask: seq<int>, w: nat, h: nat, dst: array<Byte>)
    requires b != dst && b.Length == w * h * 4 && dst.Length == w * h * 4 && |mask| == w * h
    requires dst[..] == b[..]
    modifies dst
    ensures dst[..] == Smooth(b[..], mask, w, h)
  {
    ghost var s := b[..];
    ghost var target := Smooth(s, mask, w, h);
    SmoothIndexed(s, mask, w, h);
    ScanStart(target, s, w, h);
    ScanSkip(dst[..], target, s, w, h, 0, 0, 0, 1, 0, 0);
    var y := 1;
    while y < h - 1
      invariant 1 <= y
      invariant ScannedUpTo(dst[..], target, s, w, h, y, 0, 0)
    {
      ScanSkip(dst[..], target, s, w, h, y, 0, 0, y, 1, 0);
      var x := 1;
      while x < w - 1
        invariant 1 <= x
        invariant ScannedUpTo(dst[..], target, s, w, h, y, x, 0)
      {
        PixelInRange(w, h, y, x);
        if mask[y * w + x] == 1 {
          SmoothPixel(b, mask, w, h, y, x, dst);
        } else {
          ScanSkip(dst[..], target, s, w, h, y, x, 0, y, x + 1, 0);
        }
        x := x + 1;
      }
      ScanSkip(dst[..], target, s, w, h, y, x, 0, y + 1, 0, 0);
      y := y + 1;
    }
    ScanSkip(dst[..], target, s, w, h, y, 0, 0, Max(y, h), 0, 0);
    ScanDone(dst[..], target, s, w, h, Max(y, h));
  }

  // Pass 2 -----------------------------------------------------------------

  lemma BlendAt(src: seq<Byte>, bg: seq<Byte>, mask: seq<int>, w: nat, h: nat, y: int, x: int, c: int)
    requires |src| == w * h * 4 && |bg| == w * h * 4 && |mask| == w * h && InRaster(w, h, y, x, c)
    ensures 0 <= ByteIndex(w, y, x, c) < |bg|
    ensures Blend(src, bg, mask, w, h)[ByteIndex(w, y, x, c)] == BlendValue(src, bg, mask, w, h, y, x, c)
  {
    ByteInRange(w, h, y, x, c);
  }

  /** Pass 2 leaves channels c .. 3 of pixel (x, y) as they are when it has no person or no vertical sample. */
  lemma BlendKeeps(src: seq<Byte>, bg: seq<Byte>, mask: seq<int>, w: nat, h: nat, y: int, x: int, c: int)
    requires |src| == w * h * 4 && |bg| == w * h * 4 && |mask| == w * h && 0 <= y < h && 0 <= x < w && 0 <= c <= 4
    requires c == 3 || PixelOf(mask, w, h, y, x) != 1 || ColumnWeight(mask, w, h, y, x) <= 0.0
    ensures SameBetween(Blend(src, bg, mask, w, h), bg, w, h, y, x, c, y, x + 1, 0)
  {
    ByteIndices(w, h);
    forall yy, xx, cc | InRaster(w, h, yy, xx, cc) && ScannedBefore(yy, xx, cc, y, x + 1, 0) && !ScannedBefore(yy, xx, cc, y, x, c)
      ensures Blend(src, bg, mask, w, h)[ByteIndex(w, yy, xx, cc)] == bg[ByteIndex(w, yy, xx, cc)]
    {
      assert yy == y && xx == x;
      BlendAt(src, bg, mask, w, h, y, x, cc);
    }
  }

  /** One more row dy of the sampling loops: what it adds to each sum, read off the buffers. */
  lemma VSumStep(src: seq<Byte>, mask: seq<int>, w: nat, h: nat, y: int, x: int, lo: int, dy: int)
    requires |src| == w * h * 4 && |mask| == w * h && 0 <= x < w && lo <= dy
    ensures forall c | 0 <= c < 3 ::
      VSum(src, mask, w, h, y, x, c, lo, dy + 1) == VSum(src, mask, w, h, y, x, c, lo, dy) + VSample(src, mask, w, h, y, x, c, dy)
    ensures VWeight(mask, w, h, y, x, lo, dy + 1) == VWeight(mask, w, h, y, x, lo, dy) + (if VSampled(mask, w, h, y, x, dy) then Weight(dy) else 0.0)
    ensures 0 <= y + dy < h ==> 0 <= (y + dy) * w + x < w * h && (y + dy) * w + x + 2 < w * h * 4 && 0 <= ((y + dy) * w + x) * 4
    ensures VSampled(mask, w, h, y, x, dy) ==> forall c | 0 <= c < 3 ::
      VSample(src, mask, w, h, y, x, c, dy) == Mul(src[((y + dy) * w + x) * 4 + c] as real, Weight(dy))
    ensures !VSampled(mask, w, h, y, x, dy) ==> forall c | 0 <= c < 3 :: VSample(src, mask, w, h, y, x, c, dy) == 0.0
  {
    if 0 <= y + dy < h {
      PixelInRange(w, h, y + dy, x);
      ByteInRange(w, h, y + dy, x, 3);
    }
  }

  /** The first sampling loop of pass 2: the 20 rows above (x, y), dy in [-20, 0). */
  method SampleAbove(src: seq<Byte>, mask: seq<int>, w: nat, h: nat, y: int, x: int) returns (t: Rgb, total: real)
    requires |src| == w * h * 4 && |mask| == w * h && 0 <= y < h && 0 <= x < w
    ensures total == VWeight(mask, w, h, y, x, -VRange, 0)
    ensures t.r == VSum(src, mask, w, h, y, x, 0, -VRange, 0)
    ensures t.g == VSum(src, mask, w, h, y, x, 1, -VRange, 0)
    ensures t.b == VSum(src, mask, w, h, y, x, 2, -VRange, 0)
  {
    var tR, tG, tB, tCount := 0.0, 0.0, 0.0, 0.0;
    var dy := -VRange;
    while dy < 0
      invariant -VRange <= dy <= 0
      invariant tR == VSum(src, mask, w, h, y, x, 0, -VRange, dy)
      invariant tG == VSum(src, mask, w, h, y, x, 1, -VRange, dy)
      invariant tB == VSum(src, mask, w, h, y, x, 2, -VRange, dy)
      invariant tCount == VWeight(mask, w, h, y, x, -VRange, dy)
    {
      var ny := y + dy;
      VSumStep(src, mask, w, h, y, x, -VRange, dy);
      if ny >= 0 {
        PixelInRange(w, h, ny, x);
      }
      if ny >= 0 && mask[ny * w + x] == 0 {
        var idx := (ny * w + x) * 4;
        var weight := Weight(dy);
        tR := tR + Mul(src[idx] as real, weight);
        tG := tG + Mul(src[idx + 1] as real, weight);
        tB := tB + Mul(src[idx + 2] as real, weight);
        tCount := tCount + weight;
      }
      dy := dy + 1;
    }
    t, total := Rgb(tR, tG, tB), tCount;
  }

  /** The second sampling loop of pass 2: the 20 rows below (x, y), dy in [1, 21). */
  method SampleBelow(src: seq<Byte>, mask: seq<int>, w: nat, h: nat, y: int, x: int) returns (t: Rgb, total: real)
    requires |src| == w * h * 4 && |mask| == w * h && 0 <= y < h && 0 <= x < w
    ensures total == VWeight(mask, w, h, y, x, 1, VRange + 1)
    ensures t.r == VSum(src, mask, w, h, y, x, 0, 1, VRange + 1)
    ensures t.g == VSum(src, mask, w, h, y, x, 1, 1, VRange + 1)
    ensures t.b == VSum(src, mask, w, h, y, x, 2, 1, VRange + 1)
  {
    var tR, tG, tB, tCount := 0.0, 0.0, 0.0, 0.0;
    var dy := 1;
    while dy <= VRange
      invariant 1 <= dy <= VRange + 1
      invariant tR == VSum(src, mask, w, h, y, x, 0, 1, dy)
      invariant tG == VSum(src, mask, w, h, y, x, 1, 1, dy)
      invariant tB == VSum(src, mask, w, h, y, x, 2, 1, dy)
      invariant tCount == VWeight(mask, w, h, y, x, 1, dy)
    {
      var ny := y + dy;
      VSumStep(src, mask, w, h, y, x, 1, dy);
      if ny < h {
        PixelInRange(w, h, ny, x);
      }
      if ny < h && mask[ny * w + x] == 0 {
        var idx := (ny * w + x) * 4;
        var weight := Weight(dy);
        tR := tR + Mul(src[idx] as real, weight);
        tG := tG + Mul(src[idx + 1] as real, weight);
        tB := tB + Mul(src[idx + 2] as real, weight);
        tCount := tCount + weight;
      }
      dy := dy + 1;
    }
    t, total := Rgb(tR, tG, tB), tCount;
  }

  /** Both sampling loops of pass 2 at (x, y): weighted channel sums and their total weight. */
  method ColumnSample(src: seq<Byte>, mask: seq<int>, w: nat, h: nat, y: int, x: int) returns (t: Rgb, total: real)
    requires |src| == w * h * 4 && |mask| == w * h && 0 <= y < h && 0 <= x < w
    ensures total == ColumnWeight(mask, w, h, y, x)
    ensures forall c | 0 <= c < 3 :: t.Channel(c) == ColumnSum(src, mask, w, h, y, x, c)
  {
    var above, aw := SampleAbove(src, mask, w, h, y, x);
    var below, bw := SampleBelow(src, mask, w, h, y, x);
    t, total := Rgb(above.r + below.r, above.g + below.g, above.b + below.b), aw + bw;
  }

  /** Channels 0 .. 2 of a person pixel with vertical samples: the 50/50 mean of its pass-1 value and the column mean. */
  lemma BlendMixes(src: seq<Byte>, bg: seq<Byte>, mask: seq<int>, w: nat, h: nat, y: int, x: int, t: Rgb, total: real)
    requires |src| == w * h * 4 && |bg| == w * h * 4 && |mask| == w * h && 0 <= y < h && 0 <= x < w
    requires PixelOf(mask, w, h, y, x) == 1 && total == ColumnWeight(mask, w, h, y, x) && total > 0.0
    requires forall c | 0 <= c < 3 :: t.Channel(c) == ColumnSum(src, mask, w, h, y, x, c)
    ensures 0 <= ByteIndex(w, y, x, 0) && ByteIndex(w, y, x, 3) < |bg|
    ensures Blend(src, bg, mask, w, h)[ByteIndex(w, y, x, 0)] == ToByte(bg[ByteIndex(w, y, x, 0)] as real * 0.5 + t.r / total * 0.5)
    ensures Blend(src, bg, mask, w, h)[ByteIndex(w, y, x, 1)] == ToByte(bg[ByteIndex(w, y, x, 1)] as real * 0.5 + t.g / total * 0.5)
    ensures Blend(src, bg, mask, w, h)[ByteIndex(w, y, x, 2)] == ToByte(bg[ByteIndex(w, y, x, 2)] as real * 0.5 + t.b / total * 0.5)
  {
    ByteInRange(w, h, y, x, 3);
    assert t.Channel(0) == t.r && t.Channel(1) == t.g && t.Channel(2) == t.b;
    BlendAt(src, bg, mask, w, h, y, x, 0);
    BlendAt(src, bg, mask, w, h, y, x, 1);
    BlendAt(src, bg, mask, w, h, y, x, 2);
  }

  /** Pass 2 at a person pixel (x, y): sample the column, then blend 50/50 when any weight was found. */
  method BlendPixel(src: seq<Byte>, bg: array<Byte>, mask: seq<int>, w: nat, h: nat, y: int, x: int, dst: array<Byte>)
    requires bg != dst && |src| == w * h * 4 && bg.Length == w * h * 4 && dst.Length == w * h * 4 && |mask| == w * h
    requires 0 <= y < h && 0 <= x < w && PixelOf(mask, w, h, y, x) == 1
    requires ScannedUpTo(dst[..], Blend(src, bg[..], mask, w, h), bg[..], w, h, y, x, 0)
    modifies dst
    ensures ScannedUpTo(dst[..], Blend(src, bg[..], mask, w, h), bg[..], w, h, y, x + 1, 0)
  {
    ghost var base := bg[..];
    ghost var target := Blend(src, base, mask, w, h);
    var t, tCount := ColumnSample(src, mask, w, h, y, x);
    if tCount > 0.0 {
      var idx := (y * w + x) * 4;
      ByteInRange(w, h, y, x, 2);
      var hR, hG, hB := bg[idx], bg[idx + 1], bg[idx + 2];
      var vR, vG, vB := t.r / tCount, t.g / tCount, t.b / tCount;
      BlendMixes(src, base, mask, w, h, y, x, t, tCount);
      ScanWrite(dst[..], target, base, w, h, y, x, 0);
      dst[idx] := ToByte(hR as real * 0.5 + vR * 0.5);
      ScanWrite(dst[..], target, base, w, h, y, x, 1);
      dst[idx + 1] := ToByte(hG as real * 0.5 + vG * 0.5);
      ScanWrite(dst[..], target, base, w, h, y, x, 2);
      dst[idx + 2] := ToByte(hB as real * 0.5 + vB * 0.5);
      BlendKeeps(src, base, mask, w, h, y, x, 3);
      ScanSkip(dst[..], target, base, w, h, y, x, 3, y, x + 1, 0);
    } else {
      BlendKeeps(src, base, mask, w, h, y, x, 0);
      ScanSkip(dst[..], target, base, w, h, y, x, 0, y, x + 1, 0);
    }
  }

  /** Pass 2 over the copy `dst` of the pass-1 buffer `bg`. */
  method BlendVertical(src: seq<Byte>, bg: array<Byte>, mask: seq<int>, w: nat, h: nat, dst: array<Byte>)
    requires bg != dst && |src| == w * h * 4 && bg.Length == w * h * 4 && dst.Length == w * h * 4 && |mask| == w * h
    requires dst[..] == bg[..]
    modifies dst
    ensures dst[..] == Blend(src, bg[..], mask, w, h)
  {
    ghost var base := bg[..];
    ghost var target := Blend(src, base, mask, w, h);
    ScanStart(target, base, w, h);
    var y := 0;
    while y < h
      invariant 0 <= y <= h
      invariant ScannedUpTo(dst[..], target, base, w, h, y, 0, 0)
    {
      var x := 0;
      while x < w
        invariant 0 <= x <= w
        invariant ScannedUpTo(dst[..], target, base, w, h, y, x, 0)
      {
        PixelInRange(w, h, y, x);
        if mask[y * w + x] != 1 {
          BlendKeeps(src, base, mask, w, h, y, x, 0);
          ScanSkip(dst[..], target, base, w, h, y, x, 0, y, x + 1, 0);
        } else {
          BlendPixel(src, bg, mask, w, h, y, x, dst);
        }
        x := x + 1;
      }
      ScanSkip(dst[..], target, base, w, h, y, x, 0, y + 1, 0, 0);
      y := y + 1;
    }
    ScanDone(dst[..], target, base, w, h, y);
  }

  // Pass 1 -----------------------------------------------------------------

  lemma InpaintAt(src: seq<Byte>, mask: seq<int>, w: nat, h: nat, radius: nat, y: int, x: int, c: int)
    requires |src| == w * h * 4 && |mask| == w * h && InRaster(w, h, y, x, c)
    ensures 0 <= ByteIndex(w, y, x, c) < |src|
    ensures Inpaint(src, mask, w, h, radius)[ByteIndex(w, y, x, c)] == InpaintValue(src, mask, w, h, radius, y, x, c)
  {
    ByteInRange(w, h, y, x, c);
  }

  /** Pass 1 leaves the pixels of row y in columns [x0, x1) as they are when it repaints none of them. */
  lemma InpaintKeeps(src: seq<Byte>, mask: seq<int>, w: nat, h: nat, radius: nat, y: int, x0: int, x1: int)
    requires |src| == w * h * 4 && |mask| == w * h && 0 <= y < h && 0 <= x0 <= x1 <= w
    requires forall x | x0 <= x < x1 :: !Repainted(src, mask, w, h, radius, y, x)
    ensures SameBetween(Inpaint(src, mask, w, h, radius), src, w, h, y, x0, 0, y, x1, 0)
    ensures x1 == w ==> SameBetween(Inpaint(src, mask, w, h, radius), src, w, h, y, x0, 0, y + 1, 0, 0)
  {
    ByteIndices(w, h);
    forall xx, cc | x0 <= xx < x1 && 0 <= cc < 4
      ensures Inpaint(src, mask, w, h, radius)[ByteIndex(w, y, xx, cc)] == src[ByteIndex(w, y, xx, cc)]
    {
      InpaintAt(src, mask, w, h, radius, y, xx, cc);
    }
  }

  /** One more column i of an edge-sampling loop: what it adds to the sums and the count. */
  lemma EdgeSumStep(src: seq<Byte>, mask: seq<int>, w: nat, h: nat, y: int, lo: int, i: int)
    requires |src| == w * h * 4 && |mask| == w * h && 0 <= y < h && 0 <= lo <= i < w
    ensures 0 <= y * w + i < w * h && 0 <= (y * w + i) * 4 && (y * w + i) * 4 + 3 < |src|
    ensures mask[y * w + i] == 0 ==>
      && EdgeCount(mask, w, h, y, lo, i + 1) == EdgeCount(mask, w, h, y, lo, i) + 1
      && forall c | 0 <= c < 3 :: EdgeSum(src, mask, w, h, y, lo, i + 1, c) == EdgeSum(src, mask, w, h, y, lo, i, c) + src[(y * w + i) * 4 + c] as real
    ensures mask[y * w + i] != 0 ==>
      && EdgeCount(mask, w, h, y, lo, i + 1) == EdgeCount(mask, w, h, y, lo, i)
      && forall c | 0 <= c < 3 :: EdgeSum(src, mask, w, h, y, lo, i + 1, c) == EdgeSum(src, mask, w, h, y, lo, i, c)
  {
    PixelInRange(w, h, y, i);
    ByteInRange(w, h, y, i, 3);
  }

  /**
   * An edge-sampling loop of pass 1: the mean colour of the background pixels
   * of row y in columns [lo, hi), or the colour of column `fallback` when there are none.
   */
  method EdgeSample(src: seq<Byte>, mask: seq<int>, w: nat, h: nat, y: int, lo: int, hi: int, fallback: int) returns (col: Rgb)
    requires |src| == w * h * 4 && |mask| == w * h && 0 <= y < h && 0 <= lo <= hi <= w && 0 <= fallback < w
    ensures col == EdgeColour(src, mask, w, h, y, lo, hi, fallback)
  {
    var sR, sG, sB, count := 0.0, 0.0, 0.0, 0;
    var i := lo;
    while i < hi
      invariant lo <= i <= hi
      invariant sR == EdgeSum(src, mask, w, h, y, lo, i, 0)
      invariant sG == EdgeSum(src, mask, w, h, y, lo, i, 1)
      invariant sB == EdgeSum(src, mask, w, h, y, lo, i, 2)
      invariant count == EdgeCount(mask, w, h, y, lo, i)
    {
      EdgeSumStep(src, mask, w, h, y, lo, i);
      if mask[y * w + i] == 0 {
        var idx := (y * w + i) * 4;
        sR := sR + src[idx] as real;
        sG := sG + src[idx + 1] as real;
        sB := sB + src[idx + 2] as real;
        count := count + 1;
      }
      i := i + 1;
    }
    if count > 0 {
      col := Rgb(sR / count as real, sG / count as real, sB / count as real);
    } else {
      ByteInRange(w, h, y, fallback, 3);
      var idx := (y * w + fallback) * 4;
      col := Rgb(src[idx] as real, src[idx + 1] as real, src[idx + 2] as real);
    }
  }

  /** The colour pass 1 gives channel c < 3 of column x of a span: the gradient at t = (x - left) / (right - left). */
  lemma GradientAt(src: seq<Byte>, mask: seq<int>, w: nat, h: nat, radius: nat, y: int, x: int, c: int, f: Fill)
    requires |src| == w * h * 4 && |mask| == w * h && InRaster(w, h, y, x, c)
    requires RowFill(src, mask, w, h, radius, y) == Some(f) && f.left < f.right && f.left <= x <= f.right
    ensures 0 <= ByteIndex(w, y, x, c) < |src|
    ensures Inpaint(src, mask, w, h, radius)[ByteIndex(w, y, x, c)] ==
      if c == 3 then 255
      else ToByte(Lerp(f.leftColour.Channel(c), f.rightColour.Channel(c), (x - f.left) as real / (f.right - f.left) as real))
  {
    InpaintAt(src, mask, w, h, radius, y, x, c);
  }

  /** One column of the gradient loop: channels 0 .. 2 from the gradient, alpha 255. */
  method FillPixel(src: seq<Byte>, mask: seq<int>, w: nat, h: nat, radius: nat, y: int, x: int, f: Fill, dst: array<Byte>)
    requires |src| == w * h * 4 && |mask| == w * h && dst.Length == w * h * 4 && 0 <= y < h
    requires RowFill(src, mask, w, h, radius, y) == Some(f) && f.left < f.right && f.left <= x <= f.right
    requires ScannedUpTo(dst[..], Inpaint(src, mask, w, h, radius), src, w, h, y, x, 0)
    modifies dst
    ensures ScannedUpTo(dst[..], Inpaint(src, mask, w, h, radius), src, w, h, y, x + 1, 0)
  {
    ghost var target := Inpaint(src, mask, w, h, radius);
    var t := (x - f.left) as real / (f.right - f.left) as real;
    var idx := (y * w + x) * 4;
    GradientAt(src, mask, w, h, radius, y, x, 0, f);
    ScanWrite(dst[..], target, src, w, h, y, x, 0);
    dst[idx] := ToByte(Lerp(f.leftColour.r, f.rightColour.r, t));
    GradientAt(src, mask, w, h, radius, y, x, 1, f);
    ScanWrite(dst[..], target, src, w, h, y, x, 1);
    dst[idx + 1] := ToByte(Lerp(f.leftColour.g, f.rightColour.g, t));
    GradientAt(src, mask, w, h, radius, y, x, 2, f);
    ScanWrite(dst[..], target, src, w, h, y, x, 2);
    dst[idx + 2] := ToByte(Lerp(f.leftColour.b, f.rightColour.b, t));
    GradientAt(src, mask, w, h, radius, y, x, 3, f);
    ScanWrite(dst[..], target, src, w, h, y, x, 3);
    dst[idx + 3] := 255;
  }

  /** The gradient loop of pass 1: columns f.left .. f.right of row y. */
  method FillSpan(src: seq<Byte>, mask: seq<int>, w: nat, h: nat, radius: nat, y: int, f: Fill, dst: array<Byte>)
    requires |src| == w * h * 4 && |mask| == w * h && dst.Length == w * h * 4 && 0 <= y < h
    requires RowFill(src, mask, w, h, radius, y) == Some(f) && f.left < f.right
    requires ScannedUpTo(dst[..], Inpaint(src, mask, w, h, radius), src, w, h, y, f.left, 0)
    modifies dst
    ensures ScannedUpTo(dst[..], Inpaint(src, mask, w, h, radius), src, w, h, y, f.right + 1, 0)
  {
    var x := f.left;
    while x <= f.right
      invariant f.left <= x <= f.right + 1
      invariant ScannedUpTo(dst[..], Inpaint(src, mask, w, h, radius), src, w, h, y, x, 0)
    {
      FillPixel(src, mask, w, h, radius, y, x, f, dst);
      x := x + 1;
    }
  }

  /** The body of pass 1 for row y: find the person extent, sample both edge colours, paint the span. */
  method InpaintRow(src: seq<Byte>, mask: seq<int>, w: nat, h: nat, radius: nat, y: int, dst: array<Byte>)
    requires |src| == w * h * 4 && |mask| == w * h && dst.Length == w * h * 4 && 0 <= y < h
    requires ScannedUpTo(dst[..], Inpaint(src, mask, w, h, radius), src, w, h, y, 0, 0)
    modifies dst
    ensures ScannedUpTo(dst[..], Inpaint(src, mask, w, h, radius), src, w, h, y + 1, 0, 0)
  {
    ghost var target := Inpaint(src, mask, w, h, radius);
    var left, right := ScanRowExtent(mask, w, h, y);
    if left == -1 {
      InpaintKeeps(src, mask, w, h, radius, y, 0, w);
      ScanSkip(dst[..], target, src, w, h, y, 0, 0, y + 1, 0, 0);
      return;
    }
    var fillLeft := Max(0, left - radius);
    var fillRight := Min(w - 1, right + radius);
    var lc := EdgeSample(src, mask, w, h, y, Max(0, fillLeft - SampleRange), fillLeft, Max(0, fillLeft - 1));
    var rc := EdgeSample(src, mask, w, h, y, fillRight + 1, Min(w - 1, fillRight + SampleRange) + 1, Min(w - 1, fillRight + 1));
    var f := Fill(fillLeft, fillRight, lc, rc);
    assert RowFill(src, mask, w, h, radius, y) == Some(f);
    var fillW := fillRight - fillLeft;
    if fillW <= 0 {
      InpaintKeeps(src, mask, w, h, radius, y, 0, w);
      ScanSkip(dst[..], target, src, w, h, y, 0, 0, y + 1, 0, 0);
      return;
    }
    InpaintKeeps(src, mask, w, h, radius, y, 0, fillLeft);
    ScanSkip(dst[..], target, src, w, h, y, 0, 0, y, fillLeft, 0);
    FillSpan(src, mask, w, h, radius, y, f, dst);
    InpaintKeeps(src, mask, w, h, radius, y, fillRight + 1, w);
    ScanSkip(dst[..], target, src, w, h, y, fillRight + 1, 0, y + 1, 0, 0);
  }

  /** Pass 1 over the copy `dst` of the source pixels. */
  method InpaintRows(src: seq<Byte>, mask: seq<int>, w: nat, h: nat, radius: nat, dst: array<Byte>)
    requires |src| == w * h * 4 && |mask| == w * h && dst.Length == w * h * 4
    requires dst[..] == src
    modifies dst
    ensures dst[..] == Inpaint(src, mask, w, h, radius)
  {
    ghost var target := Inpaint(src, mask, w, h, radius);
    ScanStart(target, src, w, h);
    var y := 0;
    while y < h
      invariant 0 <= y <= h
      invariant ScannedUpTo(dst[..], target, src, w, h, y, 0, 0)
    {
      InpaintRow(src, mask, w, h, radius, y, dst);
      y := y + 1;
    }
    ScanDone(dst[..], target, src, w, h, y);
  }

  /**
   * createBackgroundPlate: copy the frame, inpaint the person rows, blend each
   * person pixel with its column, then smooth the interior person pixels; each
   * pass writes into a fresh copy of the previous pass's buffer.
   */
  method CreateBackgroundPlate(src: seq<Byte>, mask: seq<int>, w: nat, h: nat, expandRadius: nat) returns (plate: array<Byte>)
    requires |src| == w * h * 4 && |mask| == w * h
    ensures plate[..] == BackgroundPlate(src, mask, w, h, expandRadius)
  {
    var bg := new Byte[|src|](i requires 0 <= i < |src| => src[i]);
    assert bg[..] == src;
    InpaintRows(src, mask, w, h, expandRadius, bg);
    var inpainted := bg[..];
    var blended := new Byte[|inpainted|](i requires 0 <= i < |inpainted| => inpainted[i]);
    assert blended[..] == bg[..];
    BlendVertical(src, bg, mask, w, h, blended);
    var vertical := blended[..];
    var smoothed := new Byte[|vertical|](i requires 0 <= i < |vertical| => vertical[i]);
    assert smoothed[..] == blended[..];
    SmoothFilled(blended, mask, w, h, smoothed);
    plate := smoothed;
  }

  // -------------------------------------------------------------------------
  // Properties of the plate
  // -------------------------------------------------------------------------

  /**
   * Passes 2 and 3 change only the colour channels of person pixels, and
   * pass 3 only those off the border: everything else is its input unchanged.
   */
  lemma PassesKeepBackground(src: seq<Byte>, bg: seq<Byte>, mask: seq<int>, w: nat, h: nat, y: int, x: int, c: int)
    requires |src| == w * h * 4 && |bg| == w * h * 4 && |mask| == w * h && InRaster(w, h, y, x, c)
    ensures 0 <= ByteIndex(w, y, x, c) < |bg|
    ensures PixelOf(mask, w, h, y, x) != 1 || c == 3 ==>
      Blend(src, bg, mask, w, h)[ByteIndex(w, y, x, c)] == bg[ByteIndex(w, y, x, c)]
    ensures PixelOf(mask, w, h, y, x) != 1 || c == 3 || !Interior(w, h, y, x) ==>
      Smooth(bg, mask, w, h)[ByteIndex(w, y, x, c)] == bg[ByteIndex(w, y, x, c)]
  {
    BlendAt(src, bg, mask, w, h, y, x, c);
    SmoothAt(bg, mask, w, h, y, x, c);
  }

  /**
   * Pass 1 leaves a row as it is when the row holds no person pixel or its
   * widened span is a single column (fillRight - fillLeft <= 0).
   */
  lemma InpaintSkipsRow(src: seq<Byte>, mask: seq<int>, w: nat, h: nat, radius: nat, y: int, x: int, c: int)
    requires |src| == w * h * 4 && |mask| == w * h && InRaster(w, h, y, x, c)
    requires var f := RowFill(src, mask, w, h, radius, y); f.None? || f.value.left == f.value.right
    ensures 0 <= ByteIndex(w, y, x, c) < |src|
    ensures Inpaint(src, mask, w, h, radius)[ByteIndex(w, y, x, c)] == src[ByteIndex(w, y, x, c)]
  {
    InpaintAt(src, mask, w, h, radius, y, x, c);
  }

  lemma LerpBetween(a: real, b: real, t: real)
    requires 0.0 <= t <= 1.0
    ensures a <= b ==> a <= Lerp(a, b, t) <= b
    ensures b <= a ==> b <= Lerp(a, b, t) <= a
  {
    BlendBetween(b, a, t);
  }

  /**
   * Pass 1 on a fill span wider than one column: every pixel of the span gets
   * alpha 255; its colour channels run from the rounded left sample colour at
   * column fillLeft to the rounded right sample colour at column fillRight and
   * lie between the two everywhere in between (the clamp never acts).
   */
  lemma InpaintSpan(src: seq<Byte>, mask: seq<int>, w: nat, h: nat, radius: nat, y: int, x: int, c: int, f: Fill)
    requires |src| == w * h * 4 && |mask| == w * h && InRaster(w, h, y, x, c)
    requires RowFill(src, mask, w, h, radius, y) == Some(f) && f.left < f.right && f.left <= x <= f.right
    ensures 0 <= ByteIndex(w, y, x, c) < |src|
    ensures c == 3 ==> Inpaint(src, mask, w, h, radius)[ByteIndex(w, y, x, c)] == 255
    ensures c < 3 ==>
      var v := Inpaint(src, mask, w, h, radius)[ByteIndex(w, y, x, c)];
      var lc, rc := Round(f.leftColour.Channel(c)), Round(f.rightColour.Channel(c));
      && Min(lc, rc) <= v <= Max(lc, rc)
      && (x == f.left ==> v == lc)
      && (x == f.right ==> v == rc)
  {
    GradientAt(src, mask, w, h, radius, y, x, c, f);
    if c < 3 {
      EdgeColourBounds(src, mask, w, h, y, Max(0, f.left - SampleRange), f.left, Max(0, f.left - 1));
      EdgeColourBounds(src, mask, w, h, y, f.right + 1, Min(w - 1, f.right + SampleRange) + 1, Min(w - 1, f.right + 1));
      GradientBounds(f.leftColour.Channel(c), f.rightColour.Channel(c), f.left, f.right, x);
    }
  }

  /** One gradient byte between two byte colours: between their roundings, and equal to them at the ends. */
  lemma GradientBounds(a: real, b: real, left: int, right: int, x: int)
    requires 0.0 <= a <= 255.0 && 0.0 <= b <= 255.0 && left < right && left <= x <= right
    ensures var v := ToByte(Lerp(a, b, (x - left) as real / (right - left) as real));
      && Min(Round(a), Round(b)) <= v <= Max(Round(a), Round(b))
      && (x == left ==> v == Round(a))
      && (x == right ==> v == Round(b))
  {
    var t := (x - left) as real / (right - left) as real;
    assert 0.0 <= t <= 1.0;
    LerpBetween(a, b, t);
    var l := Lerp(a, b, t);
    if a <= b {
      RoundMonotone(a, l);
      RoundMonotone(l, b);
    } else {
      RoundMonotone(b, l);
      RoundMonotone(l, a);
    }
    if x == right {
      assert t == 1.0;
    }
  }

  /**
   * The plate is byte for byte the source frame, alpha included, at every
   * pixel of a row without a person and at every pixel outside the widened
   * span [max(0, left - radius), min(w - 1, right + radius)] of a row with one.
   */
  lemma PlateKeepsOutsideSpan(src: seq<Byte>, mask: seq<int>, w: nat, h: nat, radius: nat, y: int, x: int, c: int)
    requires |src| == w * h * 4 && |mask| == w * h && InRaster(w, h, y, x, c)
    requires var e := RowExtent(mask, w, h, y);
      e.0 == -1 || x < Max(0, e.0 - radius) || x > Min(w - 1, e.1 + radius)
    ensures 0 <= ByteIndex(w, y, x, c) < |src|
    ensures BackgroundPlate(src, mask, w, h, radius)[ByteIndex(w, y, x, c)] == src[ByteIndex(w, y, x, c)]
  {
    var bg := Inpaint(src, mask, w, h, radius);
    assert !Masked(mask, w, h, y, x);
    InpaintAt(src, mask, w, h, radius, y, x, c);
    PassesKeepBackground(src, bg, mask, w, h, y, x, c);
    PassesKeepBackground(src, Blend(src, bg, mask, w, h), mask, w, h, y, x, c);
  }
}
