/**
 * The two warps that redraw the person over the background plate.
 *
 *  - warpPersonHorizontal: every row holding a person wider than two columns
 *    is stretched about the person's centre by the scale the curve gives that
 *    row; each destination column inside the stretched span samples the
 *    source frame bilinearly and is alpha-blended over the plate with the
 *    feathered mask.
 *  - warpFullWithMask: every row takes a horizontally scaled, centred strip
 *    of a remapped source row; only columns whose feathered mask reaches 0.05
 *    are blended over the plate.
 *
 * Both start from a copy of the plate, write only the pixels they blend and
 * give those an alpha of 255. The specification of each is a byte-by-byte
 * function of the inputs; the methods build it in a scan over a copy of the
 * plate.
 */
module Warp {
  import opened Raster
  import opened MaskUtil
  import opened ScaleCurve
  import opened Sampling
  import opened RealArith

  // -------------------------------------------------------------------------
  // Shared pieces
  // -------------------------------------------------------------------------

  /**
   * One channel stored by either warp: Math.round(colour * alpha + under * (1 - alpha)),
   * clamped by the Uint8ClampedArray.
   */
  function Composite(colour: real, alpha: real, under: Byte): (b: Byte)
    ensures alpha == 0.0 ==> b == under
    ensures alpha == 1.0 && 0.0 <= colour <= 255.0 ==> b == Round(colour)
  {
    RoundOfInteger(under);
    ToByte(Mul(colour, alpha) + Mul(under as real, 1.0 - alpha))
  }

  /**
   * With an alpha in [0, 1] and a sampled colour in [0, 255] the clamp never
   * acts, and the stored byte lies between the rounded colour and the plate byte.
   */
  lemma CompositeBetween(colour: real, alpha: real, under: Byte)
    requires InUnit(alpha) && 0.0 <= colour <= 255.0
    ensures var v := Mul(colour, alpha) + Mul(under as real, 1.0 - alpha);
      Composite(colour, alpha, under) == Round(v)
    ensures Min(Round(colour), under) <= Composite(colour, alpha, under) <= Max(Round(colour), under)
  {
    var v := Mul(colour, alpha) + Mul(under as real, 1.0 - alpha);
    BlendBetween(colour, under as real, alpha);
    RoundOfInteger(under);
    if colour <= under as real {
      RoundMonotone(colour, v);
      RoundMonotone(v, under as real);
    } else {
      RoundMonotone(under as real, v);
      RoundMonotone(v, colour);
    }
  }

  /**
   * The feathered-mask value at the source position (sx, sy), read at the
   * nearest pixel: Math.round of each coordinate, clamped into the raster.
   */
  function AlphaAt(soft: seq<real>, w: nat, h: nat, sx: real, sy: real): real
    requires |soft| == w * h && w >= 1 && h >= 1
  {
    PixelOf(soft, w, h, Min(Max(Round(sy), 0), h - 1), Min(Max(Round(sx), 0), w - 1))
  }

  /** Whether (sx, sy) lies where both warps sample: [0, w - 1) by [0, h - 1). */
  predicate InSource(w: int, h: int, sx: real, sy: real)
  {
    0.0 <= sx < (w - 1) as real && 0.0 <= sy < (h - 1) as real
  }

  /** Channel c of the blend of the source sample at (sx, sy) over plate pixel (x, y); alpha 255. */
  function BlendedValue(src: seq<Byte>, bg: seq<Byte>, soft: seq<real>, w: nat, h: nat, sx: real, sy: real, y: int, x: int, c: int): Byte
    requires |src| == w * h * 4 && |bg| == w * h * 4 && |soft| == w * h
    requires InSource(w, h, sx, sy) && InRaster(w, h, y, x, c)
  {
    if c == 3 then 255
    else Composite(BilinearSample(src, sx, sy, w, h).Channel(c), AlphaAt(soft, w, h, sx, sy), ChannelOf(bg, w, h, y, x, c))
  }

  /** `target` holds, at every channel of pixel (x, y), the blend of the sample at (sx, sy) over the plate. */
  ghost predicate BlendedAt(target: seq<Byte>, src: seq<Byte>, bg: seq<Byte>, soft: seq<real>, w: nat, h: nat,
                            sx: real, sy: real, y: int, x: int)
    requires |target| == w * h * 4 && |src| == w * h * 4 && |bg| == w * h * 4 && |soft| == w * h
    requires InSource(w, h, sx, sy) && 0 <= y < h && 0 <= x < w
  {
    ByteInRange(w, h, y, x, 3);
    && target[ByteIndex(w, y, x, 0)] == BlendedValue(src, bg, soft, w, h, sx, sy, y, x, 0)
    && target[ByteIndex(w, y, x, 1)] == BlendedValue(src, bg, soft, w, h, sx, sy, y, x, 1)
    && target[ByteIndex(w, y, x, 2)] == BlendedValue(src, bg, soft, w, h, sx, sy, y, x, 2)
    && target[ByteIndex(w, y, x, 3)] == 255
  }

  /**
   * The body both warps run for a destination pixel they blend: sample the
   * source, read the feathered mask at the rounded source position, store the
   * three blended channels and an alpha of 255.
   */
  method PaintPixel(src: seq<Byte>, bg: seq<Byte>, soft: seq<real>, w: nat, h: nat, sx: real, sy: real,
                    y: int, x: int, dst: array<Byte>, ghost target: seq<Byte>)
    requires |src| == w * h * 4 && |bg| == w * h * 4 && |soft| == w * h && dst.Length == w * h * 4 && |target| == w * h * 4
    requires InSource(w, h, sx, sy) && 0 <= y < h && 0 <= x < w
    requires BlendedAt(target, src, bg, soft, w, h, sx, sy, y, x)
    requires ScannedUpTo(dst[..], target, bg, w, h, y, x, 0)
    modifies dst
    ensures ScannedUpTo(dst[..], target, bg, w, h, y, x + 1, 0)
  {
    var rgb := BilinearSample(src, sx, sy, w, h);
    var sxc := Min(Max(Round(sx), 0), w - 1);
    var syc := Min(Max(Round(sy), 0), h - 1);
    PixelInRange(w, h, syc, sxc);
    var alpha := soft[syc * w + sxc];
    assert alpha == AlphaAt(soft, w, h, sx, sy);
    ByteInRange(w, h, y, x, 3);
    var idx := (y * w + x) * 4;
    ScanWrite(dst[..], target, bg, w, h, y, x, 0);
    dst[idx] := Composite(rgb.r, alpha, bg[idx]);
    ScanWrite(dst[..], target, bg, w, h, y, x, 1);
    dst[idx + 1] := Composite(rgb.g, alpha, bg[idx + 1]);
    ScanWrite(dst[..], target, bg, w, h, y, x, 2);
    dst[idx + 2] := Composite(rgb.b, alpha, bg[idx + 2]);
    ScanWrite(dst[..], target, bg, w, h, y, x, 3);
    dst[idx + 3] := 255;
  }

  // -------------------------------------------------------------------------
  // warpPersonHorizontal
  // -------------------------------------------------------------------------

  /**
   * The stretch of one row: the person extent [left, right], where the
   * stretched span starts and how wide it is, and the source row sampled
   * (the row itself, nudged by a quarter of the change of scale across its
   * two neighbours).
   */
  datatype Stretch = Stretch(left: int, right: int, newLeft: real, newWidth: real, srcY: real)

  /** What the horizontal warp needs of its inputs. */
  ghost predicate HorizontalInputs(src: seq<Byte>, bg: seq<Byte>, mask: seq<int>, soft: seq<real>, w: nat, h: nat,
                                   points: Curve, ease: real -> real)
  {
    |src| == w * h * 4 && |bg| == w * h * 4 && |mask| == w * h && |soft| == w * h
    && Evaluable(points) && PositiveScales(points) && IsCosineEase(ease)
  }

  /**
   * The stretch of row y, or None when the row holds no person pixel or its
   * extent is at most one column wide (right - left <= 1).
   */
  function RowStretch(mask: seq<int>, w: nat, h: nat, points: Curve, ease: real -> real, y: int): (s: Option<Stretch>)
    requires |mask| == w * h && 0 <= y < h
    requires Evaluable(points) && PositiveScales(points) && IsCosineEase(ease)
    ensures s.Some? ==>
      && 0 <= s.value.left && s.value.left + 2 <= s.value.right < w
      && Masked(mask, w, h, y, s.value.left) && Masked(mask, w, h, y, s.value.right)
      && s.value.newWidth > 0.0
  {
    var e := RowExtent(mask, w, h, y);
    if e.0 == -1 || e.1 - e.0 <= 1 then None
    else
      var personWidth := (e.1 - e.0) as real;
      var scale := ScaleAt(points, y as real / h as real, ease);
      ScaleAtPositive(points, y as real / h as real, ease);
      MulPositive(personWidth, scale);
      var newWidth := Mul(personWidth, scale);
      var scaleAbove := if y > 0 then ScaleAt(points, (y - 1) as real / h as real, ease) else scale;
      var scaleBelow := if y < h - 1 then ScaleAt(points, (y + 1) as real / h as real, ease) else scale;
      Some(Stretch(e.0, e.1, (e.0 + e.1) as real / 2.0 - newWidth / 2.0, newWidth,
                   y as real + (scaleBelow - scaleAbove) * 0.25))
  }

  /** First and last destination column the stretched span visits, clamped to the row. */
  function SpanStart(s: Stretch): int
  {
    Max(0, Floor(s.newLeft))
  }

  function SpanEnd(s: Stretch, w: int): int
  {
    Min(w - 1, Ceil(s.newLeft + s.newWidth))
  }

  /** The source column destination column dx reads: its relative place in the new span, mapped onto the person. */
  function SourceX(s: Stretch, dx: int): real
    requires s.newWidth != 0.0
  {
    s.left as real + Mul((dx as real - s.newLeft) / s.newWidth, (s.right - s.left) as real)
  }

  /** The horizontal warp blends pixel (x, y): x lies in its row's span and reads a position inside the source. */
  predicate Stretched(mask: seq<int>, w: nat, h: nat, points: Curve, ease: real -> real, y: int, x: int)
    requires |mask| == w * h && 0 <= y < h
    requires Evaluable(points) && PositiveScales(points) && IsCosineEase(ease)
  {
    var s := RowStretch(mask, w, h, points, ease, y);
    s.Some? && SpanStart(s.value) <= x <= SpanEnd(s.value, w) && InSource(w, h, SourceX(s.value, x), s.value.srcY)
  }

  /** Channel c of pixel (x, y) after the horizontal warp. */
  function HorizontalValue(src: seq<Byte>, bg: seq<Byte>, mask: seq<int>, soft: seq<real>, w: nat, h: nat,
                           points: Curve, ease: real -> real, y: int, x: int, c: int): Byte
    requires HorizontalInputs(src, bg, mask, soft, w, h, points, ease) && InRaster(w, h, y, x, c)
  {
    if !Stretched(mask, w, h, points, ease, y, x) then ChannelOf(bg, w, h, y, x, c)
    else
      var s := RowStretch(mask, w, h, points, ease, y).value;
      BlendedValue(src, bg, soft, w, h, SourceX(s, x), s.srcY, y, x, c)
  }

  /** The image warpPersonHorizontal returns. */
  function WarpHorizontal(src: seq<Byte>, bg: seq<Byte>, mask: seq<int>, soft: seq<real>, w: nat, h: nat,
                          points: Curve, ease: real -> real): (dst: seq<Byte>)
    requires HorizontalInputs(src, bg, mask, soft, w, h, points, ease)
    ensures |dst| == |bg|
  {
    seq(|bg|, i requires 0 <= i < |bg| =>
      ByteDecomposes(w, h, i);
      HorizontalValue(src, bg, mask, soft, w, h, points, ease, ByteRow(w, i), ByteCol(w, i), ByteChannel(i)))
  }

  lemma HorizontalAt(src: seq<Byte>, bg: seq<Byte>, mask: seq<int>, soft: seq<real>, w: nat, h: nat,
                     points: Curve, ease: real -> real, y: int, x: int, c: int)
    requires HorizontalInputs(src, bg, mask, soft, w, h, points, ease) && InRaster(w, h, y, x, c)
    ensures 0 <= ByteIndex(w, y, x, c) < |bg|
    ensures WarpHorizontal(src, bg, mask, soft, w, h, points, ease)[ByteIndex(w, y, x, c)] ==
      HorizontalValue(src, bg, mask, soft, w, h, points, ease, y, x, c)
  {
    ByteInRange(w, h, y, x, c);
  }

  /** The warp leaves the pixels of row y in columns [x0, x1) as the plate has them when it blends none of them. */
  lemma HorizontalKeeps(src: seq<Byte>, bg: seq<Byte>, mask: seq<int>, soft: seq<real>, w: nat, h: nat,
                        points: Curve, ease: real -> real, y: int, x0: int, x1: int)
    requires HorizontalInputs(src, bg, mask, soft, w, h, points, ease) && 0 <= y < h && 0 <= x0
    requires forall x | x0 <= x < x1 && x < w :: !Stretched(mask, w, h, points, ease, y, x)
    ensures SameBetween(WarpHorizontal(src, bg, mask, soft, w, h, points, ease), bg, w, h, y, x0, 0, y, x1, 0)
    ensures x1 >= w ==> SameBetween(WarpHorizontal(src, bg, mask, soft, w, h, points, ease), bg, w, h, y, x0, 0, y + 1, 0, 0)
  {
    ByteIndices(w, h);
    forall xx, cc | x0 <= xx < x1 && xx < w && 0 <= cc < 4
      ensures WarpHorizontal(src, bg, mask, soft, w, h, points, ease)[ByteIndex(w, y, xx, cc)] == bg[ByteIndex(w, y, xx, cc)]
    {
      HorizontalAt(src, bg, mask, soft, w, h, points, ease, y, xx, cc);
    }
  }

  /** Every channel of a blended pixel is the blend of the source sample at its source position. */
  lemma HorizontalBlended(src: seq<Byte>, bg: seq<Byte>, mask: seq<int>, soft: seq<real>, w: nat, h: nat,
                          points: Curve, ease: real -> real, y: int, x: int, s: Stretch)
    requires HorizontalInputs(src, bg, mask, soft, w, h, points, ease) && 0 <= y < h && 0 <= x < w
    requires RowStretch(mask, w, h, points, ease, y) == Some(s)
    requires SpanStart(s) <= x <= SpanEnd(s, w) && InSource(w, h, SourceX(s, x), s.srcY)
    ensures BlendedAt(WarpHorizontal(src, bg, mask, soft, w, h, points, ease), src, bg, soft, w, h, SourceX(s, x), s.srcY, y, x)
  {
    assert Stretched(mask, w, h, points, ease, y, x);
    HorizontalAt(src, bg, mask, soft, w, h, points, ease, y, x, 0);
    HorizontalAt(src, bg, mask, soft, w, h, points, ease, y, x, 1);
    HorizontalAt(src, bg, mask, soft, w, h, points, ease, y, x, 2);
    HorizontalAt(src, bg, mask, soft, w, h, points, ease, y, x, 3);
  }

  /** A column of the span that reads outside the source keeps its plate pixel. */
  lemma HorizontalSkips(src: seq<Byte>, bg: seq<Byte>, mask: seq<int>, soft: seq<real>, w: nat, h: nat,
                        points: Curve, ease: real -> real, y: int, s: Stretch, dx: int)
    requires HorizontalInputs(src, bg, mask, soft, w, h, points, ease) && 0 <= y < h && 0 <= dx
    requires RowStretch(mask, w, h, points, ease, y) == Some(s) && !InSource(w, h, SourceX(s, dx), s.srcY)
    ensures SameBetween(WarpHorizontal(src, bg, mask, soft, w, h, points, ease), bg, w, h, y, dx, 0, y, dx + 1, 0)
  {
    HorizontalKeeps(src, bg, mask, soft, w, h, points, ease, y, dx, dx + 1);
  }

  /** One column dx of a stretched row's span: skipped when it reads outside the source, else blended. */
  method StretchColumn(src: seq<Byte>, bg: seq<Byte>, mask: seq<int>, soft: seq<real>, w: nat, h: nat,
                       points: Curve, ease: real -> real, y: int, s: Stretch, dx: int, dst: array<Byte>)
    requires HorizontalInputs(src, bg, mask, soft, w, h, points, ease) && 0 <= y < h && dst.Length == w * h * 4
    requires RowStretch(mask, w, h, points, ease, y) == Some(s) && SpanStart(s) <= dx <= SpanEnd(s, w)
    requires ScannedUpTo(dst[..], WarpHorizontal(src, bg, mask, soft, w, h, points, ease), bg, w, h, y, dx, 0)
    modifies dst
    ensures ScannedUpTo(dst[..], WarpHorizontal(src, bg, mask, soft, w, h, points, ease), bg, w, h, y, dx + 1, 0)
  {
    ghost var target := WarpHorizontal(src, bg, mask, soft, w, h, points, ease);
    var relX := (dx as real - s.newLeft) / s.newWidth;
    var srcX := s.left as real + Mul(relX, (s.right - s.left) as real);
    var srcY := s.srcY;
    assert srcX == SourceX(s, dx);
    if srcX < 0.0 || srcX >= (w - 1) as real || srcY < 0.0 || srcY >= (h - 1) as real {
      HorizontalSkips(src, bg, mask, soft, w, h, points, ease, y, s, dx);
      ScanSkip(dst[..], target, bg, w, h, y, dx, 0, y, dx + 1, 0);
    } else {
      HorizontalBlended(src, bg, mask, soft, w, h, points, ease, y, dx, s);
      PaintPixel(src, bg, soft, w, h, srcX, srcY, y, dx, dst, target);
    }
  }

  /** The dx loop of one stretched row. */
  method StretchSpan(src: seq<Byte>, bg: seq<Byte>, mask: seq<int>, soft: seq<real>, w: nat, h: nat,
                     points: Curve, ease: real -> real, y: int, s: Stretch, dst: array<Byte>)
    requires HorizontalInputs(src, bg, mask, soft, w, h, points, ease) && 0 <= y < h && dst.Length == w * h * 4
    requires RowStretch(mask, w, h, points, ease, y) == Some(s)
    requires ScannedUpTo(dst[..], WarpHorizontal(src, bg, mask, soft, w, h, points, ease), bg, w, h, y, 0, 0)
    modifies dst
    ensures ScannedUpTo(dst[..], WarpHorizontal(src, bg, mask, soft, w, h, points, ease), bg, w, h, y + 1, 0, 0)
  {
    ghost var target := WarpHorizontal(src, bg, mask, soft, w, h, points, ease);
    var lo := Max(0, Floor(s.newLeft));
    var hi := Min(w - 1, Ceil(s.newLeft + s.newWidth));
    HorizontalKeeps(src, bg, mask, soft, w, h, points, ease, y, 0, lo);
    ScanSkip(dst[..], target, bg, w, h, y, 0, 0, y, lo, 0);
    var dx := lo;
    while dx <= hi
      invariant lo <= dx <= Max(lo, hi + 1)
      invariant ScannedUpTo(dst[..], target, bg, w, h, y, dx, 0)
    {
      StretchColumn(src, bg, mask, soft, w, h, points, ease, y, s, dx, dst);
      dx := dx + 1;
    }
    HorizontalKeeps(src, bg, mask, soft, w, h, points, ease, y, dx, w);
    ScanSkip(dst[..], target, bg, w, h, y, dx, 0, y + 1, 0, 0);
  }

  /**
   * A row with no person pixel, or whose person extent spans at most two
   * columns (right - left <= 1), is the plate's row unchanged.
   */
  lemma UnstretchedRow(src: seq<Byte>, bg: seq<Byte>, mask: seq<int>, soft: seq<real>, w: nat, h: nat,
                       points: Curve, ease: real -> real, y: int)
    requires HorizontalInputs(src, bg, mask, soft, w, h, points, ease) && 0 <= y < h
    requires var e := RowExtent(mask, w, h, y); e.0 == -1 || e.1 - e.0 <= 1
    ensures forall x, c | 0 <= x < w && 0 <= c < 4 ::
      0 <= ByteIndex(w, y, x, c) < |bg| && WarpHorizontal(src, bg, mask, soft, w, h, points, ease)[ByteIndex(w, y, x, c)] == bg[ByteIndex(w, y, x, c)]
    ensures SameBetween(WarpHorizontal(src, bg, mask, soft, w, h, points, ease), bg, w, h, y, 0, 0, y + 1, 0, 0)
  {
    assert RowStretch(mask, w, h, points, ease, y).None?;
    HorizontalKeeps(src, bg, mask, soft, w, h, points, ease, y, 0, w);
    forall x, c | 0 <= x < w && 0 <= c < 4
      ensures 0 <= ByteIndex(w, y, x, c) < |bg|
      ensures WarpHorizontal(src, bg, mask, soft, w, h, points, ease)[ByteIndex(w, y, x, c)] == bg[ByteIndex(w, y, x, c)]
    {
      HorizontalAt(src, bg, mask, soft, w, h, points, ease, y, x, c);
    }
  }

  /** The stretch of a row wider than two columns, from its extent and the three scales around it. */
  lemma RowStretchOf(mask: seq<int>, w: nat, h: nat, points: Curve, ease: real -> real, y: int,
                     scale: real, scaleAbove: real, scaleBelow: real)
    requires |mask| == w * h && 0 <= y < h
    requires Evaluable(points) && PositiveScales(points) && IsCosineEase(ease)
    requires var e := RowExtent(mask, w, h, y); e.0 != -1 && e.1 - e.0 > 1
    requires scale == ScaleAt(points, y as real / h as real, ease)
    requires scaleAbove == if y > 0 then ScaleAt(points, (y - 1) as real / h as real, ease) else scale
    requires scaleBelow == if y < h - 1 then ScaleAt(points, (y + 1) as real / h as real, ease) else scale
    ensures var e := RowExtent(mask, w, h, y);
      var newWidth := Mul((e.1 - e.0) as real, scale);
      RowStretch(mask, w, h, points, ease, y) ==
        Some(Stretch(e.0, e.1, (e.0 + e.1) as real / 2.0 - newWidth / 2.0, newWidth, y as real + (scaleBelow - scaleAbove) * 0.25))
  {
  }

  /** The scale of row y and of the rows above and below it (row y's own at the first and last row). */
  method RowScales(points: Curve, ease: real -> real, h: nat, y: int) returns (scale: real, scaleAbove: real, scaleBelow: real)
    requires Evaluable(points) && IsCosineEase(ease) && 0 <= y < h
    ensures scale == ScaleAt(points, y as real / h as real, ease)
    ensures scaleAbove == if y > 0 then ScaleAt(points, (y - 1) as real / h as real, ease) else scale
    ensures scaleBelow == if y < h - 1 then ScaleAt(points, (y + 1) as real / h as real, ease) else scale
  {
    scale := SmoothScale(points, y as real / h as real, ease);
    scaleAbove := scale;
    if y > 0 {
      scaleAbove := SmoothScale(points, (y - 1) as real / h as real, ease);
    }
    scaleBelow := scale;
    if y < h - 1 {
      scaleBelow := SmoothScale(points, (y + 1) as real / h as real, ease);
    }
  }

  /** The body of warpPersonHorizontal for row y: find the extent, work out the stretch, run the span. */
  method StretchRow(src: seq<Byte>, bg: seq<Byte>, mask: seq<int>, soft: seq<real>, w: nat, h: nat,
                    points: Curve, ease: real -> real, y: int, dst: array<Byte>)
    requires HorizontalInputs(src, bg, mask, soft, w, h, points, ease) && 0 <= y < h && dst.Length == w * h * 4
    requires ScannedUpTo(dst[..], WarpHorizontal(src, bg, mask, soft, w, h, points, ease), bg, w, h, y, 0, 0)
    modifies dst
    ensures ScannedUpTo(dst[..], WarpHorizontal(src, bg, mask, soft, w, h, points, ease), bg, w, h, y + 1, 0, 0)
  {
    ghost var target := WarpHorizontal(src, bg, mask, soft, w, h, points, ease);
    var left, right := ScanRowExtent(mask, w, h, y);
    if left == -1 || right - left <= 1 {
      UnstretchedRow(src, bg, mask, soft, w, h, points, ease, y);
      ScanSkip(dst[..], target, bg, w, h, y, 0, 0, y + 1, 0, 0);
      return;
    }
    var personCenter := (left + right) as real / 2.0;
    var personWidth := (right - left) as real;
    var scale, scaleAbove, scaleBelow := RowScales(points, ease, h, y);
    var newWidth := Mul(personWidth, scale);
    var newLeft := personCenter - newWidth / 2.0;
    var srcYOffset := (scaleBelow - scaleAbove) * 0.25;
    var s := Stretch(left, right, newLeft, newWidth, y as real + srcYOffset);
    RowStretchOf(mask, w, h, points, ease, y, scale, scaleAbove, scaleBelow);
    StretchSpan(src, bg, mask, soft, w, h, points, ease, y, s, dst);
  }

  /**
   * warpPersonHorizontal: a copy of the plate in which every pixel of every
   * stretched row's span that reads inside the source is the feathered blend
   * of the stretched person over the plate.
   */
  method WarpPersonHorizontal(src: seq<Byte>, bg: seq<Byte>, mask: seq<int>, soft: seq<real>, w: nat, h: nat,
                              points: Curve, ease: real -> real) returns (dst: array<Byte>)
    requires HorizontalInputs(src, bg, mask, soft, w, h, points, ease)
    ensures dst[..] == WarpHorizontal(src, bg, mask, soft, w, h, points, ease)
  {
    dst := new Byte[|bg|](i requires 0 <= i < |bg| => bg[i]);
    assert dst[..] == bg;
    ghost var target := WarpHorizontal(src, bg, mask, soft, w, h, points, ease);
    ScanStart(target, bg, w, h);
    var y := 0;
    while y < h
      invariant 0 <= y <= h
      invariant ScannedUpTo(dst[..], target, bg, w, h, y, 0, 0)
    {
      StretchRow(src, bg, mask, soft, w, h, points, ease, y, dst);
      y := y + 1;
    }
    ScanDone(dst[..], target, bg, w, h, y);
  }

  /** Every scale of the curve is 1: the curve leaves every row at its width. */
  predicate UnitScales(points: Curve)
  {
    forall i | 0 <= i < |points| :: points[i].scale == 1.0
  }

  lemma UnitScaleAt(points: Curve, t: real, ease: real -> real)
    requires Evaluable(points) && IsCosineEase(ease) && UnitScales(points)
    ensures ScaleAt(points, t, ease) == 1.0
  {
    var k := Bracket(points, ClampUnit(t));
    assert points[k].scale == 1.0;
    if k < |points| - 1 {
      assert points[k + 1].scale == 1.0;
    }
  }

  /** With every scale 1 a stretched row keeps the person's extent and samples its own row. */
  lemma UnitStretch(mask: seq<int>, w: nat, h: nat, points: Curve, ease: real -> real, y: int)
    requires |mask| == w * h && 0 <= y < h
    requires Evaluable(points) && PositiveScales(points) && IsCosineEase(ease) && UnitScales(points)
    requires var e := RowExtent(mask, w, h, y); e.0 != -1 && e.1 - e.0 > 1
    ensures var e := RowExtent(mask, w, h, y);
      RowStretch(mask, w, h, points, ease, y) == Some(Stretch(e.0, e.1, e.0 as real, (e.1 - e.0) as real, y as real))
  {
    UnitScaleAt(points, y as real / h as real, ease);
    if y > 0 {
      UnitScaleAt(points, (y - 1) as real / h as real, ease);
    }
    if y < h - 1 {
      UnitScaleAt(points, (y + 1) as real / h as real, ease);
    }
    RowStretchOf(mask, w, h, points, ease, y, 1.0, 1.0, 1.0);
  }

  /** An unscaled stretch maps every column of its span onto itself. */
  lemma UnitSourceX(left: int, right: int, y: real, x: int)
    requires left < right
    ensures var s := Stretch(left, right, left as real, (right - left) as real, y);
      SpanStart(s) == Max(0, left) && SpanEnd(s, right + 1) == right && SourceX(s, x) == x as real
  {
    var d := (right - left) as real;
    assert (x as real - left as real) / d * d == (x - left) as real;
  }

  /** At a whole-pixel source position the blend reads that pixel's own colour and mask value. */
  lemma BlendedInPlace(src: seq<Byte>, bg: seq<Byte>, soft: seq<real>, w: nat, h: nat, y: int, x: int, c: int)
    requires |src| == w * h * 4 && |bg| == w * h * 4 && |soft| == w * h
    requires InRaster(w, h, y, x, c) && c < 3 && x < w - 1 && y < h - 1
    ensures InSource(w, h, x as real, y as real)
    ensures BlendedValue(src, bg, soft, w, h, x as real, y as real, y, x, c) ==
      Composite(ChannelOf(src, w, h, y, x, c) as real, PixelOf(soft, w, h, y, x), ChannelOf(bg, w, h, y, x, c))
  {
    SampleAtPixel(src, x, y, w, h);
    RoundOfInteger(x);
    RoundOfInteger(y);
    ByteInRange(w, h, y, x, c);
    assert AlphaAt(soft, w, h, x as real, y as real) == PixelOf(soft, w, h, y, x);
  }

  /**
   * With every scale 1 the horizontal warp redraws the person in place: each
   * channel of a column of the person's extent (away from the last row and
   * column) is the source pixel's own colour blended over the plate with the
   * feathered mask at that pixel, and every other column keeps the plate.
   */
  lemma UnitScaleInPlace(src: seq<Byte>, bg: seq<Byte>, mask: seq<int>, soft: seq<real>, w: nat, h: nat,
                         points: Curve, ease: real -> real, y: int, x: int, c: int)
    requires HorizontalInputs(src, bg, mask, soft, w, h, points, ease) && InRaster(w, h, y, x, c) && c < 3
    requires UnitScales(points)
    requires var e := RowExtent(mask, w, h, y); e.0 != -1 && e.1 - e.0 > 1
    ensures 0 <= ByteIndex(w, y, x, c) < |bg|
    ensures var e := RowExtent(mask, w, h, y);
      WarpHorizontal(src, bg, mask, soft, w, h, points, ease)[ByteIndex(w, y, x, c)] ==
        if e.0 <= x <= e.1 && x < w - 1 && y < h - 1
        then Composite(ChannelOf(src, w, h, y, x, c) as real, PixelOf(soft, w, h, y, x), ChannelOf(bg, w, h, y, x, c))
        else ChannelOf(bg, w, h, y, x, c)
  {
    var e := RowExtent(mask, w, h, y);
    UnitStretch(mask, w, h, points, ease, y);
    UnitSourceX(e.0, e.1, y as real, x);
    assert SpanEnd(Stretch(e.0, e.1, e.0 as real, (e.1 - e.0) as real, y as real), w) == e.1;
    HorizontalAt(src, bg, mask, soft, w, h, points, ease, y, x, c);
    if e.0 <= x <= e.1 && x < w - 1 && y < h - 1 {
      BlendedInPlace(src, bg, soft, w, h, y, x, c);
    }
  }

  /**
   * With a feathered mask in [0, 1], a blended channel lies between the rounded
   * source sample and the plate's value (the clamp of the store never acts);
   * the blended alpha is 255.
   */
  lemma BlendedBounds(src: seq<Byte>, bg: seq<Byte>, soft: seq<real>, w: nat, h: nat, sx: real, sy: real, y: int, x: int, c: int)
    requires |src| == w * h * 4 && |bg| == w * h * 4 && |soft| == w * h && AllInUnit(soft)
    requires InSource(w, h, sx, sy) && InRaster(w, h, y, x, c)
    ensures c == 3 ==> BlendedValue(src, bg, soft, w, h, sx, sy, y, x, c) == 255
    ensures c < 3 ==>
      var v := BlendedValue(src, bg, soft, w, h, sx, sy, y, x, c);
      var sample := Round(BilinearSample(src, sx, sy, w, h).Channel(c));
      Min(sample, ChannelOf(bg, w, h, y, x, c)) <= v <= Max(sample, ChannelOf(bg, w, h, y, x, c))
  {
    if c < 3 {
      var syc, sxc := Min(Max(Round(sy), 0), h - 1), Min(Max(Round(sx), 0), w - 1);
      PixelInRange(w, h, syc, sxc);
      assert InUnit(soft[syc * w + sxc]);
      CompositeBetween(BilinearSample(src, sx, sy, w, h).Channel(c), AlphaAt(soft, w, h, sx, sy), ChannelOf(bg, w, h, y, x, c));
    }
  }

  // -------------------------------------------------------------------------
  // warpFullWithMask
  // -------------------------------------------------------------------------

  /**
   * The strip of one row: its width Math.round(w * xScale), its offset
   * Math.round((w - width) / 2) and the source row tSrc * h it samples.
   */
  datatype Strip = Strip(width: int, offset: int, srcY: real)

  /** What the full warp needs of its inputs. */
  ghost predicate FullInputs(src: seq<Byte>, bg: seq<Byte>, soft: seq<real>, w: nat, h: nat,
                             xPoints: Curve, yMapping: Curve, ease: real -> real)
  {
    |src| == w * h * 4 && |bg| == w * h * 4 && |soft| == w * h
    && Evaluable(xPoints) && Evaluable(yMapping) && IsCosineEase(ease)
  }

  /**
   * The strip of row y: both curves are evaluated at t = y / h. The strip is
   * centred: the margins left of it and right of it differ by at most one column.
   */
  function RowStrip(w: nat, h: nat, xPoints: Curve, yMapping: Curve, ease: real -> real, y: int): (s: Strip)
    requires 0 <= y < h && Evaluable(xPoints) && Evaluable(yMapping) && IsCosineEase(ease)
    ensures -1 <= (w - (s.offset + s.width)) - s.offset <= 1
    ensures s.width <= 0 ==> Max(0, s.offset) >= s.offset + s.width
  {
    var t := y as real / h as real;
    var width := Round(Mul(w as real, ScaleAt(xPoints, t, ease)));
    Strip(width, Round((w - width) as real / 2.0), Mul(ScaleAt(yMapping, t, ease), h as real))
  }

  /** The source column destination column dx reads: its relative place in the strip, times w. */
  function StripSourceX(s: Strip, w: int, dx: int): real
    requires s.width != 0
  {
    Mul((dx - s.offset) as real / s.width as real, w as real)
  }

  /**
   * The full warp blends pixel (x, y): the row's source row lies in [0, h - 1),
   * x lies in the strip, it reads a column in [0, w - 1), and the feathered
   * mask there is at least 0.05.
   */
  predicate Remapped(soft: seq<real>, w: nat, h: nat, xPoints: Curve, yMapping: Curve, ease: real -> real, y: int, x: int)
    requires |soft| == w * h && 0 <= y < h && Evaluable(xPoints) && Evaluable(yMapping) && IsCosineEase(ease)
  {
    var s := RowStrip(w, h, xPoints, yMapping, ease, y);
    && 0.0 <= s.srcY < (h - 1) as real
    && Max(0, s.offset) <= x < Min(w, s.offset + s.width)
    && InSource(w, h, StripSourceX(s, w, x), s.srcY)
    && AlphaAt(soft, w, h, StripSourceX(s, w, x), s.srcY) >= 0.05
  }

  /** Channel c of pixel (x, y) after the full warp. */
  function FullValue(src: seq<Byte>, bg: seq<Byte>, soft: seq<real>, w: nat, h: nat,
                     xPoints: Curve, yMapping: Curve, ease: real -> real, y: int, x: int, c: int): Byte
    requires FullInputs(src, bg, soft, w, h, xPoints, yMapping, ease) && InRaster(w, h, y, x, c)
  {
    if !Remapped(soft, w, h, xPoints, yMapping, ease, y, x) then ChannelOf(bg, w, h, y, x, c)
    else
      var s := RowStrip(w, h, xPoints, yMapping, ease, y);
      BlendedValue(src, bg, soft, w, h, StripSourceX(s, w, x), s.srcY, y, x, c)
  }

  /** The image warpFullWithMask returns. */
  function WarpFull(src: seq<Byte>, bg: seq<Byte>, soft: seq<real>, w: nat, h: nat,
                    xPoints: Curve, yMapping: Curve, ease: real -> real): (dst: seq<Byte>)
    requires FullInputs(src, bg, soft, w, h, xPoints, yMapping, ease)
    ensures |dst| == |bg|
  {
    seq(|bg|, i requires 0 <= i < |bg| =>
      ByteDecomposes(w, h, i);
      FullValue(src, bg, soft, w, h, xPoints, yMapping, ease, ByteRow(w, i), ByteCol(w, i), ByteChannel(i)))
  }

  lemma FullAt(src: seq<Byte>, bg: seq<Byte>, soft: seq<real>, w: nat, h: nat,
               xPoints: Curve, yMapping: Curve, ease: real -> real, y: int, x: int, c: int)
    requires FullInputs(src, bg, soft, w, h, xPoints, yMapping, ease) && InRaster(w, h, y, x, c)
    ensures 0 <= ByteIndex(w, y, x, c) < |bg|
    ensures WarpFull(src, bg, soft, w, h, xPoints, yMapping, ease)[ByteIndex(w, y, x, c)] ==
      FullValue(src, bg, soft, w, h, xPoints, yMapping, ease, y, x, c)
  {
    ByteInRange(w, h, y, x, c);
  }

  lemma FullKeeps(src: seq<Byte>, bg: seq<Byte>, soft: seq<real>, w: nat, h: nat,
                  xPoints: Curve, yMapping: Curve, ease: real -> real, y: int, x0: int, x1: int)
    requires FullInputs(src, bg, soft, w, h, xPoints, yMapping, ease) && 0 <= y < h && 0 <= x0
    requires forall x | x0 <= x < x1 && x < w :: !Remapped(soft, w, h, xPoints, yMapping, ease, y, x)
    ensures SameBetween(WarpFull(src, bg, soft, w, h, xPoints, yMapping, ease), bg, w, h, y, x0, 0, y, x1, 0)
    ensures x1 >= w ==> SameBetween(WarpFull(src, bg, soft, w, h, xPoints, yMapping, ease), bg, w, h, y, x0, 0, y + 1, 0, 0)
  {
    ByteIndices(w, h);
    forall xx, cc | x0 <= xx < x1 && xx < w && 0 <= cc < 4
      ensures WarpFull(src, bg, soft, w, h, xPoints, yMapping, ease)[ByteIndex(w, y, xx, cc)] == bg[ByteIndex(w, y, xx, cc)]
    {
      FullAt(src, bg, soft, w, h, xPoints, yMapping, ease, y, xx, cc);
    }
  }

  lemma FullBlended(src: seq<Byte>, bg: seq<Byte>, soft: seq<real>, w: nat, h: nat,
                    xPoints: Curve, yMapping: Curve, ease: real -> real, y: int, x: int)
    requires FullInputs(src, bg, soft, w, h, xPoints, yMapping, ease) && 0 <= y < h && 0 <= x < w
    requires Remapped(soft, w, h, xPoints, yMapping, ease, y, x)
    ensures var s := RowStrip(w, h, xPoints, yMapping, ease, y);
      BlendedAt(WarpFull(src, bg, soft, w, h, xPoints, yMapping, ease), src, bg, soft, w, h, StripSourceX(s, w, x), s.srcY, y, x)
  {
    var s := RowStrip(w, h, xPoints, yMapping, ease, y);
    FullAt(src, bg, soft, w, h, xPoints, yMapping, ease, y, x, 0);
    FullAt(src, bg, soft, w, h, xPoints, yMapping, ease, y, x, 1);
    FullAt(src, bg, soft, w, h, xPoints, yMapping, ease, y, x, 2);
    FullAt(src, bg, soft, w, h, xPoints, yMapping, ease, y, x, 3);
  }

  /**
   * A row whose strip is empty (width at most 0) or whose source row lies
   * outside [0, h - 1) is the plate's row unchanged.
   */
  lemma UnstripedRow(src: seq<Byte>, bg: seq<Byte>, soft: seq<real>, w: nat, h: nat,
                     xPoints: Curve, yMapping: Curve, ease: real -> real, y: int)
    requires FullInputs(src, bg, soft, w, h, xPoints, yMapping, ease) && 0 <= y < h
    requires var s := RowStrip(w, h, xPoints, yMapping, ease, y); s.width <= 0 || s.srcY < 0.0 || s.srcY >= (h - 1) as real
    ensures forall x, c | 0 <= x < w && 0 <= c < 4 ::
      0 <= ByteIndex(w, y, x, c) < |bg| && WarpFull(src, bg, soft, w, h, xPoints, yMapping, ease)[ByteIndex(w, y, x, c)] == bg[ByteIndex(w, y, x, c)]
  {
    forall x, c | 0 <= x < w && 0 <= c < 4
      ensures 0 <= ByteIndex(w, y, x, c) < |bg|
      ensures WarpFull(src, bg, soft, w, h, xPoints, yMapping, ease)[ByteIndex(w, y, x, c)] == bg[ByteIndex(w, y, x, c)]
    {
      FullAt(src, bg, soft, w, h, xPoints, yMapping, ease, y, x, c);
    }
  }

  /**
   * A row whose horizontal scale is 1 takes the whole width: its strip is
   * w wide at offset 0, column x reads source column x of the remapped source
   * row, and it is blended exactly where that lies inside the source and the
   * feathered mask there reaches 0.05.
   */
  lemma UnitWidthInPlace(src: seq<Byte>, bg: seq<Byte>, soft: seq<real>, w: nat, h: nat,
                         xPoints: Curve, yMapping: Curve, ease: real -> real, y: int, x: int, c: int)
    requires FullInputs(src, bg, soft, w, h, xPoints, yMapping, ease) && InRaster(w, h, y, x, c)
    requires ScaleAt(xPoints, y as real / h as real, ease) == 1.0
    ensures var s := RowStrip(w, h, xPoints, yMapping, ease, y);
      s.width == w && s.offset == 0 && StripSourceX(s, w, x) == x as real
    ensures 0 <= ByteIndex(w, y, x, c) < |bg|
    ensures var sy := RowStrip(w, h, xPoints, yMapping, ease, y).srcY;
      WarpFull(src, bg, soft, w, h, xPoints, yMapping, ease)[ByteIndex(w, y, x, c)] ==
        if InSource(w, h, x as real, sy) && AlphaAt(soft, w, h, x as real, sy) >= 0.05
        then BlendedValue(src, bg, soft, w, h, x as real, sy, y, x, c)
        else bg[ByteIndex(w, y, x, c)]
  {
    var s := RowStrip(w, h, xPoints, yMapping, ease, y);
    RoundOfInteger(w);
    assert Mul(w as real, 1.0) == w as real;
    assert s.width == w;
    assert (w - w) as real / 2.0 == 0.0;
    RoundOfInteger(0);
    assert s.offset == 0;
    assert StripSourceX(s, w, x) == x as real by {
      assert (x as real) / (w as real) * (w as real) == x as real;
    }
    FullAt(src, bg, soft, w, h, xPoints, yMapping, ease, y, x, c);
  }

  /** The dx loop of one row of the full warp, for a row whose source row lies inside the frame. */
  method StripSpan(src: seq<Byte>, bg: seq<Byte>, soft: seq<real>, w: nat, h: nat,
                   xPoints: Curve, yMapping: Curve, ease: real -> real, y: int, s: Strip, dst: array<Byte>)
    requires FullInputs(src, bg, soft, w, h, xPoints, yMapping, ease) && 0 <= y < h && dst.Length == w * h * 4
    requires RowStrip(w, h, xPoints, yMapping, ease, y) == s && 0.0 <= s.srcY < (h - 1) as real
    requires ScannedUpTo(dst[..], WarpFull(src, bg, soft, w, h, xPoints, yMapping, ease), bg, w, h, y, 0, 0)
    modifies dst
    ensures ScannedUpTo(dst[..], WarpFull(src, bg, soft, w, h, xPoints, yMapping, ease), bg, w, h, y + 1, 0, 0)
  {
    ghost var target := WarpFull(src, bg, soft, w, h, xPoints, yMapping, ease);
    var lo := Max(0, s.offset);
    var hi := Min(w, s.offset + s.width);
    FullKeeps(src, bg, soft, w, h, xPoints, yMapping, ease, y, 0, lo);
    ScanSkip(dst[..], target, bg, w, h, y, 0, 0, y, lo, 0);
    var dx := lo;
    while dx < hi
      invariant lo <= dx <= Max(lo, hi)
      invariant ScannedUpTo(dst[..], target, bg, w, h, y, dx, 0)
    {
      var relX := (dx - s.offset) as real / s.width as real;
      var srcX := Mul(relX, w as real);
      if srcX < 0.0 || srcX >= (w - 1) as real {
        FullKeeps(src, bg, soft, w, h, xPoints, yMapping, ease, y, dx, dx + 1);
        ScanSkip(dst[..], target, bg, w, h, y, dx, 0, y, dx + 1, 0);
      } else {
        var sxc := Min(Max(Round(srcX), 0), w - 1);
        var syc := Min(Max(Round(s.srcY), 0), h - 1);
        PixelInRange(w, h, syc, sxc);
        var maskAlpha := soft[syc * w + sxc];
        assert maskAlpha == AlphaAt(soft, w, h, srcX, s.srcY);
        if maskAlpha < 0.05 {
          FullKeeps(src, bg, soft, w, h, xPoints, yMapping, ease, y, dx, dx + 1);
          ScanSkip(dst[..], target, bg, w, h, y, dx, 0, y, dx + 1, 0);
        } else {
          FullBlended(src, bg, soft, w, h, xPoints, yMapping, ease, y, dx);
          PaintPixel(src, bg, soft, w, h, srcX, s.srcY, y, dx, dst, target);
        }
      }
      dx := dx + 1;
    }
    FullKeeps(src, bg, soft, w, h, xPoints, yMapping, ease, y, dx, w);
    ScanSkip(dst[..], target, bg, w, h, y, dx, 0, y + 1, 0, 0);
  }

  /** The body of warpFullWithMask for row y: evaluate both curves, skip a source row outside the frame, run the strip. */
  method StripRow(src: seq<Byte>, bg: seq<Byte>, soft: seq<real>, w: nat, h: nat,
                  xPoints: Curve, yMapping: Curve, ease: real -> real, y: int, dst: array<Byte>)
    requires FullInputs(src, bg, soft, w, h, xPoints, yMapping, ease) && 0 <= y < h && dst.Length == w * h * 4
    requires ScannedUpTo(dst[..], WarpFull(src, bg, soft, w, h, xPoints, yMapping, ease), bg, w, h, y, 0, 0)
    modifies dst
    ensures ScannedUpTo(dst[..], WarpFull(src, bg, soft, w, h, xPoints, yMapping, ease), bg, w, h, y + 1, 0, 0)
  {
    ghost var target := WarpFull(src, bg, soft, w, h, xPoints, yMapping, ease);
    var tDest := y as real / h as real;
    var tSrc := SmoothScale(yMapping, tDest, ease);
    var xScale := SmoothScale(xPoints, tDest, ease);
    var stripW := Round(Mul(w as real, xScale));
    var offsetX := Round((w - stripW) as real / 2.0);
    var srcYf := Mul(tSrc, h as real);
    var s := Strip(stripW, offsetX, srcYf);
    assert RowStrip(w, h, xPoints, yMapping, ease, y) == s;
    if srcYf < 0.0 || srcYf >= (h - 1) as real {
      FullKeeps(src, bg, soft, w, h, xPoints, yMapping, ease, y, 0, w);
      ScanSkip(dst[..], target, bg, w, h, y, 0, 0, y + 1, 0, 0);
      return;
    }
    StripSpan(src, bg, soft, w, h, xPoints, yMapping, ease, y, s, dst);
  }

  /**
   * warpFullWithMask: a copy of the plate in which every pixel of every row's
   * strip that reads inside the source where the feathered mask reaches 0.05
   * is the feathered blend of the remapped frame over the plate.
   */
  method WarpFullWithMask(src: seq<Byte>, bg: seq<Byte>, soft: seq<real>, w: nat, h: nat,
                          xPoints: Curve, yMapping: Curve, ease: real -> real) returns (dst: array<Byte>)
    requires FullInputs(src, bg, soft, w, h, xPoints, yMapping, ease)
    ensures dst[..] == WarpFull(src, bg, soft, w, h, xPoints, yMapping, ease)
  {
    dst := new Byte[|bg|](i requires 0 <= i < |bg| => bg[i]);
    assert dst[..] == bg;
    ghost var target := WarpFull(src, bg, soft, w, h, xPoints, yMapping, ease);
    ScanStart(target, bg, w, h);
    var y := 0;
    while y < h
      invariant 0 <= y <= h
      invariant ScannedUpTo(dst[..], target, bg, w, h, y, 0, 0)
    {
      StripRow(src, bg, soft, w, h, xPoints, yMapping, ease, y, dst);
      y := y + 1;
    }
    ScanDone(dst[..], target, bg, w, h, y);
  }
}
