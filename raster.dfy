/**
 * Shared vocabulary of the body-transform pipeline: bytes, the rounding and
 * clamping JavaScript applies, and row-major indexing of a w-by-h raster whose
 * pixels are four bytes (R, G, B, A) wide.
 */
module Raster {

  datatype Option<T> = None | Some(value: T)

  /** A channel value as stored by a Uint8ClampedArray. */
  type Byte = b: int | 0 <= b < 256

  /** Three colour channels, as returned by the bilinear sampler. */
  datatype Rgb = Rgb(r: real, g: real, b: real)
  {
    function Channel(c: int): real
      requires 0 <= c < 3
    {
      if c == 0 then r else if c == 1 then g else b
    }
  }

  function Max(a: int, b: int): int { if a >= b then a else b }
  function Min(a: int, b: int): int { if a <= b then a else b }

  /** Math.round: rounds half-way cases up (towards positive infinity). */
  function Round(x: real): (n: int)
    ensures n as real - 0.5 <= x < n as real + 0.5
  {
    (x + 0.5).Floor
  }

  lemma RoundOfInteger(n: int)
    ensures Round(n as real) == n
  {
  }

  /** Math.round never reverses an order. */
  lemma RoundMonotone(a: real, b: real)
    requires a <= b
    ensures Round(a) <= Round(b)
  {
  }

  /** Math.floor and Math.ceil. */
  function Floor(x: real): (n: int)
    ensures n as real <= x < n as real + 1.0
  {
    x.Floor
  }

  function Ceil(x: real): (n: int)
    ensures n as real - 1.0 < x <= n as real
  {
    -((-x).Floor)
  }

  /** Clamp-on-write of a Uint8ClampedArray element, after Math.round. */
  function ToByte(v: real): (b: Byte)
    ensures 0.0 <= v <= 255.0 ==> b == Round(v)
    ensures v <= 0.0 ==> b == 0
    ensures 255.0 <= v ==> b == 255
  {
    var n := Round(v);
    if n < 0 then 0 else if n > 255 then 255 else n
  }

  predicate InUnit(a: real) { 0.0 <= a <= 1.0 }

  // ---------------------------------------------------------------------
  // Row-major indexing. Pixel (x, y) of a w-wide raster is number y*w + x;
  // its channel c is byte (y*w + x)*4 + c.
  // ---------------------------------------------------------------------

  function PixelIndex(w: int, y: int, x: int): int { y * w + x }

  function ByteIndex(w: int, y: int, x: int, c: int): int { (y * w + x) * 4 + c }

  /** Row and column of pixel number p. */
  function Row(w: int, p: int): int requires w > 0 { p / w }
  function Col(w: int, p: int): int requires w > 0 { p % w }

  /** Row, column and channel of byte number i. */
  function ByteRow(w: int, i: int): int requires w > 0 { (i / 4) / w }
  function ByteCol(w: int, i: int): int requires w > 0 { (i / 4) % w }
  function ByteChannel(i: int): int { i % 4 }

  lemma {:induction false} MulMonotone(a: int, b: int, k: int)
    requires a <= b && k >= 0
    ensures a * k <= b * k
  {
    assert b * k - a * k == (b - a) * k;
  }

  /** The value a w-by-h single-channel raster holds at pixel (x, y). */
  function PixelOf<T>(s: seq<T>, w: int, h: int, y: int, x: int): T
    requires |s| == w * h && 0 <= y < h && 0 <= x < w
  {
    PixelInRange(w, h, y, x);
    s[y * w + x]
  }

  /** Channel c of pixel (x, y) of a 4-channel raster. */
  function ChannelOf(s: seq<Byte>, w: int, h: int, y: int, x: int, c: int): Byte
    requires |s| == w * h * 4 && 0 <= y < h && 0 <= x < w && 0 <= c < 4
  {
    ByteInRange(w, h, y, x, c);
    s[ByteIndex(w, y, x, c)]
  }

  /** Row y of a w-by-h raster lies inside the raster. */
  lemma {:induction false} RowFits(w: int, h: int, y: int)
    requires w >= 0 && 0 <= y < h
    ensures 0 <= y * w && y * w + w <= w * h
  {
    MulMonotone(0, y, w);
    MulMonotone(y + 1, h, w);
    assert (y + 1) * w == y * w + w;
  }

  /** Pixel (x, y) has a number inside the raster, and that number decomposes back into (x, y). */
  lemma {:induction false} PixelInRange(w: int, h: int, y: int, x: int)
    requires 0 <= y < h && 0 <= x < w
    ensures 0 <= y * w + x < w * h
    ensures Row(w, y * w + x) == y && Col(w, y * w + x) == x
  {
    RowFits(w, h, y);
    var p := y * w + x;
    var q, r := p / w, p % w;
    assert p == q * w + r;
    if q < y {
      MulMonotone(q + 1, y, w);
      assert false;
    } else if q > y {
      MulMonotone(y + 1, q, w);
      assert false;
    }
  }

  /** Byte c of pixel (x, y) lies inside a 4-channel raster and decomposes back. */
  lemma {:induction false} ByteInRange(w: int, h: int, y: int, x: int, c: int)
    requires 0 <= y < h && 0 <= x < w && 0 <= c < 4
    ensures 0 <= ByteIndex(w, y, x, c) < w * h * 4
    ensures ByteRow(w, ByteIndex(w, y, x, c)) == y
    ensures ByteCol(w, ByteIndex(w, y, x, c)) == x
    ensures ByteChannel(ByteIndex(w, y, x, c)) == c
  {
    PixelInRange(w, h, y, x);
    var i := ByteIndex(w, y, x, c);
    assert i / 4 == y * w + x;
  }

  /** Every pixel number of a raster names a pixel inside it (so the raster is not empty). */
  lemma {:induction false} PixelDecomposes(w: int, h: int, p: int)
    requires w >= 0 && h >= 0 && 0 <= p < w * h
    ensures w > 0 && h > 0
    ensures 0 <= Row(w, p) < h && 0 <= Col(w, p) < w
    ensures p == Row(w, p) * w + Col(w, p)
  {
    var q := p / w;
    if q >= h {
      MulMonotone(h, q, w);
      assert false;
    }
  }

  /** Every byte number of a 4-channel raster names a channel of a pixel inside it. */
  lemma {:induction false} ByteDecomposes(w: int, h: int, i: int)
    requires w >= 0 && h >= 0 && 0 <= i < w * h * 4
    ensures w > 0 && h > 0
    ensures 0 <= ByteRow(w, i) < h && 0 <= ByteCol(w, i) < w && 0 <= ByteChannel(i) < 4
    ensures i == ByteIndex(w, ByteRow(w, i), ByteCol(w, i), ByteChannel(i))
  {
    PixelDecomposes(w, h, i / 4);
  }

  /** All bytes of row y, as a range of byte numbers, decompose to row y. */
  lemma {:induction false} RowBytes(w: int, h: int, y: int)
    requires w > 0 && 0 <= y < h
    ensures 0 <= 4 * (y * w) && 4 * (y * w + w) <= w * h * 4
    ensures forall i | 4 * (y * w) <= i < 4 * (y * w + w) ::
      ByteRow(w, i) == y && ByteCol(w, i) == i / 4 - y * w && ByteChannel(i) == i % 4
  {
    RowFits(w, h, y);
    forall i | 4 * (y * w) <= i < 4 * (y * w + w)
      ensures ByteRow(w, i) == y && ByteCol(w, i) == i / 4 - y * w
    {
      PixelInRange(w, h, y, i / 4 - y * w);
    }
  }

  /** All pixels of row y decompose to row y. */
  lemma {:induction false} RowPixels(w: int, h: int, y: int)
    requires w > 0 && 0 <= y < h
    ensures 0 <= y * w && y * w + w <= w * h
    ensures forall p | y * w <= p < y * w + w :: Row(w, p) == y && Col(w, p) == p - y * w
  {
    RowFits(w, h, y);
    forall p | y * w <= p < y * w + w
      ensures Row(w, p) == y && Col(w, p) == p - y * w
    {
      PixelInRange(w, h, y, p - y * w);
    }
  }

  /** Byte c of pixel (x, y) lies inside a w-by-h, 4-channel raster. */
  predicate InRaster(w: int, h: int, y: int, x: int, c: int)
  {
    0 <= y < h && 0 <= x < w && 0 <= c < 4
  }

  /** Row-major scan order: byte c of (x, y) is visited before byte c' of (x', y'). */
  predicate ScannedBefore(y: int, x: int, c: int, y': int, x': int, c': int)
  {
    y < y' || (y == y' && (x < x' || (x == x' && c < c')))
  }

  /** Every byte of the raster has a number inside the buffer. */
  lemma ByteIndices(w: int, h: int)
    ensures forall y, x, c | InRaster(w, h, y, x, c) :: 0 <= ByteIndex(w, y, x, c) < w * h * 4
  {
    forall y, x, c | InRaster(w, h, y, x, c)
      ensures 0 <= ByteIndex(w, y, x, c) < w * h * 4
    {
      ByteInRange(w, h, y, x, c);
    }
  }

  /** Distinct bytes of the raster have distinct numbers. */
  lemma ByteIndexApart(w: int, h: int, y: int, x: int, c: int)
    requires InRaster(w, h, y, x, c)
    ensures forall y', x', c' | InRaster(w, h, y', x', c') && ByteIndex(w, y', x', c') == ByteIndex(w, y, x, c) ::
      y' == y && x' == x && c' == c
  {
    ByteInRange(w, h, y, x, c);
    forall y', x', c' | InRaster(w, h, y', x', c') && ByteIndex(w, y', x', c') == ByteIndex(w, y, x, c)
      ensures y' == y && x' == x && c' == c
    {
      ByteInRange(w, h, y', x', c');
    }
  }

  // ---------------------------------------------------------------------
  // Scanning a 4-channel buffer in row-major order: `d` starts as `base`
  // and ends as `target`, byte by byte.
  // ---------------------------------------------------------------------

  /**
   * `d` agrees with `target` at every byte scanned before byte c of pixel
   * (x, y), and with `base` at every other byte.
   */
  ghost predicate ScannedUpTo(d: seq<Byte>, target: seq<Byte>, base: seq<Byte>, w: int, h: int, y: int, x: int, c: int)
    requires |d| == w * h * 4 && |target| == w * h * 4 && |base| == w * h * 4
  {
    ByteIndices(w, h);
    forall yy, xx, cc | InRaster(w, h, yy, xx, cc) ::
      d[ByteIndex(w, yy, xx, cc)] ==
        if ScannedBefore(yy, xx, cc, y, x, c) then target[ByteIndex(w, yy, xx, cc)] else base[ByteIndex(w, yy, xx, cc)]
  }

  /** Nothing scanned yet: the buffer is its base. */
  lemma ScanStart(target: seq<Byte>, base: seq<Byte>, w: int, h: int)
    requires |target| == w * h * 4 && |base| == w * h * 4
    ensures ScannedUpTo(base, target, base, w, h, 0, 0, 0)
  {
  }

  /** Storing the target value of the next byte scans it. */
  lemma ScanWrite(d: seq<Byte>, target: seq<Byte>, base: seq<Byte>, w: int, h: int, y: int, x: int, c: int)
    requires |d| == w * h * 4 && |target| == w * h * 4 && |base| == w * h * 4
    requires InRaster(w, h, y, x, c) && ScannedUpTo(d, target, base, w, h, y, x, c)
    ensures 0 <= ByteIndex(w, y, x, c) < |d|
    ensures ScannedUpTo(d[ByteIndex(w, y, x, c) := target[ByteIndex(w, y, x, c)]], target, base, w, h, y, x, c + 1)
  {
    ByteIndexApart(w, h, y, x, c);
    ByteIndices(w, h);
    var i := ByteIndex(w, y, x, c);
    var d' := d[i := target[i]];
    forall yy, xx, cc | InRaster(w, h, yy, xx, cc)
      ensures d'[ByteIndex(w, yy, xx, cc)] ==
        if ScannedBefore(yy, xx, cc, y, x, c + 1) then target[ByteIndex(w, yy, xx, cc)] else base[ByteIndex(w, yy, xx, cc)]
    {
      if yy != y || xx != x || cc != c {
        assert ByteIndex(w, yy, xx, cc) != i;
      }
    }
  }

  /** `target` and `base` agree at every byte from byte c of (x, y) up to, not including, byte c' of (x', y'). */
  ghost predicate SameBetween(target: seq<Byte>, base: seq<Byte>, w: int, h: int,
                              y: int, x: int, c: int, y': int, x': int, c': int)
    requires |target| == w * h * 4 && |base| == w * h * 4
  {
    ByteIndices(w, h);
    forall yy, xx, cc | InRaster(w, h, yy, xx, cc) && ScannedBefore(yy, xx, cc, y', x', c') && !ScannedBefore(yy, xx, cc, y, x, c) ::
      target[ByteIndex(w, yy, xx, cc)] == base[ByteIndex(w, yy, xx, cc)]
  }

  /** Bytes whose target value is their base value are scanned without being stored. */
  lemma ScanSkip(d: seq<Byte>, target: seq<Byte>, base: seq<Byte>, w: int, h: int,
                 y: int, x: int, c: int, y': int, x': int, c': int)
    requires |d| == w * h * 4 && |target| == w * h * 4 && |base| == w * h * 4
    requires ScannedUpTo(d, target, base, w, h, y, x, c)
    requires !ScannedBefore(y', x', c', y, x, c)
    requires SameBetween(target, base, w, h, y, x, c, y', x', c')
    ensures ScannedUpTo(d, target, base, w, h, y', x', c')
  {
    ByteIndices(w, h);
    forall yy, xx, cc | InRaster(w, h, yy, xx, cc)
      ensures d[ByteIndex(w, yy, xx, cc)] ==
        if ScannedBefore(yy, xx, cc, y', x', c') then target[ByteIndex(w, yy, xx, cc)] else base[ByteIndex(w, yy, xx, cc)]
    {
      var i := ByteIndex(w, yy, xx, cc);
      if ScannedBefore(yy, xx, cc, y, x, c) {
        assert d[i] == target[i];
      } else {
        assert d[i] == base[i];
      }
    }
  }

  /** Once every row is scanned, the buffer is the target. */
  lemma ScanDone(d: seq<Byte>, target: seq<Byte>, base: seq<Byte>, w: int, h: int, y: int)
    requires w >= 0 && h >= 0 && y >= h
    requires |d| == w * h * 4 && |target| == w * h * 4 && |base| == w * h * 4
    requires ScannedUpTo(d, target, base, w, h, y, 0, 0)
    ensures d == target
  {
    forall i | 0 <= i < |d|
      ensures d[i] == target[i]
    {
      ByteDecomposes(w, h, i);
    }
  }
}
