/**
 * Mask utilities: the person extent of a mask row (the scan both the
 * background plate and the horizontal warp open each row with) and
 * featherMask, which turns the binary person mask into a soft alpha field by
 * three rounds of separable box blur.
 *
 * Float32Array rounding is not modelled: the soft mask holds exact reals.
 */
module MaskUtil {
  import opened Raster
  import opened RealArith

  /** The segmentation labels pixel (x, y) as person: mask[y*w + x] === 1. */
  predicate Masked(mask: seq<int>, w: nat, h: nat, y: int, x: int)
    requires |mask| == w * h && 0 <= y < h && 0 <= x < w
  {
    PixelOf(mask, w, h, y, x) == 1
  }

  /**
   * The first and last person columns of row y among columns [0, n), or (-1, -1)
   * when none of them is a person pixel.
   */
  function ExtentUpTo(mask: seq<int>, w: nat, h: nat, y: int, n: int): (e: (int, int))
    requires |mask| == w * h && 0 <= y < h && 0 <= n <= w
    ensures (e.0 == -1) == (e.1 == -1)
    ensures e.0 == -1 ==> forall x | 0 <= x < n :: !Masked(mask, w, h, y, x)
    ensures e.0 != -1 ==>
      && 0 <= e.0 <= e.1 < n
      && Masked(mask, w, h, y, e.0) && Masked(mask, w, h, y, e.1)
      && (forall x | 0 <= x < e.0 :: !Masked(mask, w, h, y, x))
      && (forall x | e.1 < x < n :: !Masked(mask, w, h, y, x))
  {
    if n == 0 then (-1, -1)
    else
      var e := ExtentUpTo(mask, w, h, y, n - 1);
      if Masked(mask, w, h, y, n - 1) then (if e.0 == -1 then n - 1 else e.0, n - 1)
      else e
  }

  /** Person extent [left, right] of a whole row. */
  function RowExtent(mask: seq<int>, w: nat, h: nat, y: int): (int, int)
    requires |mask| == w * h && 0 <= y < h
  {
    ExtentUpTo(mask, w, h, y, w)
  }

  /** The left/right scan at the start of each row of createBackgroundPlate and warpPersonHorizontal. */
  method ScanRowExtent(mask: seq<int>, w: nat, h: nat, y: int) returns (left: int, right: int)
    requires |mask| == w * h && 0 <= y < h
    ensures (left, right) == RowExtent(mask, w, h, y)
  {
    left, right := -1, -1;
    var x := 0;
    while x < w
      invariant 0 <= x <= w
      invariant (left, right) == ExtentUpTo(mask, w, h, y, x)
    {
      PixelInRange(w, h, y, x);
      if mask[y * w + x] == 1 {
        if left == -1 {
          left := x;
        }
        right := x;
      }
      x := x + 1;
    }
  }

  // -------------------------------------------------------------------------
  // featherMask
  // -------------------------------------------------------------------------

  predicate AllInUnit(s: seq<real>)
  {
    forall i | 0 <= i < |s| :: InUnit(s[i])
  }

  predicate Uniform(s: seq<real>, v: real)
  {
    forall i | 0 <= i < |s| :: s[i] == v
  }

  /** Math.max(1, Math.round(radius / 3)): the window radius of every pass, never below 1. */
  function BoxRadius(radius: real): (r: nat)
    ensures r >= 1
    ensures radius < 4.5 ==> r == 1
    ensures radius >= 4.5 ==> r == Round(radius / 3.0)
  {
    Max(1, Round(radius / 3.0))
  }

  /** The starting field: 1.0 where the mask is exactly 1, 0.0 elsewhere. */
  function Binarize(mask: seq<int>): (s: seq<real>)
    ensures |s| == |mask|
    ensures AllInUnit(s)
  {
    seq(|mask|, i requires 0 <= i < |mask| => if mask[i] == 1 then 1.0 else 0.0)
  }

  /**
   * How many of the positions pos - r + j, for j in [0, k), fall inside [0, n).
   * The full window (k = 2r + 1) always holds pos itself, so its count is at least 1.
   */
  function WindowCount(n: nat, pos: int, r: nat, k: nat): (c: nat)
    requires 0 <= pos < n
    ensures c <= k
    ensures k > r ==> c >= 1
  {
    if k == 0 then 0
    else WindowCount(n, pos, r, k - 1) + (if 0 <= pos - r + k - 1 < n then 1 else 0)
  }

  /** Sum of the in-row samples s at columns x - r .. x - r + k - 1 of row y. */
  function RowWindowSum(s: seq<real>, w: nat, h: nat, y: int, x: int, r: nat, k: nat): real
    requires |s| == w * h && 0 <= y < h && 0 <= x < w
  {
    if k == 0 then 0.0
    else
      var nx := x - r + k - 1;
      RowWindowSum(s, w, h, y, x, r, k - 1) + (if 0 <= nx < w then PixelOf(s, w, h, y, nx) else 0.0)
  }

  /** Sum of the in-column samples s at rows y - r .. y - r + k - 1 of column x. */
  function ColWindowSum(s: seq<real>, w: nat, h: nat, y: int, x: int, r: nat, k: nat): real
    requires |s| == w * h && 0 <= y < h && 0 <= x < w
  {
    if k == 0 then 0.0
    else
      var ny := y - r + k - 1;
      ColWindowSum(s, w, h, y, x, r, k - 1) + (if 0 <= ny < h then PixelOf(s, w, h, ny, x) else 0.0)
  }

  /** Over a field of unit values, a window sum lies between 0 and the window's count. */
  lemma {:induction false} WindowSumsInUnit(s: seq<real>, w: nat, h: nat, y: int, x: int, r: nat, k: nat)
    requires |s| == w * h && 0 <= y < h && 0 <= x < w && AllInUnit(s)
    ensures 0.0 <= RowWindowSum(s, w, h, y, x, r, k) <= WindowCount(w, x, r, k) as real
    ensures 0.0 <= ColWindowSum(s, w, h, y, x, r, k) <= WindowCount(h, y, r, k) as real
  {
    if k > 0 {
      WindowSumsInUnit(s, w, h, y, x, r, k - 1);
      var nx, ny := x - r + k - 1, y - r + k - 1;
      if 0 <= nx < w {
        PixelInRange(w, h, y, nx);
      }
      if 0 <= ny < h {
        PixelInRange(w, h, ny, x);
      }
    }
  }

  /** Over a uniform field of value v, a row window sum is v times the window's count. */
  lemma {:induction false} RowWindowUniform(s: seq<real>, w: nat, h: nat, y: int, x: int, r: nat, k: nat, v: real)
    requires |s| == w * h && 0 <= y < h && 0 <= x < w && Uniform(s, v)
    ensures RowWindowSum(s, w, h, y, x, r, k) == Mul(v, WindowCount(w, x, r, k) as real)
  {
    if k > 0 {
      RowWindowUniform(s, w, h, y, x, r, k - 1, v);
      var nx := x - r + k - 1;
      var c := WindowCount(w, x, r, k - 1);
      var prev := RowWindowSum(s, w, h, y, x, r, k - 1);
      assert prev == Mul(v, c as real);
      if 0 <= nx < w {
        PixelInRange(w, h, y, nx);
        assert PixelOf(s, w, h, y, nx) == v;
        assert WindowCount(w, x, r, k) == c + 1;
        MulSucc(v, c as real);
      } else {
        assert WindowCount(w, x, r, k) == c;
      }
    }
  }

  /** Over a uniform field of value v, a column window sum is v times the window's count. */
  lemma {:induction false} ColWindowUniform(s: seq<real>, w: nat, h: nat, y: int, x: int, r: nat, k: nat, v: real)
    requires |s| == w * h && 0 <= y < h && 0 <= x < w && Uniform(s, v)
    ensures ColWindowSum(s, w, h, y, x, r, k) == Mul(v, WindowCount(h, y, r, k) as real)
  {
    if k > 0 {
      ColWindowUniform(s, w, h, y, x, r, k - 1, v);
      var ny := y - r + k - 1;
      var c := WindowCount(h, y, r, k - 1);
      var prev := ColWindowSum(s, w, h, y, x, r, k - 1);
      assert prev == Mul(v, c as real);
      if 0 <= ny < h {
        PixelInRange(w, h, ny, x);
        assert PixelOf(s, w, h, ny, x) == v;
        assert WindowCount(h, y, r, k) == c + 1;
        MulSucc(v, c as real);
      } else {
        assert WindowCount(h, y, r, k) == c;
      }
    }
  }

  /** Horizontal box average at pixel p: the window sum divided by the count of in-row neighbours. */
  function RowMeanAt(s: seq<real>, w: nat, h: nat, r: nat, p: int): real
    requires |s| == w * h && 0 <= p < w * h
  {
    PixelDecomposes(w, h, p);
    RowWindowSum(s, w, h, Row(w, p), Col(w, p), r, 2 * r + 1) / WindowCount(w, Col(w, p), r, 2 * r + 1) as real
  }

  /** Vertical box average at pixel p: the window sum divided by the count of in-column neighbours. */
  function ColMeanAt(s: seq<real>, w: nat, h: nat, r: nat, p: int): real
    requires |s| == w * h && 0 <= p < w * h
  {
    PixelDecomposes(w, h, p);
    ColWindowSum(s, w, h, Row(w, p), Col(w, p), r, 2 * r + 1) / WindowCount(h, Row(w, p), r, 2 * r + 1) as real
  }

  lemma MeanInUnit(sum: real, count: nat)
    requires count >= 1 && 0.0 <= sum <= count as real
    ensures InUnit(sum / count as real)
  {
  }

  /** Both box averages of a unit field are unit values. */
  lemma MeansInUnit(s: seq<real>, w: nat, h: nat, r: nat, p: int)
    requires |s| == w * h && 0 <= p < w * h && AllInUnit(s)
    ensures InUnit(RowMeanAt(s, w, h, r, p)) && InUnit(ColMeanAt(s, w, h, r, p))
  {
    PixelDecomposes(w, h, p);
    var y, x := Row(w, p), Col(w, p);
    WindowSumsInUnit(s, w, h, y, x, r, 2 * r + 1);
    MeanInUnit(RowWindowSum(s, w, h, y, x, r, 2 * r + 1), WindowCount(w, x, r, 2 * r + 1));
    MeanInUnit(ColWindowSum(s, w, h, y, x, r, 2 * r + 1), WindowCount(h, y, r, 2 * r + 1));
  }

  /** Both box averages of a uniform field of value v are v. */
  lemma MeansUniform(s: seq<real>, w: nat, h: nat, r: nat, p: int, v: real)
    requires |s| == w * h && 0 <= p < w * h && Uniform(s, v)
    ensures RowMeanAt(s, w, h, r, p) == v && ColMeanAt(s, w, h, r, p) == v
  {
    PixelDecomposes(w, h, p);
    var y, x := Row(w, p), Col(w, p);
    RowWindowUniform(s, w, h, y, x, r, 2 * r + 1, v);
    ColWindowUniform(s, w, h, y, x, r, 2 * r + 1, v);
    var cr, cc := WindowCount(w, x, r, 2 * r + 1), WindowCount(h, y, r, 2 * r + 1);
    MeanOfCopies(v, cr as real);
    MeanOfCopies(v, cc as real);
  }

  function RowBlur(s: seq<real>, w: nat, h: nat, r: nat): (t: seq<real>)
    requires |s| == w * h
    ensures |t| == w * h
  {
    seq(w * h, p requires 0 <= p < w * h => RowMeanAt(s, w, h, r, p))
  }

  function ColBlur(s: seq<real>, w: nat, h: nat, r: nat): (t: seq<real>)
    requires |s| == w * h
    ensures |t| == w * h
  {
    seq(w * h, p requires 0 <= p < w * h => ColMeanAt(s, w, h, r, p))
  }

  /** One pass of featherMask: the horizontal box blur, then the vertical one. */
  function BlurPass(s: seq<real>, w: nat, h: nat, r: nat): (t: seq<real>)
    requires |s| == w * h
    ensures |t| == w * h
  {
    ColBlur(RowBlur(s, w, h, r), w, h, r)
  }

  function BlurPasses(s: seq<real>, w: nat, h: nat, r: nat, n: nat): (t: seq<real>)
    requires |s| == w * h
    ensures |t| == w * h
  {
    if n == 0 then s else BlurPass(BlurPasses(s, w, h, r, n - 1), w, h, r)
  }

  /** featherMask(mask, w, h, radius): three blur passes over the binarised mask. */
  function Feather(mask: seq<int>, w: nat, h: nat, radius: real): (soft: seq<real>)
    requires |mask| == w * h
    ensures |soft| == w * h
  {
    BlurPasses(Binarize(mask), w, h, BoxRadius(radius), 3)
  }

  /** A blur pass keeps every value inside [0, 1]. */
  lemma BlurPassInUnit(s: seq<real>, w: nat, h: nat, r: nat)
    requires |s| == w * h && AllInUnit(s)
    ensures AllInUnit(BlurPass(s, w, h, r))
  {
    var t := RowBlur(s, w, h, r);
    forall p | 0 <= p < w * h
      ensures InUnit(t[p])
    {
      MeansInUnit(s, w, h, r, p);
    }
    forall p | 0 <= p < w * h
      ensures InUnit(ColBlur(t, w, h, r)[p])
    {
      MeansInUnit(t, w, h, r, p);
    }
  }

  /** A blur pass leaves a uniform field as it is. */
  lemma BlurPassUniform(s: seq<real>, w: nat, h: nat, r: nat, v: real)
    requires |s| == w * h && Uniform(s, v)
    ensures Uniform(BlurPass(s, w, h, r), v)
  {
    var t := RowBlur(s, w, h, r);
    forall p | 0 <= p < w * h
      ensures t[p] == v
    {
      MeansUniform(s, w, h, r, p, v);
    }
    forall p | 0 <= p < w * h
      ensures ColBlur(t, w, h, r)[p] == v
    {
      MeansUniform(t, w, h, r, p, v);
    }
  }

  lemma {:induction false} BlurPassesInUnit(s: seq<real>, w: nat, h: nat, r: nat, n: nat)
    requires |s| == w * h && AllInUnit(s)
    ensures AllInUnit(BlurPasses(s, w, h, r, n))
  {
    if n > 0 {
      BlurPassesInUnit(s, w, h, r, n - 1);
      BlurPassInUnit(BlurPasses(s, w, h, r, n - 1), w, h, r);
    }
  }

  lemma {:induction false} BlurPassesUniform(s: seq<real>, w: nat, h: nat, r: nat, n: nat, v: real)
    requires |s| == w * h && Uniform(s, v)
    ensures Uniform(BlurPasses(s, w, h, r, n), v)
  {
    if n > 0 {
      BlurPassesUniform(s, w, h, r, n - 1, v);
      BlurPassUniform(BlurPasses(s, w, h, r, n - 1), w, h, r, v);
    }
  }

  /** Every value of the soft mask lies in [0, 1]. */
  lemma FeatherInUnit(mask: seq<int>, w: nat, h: nat, radius: real)
    requires |mask| == w * h
    ensures AllInUnit(Feather(mask, w, h, radius))
  {
    BlurPassesInUnit(Binarize(mask), w, h, BoxRadius(radius), 3);
  }

  /** An all-person mask feathers to all 1.0; a mask without any 1 feathers to all 0.0. */
  lemma FeatherUniformMask(mask: seq<int>, w: nat, h: nat, radius: real)
    requires |mask| == w * h
    ensures (forall i | 0 <= i < |mask| :: mask[i] == 1) ==> Uniform(Feather(mask, w, h, radius), 1.0)
    ensures (forall i | 0 <= i < |mask| :: mask[i] != 1) ==> Uniform(Feather(mask, w, h, radius), 0.0)
  {
    var s := Binarize(mask);
    if forall i | 0 <= i < |mask| :: mask[i] == 1 {
      BlurPassesUniform(s, w, h, BoxRadius(radius), 3, 1.0);
    }
    if forall i | 0 <= i < |mask| :: mask[i] != 1 {
      BlurPassesUniform(s, w, h, BoxRadius(radius), 3, 0.0);
    }
  }

  /** Any radius below 4.5 (radius 0 and negative radii included) feathers exactly as radius 1. */
  lemma FeatherSmallRadius(mask: seq<int>, w: nat, h: nat, radius: real)
    requires |mask| == w * h && radius < 4.5
    ensures Feather(mask, w, h, radius) == Feather(mask, w, h, 1.0)
  {
  }

  /** The inner dx loop of the horizontal pass: sum and count of the in-row neighbours of (x, y). */
  method RowWindow(src: array<real>, w: nat, h: nat, y: int, x: int, r: nat) returns (sum: real, count: nat)
    requires src.Length == w * h && 0 <= y < h && 0 <= x < w
    ensures sum == RowWindowSum(src[..], w, h, y, x, r, 2 * r + 1)
    ensures count == WindowCount(w, x, r, 2 * r + 1) && count >= 1
  {
    sum, count := 0.0, 0;
    var dx: int := -(r as int);
    while dx <= r
      invariant -(r as int) <= dx <= r + 1
      invariant sum == RowWindowSum(src[..], w, h, y, x, r, dx + r)
      invariant count == WindowCount(w, x, r, dx + r)
    {
      var nx := x + dx;
      if nx >= 0 && nx < w {
        PixelInRange(w, h, y, nx);
        sum := sum + src[y * w + nx];
        count := count + 1;
      }
      dx := dx + 1;
    }
  }

  /** The inner dy loop of the vertical pass: sum and count of the in-column neighbours of (x, y). */
  method ColWindow(src: array<real>, w: nat, h: nat, y: int, x: int, r: nat) returns (sum: real, count: nat)
    requires src.Length == w * h && 0 <= y < h && 0 <= x < w
    ensures sum == ColWindowSum(src[..], w, h, y, x, r, 2 * r + 1)
    ensures count == WindowCount(h, y, r, 2 * r + 1) && count >= 1
  {
    sum, count := 0.0, 0;
    var dy: int := -(r as int);
    while dy <= r
      invariant -(r as int) <= dy <= r + 1
      invariant sum == ColWindowSum(src[..], w, h, y, x, r, dy + r)
      invariant count == WindowCount(h, y, r, dy + r)
    {
      var ny := y + dy;
      if ny >= 0 && ny < h {
        PixelInRange(w, h, ny, x);
        sum := sum + src[ny * w + x];
        count := count + 1;
      }
      dy := dy + 1;
    }
  }

  /** The horizontal half of a pass: temp[y*w + x] = sum / count over the in-row window. */
  method BoxBlurRows(src: array<real>, dst: array<real>, w: nat, h: nat, r: nat)
    requires src != dst && src.Length == w * h && dst.Length == w * h
    modifies dst
    ensures dst[..] == RowBlur(old(src[..]), w, h, r)
  {
    ghost var s := src[..];
    var y := 0;
    while y < h
      invariant 0 <= y <= h
      invariant src[..] == s
      invariant forall q | 0 <= q < y * w :: dst[q] == RowMeanAt(s, w, h, r, q)
    {
      RowFits(w, h, y);
      var x := 0;
      while x < w
        invariant 0 <= x <= w
        invariant src[..] == s
        invariant forall q | 0 <= q < y * w + x :: dst[q] == RowMeanAt(s, w, h, r, q)
      {
        var sum, count := RowWindow(src, w, h, y, x, r);
        PixelInRange(w, h, y, x);
        var i := y * w + x;
        assert RowMeanAt(s, w, h, r, i) == sum / count as real;
        dst[i] := sum / count as real;
        x := x + 1;
      }
      assert (y + 1) * w == y * w + w;
      y := y + 1;
    }
    RowFits(w, h + 1, h);
  }

  /** The vertical half of a pass: out[y*w + x] = sum / count over the in-column window. */
  method BoxBlurColumns(src: array<real>, dst: array<real>, w: nat, h: nat, r: nat)
    requires src != dst && src.Length == w * h && dst.Length == w * h
    modifies dst
    ensures dst[..] == ColBlur(old(src[..]), w, h, r)
  {
    ghost var s := src[..];
    var y := 0;
    while y < h
      invariant 0 <= y <= h
      invariant src[..] == s
      invariant forall q | 0 <= q < y * w :: dst[q] == ColMeanAt(s, w, h, r, q)
    {
      RowFits(w, h, y);
      var x := 0;
      while x < w
        invariant 0 <= x <= w
        invariant src[..] == s
        invariant forall q | 0 <= q < y * w + x :: dst[q] == ColMeanAt(s, w, h, r, q)
      {
        var sum, count := ColWindow(src, w, h, y, x, r);
        PixelInRange(w, h, y, x);
        var i := y * w + x;
        assert ColMeanAt(s, w, h, r, i) == sum / count as real;
        dst[i] := sum / count as real;
        x := x + 1;
      }
      assert (y + 1) * w == y * w + w;
      y := y + 1;
    }
    RowFits(w, h + 1, h);
  }

  /** featherMask: binarise the mask into a fresh buffer, then run three blur passes. */
  method FeatherMask(mask: seq<int>, w: nat, h: nat, radius: real) returns (soft: array<real>)
    requires |mask| == w * h
    ensures soft[..] == Feather(mask, w, h, radius)
  {
    var src := new real[w * h];
    var i := 0;
    while i < |mask|
      invariant 0 <= i <= |mask|
      invariant forall j | 0 <= j < i :: src[j] == Binarize(mask)[j]
    {
      src[i] := if mask[i] == 1 then 1.0 else 0.0;
      i := i + 1;
    }
    var r := Max(1, Round(radius / 3.0));
    var p := 0;
    while p < 3
      invariant 0 <= p <= 3
      invariant src.Length == w * h
      invariant src[..] == BlurPasses(Binarize(mask), w, h, r, p)
    {
      var temp := new real[w * h];
      BoxBlurRows(src, temp, w, h, r);
      var out := new real[w * h];
      BoxBlurColumns(temp, out, w, h, r);
      src := out;
      p := p + 1;
    }
    soft := src;
  }
}
