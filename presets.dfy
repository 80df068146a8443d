/**
 * transformTypes: the five body-shape presets. Three of them build a scale
 * curve from the pose with fixed zone ratios and run the horizontal warp; two
 * run the full warp with fixed width and row-remapping curves.
 */
module Presets {
  import opened Raster
  import opened Pose
  import opened ScaleCurve
  import opened Warp
  import opened RealArith

  /** What a preset runs: the horizontal warp with zone ratios, or the full warp with two curves. */
  datatype Transform =
    | Horizontal(zones: Zones)
    | FullFrame(xPoints: Curve, yMapping: Curve)

  datatype Preset = Preset(name: string, transform: Transform)

  function AllZones(head: real, shoulders: real, chest: real, waist: real, hips: real, knees: real, ankles: real): Zones
  {
    Zones(Some(head), Some(shoulders), Some(chest), Some(waist), Some(hips), Some(knees), Some(ankles))
  }

  const MuscularZones: Zones := AllZones(1.0, 1.15, 1.1, 0.88, 1.0, 1.0, 1.0)
  const PlumpZones: Zones := AllZones(1.02, 1.1, 1.16, 1.22, 1.16, 1.08, 1.02)
  const SlimZones: Zones := AllZones(0.98, 0.9, 0.86, 0.82, 0.85, 0.88, 0.94)

  const TallWidth: Curve :=
    [ScalePoint(0.0, 0.98), ScalePoint(0.3, 0.96), ScalePoint(0.5, 0.95), ScalePoint(0.7, 0.96), ScalePoint(1.0, 0.98)]
  const TallRows: Curve :=
    [ScalePoint(0.0, 0.0), ScalePoint(0.1, 0.13), ScalePoint(0.25, 0.32), ScalePoint(0.45, 0.55),
     ScalePoint(0.65, 0.76), ScalePoint(0.85, 0.92), ScalePoint(1.0, 1.0)]

  const ShortWidth: Curve :=
    [ScalePoint(0.0, 1.01), ScalePoint(0.3, 1.04), ScalePoint(0.5, 1.06), ScalePoint(0.7, 1.04), ScalePoint(1.0, 1.01)]
  const ShortRows: Curve :=
    [ScalePoint(0.0, 0.0), ScalePoint(0.15, 0.12), ScalePoint(0.35, 0.28), ScalePoint(0.55, 0.46),
     ScalePoint(0.75, 0.66), ScalePoint(0.9, 0.82), ScalePoint(1.0, 1.0)]

  /** The presets in the order the page lists them. */
  const TransformTypes: seq<Preset> := [
    Preset("근육질 체형", Horizontal(MuscularZones)),
    Preset("통통한 체형", Horizontal(PlumpZones)),
    Preset("마른 체형", Horizontal(SlimZones)),
    Preset("키 큰 체형", FullFrame(TallWidth, TallRows)),
    Preset("키 작은 체형", FullFrame(ShortWidth, ShortRows))
  ]

  /** What a preset needs to run: positive zone ratios, or two curves smoothScale can evaluate. */
  predicate Runnable(t: Transform)
  {
    match t
    case Horizontal(zones) => PositiveZones(zones)
    case FullFrame(xPoints, yMapping) => Evaluable(xPoints) && Evaluable(yMapping)
  }

  /** Every listed preset can run. */
  lemma PresetsRunnable()
    ensures |TransformTypes| == 5
    ensures forall i | 0 <= i < |TransformTypes| :: Runnable(TransformTypes[i].transform)
    ensures TransformTypes[0].transform.Horizontal? && TransformTypes[1].transform.Horizontal?
    ensures TransformTypes[2].transform.Horizontal?
    ensures TransformTypes[3].transform.FullFrame? && TransformTypes[4].transform.FullFrame?
  {
  }

  /** What an application of preset t returns. */
  function PresetImage(t: Transform, src: seq<Byte>, bg: seq<Byte>, mask: seq<int>, soft: seq<real>, w: nat, h: nat,
                       pose: seq<Keypoint>, ease: real -> real): (dst: seq<Byte>)
    requires Runnable(t) && h > 0 && IsCosineEase(ease)
    requires |src| == w * h * 4 && |bg| == w * h * 4 && |mask| == w * h && |soft| == w * h
    ensures |dst| == |bg|
  {
    match t
    case Horizontal(zones) =>
      var pts := BuildScalePoints(pose, h as real, zones);
      ScalePointsScales(pose, h as real, zones);
      WarpHorizontal(src, bg, mask, soft, w, h, pts, ease)
    case FullFrame(xPoints, yMapping) =>
      WarpFull(src, bg, soft, w, h, xPoints, yMapping, ease)
  }

  /** apply: build the curve from the pose and run the preset's warp. */
  method Apply(t: Transform, src: seq<Byte>, bg: seq<Byte>, mask: seq<int>, soft: seq<real>, w: nat, h: nat,
               pose: seq<Keypoint>, ease: real -> real) returns (dst: array<Byte>)
    requires Runnable(t) && h > 0 && IsCosineEase(ease)
    requires |src| == w * h * 4 && |bg| == w * h * 4 && |mask| == w * h && |soft| == w * h
    ensures dst[..] == PresetImage(t, src, bg, mask, soft, w, h, pose, ease)
  {
    match t
    case Horizontal(zones) =>
      var pts := BuildScalePoints(pose, h as real, zones);
      ScalePointsScales(pose, h as real, zones);
      dst := WarpPersonHorizontal(src, bg, mask, soft, w, h, pts, ease);
    case FullFrame(xPoints, yMapping) =>
      dst := WarpFullWithMask(src, bg, soft, w, h, xPoints, yMapping, ease);
  }

  // -------------------------------------------------------------------------
  // What the presets do to the figure
  // -------------------------------------------------------------------------

  /** Every scale of a curve built from the pose with these zones lies in [lo, hi]. */
  lemma BuiltScalesWithin(pose: seq<Keypoint>, h: real, zones: Zones, lo: real, hi: real)
    requires h != 0.0 && lo <= 1.0 <= hi
    requires zones.head.Some? && zones.shoulders.Some? && zones.chest.Some? && zones.waist.Some?
    requires zones.hips.Some? && zones.knees.Some? && zones.ankles.Some?
    requires lo <= OrOne(zones.head) <= hi && lo <= OrOne(zones.shoulders) <= hi && lo <= zones.chest.value <= hi
    requires lo <= OrOne(zones.waist) <= hi && lo <= OrOne(zones.hips) <= hi
    requires lo <= OrOne(zones.knees) <= hi && lo <= OrOne(zones.ankles) <= hi
    ensures ScalesWithin(BuildScalePoints(pose, h, zones), lo, hi)
  {
    ScalePointsScales(pose, h, zones);
    var pts := BuildScalePoints(pose, h, zones);
    forall i | 0 <= i < |pts| ensures lo <= pts[i].scale <= hi {
      if i == 0 || i == 1 || i == 9 {
      } else if i == 2 {
      } else if i == 3 {
      } else if i == 4 {
      } else if i == 5 {
      } else if i == 6 {
      } else if i == 7 {
      } else {
        assert i == 8;
      }
    }
  }

  /**
   * The slim preset never widens a row and the plump one never narrows one;
   * the muscular one keeps every row between 0.88 and 1.15 of its width.
   */
  lemma HorizontalPresetScales(pose: seq<Keypoint>, h: real, t: real, ease: real -> real)
    requires h != 0.0 && IsCosineEase(ease)
    ensures 0.82 <= ScaleAt(BuildScalePoints(pose, h, SlimZones), t, ease) <= 1.0
    ensures 1.0 <= ScaleAt(BuildScalePoints(pose, h, PlumpZones), t, ease) <= 1.22
    ensures 0.88 <= ScaleAt(BuildScalePoints(pose, h, MuscularZones), t, ease) <= 1.15
  {
    BuiltScalesWithin(pose, h, SlimZones, 0.82, 1.0);
    ScaleAtWithin(BuildScalePoints(pose, h, SlimZones), t, ease, 0.82, 1.0);
    BuiltScalesWithin(pose, h, PlumpZones, 1.0, 1.22);
    ScaleAtWithin(BuildScalePoints(pose, h, PlumpZones), t, ease, 1.0, 1.22);
    BuiltScalesWithin(pose, h, MuscularZones, 0.88, 1.15);
    ScaleAtWithin(BuildScalePoints(pose, h, MuscularZones), t, ease, 0.88, 1.15);
  }

  /**
   * A row remapping: control rows rise through [0, 1], and the curve sends
   * row 0 to row 0 and row 1 to row 1.
   */
  predicate RowMapping(points: Curve)
  {
    && Evaluable(points) && IncreasingStep(points)
    && (forall i | 0 <= i < |points| :: InUnit(points[i].row))
    && points[0] == ScalePoint(0.0, 0.0) && points[|points| - 1] == ScalePoint(1.0, 1.0)
  }

  /** A row remapping keeps the top and the bottom row where they are. */
  lemma RowMappingFixesEnds(points: Curve, ease: real -> real)
    requires RowMapping(points) && IsCosineEase(ease)
    ensures Increasing(points)
    ensures ScaleAt(points, 0.0, ease) == 0.0 && ScaleAt(points, 1.0, ease) == 1.0
  {
    StepwiseIncreasing(points);
    ScaleAtControlPoint(points, 0, ease);
    ScaleAtControlPoint(points, |points| - 1, ease);
  }

  /**
   * Where every control point maps its row to a later source row, the curve
   * does so at each control row; likewise for an earlier one.
   */
  lemma ControlRowsMapped(points: Curve, ease: real -> real, k: nat)
    requires RowMapping(points) && IsCosineEase(ease) && k < |points|
    ensures (forall i | 0 <= i < |points| :: points[i].scale >= points[i].row) ==>
              ScaleAt(points, points[k].row, ease) >= points[k].row
    ensures (forall i | 0 <= i < |points| :: points[i].scale <= points[i].row) ==>
              ScaleAt(points, points[k].row, ease) <= points[k].row
  {
    StepwiseIncreasing(points);
    ScaleAtControlPoint(points, k, ease);
  }

  /** The tall and short presets' second curves are row remappings; tall reads later rows, short earlier ones. */
  lemma PresetRowMappings()
    ensures RowMapping(TallRows) && RowMapping(ShortRows)
    ensures forall i | 0 <= i < |TallRows| :: TallRows[i].scale >= TallRows[i].row
    ensures forall i | 0 <= i < |ShortRows| :: ShortRows[i].scale <= ShortRows[i].row
  {
  }

  /**
   * At each control row the tall preset reads from a lower source row: the
   * figure is drawn out downwards.
   */
  lemma TallPresetRows(ease: real -> real, k: nat)
    requires IsCosineEase(ease) && k < |TallRows|
    ensures ScaleAt(TallRows, TallRows[k].row, ease) >= TallRows[k].row
  {
    PresetRowMappings();
    ControlRowsMapped(TallRows, ease, k);
  }

  /**
   * At each control row the short preset reads from a higher source row: the
   * figure is compressed.
   */
  lemma ShortPresetRows(ease: real -> real, k: nat)
    requires IsCosineEase(ease) && k < |ShortRows|
    ensures ScaleAt(ShortRows, ShortRows[k].row, ease) <= ShortRows[k].row
  {
    PresetRowMappings();
    ControlRowsMapped(ShortRows, ease, k);
  }

  /** Width scales at most 1 give a strip no wider than the row that starts at or after column 0. */
  lemma NarrowStrip(w: nat, h: nat, xPoints: Curve, yMapping: Curve, ease: real -> real, y: int)
    requires 0 <= y < h && Evaluable(xPoints) && Evaluable(yMapping) && IsCosineEase(ease)
    requires ScalesWithin(xPoints, 0.0, 1.0)
    ensures var s := RowStrip(w, h, xPoints, yMapping, ease, y); s.width <= w && s.offset >= 0
  {
    var x := ScaleAt(xPoints, y as real / h as real, ease);
    ScaleAtWithin(xPoints, y as real / h as real, ease, 0.0, 1.0);
    MulNonneg(w as real, 1.0 - x);
    RoundMonotone(Mul(w as real, x), w as real);
    RoundOfInteger(w);
    var width := Round(Mul(w as real, x));
    RoundMonotone(0.0, (w - width) as real / 2.0);
    RoundOfInteger(0);
  }

  /** Width scales at least 1 give a strip at least as wide as the row that starts at or before column 0. */
  lemma WideStrip(w: nat, h: nat, xPoints: Curve, yMapping: Curve, ease: real -> real, y: int, hi: real)
    requires 0 <= y < h && Evaluable(xPoints) && Evaluable(yMapping) && IsCosineEase(ease)
    requires ScalesWithin(xPoints, 1.0, hi)
    ensures var s := RowStrip(w, h, xPoints, yMapping, ease, y); s.width >= w && s.offset <= 0
  {
    var x := ScaleAt(xPoints, y as real / h as real, ease);
    ScaleAtWithin(xPoints, y as real / h as real, ease, 1.0, hi);
    MulNonneg(w as real, x - 1.0);
    RoundMonotone(w as real, Mul(w as real, x));
    RoundOfInteger(w);
    var width := Round(Mul(w as real, x));
    RoundMonotone((w - width) as real / 2.0, 0.0);
    RoundOfInteger(0);
  }

  /** The tall preset's strip always lies inside the row. */
  lemma TallStripInside(w: nat, h: nat, ease: real -> real, y: int)
    requires IsCosineEase(ease) && 0 <= y < h
    ensures var s := RowStrip(w, h, TallWidth, TallRows, ease, y); s.width <= w && s.offset >= 0
  {
    assert ScalesWithin(TallWidth, 0.0, 1.0);
    NarrowStrip(w, h, TallWidth, TallRows, ease, y);
  }

  /** The short preset's strip covers the row and is clipped to it. */
  lemma ShortStripCovers(w: nat, h: nat, ease: real -> real, y: int)
    requires IsCosineEase(ease) && 0 <= y < h
    ensures var s := RowStrip(w, h, ShortWidth, ShortRows, ease, y); s.width >= w && s.offset <= 0
  {
    assert ScalesWithin(ShortWidth, 1.0, 1.06);
    WideStrip(w, h, ShortWidth, ShortRows, ease, y, 1.06);
  }
}
