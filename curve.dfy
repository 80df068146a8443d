/**
 * The per-row scale curve: control points keyed to anatomical landmarks
 * (buildScalePoints) and their piecewise cosine-eased interpolation (smoothScale).
 *
 * Math.cos is not modelled numerically. The interpolator receives the easing
 * function u |-> (1 - Math.cos(u * Math.PI)) / 2 as the parameter `ease`, and
 * everything proved about it uses only the facts IsCosineEase states.
 */
module ScaleCurve {
  import opened Raster
  import opened Pose
  import opened RealArith

  /** A control point [row, scale]: a normalised row and the scale wanted there. */
  datatype ScalePoint = ScalePoint(row: real, scale: real)

  type Curve = seq<ScalePoint>

  /** What the interpolator needs of (1 - cos(u*pi)) / 2: it maps 0 to 0, 1 to 1 and stays in [0, 1]. */
  ghost predicate IsCosineEase(ease: real -> real)
  {
    ease(0.0) == 0.0 && ease(1.0) == 1.0 && forall u :: 0.0 <= ease(u) <= 1.0
  }

  /**
   * A curve smoothScale can evaluate without dividing zero by zero: it is not
   * empty, and its first two rows differ (the only pair whose rows can be equal
   * when a bracketing pair is found).
   */
  predicate Evaluable(points: Curve)
  {
    |points| >= 1 && (|points| >= 2 ==> points[1].row != points[0].row)
  }

  predicate Increasing(points: Curve)
  {
    forall i, j | 0 <= i < j < |points| :: points[i].row < points[j].row
  }

  predicate IncreasingStep(points: Curve)
  {
    forall i | 0 <= i < |points| - 1 :: points[i].row < points[i + 1].row
  }

  predicate PositiveScales(points: Curve)
  {
    forall i | 0 <= i < |points| :: points[i].scale > 0.0
  }

  /** Rows that rise from one control point to the next rise across the whole curve. */
  lemma {:induction false} StepwiseIncreasing(points: Curve)
    requires IncreasingStep(points)
    ensures Increasing(points)
  {
    if |points| > 1 {
      var rest := points[1..];
      assert IncreasingStep(rest) by {
        forall i | 0 <= i < |rest| - 1 ensures rest[i].row < rest[i + 1].row {
          assert rest[i] == points[i + 1] && rest[i + 1] == points[i + 2];
        }
      }
      StepwiseIncreasing(rest);
      forall i, j | 0 <= i < j < |points| ensures points[i].row < points[j].row {
        if i > 0 {
          assert points[i] == rest[i - 1] && points[j] == rest[j - 1];
        } else if j > 1 {
          assert points[1] == rest[0] && points[j] == rest[j - 1];
        }
      }
    }
  }

  /** Math.max(0, Math.min(1, t)). */
  function ClampUnit(t: real): (c: real)
    ensures InUnit(c)
    ensures InUnit(t) ==> c == t
  {
    if t > 1.0 then 1.0 else if t < 0.0 then 0.0 else t
  }

  /**
   * The index the scan of smoothScale stops at when it starts at i: the first k
   * with t <= points[k+1].row, or the last index when there is none.
   */
  function BracketFrom(points: Curve, t: real, i: nat): (k: nat)
    requires 1 <= |points| && i <= |points| - 1
    decreases |points| - i
    ensures i <= k <= |points| - 1
    ensures forall j | i < j <= k :: t > points[j].row
    ensures k < |points| - 1 ==> t <= points[k + 1].row
  {
    if i == |points| - 1 then i
    else if t <= points[i + 1].row then i
    else BracketFrom(points, t, i + 1)
  }

  function Bracket(points: Curve, t: real): nat
    requires 1 <= |points|
  {
    BracketFrom(points, t, 0)
  }

  /**
   * smoothScale(points, t): clamp t to [0, 1], find the bracketing pair and ease
   * between its two scales; the last scale when no pair brackets t.
   */
  function ScaleAt(points: Curve, t: real, ease: real -> real): (s: real)
    requires Evaluable(points) && IsCosineEase(ease)
    ensures var k := Bracket(points, ClampUnit(t));
      if k == |points| - 1 then s == points[|points| - 1].scale
      else Min2(points[k].scale, points[k + 1].scale) <= s <= Max2(points[k].scale, points[k + 1].scale)
  {
    var tc := ClampUnit(t);
    var k := Bracket(points, tc);
    if k == |points| - 1 then points[|points| - 1].scale
    else
      var p0, p1 := points[k], points[k + 1];
      BracketRowsDiffer(points, tc);
      var local := (tc - p0.row) / (p1.row - p0.row);
      var blend := ease(local);
      assert 0.0 <= blend <= 1.0;
      BetweenEnds(p0.scale, p1.scale, blend);
      p0.scale + (p1.scale - p0.scale) * blend
  }

  /** The bracketing pair found for t never has two equal rows. */
  lemma BracketRowsDiffer(points: Curve, t: real)
    requires Evaluable(points)
    requires Bracket(points, t) < |points| - 1
    ensures points[Bracket(points, t) + 1].row != points[Bracket(points, t)].row
  {
    var k := Bracket(points, t);
    if k > 0 {
      assert t > points[k].row;
    }
  }

  function Min2(a: real, b: real): real { if a <= b then a else b }
  function Max2(a: real, b: real): real { if a >= b then a else b }

  lemma BetweenEnds(a: real, b: real, blend: real)
    requires 0.0 <= blend <= 1.0
    ensures Min2(a, b) <= a + (b - a) * blend <= Max2(a, b)
  {
    if a <= b {
      MulNonneg(b - a, blend);
      MulNonneg(b - a, 1.0 - blend);
    } else {
      MulNonneg(a - b, blend);
      MulNonneg(a - b, 1.0 - blend);
    }
  }

  lemma DivSelf(d: real)
    requires d != 0.0
    ensures d / d == 1.0
  {
    calc {
      d / d;
      (1.0 * d) / d;
      1.0;
    }
  }

  /** A curve whose scales are all positive is evaluated to a positive scale. */
  lemma ScaleAtPositive(points: Curve, t: real, ease: real -> real)
    requires Evaluable(points) && IsCosineEase(ease) && PositiveScales(points)
    ensures ScaleAt(points, t, ease) > 0.0
  {
    var k := Bracket(points, ClampUnit(t));
    if k < |points| - 1 {
      assert points[k].scale > 0.0 && points[k + 1].scale > 0.0;
    }
  }

  /** Every control scale lies in [lo, hi]. */
  predicate ScalesWithin(points: Curve, lo: real, hi: real)
  {
    forall i | 0 <= i < |points| :: lo <= points[i].scale <= hi
  }

  /** The interpolated curve never leaves the range of its control scales. */
  lemma ScaleAtWithin(points: Curve, t: real, ease: real -> real, lo: real, hi: real)
    requires Evaluable(points) && IsCosineEase(ease) && ScalesWithin(points, lo, hi)
    ensures lo <= ScaleAt(points, t, ease) <= hi
  {
    var k := Bracket(points, ClampUnit(t));
    assert lo <= points[k].scale <= hi;
    if k < |points| - 1 {
      assert lo <= points[k + 1].scale <= hi;
    }
  }

  /**
   * On an increasing curve whose rows lie in [0, 1], the interpolated curve passes
   * through every control point: evaluating at a point's row gives its scale.
   */
  lemma {:induction false} ScaleAtControlPoint(points: Curve, k: nat, ease: real -> real)
    requires Evaluable(points) && IsCosineEase(ease) && Increasing(points)
    requires forall i | 0 <= i < |points| :: InUnit(points[i].row)
    requires k < |points|
    ensures ScaleAt(points, points[k].row, ease) == points[k].scale
  {
    var t := points[k].row;
    assert ClampUnit(t) == t;
    var b := Bracket(points, t);
    if |points| == 1 {
      assert b == 0;
    } else if k == 0 {
      assert t <= points[1].row;
      assert b == 0;
      assert (t - points[0].row) / (points[1].row - points[0].row) == 0.0;
    } else {
      assert b == k - 1;
      var d := points[k].row - points[k - 1].row;
      assert d > 0.0;
      assert t - points[k - 1].row == d;
      DivSelf(d);
    }
  }

  /** Past the last bracketing pair the curve keeps the last scale. */
  lemma ScaleAtLast(points: Curve, t: real, ease: real -> real)
    requires Evaluable(points) && IsCosineEase(ease)
    requires Bracket(points, ClampUnit(t)) == |points| - 1
    ensures ScaleAt(points, t, ease) == points[|points| - 1].scale
  {
  }

  /** Between the bracketing pair k, k + 1 the curve is the eased blend of their two scales. */
  lemma ScaleAtBracketed(points: Curve, t: real, ease: real -> real, k: nat)
    requires Evaluable(points) && IsCosineEase(ease)
    requires k == Bracket(points, ClampUnit(t)) && k < |points| - 1
    ensures points[k + 1].row != points[k].row
    ensures ScaleAt(points, t, ease) ==
      points[k].scale + (points[k + 1].scale - points[k].scale) * ease((ClampUnit(t) - points[k].row) / (points[k + 1].row - points[k].row))
  {
    BracketRowsDiffer(points, ClampUnit(t));
  }

  /**
   * smoothScale: the scan with break over the control points, then the
   * closed-form cosine blend between the bracketing pair.
   */
  method SmoothScale(points: Curve, t: real, ease: real -> real) returns (s: real)
    requires Evaluable(points) && IsCosineEase(ease)
    ensures s == ScaleAt(points, t, ease)
  {
    var tc := if 1.0 <= t then 1.0 else t;
    tc := if 0.0 >= tc then 0.0 else tc;
    assert tc == ClampUnit(t);
    var i := BracketScan(points, tc);
    if i >= |points| - 1 {
      ScaleAtLast(points, t, ease);
      return points[|points| - 1].scale;
    }
    ScaleAtBracketed(points, t, ease, i);
    var p0, p1 := points[i], points[i + 1];
    var local := (tc - p0.row) / (p1.row - p0.row);
    var blend := ease(local);
    s := p0.scale + (p1.scale - p0.scale) * blend;
  }

  /** The scan of smoothScale: it stops at the first pair whose upper row is at or above t. */
  method BracketScan(points: Curve, t: real) returns (i: nat)
    requires 1 <= |points|
    ensures i == Bracket(points, t)
  {
    i := 0;
    while i < |points| - 1
      invariant 0 <= i <= |points| - 1
      invariant Bracket(points, t) == BracketFrom(points, t, i)
    {
      if t <= points[i + 1].row {
        break;
      }
      i := i + 1;
    }
  }

  // -------------------------------------------------------------------------
  // buildScalePoints
  // -------------------------------------------------------------------------

  /** Target scale per body zone; a zone left out of a preset is None. */
  datatype Zones = Zones(
    head: Option<real>, shoulders: Option<real>, chest: Option<real>, waist: Option<real>,
    hips: Option<real>, knees: Option<real>, ankles: Option<real>)

  /** `zone || 1.0`: an absent or zero (falsy) ratio becomes 1.0. */
  function OrOne(z: Option<real>): (r: real)
    ensures z.None? ==> r == 1.0
    ensures z.Some? ==> r == (if z.value == 0.0 then 1.0 else z.value)
  {
    if z.Some? && z.value != 0.0 then z.value else 1.0
  }

  /** The chest ratio: the preset's own when it is given at all, else the shoulders' `|| 1.0`. */
  function ChestRatio(zones: Zones): (r: real)
    ensures zones.chest.Some? ==> r == zones.chest.value
    ensures zones.chest.None? ==> r == OrOne(zones.shoulders)
  {
    if zones.chest.Some? then zones.chest.value else OrOne(zones.shoulders)
  }

  /** Normalised landmark rows derived from the pose. */
  datatype Landmarks = Landmarks(
    head: real, shoulders: real, chest: real, waist: real, hips: real, knees: real, ankles: real)

  /** Mean height of a left/right pair, used only when both sides are found. */
  function PairRow(pose: seq<Keypoint>, left: string, right: string, h: real, default: real): (r: real)
    requires h != 0.0
    ensures Find(pose, left).None? || Find(pose, right).None? ==> r == default
    ensures Find(pose, left).Some? && Find(pose, right).Some? ==>
      r == ((Find(pose, left).value.y + Find(pose, right).value.y) / 2.0) / h
  {
    match (Find(pose, left), Find(pose, right))
    case (Some(l), Some(r)) => ((l.y + r.y) / 2.0) / h
    case _ => default
  }

  function LandmarkRows(pose: seq<Keypoint>, h: real): (m: Landmarks)
    requires h != 0.0
    ensures m.waist == (m.shoulders + m.hips) / 2.0
    ensures m.chest == m.shoulders + (m.hips - m.shoulders) * 0.25
  {
    var head := match Find(pose, "nose") case Some(n) => n.y / h case None => 0.12;
    var shoulders := PairRow(pose, "leftShoulder", "rightShoulder", h, 0.25);
    var hips := PairRow(pose, "leftHip", "rightHip", h, 0.55);
    var knees := PairRow(pose, "leftKnee", "rightKnee", h, 0.78);
    var ankles := PairRow(pose, "leftAnkle", "rightAnkle", h, 0.95);
    Landmarks(head, shoulders, shoulders + (hips - shoulders) * 0.25, (shoulders + hips) / 2.0,
              hips, knees, ankles)
  }

  function RealMax(a: real, b: real): real { if a >= b then a else b }

  /** The ten control points of buildScalePoints, top of the frame to bottom. */
  function BuildScalePoints(pose: seq<Keypoint>, h: real, zones: Zones): (pts: Curve)
    requires h != 0.0
    ensures |pts| == 10
    ensures pts[0] == ScalePoint(0.0, 1.0) && pts[9] == ScalePoint(1.0, 1.0)
    ensures pts[1].scale == 1.0 && pts[1].row >= 0.01
    ensures Evaluable(pts)
  {
    var m := LandmarkRows(pose, h);
    [ ScalePoint(0.0, 1.0),
      ScalePoint(RealMax(0.01, m.head - 0.06), 1.0),
      ScalePoint(m.head, OrOne(zones.head)),
      ScalePoint(m.shoulders, OrOne(zones.shoulders)),
      ScalePoint(m.chest, ChestRatio(zones)),
      ScalePoint(m.waist, OrOne(zones.waist)),
      ScalePoint(m.hips, OrOne(zones.hips)),
      ScalePoint(m.knees, OrOne(zones.knees)),
      ScalePoint(m.ankles, OrOne(zones.ankles)),
      ScalePoint(1.0, 1.0) ]
  }

  /** Every ratio the preset gives is positive. */
  predicate PositiveZones(zones: Zones)
  {
    && (zones.head.Some? ==> zones.head.value > 0.0)
    && (zones.shoulders.Some? ==> zones.shoulders.value > 0.0)
    && (zones.chest.Some? ==> zones.chest.value > 0.0)
    && (zones.waist.Some? ==> zones.waist.value > 0.0)
    && (zones.hips.Some? ==> zones.hips.value > 0.0)
    && (zones.knees.Some? ==> zones.knees.value > 0.0)
    && (zones.ankles.Some? ==> zones.ankles.value > 0.0)
  }

  /** Scales of the built curve: 1.0 at the first two and last points, zone ratios (or their fallbacks) between. */
  lemma ScalePointsScales(pose: seq<Keypoint>, h: real, zones: Zones)
    requires h != 0.0
    ensures var pts := BuildScalePoints(pose, h, zones);
      && pts[2].scale == OrOne(zones.head)
      && pts[3].scale == OrOne(zones.shoulders)
      && pts[4].scale == (if zones.chest.Some? then zones.chest.value else OrOne(zones.shoulders))
      && pts[5].scale == OrOne(zones.waist)
      && pts[6].scale == OrOne(zones.hips)
      && pts[7].scale == OrOne(zones.knees)
      && pts[8].scale == OrOne(zones.ankles)
    ensures PositiveZones(zones) ==> PositiveScales(BuildScalePoints(pose, h, zones))
  {
  }

  /** Rows of the built curve: the landmarks, with the lead-in row just above the head. */
  lemma ScalePointsRows(pose: seq<Keypoint>, h: real, zones: Zones)
    requires h != 0.0
    ensures var pts := BuildScalePoints(pose, h, zones);
      var m := LandmarkRows(pose, h);
      && pts[1].row == RealMax(0.01, m.head - 0.06)
      && pts[2].row == m.head && pts[3].row == m.shoulders && pts[4].row == m.chest
      && pts[5].row == m.waist && pts[6].row == m.hips && pts[7].row == m.knees
      && pts[8].row == m.ankles
  {
  }

  /** No usable landmark: every row falls back to its default, and the defaults increase. */
  lemma {:induction false} DefaultScalePoints(pose: seq<Keypoint>, h: real, zones: Zones)
    requires h != 0.0
    requires forall i | 0 <= i < |pose| :: pose[i].score <= 0.2
    ensures var pts := BuildScalePoints(pose, h, zones);
      && pts[0].row == 0.0 && pts[1].row == 0.06 && pts[2].row == 0.12 && pts[3].row == 0.25
      && pts[4].row == 0.325 && pts[5].row == 0.40 && pts[6].row == 0.55 && pts[7].row == 0.78
      && pts[8].row == 0.95 && pts[9].row == 1.0
    ensures Increasing(BuildScalePoints(pose, h, zones))
  {
    forall name: string ensures Find(pose, name).None? {
      assert forall j | 0 <= j < |pose| :: !Usable(pose[j], name);
    }
    var pts := BuildScalePoints(pose, h, zones);
    assert IncreasingStep(pts);
    StepwiseIncreasing(pts);
  }

  /**
   * The rows increase whenever the landmarks are found in anatomical order
   * inside the frame; nothing forces that order for an arbitrary pose.
   */
  lemma {:induction false} OrderedLandmarksIncrease(pose: seq<Keypoint>, h: real, zones: Zones)
    requires h != 0.0
    requires var m := LandmarkRows(pose, h);
      0.01 < m.head < m.shoulders < m.hips < m.knees < m.ankles < 1.0
    ensures Increasing(BuildScalePoints(pose, h, zones))
  {
    var pts := BuildScalePoints(pose, h, zones);
    assert IncreasingStep(pts);
    StepwiseIncreasing(pts);
  }
}
