/**
 * Pose keypoints as delivered by the segmentation model, and the lookup of a
 * named landmark that is confident enough to be used.
 */
module Pose {
  import opened Raster

  datatype Position = Position(x: real, y: real)

  datatype Keypoint = Keypoint(part: string, score: real, position: Position)

  /** A keypoint is usable for `name` when it is that part and its score is strictly above 0.2. */
  predicate Usable(k: Keypoint, name: string)
  {
    k.part == name && k.score > 0.2
  }

  /**
   * The position of the first usable keypoint for `name` at or after index `from`,
   * or None when there is none.
   */
  function FindFrom(keypoints: seq<Keypoint>, name: string, from: nat): (r: Option<Position>)
    requires from <= |keypoints|
    decreases |keypoints| - from
    ensures r.None? <==> forall j | from <= j < |keypoints| :: !Usable(keypoints[j], name)
    ensures r.Some? ==> exists i | from <= i < |keypoints| ::
      Usable(keypoints[i], name) && keypoints[i].position == r.value &&
      forall j | from <= j < i :: !Usable(keypoints[j], name)
  {
    if from == |keypoints| then None
    else if Usable(keypoints[from], name) then Some(keypoints[from].position)
    else FindFrom(keypoints, name, from + 1)
  }

  /** The keypoint lookup the scale-curve builder relies on. */
  function Find(keypoints: seq<Keypoint>, name: string): (r: Option<Position>)
  {
    FindFrom(keypoints, name, 0)
  }

  /**
   * getKeypoint: a linear search that returns at the first keypoint whose part is
   * `name` and whose score exceeds 0.2, and null when the list holds none.
   */
  method GetKeypoint(keypoints: seq<Keypoint>, name: string) returns (r: Option<Position>)
    ensures r == Find(keypoints, name)
    ensures r.None? <==> forall j | 0 <= j < |keypoints| :: !Usable(keypoints[j], name)
  {
    var i := 0;
    while i < |keypoints|
      invariant 0 <= i <= |keypoints|
      invariant FindFrom(keypoints, name, 0) == FindFrom(keypoints, name, i)
    {
      if keypoints[i].part == name && keypoints[i].score > 0.2 {
        return Some(keypoints[i].position);
      }
      i := i + 1;
    }
    return None;
  }
}
