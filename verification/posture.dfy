/** The per-frame posture classifier of the pose-detection component.

    A detected pose is a list of named keypoints with image coordinates
    (pixels, y pointing down).  The classifier looks up the nose and both
    shoulders by name, measures how far the nose sits sideways from the
    shoulder midpoint and how far apart the two shoulders are vertically,
    and turns the two measurements into one of six status outcomes. */
module Posture {
  import opened Wrappers

  /** One estimated body joint.  The detector may leave `name` and `score`
      unset, so both are optional. */
  datatype Keypoint = Keypoint(x: real, y: real, score: Option<real>, name: Option<string>)

  /** One detected pose: its keypoints in detector order, and an overall score. */
  datatype Pose = Pose(keypoints: seq<Keypoint>, score: Option<real>)

  /** The outcome of classifying one frame; `Message` gives the text shown. */
  datatype Status =
    | NoPoseDetected
    | KeypointsMissing
    | LeaningForwardAndTilting
    | LeaningForward
    | Tilting
    | GoodPosture

  const Nose: string := "nose"
  const LeftShoulder: string := "left_shoulder"
  const RightShoulder: string := "right_shoulder"

  /** Largest sideways nose-to-shoulder-midpoint distance that is not leaning. */
  const MaxHorizontalDistance: real := 30.0
  /** Largest vertical gap between the shoulders that is not tilting. */
  const MaxLevelDifference: real := 10.0

  /** The text the component displays for each status. */
  function Message(s: Status): (r: string)
    ensures s == NoPoseDetected <==> r == "No pose detected"
    ensures s == KeypointsMissing <==> r == "Essential keypoints missing"
    ensures s == LeaningForwardAndTilting <==> r == "Leaning forward and tilting"
    ensures s == LeaningForward <==> r == "Leaning forward"
    ensures s == Tilting <==> r == "Tilting"
    ensures s == GoodPosture <==> r == "Good posture"
  {
    match s
    case NoPoseDetected => "No pose detected"
    case KeypointsMissing => "Essential keypoints missing"
    case LeaningForwardAndTilting => "Leaning forward and tilting"
    case LeaningForward => "Leaning forward"
    case Tilting => "Tilting"
    case GoodPosture => "Good posture"
  }

  function Abs(v: real): (r: real)
    ensures r >= 0.0 && (r == v || r == -v)
  {
    if v < 0.0 then -v else v
  }

  /** No keypoint of `kps` carries the name `name`. */
  ghost predicate Absent(kps: seq<Keypoint>, name: string) {
    forall i :: 0 <= i < |kps| ==> kps[i].name != Some(name)
  }

  /** Index `i` holds the first keypoint of `kps` named `name`. */
  ghost predicate IsFirst(kps: seq<Keypoint>, name: string, i: int) {
    && 0 <= i < |kps|
    && kps[i].name == Some(name)
    && forall j :: 0 <= j < i ==> kps[j].name != Some(name)
  }

  /** Reference definition of leaning, free of absolute values and division:
      twice the nose's offset from the shoulder midpoint exceeds twice the
      threshold on one side or the other. */
  ghost predicate Leaning(nose: Keypoint, left: Keypoint, right: Keypoint) {
    || 2.0 * nose.x - left.x - right.x > 2.0 * MaxHorizontalDistance
    || left.x + right.x - 2.0 * nose.x > 2.0 * MaxHorizontalDistance
  }

  /** Reference definition of tilting: one shoulder sits more than the
      threshold above the other, whichever one it is. */
  ghost predicate Tilted(left: Keypoint, right: Keypoint) {
    || left.y - right.y > MaxLevelDifference
    || right.y - left.y > MaxLevelDifference
  }

  /** The first keypoint named `name`, as an array `find` with a name test
      returns it. */
  function Find(kps: seq<Keypoint>, name: string): (r: Option<Keypoint>)
    ensures r.None? <==> Absent(kps, name)
    ensures r.Some? ==> exists i :: IsFirst(kps, name, i) && r.value == kps[i]
  {
    if |kps| == 0 then None
    else if kps[0].name == Some(name) then
      assert IsFirst(kps, name, 0);
      Some(kps[0])
    else
      var r := Find(kps[1..], name);
      assert r.Some? ==> exists i :: IsFirst(kps, name, i) && r.value == kps[i] by {
        if r.Some? {
          var i :| IsFirst(kps[1..], name, i) && r.value == kps[1..][i];
          assert IsFirst(kps, name, i + 1);
        }
      }
      r
  }

  /** The message cascade once all three keypoints are known: both signals,
      then leaning alone, then tilting alone, else good posture. */
  function Verdict(nose: Keypoint, left: Keypoint, right: Keypoint): (r: Status)
    ensures r == LeaningForwardAndTilting <==> Leaning(nose, left, right) && Tilted(left, right)
    ensures r == LeaningForward <==> Leaning(nose, left, right) && !Tilted(left, right)
    ensures r == Tilting <==> !Leaning(nose, left, right) && Tilted(left, right)
    ensures r == GoodPosture <==> !Leaning(nose, left, right) && !Tilted(left, right)
  {
    var shoulderMidpointX := (left.x + right.x) / 2.0;
    var horizontalDistance := Abs(nose.x - shoulderMidpointX);
    var shoulderLevelDifference := Abs(left.y - right.y);
    var isLeaningForward := horizontalDistance > MaxHorizontalDistance;
    var isTilting := shoulderLevelDifference > MaxLevelDifference;
    if isLeaningForward && isTilting then LeaningForwardAndTilting
    else if isLeaningForward then LeaningForward
    else if isTilting then Tilting
    else GoodPosture
  }

  /** Classifies one frame's pose, `None` standing for "no pose this frame". */
  function Evaluate(pose: Option<Pose>): (r: Status)
    ensures r == NoPoseDetected <==> pose.None?
    ensures pose.Some? ==>
      (r == KeypointsMissing <==>
         || Absent(pose.value.keypoints, Nose)
         || Absent(pose.value.keypoints, LeftShoulder)
         || Absent(pose.value.keypoints, RightShoulder))
  {
    match pose
    case None => NoPoseDetected
    case Some(p) =>
      var nose := Find(p.keypoints, Nose);
      var left := Find(p.keypoints, LeftShoulder);
      var right := Find(p.keypoints, RightShoulder);
      if nose.None? || left.None? || right.None? then KeypointsMissing
      else Verdict(nose.value, left.value, right.value)
  }
}
