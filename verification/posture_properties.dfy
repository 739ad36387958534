/** Properties of the posture classifier that relate several calls or
    several poses. */
module PostureProperties {
  import opened Wrappers
  import opened Posture

  /** Two first-match indices for the same name are the same index. */
  lemma FirstIsUnique(kps: seq<Keypoint>, name: string, i: int, j: int)
    requires IsFirst(kps, name, i) && IsFirst(kps, name, j)
    ensures i == j
  {
  }

  /** Lookup returns exactly the keypoint at the first index with that name. */
  lemma FindReturnsFirst(kps: seq<Keypoint>, name: string, i: int)
    requires IsFirst(kps, name, i)
    ensures Find(kps, name) == Some(kps[i])
  {
    var r := Find(kps, name);
    assert !Absent(kps, name) by { assert kps[i].name == Some(name); }
    var i' :| IsFirst(kps, name, i') && r.value == kps[i'];
    FirstIsUnique(kps, name, i, i');
  }

  /** With all three keypoints present, the status is the cascade applied to
      the first nose, the first left shoulder and the first right shoulder:
      together with `Verdict`'s contract, each of the four posture messages
      holds exactly when its combination of leaning and tilting holds. */
  lemma EvaluateUsesFirstKeypoints(p: Pose, n: int, l: int, r: int)
    requires IsFirst(p.keypoints, Nose, n)
    requires IsFirst(p.keypoints, LeftShoulder, l)
    requires IsFirst(p.keypoints, RightShoulder, r)
    ensures Evaluate(Some(p)) == Verdict(p.keypoints[n], p.keypoints[l], p.keypoints[r])
  {
    FindReturnsFirst(p.keypoints, Nose, n);
    FindReturnsFirst(p.keypoints, LeftShoulder, l);
    FindReturnsFirst(p.keypoints, RightShoulder, r);
  }

  /** The six statuses display six different messages; a corollary of
      `Message`'s contract, kept as the statement callers look for. */
  lemma MessagesAreDistinct(a: Status, b: Status)
    ensures Message(a) == Message(b) <==> a == b
  {
    if a != b {
      var ma, mb := Message(a), Message(b);
      assert |ma| != |mb| || ma[0] != mb[0];
    }
  }

  /** The cascade does not care which shoulder is called left. */
  lemma VerdictSymmetric(nose: Keypoint, left: Keypoint, right: Keypoint)
    ensures Verdict(nose, left, right) == Verdict(nose, right, left)
  {
    assert Leaning(nose, left, right) == Leaning(nose, right, left);
    assert Tilted(left, right) == Tilted(right, left);
  }

  /** An offset of exactly the horizontal threshold is not leaning and a gap
      of exactly the level threshold is not tilting: both tests are strict. */
  lemma ThresholdsAreStrict(nose: Keypoint, left: Keypoint, right: Keypoint)
    requires Abs(nose.x - (left.x + right.x) / 2.0) == MaxHorizontalDistance
    requires Abs(left.y - right.y) == MaxLevelDifference
    ensures Verdict(nose, left, right) == GoodPosture
  {
    assert !Leaning(nose, left, right);
    assert !Tilted(left, right);
  }

  /** Just past either threshold the corresponding signal is raised. */
  lemma PastThresholdsIsBad(nose: Keypoint, left: Keypoint, right: Keypoint)
    requires Abs(nose.x - (left.x + right.x) / 2.0) > MaxHorizontalDistance
             || Abs(left.y - right.y) > MaxLevelDifference
    ensures Verdict(nose, left, right) != GoodPosture
  {
    assert Leaning(nose, left, right) || Tilted(left, right);
  }

  /** Exchanges the two shoulder labels and leaves every other name alone. */
  function SwapName(name: Option<string>): (r: Option<string>)
    ensures r == Some(LeftShoulder) <==> name == Some(RightShoulder)
    ensures r == Some(RightShoulder) <==> name == Some(LeftShoulder)
    ensures name != Some(LeftShoulder) && name != Some(RightShoulder) ==> r == name
  {
    if name == Some(LeftShoulder) then Some(RightShoulder)
    else if name == Some(RightShoulder) then Some(LeftShoulder)
    else name
  }

  /** The pose with its left and right shoulder keypoints exchanged. */
  function SwapShoulders(p: Pose): (q: Pose)
    ensures |q.keypoints| == |p.keypoints|
    ensures forall i :: 0 <= i < |q.keypoints| ==>
      q.keypoints[i] == p.keypoints[i].(name := SwapName(p.keypoints[i].name))
  {
    Pose(seq(|p.keypoints|, i requires 0 <= i < |p.keypoints| =>
               p.keypoints[i].(name := SwapName(p.keypoints[i].name))),
         p.score)
  }

  /** Lookup in the swapped pose under one shoulder's name finds what
      lookup in the original finds under the other's. */
  lemma FindAfterSwap(p: Pose, name: string, other: string)
    requires (name == Nose && other == Nose)
          || (name == LeftShoulder && other == RightShoulder)
          || (name == RightShoulder && other == LeftShoulder)
    ensures Find(SwapShoulders(p).keypoints, name).None? <==> Find(p.keypoints, other).None?
    ensures Find(p.keypoints, other).Some? ==>
      Find(SwapShoulders(p).keypoints, name) ==
        Some(Find(p.keypoints, other).value.(name := Some(name)))
  {
    var kps, sks := p.keypoints, SwapShoulders(p).keypoints;
    assert forall i :: 0 <= i < |kps| ==> (sks[i].name == Some(name) <==> kps[i].name == Some(other));
    if Find(kps, other).Some? {
      var i :| IsFirst(kps, other, i) && Find(kps, other).value == kps[i];
      assert IsFirst(sks, name, i);
      FindReturnsFirst(sks, name, i);
    } else {
      assert Absent(sks, name);
    }
  }

  /** The cascade reads only the coordinates of its three keypoints. */
  lemma VerdictReadsCoordinates(n: Keypoint, l: Keypoint, r: Keypoint, n': Keypoint, l': Keypoint, r': Keypoint)
    requires n.x == n'.x && l.x == l'.x && l.y == l'.y && r.x == r'.x && r.y == r'.y
    ensures Verdict(n, l, r) == Verdict(n', l', r')
  {
  }

  /** Swapping the left and right shoulder keypoints never changes the status. */
  lemma SwapShouldersPreservesStatus(p: Pose)
    ensures Evaluate(Some(SwapShoulders(p))) == Evaluate(Some(p))
  {
    var kps, sks := p.keypoints, SwapShoulders(p).keypoints;
    FindAfterSwap(p, Nose, Nose);
    FindAfterSwap(p, LeftShoulder, RightShoulder);
    FindAfterSwap(p, RightShoulder, LeftShoulder);
    var n, l, r := Find(kps, Nose), Find(kps, LeftShoulder), Find(kps, RightShoulder);
    var n', l', r' := Find(sks, Nose), Find(sks, LeftShoulder), Find(sks, RightShoulder);
    if n.Some? && l.Some? && r.Some? {
      calc {
        Evaluate(Some(SwapShoulders(p)));
        Verdict(n'.value, l'.value, r'.value);
        { VerdictReadsCoordinates(n'.value, l'.value, r'.value, n.value, r.value, l.value); }
        Verdict(n.value, r.value, l.value);
        { VerdictSymmetric(n.value, l.value, r.value); }
        Verdict(n.value, l.value, r.value);
        Evaluate(Some(p));
      }
    } else {
      assert Evaluate(Some(SwapShoulders(p))) == KeypointsMissing;
    }
  }

  /** `p` and `q` agree on every keypoint's name and x, and on y for every
      keypoint not named nose; scores and nose heights may differ. */
  ghost predicate SameGeometry(p: Pose, q: Pose) {
    && |p.keypoints| == |q.keypoints|
    && forall i :: 0 <= i < |p.keypoints| ==>
         && p.keypoints[i].name == q.keypoints[i].name
         && p.keypoints[i].x == q.keypoints[i].x
         && (p.keypoints[i].name != Some(Nose) ==> p.keypoints[i].y == q.keypoints[i].y)
  }

  /** Lookup in poses with the same names finds keypoints at the same index. */
  lemma FindSameNames(p: Pose, q: Pose, name: string)
    requires SameGeometry(p, q)
    ensures Find(p.keypoints, name).None? <==> Find(q.keypoints, name).None?
    ensures Find(p.keypoints, name).Some? ==>
      exists i :: 0 <= i < |p.keypoints| && p.keypoints[i].name == Some(name)
        && Find(p.keypoints, name) == Some(p.keypoints[i])
        && Find(q.keypoints, name) == Some(q.keypoints[i])
  {
    if Find(p.keypoints, name).Some? {
      var i :| IsFirst(p.keypoints, name, i) && Find(p.keypoints, name).value == p.keypoints[i];
      assert IsFirst(q.keypoints, name, i);
      FindReturnsFirst(q.keypoints, name, i);
    } else {
      assert Absent(q.keypoints, name);
    }
  }

  /** The status depends neither on the nose's height nor on any score. */
  lemma StatusIgnoresNoseHeightAndScores(p: Pose, q: Pose)
    requires SameGeometry(p, q)
    ensures Evaluate(Some(p)) == Evaluate(Some(q))
  {
    FindSameNames(p, q, Nose);
    FindSameNames(p, q, LeftShoulder);
    FindSameNames(p, q, RightShoulder);
    var n, l, r := Find(p.keypoints, Nose), Find(p.keypoints, LeftShoulder), Find(p.keypoints, RightShoulder);
    var n', l', r' := Find(q.keypoints, Nose), Find(q.keypoints, LeftShoulder), Find(q.keypoints, RightShoulder);
    if n.Some? && l.Some? && r.Some? {
      VerdictReadsCoordinates(n.value, l.value, r.value, n'.value, l'.value, r'.value);
    }
  }

  /** A sample pose: nose at (noseX, 50), shoulders at (80, 100) and (120, 100). */
  function Sample(noseX: real): (p: Pose)
    ensures |p.keypoints| == 3
  {
    Pose([ Keypoint(noseX, 50.0, Some(0.9), Some(Nose)),
           Keypoint(80.0, 100.0, Some(0.9), Some(LeftShoulder)),
           Keypoint(120.0, 100.0, Some(0.9), Some(RightShoulder)) ],
         Some(0.9))
  }

  /** A sample pose is classified by the cascade on its three keypoints. */
  lemma SampleUsesCascade(noseX: real)
    ensures Evaluate(Some(Sample(noseX))) ==
      Verdict(Keypoint(noseX, 50.0, Some(0.9), Some(Nose)),
              Keypoint(80.0, 100.0, Some(0.9), Some(LeftShoulder)),
              Keypoint(120.0, 100.0, Some(0.9), Some(RightShoulder)))
  {
    EvaluateUsesFirstKeypoints(Sample(noseX), 0, 1, 2);
  }

  /** A sample pose cut short before its right shoulder is incomplete. */
  lemma SampleWithoutRightShoulder()
    ensures Evaluate(Some(Pose(Sample(100.0).keypoints[..2], None))) == KeypointsMissing
  {
    var cut := Sample(100.0).keypoints[..2];
    assert cut[0].name == Some(Nose) && cut[1].name == Some(LeftShoulder);
    assert Absent(cut, RightShoulder);
  }

  /** Worked examples: the shoulder midpoint is at x = 100, so a nose at
      x = 130 is exactly on the threshold and still good, while x = 131 and
      x = 69 are leaning; a pose without a right shoulder is incomplete. */
  lemma SampleStatuses()
    ensures Evaluate(Some(Sample(100.0))) == GoodPosture
    ensures Evaluate(Some(Sample(130.0))) == GoodPosture
    ensures Evaluate(Some(Sample(131.0))) == LeaningForward
    ensures Evaluate(Some(Sample(69.0))) == LeaningForward
    ensures Evaluate(Some(Pose(Sample(100.0).keypoints[..2], None))) == KeypointsMissing
  {
    SampleUsesCascade(100.0);
    SampleUsesCascade(130.0);
    SampleUsesCascade(131.0);
    SampleUsesCascade(69.0);
    SampleWithoutRightShoulder();
  }
}
