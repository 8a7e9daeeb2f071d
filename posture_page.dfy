/** The posture page: every frame read is classified straight or slouched by
    the alignment of the shoulders and of the hips, and the score is the
    straight share of all frames read. */
module PosturePage {
  import opened Base
  import opened Landmarks

  const AlignmentTolerance: real := 0.05

  /** Straight posture: both the shoulder slope and the hip slope are strictly
      below the tolerance. */
  predicate Straight(p: Pose)
  {
    Abs(p.leftShoulderY - p.rightShoulderY) < AlignmentTolerance
    && Abs(p.leftHipY - p.rightHipY) < AlignmentTolerance
  }

  /** A frame counts as straight only if the detector found a pose in it. */
  predicate StraightFrame(frame: Option<Pose>)
  {
    frame.Some? && Straight(frame.value)
  }

  /** The number of straight frames among all frames read. */
  function StraightCount(frames: seq<Option<Pose>>): (n: nat)
    ensures n <= |frames|
  {
    if frames == [] then 0
    else StraightCount(frames[..|frames| - 1]) + (if StraightFrame(frames[|frames| - 1]) then 1 else 0)
  }

  /** No sampling: the count reaches the number of frames read exactly when
      every frame is straight, and is zero exactly when none is. */
  lemma {:induction false} StraightCountExtremes(frames: seq<Option<Pose>>)
    ensures StraightCount(frames) == |frames| <==> forall i :: 0 <= i < |frames| ==> StraightFrame(frames[i])
    ensures StraightCount(frames) == 0 <==> forall i :: 0 <= i < |frames| ==> !StraightFrame(frames[i])
  {
    if frames != [] {
      var p := frames[..|frames| - 1];
      StraightCountExtremes(p);
      assert forall i :: 0 <= i < |p| ==> p[i] == frames[i];
    }
  }

  /** A slope of exactly the tolerance already counts as slouched. */
  lemma BoundarySlopeSlouches(p: Pose)
    requires p.leftShoulderY - p.rightShoulderY == AlignmentTolerance
    ensures !Straight(p)
  {
  }

  /** `process_video`: reads every frame, bumps `straight_posture_frames` on a
      straight pose and `total_frames` on every frame, and returns the score
      (0 for a video with no frames) with both counters. */
  method ProcessVideo(frames: seq<Option<Pose>>) returns (postureScore: real, straightPostureFrames: nat, totalFrames: nat)
    ensures totalFrames == |frames|
    ensures straightPostureFrames == StraightCount(frames)
    ensures straightPostureFrames <= totalFrames
    ensures totalFrames == 0 ==> postureScore == 0.0
    ensures totalFrames > 0 ==> postureScore == Percentage(straightPostureFrames, totalFrames)
    ensures 0.0 <= postureScore <= 100.0
  {
    straightPostureFrames, totalFrames := 0, 0;
    var i := 0;
    while i < |frames|
      invariant 0 <= i <= |frames|
      invariant totalFrames == i
      invariant straightPostureFrames == StraightCount(frames[..i])
    {
      assert frames[..i + 1][..i] == frames[..i];
      var frame := frames[i];
      i := i + 1;
      if frame.Some? {
        var shoulderSlope := Abs(frame.value.leftShoulderY - frame.value.rightShoulderY);
        var hipSlope := Abs(frame.value.leftHipY - frame.value.rightHipY);
        if shoulderSlope < 0.05 && hipSlope < 0.05 {
          straightPostureFrames := straightPostureFrames + 1;
        }
      }
      totalFrames := totalFrames + 1;
    }
    assert frames[..i] == frames;
    postureScore := if totalFrames > 0 then Percentage(straightPostureFrames, totalFrames) else 0.0;
  }

  /** The improvement tip shown for a score. */
  datatype PostureTip = GreatJob | ModeratePosture | NeedsImprovement

  /** The tip bands partition the scores: at least 80, at least 50, the rest. */
  function Tip(postureScore: real): (t: PostureTip)
    ensures t == GreatJob <==> postureScore >= 80.0
    ensures t == ModeratePosture <==> 50.0 <= postureScore < 80.0
    ensures t == NeedsImprovement <==> postureScore < 50.0
  {
    if postureScore >= 80.0 then GreatJob
    else if postureScore >= 50.0 then ModeratePosture
    else NeedsImprovement
  }
}
