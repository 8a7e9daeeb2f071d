/** The face-detector eye-contact script: every frame read counts, and a frame
    counts as eye contact when at least one face is detected in it. */
module EyeContact {
  import opened Base

  /** The read loop and the final division. Each frame is given as the number
      of faces detected in it. The percentage divides by the frame count with
      no guard, so a video with no frames raises ZeroDivisionError. */
  method MeasureEyeContact(faceCounts: seq<nat>) returns (eyeContactPercentage: Checked<real>, eyeContactFrames: nat, totalFrames: nat)
    ensures totalFrames == |faceCounts|
    ensures eyeContactFrames == DetectedFrames(faceCounts)
    ensures eyeContactFrames <= totalFrames
    ensures eyeContactPercentage.ZeroDivisionError? <==> totalFrames == 0
    ensures eyeContactPercentage.Value? ==>
      eyeContactPercentage.value == Percentage(eyeContactFrames, totalFrames)
      && 0.0 <= eyeContactPercentage.value <= 100.0
  {
    eyeContactFrames, totalFrames := 0, 0;
    while totalFrames < |faceCounts|
      invariant 0 <= totalFrames <= |faceCounts|
      invariant eyeContactFrames == DetectedFrames(faceCounts[..totalFrames])
      invariant eyeContactFrames <= totalFrames
    {
      assert faceCounts[..totalFrames + 1][..totalFrames] == faceCounts[..totalFrames];
      var faces := faceCounts[totalFrames];
      totalFrames := totalFrames + 1;
      if faces > 0 {
        eyeContactFrames := eyeContactFrames + 1;
      }
    }
    assert faceCounts[..totalFrames] == faceCounts;
    if totalFrames == 0 {
      eyeContactPercentage := ZeroDivisionError;
    } else {
      eyeContactPercentage := Value(Percentage(eyeContactFrames, totalFrames));
    }
  }
}
