/** The hand-presence script: every frame read counts, and a frame counts as a
    gesture frame when any hand landmarks are detected in it. */
module GestureAnalysis {
  import opened Base

  /** The read loop and the guarded percentage. Each frame is given as the
      number of hands detected in it; a video with no frames scores 0. */
  method MeasureGestures(handCounts: seq<nat>) returns (gesturePercentage: real, gestureFrames: nat, totalFrames: nat)
    ensures totalFrames == |handCounts|
    ensures gestureFrames == DetectedFrames(handCounts)
    ensures gestureFrames <= totalFrames
    ensures totalFrames == 0 ==> gesturePercentage == 0.0
    ensures totalFrames > 0 ==> gesturePercentage == Percentage(gestureFrames, totalFrames)
    ensures 0.0 <= gesturePercentage <= 100.0
  {
    gestureFrames, totalFrames := 0, 0;
    while totalFrames < |handCounts|
      invariant 0 <= totalFrames <= |handCounts|
      invariant gestureFrames == DetectedFrames(handCounts[..totalFrames])
      invariant gestureFrames <= totalFrames
    {
      assert handCounts[..totalFrames + 1][..totalFrames] == handCounts[..totalFrames];
      var hands := handCounts[totalFrames];
      totalFrames := totalFrames + 1;
      if hands > 0 {
        gestureFrames := gestureFrames + 1;
      }
    }
    assert handCounts[..totalFrames] == handCounts;
    gesturePercentage := if totalFrames > 0 then Percentage(gestureFrames, totalFrames) else 0.0;
  }
}
