/** The eye-contact page: every frame read is classified by the face mesh of
    each detected face (the detector is configured for at most one face): the
    frame has contact when both eye midpoints sit horizontally close to the
    nose tip. The score is the contact share of all frames read. */
module EyeContactPage {
  import opened Base
  import opened Landmarks

  /** The number of landmarks of a face mesh without iris refinement. */
  const MeshSize: nat := 468
  /** The detector's `max_num_faces`. */
  const MaxFaces: nat := 1
  const CenterTolerance: real := 0.05

  /** The x coordinates of one detected face mesh, indexed by landmark number. */
  type FaceMesh = xs: seq<real> | |xs| == MeshSize witness seq(MeshSize, i => 0.0)

  /** Landmarks 33 and 133 are the corners of the left eye, 362 and 263 those of
      the right eye, and 1 is the nose tip. */
  function LeftEyeX(f: FaceMesh): real { (f[33] + f[133]) / 2.0 }
  function RightEyeX(f: FaceMesh): real { (f[362] + f[263]) / 2.0 }
  function NoseX(f: FaceMesh): real { f[1] }

  /** Eyes centred on the nose: both offsets strictly below the tolerance. */
  predicate Centered(leftEyeX: real, rightEyeX: real, noseX: real)
  {
    Abs(leftEyeX - noseX) < CenterTolerance && Abs(rightEyeX - noseX) < CenterTolerance
  }

  predicate FaceContact(f: FaceMesh)
  {
    Centered(LeftEyeX(f), RightEyeX(f), NoseX(f))
  }

  /** Offsets of 0.02 are contact; a left eye 0.10 away from the nose is not. */
  lemma CenteredExamples()
    ensures Centered(0.48, 0.52, 0.50)
    ensures !Centered(0.40, 0.52, 0.50)
  {
  }

  /** The contacts one frame contributes: one per detected face whose eyes are centred. */
  function FaceContacts(faces: seq<FaceMesh>): (n: nat)
    ensures n <= |faces|
  {
    if faces == [] then 0
    else FaceContacts(faces[..|faces| - 1]) + (if FaceContact(faces[|faces| - 1]) then 1 else 0)
  }

  /** The contacts counted over all frames read. */
  function ContactCount(frames: seq<seq<FaceMesh>>): nat
  {
    if frames == [] then 0
    else ContactCount(frames[..|frames| - 1]) + FaceContacts(frames[|frames| - 1])
  }

  /** The number of frames in which at least one face was detected. */
  function FramesWithFace(frames: seq<seq<FaceMesh>>): (n: nat)
    ensures n <= |frames|
  {
    if frames == [] then 0
    else FramesWithFace(frames[..|frames| - 1]) + (if frames[|frames| - 1] != [] then 1 else 0)
  }

  predicate AtMostMaxFaces(frames: seq<seq<FaceMesh>>)
  {
    forall i :: 0 <= i < |frames| ==> |frames[i]| <= MaxFaces
  }

  /** With at most one face per frame, a frame adds at most one contact, and a
      frame without a face adds none. */
  lemma {:induction false} ContactCountBound(frames: seq<seq<FaceMesh>>)
    requires AtMostMaxFaces(frames)
    ensures ContactCount(frames) <= FramesWithFace(frames) <= |frames|
  {
    if frames != [] {
      var p := frames[..|frames| - 1];
      assert forall i :: 0 <= i < |p| ==> p[i] == frames[i];
      ContactCountBound(p);
    }
  }

  /** `process_video`: reads every frame, adds one contact for each detected
      face with centred eyes, bumps `total_frames` on every frame, and returns
      the score (0 for a video with no frames) with both counters. */
  method ProcessVideo(frames: seq<seq<FaceMesh>>) returns (eyeContactScore: real, eyeContactFrames: nat, totalFrames: nat)
    ensures totalFrames == |frames|
    ensures eyeContactFrames == ContactCount(frames)
    ensures totalFrames == 0 ==> eyeContactScore == 0.0
    ensures totalFrames > 0 ==> eyeContactScore == Percentage(eyeContactFrames, totalFrames)
    ensures AtMostMaxFaces(frames) ==> eyeContactFrames <= totalFrames && 0.0 <= eyeContactScore <= 100.0
  {
    eyeContactFrames, totalFrames := 0, 0;
    var i := 0;
    while i < |frames|
      invariant 0 <= i <= |frames|
      invariant totalFrames == i
      invariant eyeContactFrames == ContactCount(frames[..i])
    {
      assert frames[..i + 1][..i] == frames[..i];
      var faces := frames[i];
      ghost var before := eyeContactFrames;
      for j := 0 to |faces|
        invariant eyeContactFrames == before + FaceContacts(faces[..j])
      {
        assert faces[..j + 1][..j] == faces[..j];
        var face := faces[j];
        var leftEyeX := (face[33] + face[133]) / 2.0;
        var rightEyeX := (face[362] + face[263]) / 2.0;
        var noseX := face[1];
        if Abs(leftEyeX - noseX) < 0.05 && Abs(rightEyeX - noseX) < 0.05 {
          eyeContactFrames := eyeContactFrames + 1;
        }
      }
      assert faces[..|faces|] == faces;
      i := i + 1;
      totalFrames := totalFrames + 1;
    }
    assert frames[..i] == frames;
    if AtMostMaxFaces(frames) {
      ContactCountBound(frames);
    }
    eyeContactScore := if totalFrames > 0 then Percentage(eyeContactFrames, totalFrames) else 0.0;
  }

  /** The improvement tip shown for a score. */
  datatype EyeContactTip = GreatJob | ModerateEyeContact | NeedsImprovement

  /** The tip bands partition the scores: at least 80, at least 50, the rest. */
  function Tip(eyeContactScore: real): (t: EyeContactTip)
    ensures t == GreatJob <==> eyeContactScore >= 80.0
    ensures t == ModerateEyeContact <==> 50.0 <= eyeContactScore < 80.0
    ensures t == NeedsImprovement <==> eyeContactScore < 50.0
  {
    if eyeContactScore >= 80.0 then GreatJob
    else if eyeContactScore >= 50.0 then ModerateEyeContact
    else NeedsImprovement
  }
}
