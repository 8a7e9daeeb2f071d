/** The gesture page: every frame read is labelled with one of five gestures
    by a first-match chain over the first detected hand, the labels are tallied
    in a dictionary, and the page names the most common one. */
module GesturePage {
  import opened Base
  import opened Histogram

  /** The y coordinates (y grows downwards) of the four hand landmarks read. */
  datatype Hand = Hand(thumbTipY: real, indexTipY: real, pinkyTipY: real, wristY: real)

  datatype Gesture = OpenPalm | Fist | ThumbsUp | Victory | NoHand

  /** The keys of `gesture_counts` in the order the dictionary literal lists them. */
  const GestureOrder: seq<Gesture> := [OpenPalm, Fist, ThumbsUp, Victory, NoHand]

  /** The first-match chain. The Fist test repeats the Thumbs Up test, so any
      hand it would accept has already been labelled Thumbs Up. */
  function Classify(h: Hand): (g: Gesture)
    ensures g != Fist
    ensures g == ThumbsUp <==> h.thumbTipY < h.wristY && h.indexTipY < h.wristY
    ensures g == Victory <==> h.thumbTipY >= h.wristY && h.indexTipY < h.wristY && h.pinkyTipY < h.wristY
    ensures g == OpenPalm <==> h.thumbTipY > h.wristY && h.indexTipY > h.wristY && h.pinkyTipY > h.wristY
  {
    if h.thumbTipY < h.wristY && h.indexTipY < h.wristY then ThumbsUp
    else if h.indexTipY < h.wristY && h.pinkyTipY < h.wristY then Victory
    else if h.thumbTipY > h.wristY && h.indexTipY > h.wristY && h.pinkyTipY > h.wristY then OpenPalm
    else if h.thumbTipY < h.wristY && h.indexTipY < h.wristY then Fist
    else NoHand
  }

  /** Raised thumb and index with a low pinky match the first rule before any other. */
  lemma ThumbsUpExample()
    ensures Classify(Hand(0.1, 0.1, 0.9, 0.5)) == ThumbsUp
  {
  }

  /** The label of one frame: "No Hand" without any detected hand, otherwise
      the label of the first detected hand only. */
  function FrameGesture(hands: seq<Hand>): (g: Gesture)
    ensures hands == [] ==> g == NoHand
    ensures hands != [] ==> g == Classify(hands[0])
    ensures g != Fist
  {
    if hands == [] then NoHand else Classify(hands[0])
  }

  /** The number of frames labelled `g`. */
  function GestureCount(frames: seq<seq<Hand>>, g: Gesture): (n: nat)
    ensures n <= |frames|
  {
    if frames == [] then 0
    else GestureCount(frames[..|frames| - 1], g) + (if FrameGesture(frames[|frames| - 1]) == g then 1 else 0)
  }

  /** The dictionary the loop must end with. */
  function ExpectedCounts(frames: seq<seq<Hand>>): map<Gesture, nat>
  {
    map[OpenPalm := GestureCount(frames, OpenPalm), Fist := GestureCount(frames, Fist),
        ThumbsUp := GestureCount(frames, ThumbsUp), Victory := GestureCount(frames, Victory),
        NoHand := GestureCount(frames, NoHand)]
  }

  /** The sum of the five counters. */
  function Total(counts: map<Gesture, nat>): nat
    requires forall g :: g in GestureOrder ==> g in counts
  {
    counts[OpenPalm] + counts[Fist] + counts[ThumbsUp] + counts[Victory] + counts[NoHand]
  }

  /** Every frame bumps exactly one counter, and never the Fist counter. */
  lemma {:induction false} CountsPartitionFrames(frames: seq<seq<Hand>>)
    ensures Total(ExpectedCounts(frames)) == |frames|
    ensures ExpectedCounts(frames)[Fist] == 0
  {
    if frames != [] {
      CountsPartitionFrames(frames[..|frames| - 1]);
    }
  }

  /** `process_video`: reads every frame and bumps the counter of its label. */
  method ProcessVideo(frames: seq<seq<Hand>>) returns (gestureCounts: map<Gesture, nat>)
    ensures gestureCounts == ExpectedCounts(frames)
  {
    gestureCounts := map[OpenPalm := 0, Fist := 0, ThumbsUp := 0, Victory := 0, NoHand := 0];
    var frameCount := 0;
    while frameCount < |frames|
      invariant 0 <= frameCount <= |frames|
      invariant gestureCounts == ExpectedCounts(frames[..frameCount])
    {
      assert frames[..frameCount + 1][..frameCount] == frames[..frameCount];
      var hands := frames[frameCount];
      if hands != [] {
        var h := hands[0];
        var gesture;
        if h.thumbTipY < h.wristY && h.indexTipY < h.wristY {
          gesture := ThumbsUp;
        } else if h.indexTipY < h.wristY && h.pinkyTipY < h.wristY {
          gesture := Victory;
        } else if h.thumbTipY > h.wristY && h.indexTipY > h.wristY && h.pinkyTipY > h.wristY {
          gesture := OpenPalm;
        } else if h.thumbTipY < h.wristY && h.indexTipY < h.wristY {
          gesture := Fist;
        } else {
          gesture := NoHand;
        }
        gestureCounts := gestureCounts[gesture := gestureCounts[gesture] + 1];
      } else {
        gestureCounts := gestureCounts[NoHand := gestureCounts[NoHand] + 1];
      }
      frameCount := frameCount + 1;
    }
    assert frames[..frameCount] == frames;
  }

  /** The counters in dictionary order. */
  function CountsInOrder(counts: map<Gesture, nat>): (v: seq<int>)
    requires forall g :: g in GestureOrder ==> g in counts
    ensures |v| == |GestureOrder|
    ensures forall j :: 0 <= j < |v| ==> v[j] == counts[GestureOrder[j]]
  {
    [counts[OpenPalm], counts[Fist], counts[ThumbsUp], counts[Victory], counts[NoHand]]
  }

  /** `max(gesture_distribution, key=gesture_distribution.get)`: a gesture with
      the largest count, the earliest in dictionary order among equals. */
  function MostCommon(counts: map<Gesture, nat>): (g: Gesture)
    requires forall g :: g in GestureOrder ==> g in counts
    ensures g in GestureOrder
    ensures forall h :: h in GestureOrder ==> counts[h] <= counts[g]
    ensures forall j, k :: 0 <= k < j < |GestureOrder| && GestureOrder[j] == g ==> counts[GestureOrder[k]] < counts[g]
  {
    var i := FirstMaxIndex(CountsInOrder(counts));
    assert forall j :: 0 <= j < |GestureOrder| && GestureOrder[j] == GestureOrder[i] ==> j == i;
    GestureOrder[i]
  }

  /** On a tally produced by the loop, Fist is never the most common gesture,
      and a video with no frames reports Open Palm, the first key. */
  lemma {:induction false} MostCommonOfTally(frames: seq<seq<Hand>>)
    ensures MostCommon(ExpectedCounts(frames)) != Fist
    ensures frames == [] ==> MostCommon(ExpectedCounts(frames)) == OpenPalm
  {
    var counts := ExpectedCounts(frames);
    CountsPartitionFrames(frames);
    assert GestureOrder[0] == OpenPalm && GestureOrder[1] == Fist;
  }

  /** The tips shown; Thumbs Up and Victory share the "Positive Gesture!"
      heading but open with different advice. */
  datatype GestureTip = GreatJob | ModerateGestureUsage | ApprovalGesture | VictoryGesture | NeedsImprovement

  /** The tip for the most common gesture. */
  function Tip(mostCommon: Gesture): (t: GestureTip)
    ensures t == GreatJob <==> mostCommon == OpenPalm
    ensures t == ModerateGestureUsage <==> mostCommon == Fist
    ensures t == ApprovalGesture <==> mostCommon == ThumbsUp
    ensures t == VictoryGesture <==> mostCommon == Victory
    ensures t == NeedsImprovement <==> mostCommon == NoHand
  {
    match mostCommon
    case OpenPalm => GreatJob
    case Fist => ModerateGestureUsage
    case ThumbsUp => ApprovalGesture
    case Victory => VictoryGesture
    case NoHand => NeedsImprovement
  }
}
