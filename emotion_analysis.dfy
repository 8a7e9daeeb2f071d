/** The emotion script: every 5th frame (by 0-based count) is labelled by the
    emotion classifier, with a fallback label when it fails, and the labels
    are summarised by a Counter. */
module EmotionAnalysis {
  import opened Base
  import opened Sampling
  import opened Histogram

  /** `frame_skip`. */
  const FrameSkip: nat := 5
  /** The label recorded when the classifier raises. */
  const NoFaceDetected: Label := "No Face Detected"

  /** `detect_emotion`: the classifier's dominant emotion, or the fallback label
      when it raises (`None`). It never raises itself. */
  function DetectEmotion(outcome: Option<Label>): (emotion: Label)
    ensures outcome.None? ==> emotion == NoFaceDetected
    ensures outcome.Some? ==> emotion == outcome.value
  {
    if outcome.Some? then outcome.value else NoFaceDetected
  }

  /** The script's read loop. Each frame is given as the classifier's outcome
      on it. `frame_count` advances on every frame read; the frames whose count
      is a multiple of 5 are labelled and appended, in frame order, so `n`
      frames give `(n + 4) / 5` labels, the `j`-th from frame `5 * j`. */
  method CollectEmotions(frames: seq<Option<Label>>) returns (emotionsList: seq<Label>, frameCount: nat)
    ensures frameCount == |frames|
    ensures |emotionsList| == (|frames| + 4) / 5
    ensures forall j :: 0 <= j < |emotionsList| ==>
      5 * j < |frames| && emotionsList[j] == DetectEmotion(frames[5 * j])
  {
    emotionsList, frameCount := [], 0;
    while frameCount < |frames|
      invariant 0 <= frameCount <= |frames|
      invariant |emotionsList| == |Sampled(frames[..frameCount], FrameSkip)|
      invariant forall j :: 0 <= j < |emotionsList| ==>
        emotionsList[j] == DetectEmotion(Sampled(frames[..frameCount], FrameSkip)[j])
    {
      assert frames[..frameCount + 1][..frameCount] == frames[..frameCount];
      if frameCount % FrameSkip == 0 {
        var emotion := DetectEmotion(frames[frameCount]);
        emotionsList := emotionsList + [emotion];
      }
      frameCount := frameCount + 1;
    }
    assert frames[..frameCount] == frames;
    SampledLength(frames, FrameSkip);
    forall j | 0 <= j < |emotionsList|
      ensures 5 * j < |frames| && emotionsList[j] == DetectEmotion(frames[5 * j])
    {
      SampledAt(frames, FrameSkip, j);
    }
  }

  /** `Counter(emotions_list)`: each distinct label, in first-occurrence order,
      with its number of occurrences; the counts add up to the list's length. */
  function Summary(emotionsList: seq<Label>): (counts: seq<(Label, nat)>)
    ensures Sum(counts) == |emotionsList|
    ensures forall e :: e in counts ==> e.0 in emotionsList && e.1 == Count(emotionsList, e.0)
    ensures forall x :: x in emotionsList ==> (x, Count(emotionsList, x)) in counts
  {
    CounterSumsToLength(emotionsList);
    CounterEntries(emotionsList);
    Counter(emotionsList)
  }
}
