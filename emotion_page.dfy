/** The emotion page: frames are sampled at a fixed interval derived from the
    video's fps, each sampled frame is labelled by the emotion classifier (with
    a fallback label when it fails), and the labels are summarised as a
    histogram with a dominant label and an improvement tip. */
module EmotionPage {
  import opened Base
  import opened Sampling
  import opened Histogram

  /** The sampling rate the page asks for, in frames per second. */
  const DefaultFrameRate: int := 5
  /** The label recorded when the classifier raises. */
  const NoFaceDetected: Label := "No Face Detected"

  /** `frame_interval = max(1, fps // frame_rate)`: at least 1, and 1 whenever
      the video is slower than twice the requested rate. */
  function FrameInterval(fps: int, frameRate: int): (k: nat)
    requires frameRate != 0
    ensures k >= 1
    ensures frameRate > 0 && fps < 2 * frameRate ==> k == 1
    ensures frameRate > 0 && k > 1 ==> k * frameRate <= fps < (k + 1) * frameRate
    ensures frameRate > 0 && fps >= 2 * frameRate ==> k * frameRate <= fps < (k + 1) * frameRate
  {
    var q := FloorDiv(fps, frameRate);
    if frameRate > 0 && q <= 1 then
      MulMonotone(q, 1, frameRate);
      Max(1, q)
    else
      Max(1, q)
  }

  /** `extract_frames`: an unopened video yields no frames; otherwise every
      frame read advances the 0-based counter and the frames whose counter is a
      multiple of the interval are saved, in order. The saved frames are the
      first one and every interval-th after it. */
  method ExtractFrames<F>(video: Option<seq<F>>, fps: int, frameRate: int) returns (savedFrames: seq<F>)
    requires frameRate != 0
    ensures video.None? ==> savedFrames == []
    ensures video.Some? ==> savedFrames == Sampled(video.value, FrameInterval(fps, frameRate))
    ensures video.Some? ==> |savedFrames| == (|video.value| + FrameInterval(fps, frameRate) - 1) / FrameInterval(fps, frameRate)
    ensures video.Some? ==> forall j :: 0 <= j < |savedFrames| ==>
      j * FrameInterval(fps, frameRate) < |video.value| && savedFrames[j] == video.value[j * FrameInterval(fps, frameRate)]
  {
    if video.None? {
      return [];
    }
    var frames := video.value;
    var frameInterval := Max(1, FloorDiv(fps, frameRate));
    var frameCount := 0;
    savedFrames := [];
    while frameCount < |frames|
      invariant 0 <= frameCount <= |frames|
      invariant savedFrames == Sampled(frames[..frameCount], frameInterval)
    {
      assert frames[..frameCount + 1][..frameCount] == frames[..frameCount];
      if frameCount % frameInterval == 0 {
        savedFrames := savedFrames + [frames[frameCount]];
      }
      frameCount := frameCount + 1;
    }
    assert frames[..frameCount] == frames;
    SampledLength(frames, frameInterval);
    forall j | 0 <= j < |savedFrames|
      ensures j * frameInterval < |frames| && savedFrames[j] == frames[j * frameInterval]
    {
      if j * frameInterval >= |frames| {
        SampledBeyond(frames, frameInterval, j);
      }
      SampledAt(frames, frameInterval, j);
    }
  }

  /** `analyze_frame`: the classifier's dominant emotion, or the fallback label
      when it raises (`None`). It never raises itself. */
  function AnalyzeFrame(outcome: Option<Label>): (emotion: Label)
    ensures outcome.None? ==> emotion == NoFaceDetected
    ensures outcome.Some? ==> emotion == outcome.value
  {
    match outcome
    case Some(dominantEmotion) => dominantEmotion
    case None => NoFaceDetected
  }

  /** `analyze_emotions_parallel`: the worker pool's `map` keeps the input order,
      so the result is the frame-by-frame labels. */
  function AnalyzeEmotionsParallel(frames: seq<Option<Label>>): (results: seq<Label>)
    ensures |results| == |frames|
    ensures forall i :: 0 <= i < |frames| ==> results[i] == AnalyzeFrame(frames[i])
  {
    if frames == [] then [] else [AnalyzeFrame(frames[0])] + AnalyzeEmotionsParallel(frames[1..])
  }

  datatype EmotionReport =
    | NoEmotionsDetected
    | Report(emotionCounts: seq<(Label, nat)>, dominantEmotion: Label)

  /** `generate_emotion_report`: the count of every distinct label and a label
      with the largest count; an empty list takes the error branch. Python
      iterates the labels of a set, so the order among equal counts is not
      fixed by the source; the model takes the first label to occur. The page
      defines this function but its flow never calls it. */
  function GenerateEmotionReport(emotions: seq<Label>): (r: EmotionReport)
    ensures r.NoEmotionsDetected? <==> emotions == []
    ensures r.Report? ==> r.dominantEmotion in emotions
    ensures r.Report? ==> forall e :: Count(emotions, e) <= Count(emotions, r.dominantEmotion)
    ensures r.Report? ==> Sum(r.emotionCounts) == |emotions|
    ensures r.Report? ==> forall e :: e in r.emotionCounts ==> e.1 >= 1 && e.1 == Count(emotions, e.0)
    ensures r.Report? ==> forall x :: x in emotions ==> (x, Count(emotions, x)) in r.emotionCounts
  {
    if emotions == [] then NoEmotionsDetected
    else
      var labels := Distinct(emotions);
      var counts := Tally(emotions, labels);
      var best := FirstMaxIndex(Values(counts));
      CounterSumsToLength(emotions);
      CounterEntries(emotions);
      DominantIsMaximal(emotions, labels[best], labels, best);
      Report(counts, labels[best])
  }

  lemma DominantIsMaximal(emotions: seq<Label>, d: Label, labels: seq<Label>, best: nat)
    requires labels == Distinct(emotions) && best < |labels| && labels[best] == d
    requires forall j :: 0 <= j < |labels| ==> Count(emotions, labels[j]) <= Count(emotions, d)
    ensures forall e :: Count(emotions, e) <= Count(emotions, d)
  {
    forall e ensures Count(emotions, e) <= Count(emotions, d) {
      if e in emotions {
        var j :| 0 <= j < |labels| && labels[j] == e;
      }
    }
  }

  datatype EmotionTip = GreatJob | ModerateExpressions | NeedsImprovement

  /** The tip: any "happy" frame wins, then any "neutral" frame, else improvement. */
  function Tip(emotions: seq<Label>): (t: EmotionTip)
    ensures t == GreatJob <==> "happy" in emotions
    ensures t == ModerateExpressions <==> "happy" !in emotions && "neutral" in emotions
    ensures t == NeedsImprovement <==> "happy" !in emotions && "neutral" !in emotions
  {
    if "happy" in emotions then GreatJob
    else if "neutral" in emotions then ModerateExpressions
    else NeedsImprovement
  }

  /** What the page shows once the video exists: the labels, the per-label
      counts drawn as the pie chart and listed as the breakdown, and the tip.
      The page computes the counts inline; it never calls
      `generate_emotion_report`, so no dominant label is shown. */
  datatype PageOutcome =
    | NoFramesExtracted
    | Analysed(emotions: seq<Label>, counts: seq<(Label, nat)>, tip: EmotionTip)

  /** The page flow: extract frames at the default rate; only a non-empty frame
      list is classified, counted per label and given a tip. Each frame of the
      video is given as the classifier's outcome on it. */
  method AnalyseVideo(video: Option<seq<Option<Label>>>, fps: int) returns (out: PageOutcome)
    ensures out.NoFramesExtracted? <==> video.None? || video.value == []
    ensures out.Analysed? ==> |out.emotions| == (|video.value| - 1) / FrameInterval(fps, DefaultFrameRate) + 1
    ensures out.Analysed? ==> out.emotions[0] == AnalyzeFrame(video.value[0])
    ensures out.Analysed? ==>
      && out.emotions == AnalyzeEmotionsParallel(Sampled(video.value, FrameInterval(fps, DefaultFrameRate)))
      && out.tip == Tip(out.emotions)
    ensures out.Analysed? ==> forall x :: x in out.emotions ==> (x, Count(out.emotions, x)) in out.counts
    ensures out.Analysed? ==> forall e :: e in out.counts ==> e.0 in out.emotions && e.1 == Count(out.emotions, e.0)
    ensures out.Analysed? ==> forall i, j :: 0 <= i < j < |out.counts| ==> out.counts[i].0 != out.counts[j].0
    ensures out.Analysed? ==> Sum(out.counts) == |out.emotions|
  {
    var frames := ExtractFrames(video, fps, DefaultFrameRate);
    ghost var k := FrameInterval(fps, DefaultFrameRate);
    if video.Some? && video.value != [] {
      SampledNonEmpty(video.value, k);
      assert frames != [];
    }
    if frames == [] {
      return NoFramesExtracted;
    }
    var emotions := AnalyzeEmotionsParallel(frames);
    var counts := Counter(emotions);
    CounterEntries(emotions);
    CounterSumsToLength(emotions);
    DistinctNoDuplicates(emotions);
    out := Analysed(emotions, counts, Tip(emotions));
  }
}
