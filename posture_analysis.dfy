/** The full-body posture script: a duration-adaptive stride picks frames by
    their 1-based read count, each picked frame with a pose scores 100 minus
    three independent penalties, and the script reports the share of good
    frames, the pose coverage and a per-reason breakdown. */
module PostureAnalysis {
  import opened Base
  import opened Landmarks

  const MinimumStride: nat := 5
  /** The number of seconds of video per stride unit in the skip formula. */
  const SampleBudget: nat := 200
  const GoodScore: int := 60

  // ---------------------------------------------------------------------------
  // Sampling plan

  /** `frame_skip`: the stride, at least 5, growing with the clip's duration.
      The duration divides the reported frame count by the reported fps, so an
      fps of 0 raises ZeroDivisionError before any frame is read. */
  function FrameSkip(fps: int, reportedFrames: int): (r: Checked<nat>)
    ensures r.ZeroDivisionError? <==> fps == 0
    ensures r.Value? ==> r.value >= MinimumStride
    ensures r.Value? ==> (r.value > MinimumStride <==> reportedFrames as real / fps as real / SampleBudget as real >= 6.0)
    ensures r.Value? && r.value > MinimumStride ==>
      var budgeted := reportedFrames as real / fps as real / SampleBudget as real;
      r.value as real <= budgeted < r.value as real + 1.0
  {
    if fps == 0 then ZeroDivisionError
    else
      var durationSec := reportedFrames as real / fps as real;
      Value(Max(MinimumStride, Trunc(durationSec / SampleBudget as real)))
  }

  /** A clip shorter than 1200 seconds is always sampled at the minimum stride. */
  lemma ShortClipMinimumStride(fps: int, reportedFrames: int)
    requires fps > 0 && 0 <= reportedFrames < fps * 1200
    ensures FrameSkip(fps, reportedFrames) == Value(MinimumStride)
  {
    var d, f := reportedFrames as real / fps as real, fps as real;
    assert d * f == reportedFrames as real;
    if d >= 1200.0 {
      PositiveProduct(d - 1200.0, f);
    }
    assert d / 200.0 < 6.0;
  }

  /** Whether the frame read as the `n`-th (1-based, as the counter is bumped
      before the test) is analysed. */
  predicate Analysed(n: nat, skip: nat)
    requires skip >= 1
  {
    n % skip == 0
  }

  /** How many of the first `n` frames read are analysed. */
  function AnalysedCount(n: nat, skip: nat): (c: nat)
    requires skip >= 1
    ensures c <= n
  {
    if n == 0 then 0 else AnalysedCount(n - 1, skip) + (if Analysed(n, skip) then 1 else 0)
  }

  /** Of `n` frames read, exactly `n / skip` are analysed. */
  lemma {:induction false} AnalysedCountIsQuotient(n: nat, skip: nat)
    requires skip >= 1
    ensures AnalysedCount(n, skip) == n / skip
  {
    if n == 0 {
    } else {
      AnalysedCountIsQuotient(n - 1, skip);
      QuotientStep(n, skip);
    }
  }

  /** Reading one more frame raises the quotient exactly when the count becomes a multiple. */
  lemma QuotientStep(n: nat, skip: nat)
    requires skip >= 1 && n >= 1
    ensures n / skip == (n - 1) / skip + (if n % skip == 0 then 1 else 0)
  {
    var q, r := (n - 1) / skip, (n - 1) % skip;
    if r == skip - 1 {
      DivMod(n, skip, q + 1, 0);
    } else {
      DivMod(n, skip, q, r + 1);
    }
  }

  // ---------------------------------------------------------------------------
  // Per-frame score

  datatype Reason = HeadTilt | ShoulderMisalignment | SpineBend

  /** The keys of `low_score_reasons` in the order the dictionary lists them. */
  const ReasonOrder: seq<Reason> := [HeadTilt, ShoulderMisalignment, SpineBend]

  /** The spine reference: the mean of the two hip heights. */
  function SpineY(p: Pose): (y: real)
    ensures p.leftHipY <= p.rightHipY ==> p.leftHipY <= y <= p.rightHipY
    ensures p.rightHipY <= p.leftHipY ==> p.rightHipY <= y <= p.leftHipY
    ensures y - p.leftHipY == p.rightHipY - y
  {
    (p.leftHipY + p.rightHipY) / 2.0
  }

  /** Whether a criterion fires on a pose. Every comparison is strict. */
  predicate Fires(p: Pose, r: Reason)
  {
    match r
    case ShoulderMisalignment => Abs(p.leftShoulderY - p.rightShoulderY) > 0.12
    case HeadTilt => Abs(p.noseY - p.leftShoulderY) > 0.25
    case SpineBend => Abs(SpineY(p) - p.leftShoulderY) > 0.35
  }

  /** The deduction a criterion costs when it fires. */
  function Penalty(r: Reason): (d: int)
    ensures d > 0
  {
    match r
    case ShoulderMisalignment => 20
    case HeadTilt => 30
    case SpineBend => 30
  }

  /** How many of the three criteria fire. */
  function PenaltyCount(p: Pose): (n: nat)
    ensures n <= 3
  {
    (if Fires(p, ShoulderMisalignment) then 1 else 0)
    + (if Fires(p, HeadTilt) then 1 else 0)
    + (if Fires(p, SpineBend) then 1 else 0)
  }

  /** The frame score: 100 minus the penalty of each criterion that fires. */
  function FrameScore(p: Pose): (score: int)
    ensures score == 100 <==> PenaltyCount(p) == 0
    ensures PenaltyCount(p) == 3 <==> score == 100 - 20 - 30 - 30
    ensures score in {100, 80, 70, 50, 40, 20}
  {
    100
    - (if Fires(p, ShoulderMisalignment) then Penalty(ShoulderMisalignment) else 0)
    - (if Fires(p, HeadTilt) then Penalty(HeadTilt) else 0)
    - (if Fires(p, SpineBend) then Penalty(SpineBend) else 0)
  }

  predicate GoodPosture(p: Pose)
  {
    FrameScore(p) >= GoodScore
  }

  /** A frame is good exactly when at most one criterion fires. */
  lemma GoodIffAtMostOnePenalty(p: Pose)
    ensures GoodPosture(p) <==> PenaltyCount(p) <= 1
    ensures GoodPosture(p) <==> FrameScore(p) in {100, 80, 70}
    ensures !GoodPosture(p) <==> FrameScore(p) in {50, 40, 20}
  {
  }

  // ---------------------------------------------------------------------------
  // Tallies over the frame stream

  /** What an analysed frame with a pose is counted towards. */
  datatype Criterion = AnyPose | Good | Penalised(reason: Reason)

  predicate Meets(p: Pose, c: Criterion)
  {
    match c
    case AnyPose => true
    case Good => GoodPosture(p)
    case Penalised(r) => Fires(p, r)
  }

  /** How many frames among those read are analysed, carry a pose and meet `c`. */
  function PoseCount(frames: seq<Option<Pose>>, skip: nat, c: Criterion): nat
    requires skip >= 1
  {
    if frames == [] then 0
    else
      var last := frames[|frames| - 1];
      PoseCount(frames[..|frames| - 1], skip, c)
      + (if Analysed(|frames|, skip) && last.Some? && Meets(last.value, c) then 1 else 0)
  }

  /** A weaker criterion counts at least as many frames. */
  lemma {:induction false} PoseCountMonotone(frames: seq<Option<Pose>>, skip: nat, c: Criterion, d: Criterion)
    requires skip >= 1
    requires forall p :: Meets(p, c) ==> Meets(p, d)
    ensures PoseCount(frames, skip, c) <= PoseCount(frames, skip, d)
  {
    if frames != [] {
      PoseCountMonotone(frames[..|frames| - 1], skip, c, d);
    }
  }

  /** Counts are bounded by the number of analysed frames. */
  lemma {:induction false} PoseCountBound(frames: seq<Option<Pose>>, skip: nat, c: Criterion)
    requires skip >= 1
    ensures PoseCount(frames, skip, c) <= AnalysedCount(|frames|, skip)
  {
    if frames != [] {
      PoseCountBound(frames[..|frames| - 1], skip, c);
    }
  }

  /** The script's counters after reading a stream of frames. */
  datatype Tally = Tally(
    processedFrames: nat,
    framesWithPose: nat,
    goodPostureFrames: nat,
    lowScoreReasons: map<Reason, nat>)
  {
    /** The orderings every reachable tally satisfies. */
    predicate Valid()
    {
      && lowScoreReasons.Keys == {HeadTilt, ShoulderMisalignment, SpineBend}
      && goodPostureFrames <= framesWithPose <= processedFrames
      && (forall r :: r in lowScoreReasons ==> lowScoreReasons[r] <= framesWithPose)
    }
  }

  function ReasonCounts(frames: seq<Option<Pose>>, skip: nat): map<Reason, nat>
    requires skip >= 1
  {
    map[HeadTilt := PoseCount(frames, skip, Penalised(HeadTilt)),
        ShoulderMisalignment := PoseCount(frames, skip, Penalised(ShoulderMisalignment)),
        SpineBend := PoseCount(frames, skip, Penalised(SpineBend))]
  }

  /** The counters the loop must end with, stated frame by frame. */
  function ExpectedTally(frames: seq<Option<Pose>>, skip: nat): (t: Tally)
    requires skip >= 1
    ensures t.Valid()
  {
    PoseCountMonotone(frames, skip, Good, AnyPose);
    PoseCountMonotone(frames, skip, Penalised(HeadTilt), AnyPose);
    PoseCountMonotone(frames, skip, Penalised(ShoulderMisalignment), AnyPose);
    PoseCountMonotone(frames, skip, Penalised(SpineBend), AnyPose);
    PoseCountBound(frames, skip, AnyPose);
    Tally(|frames|, PoseCount(frames, skip, AnyPose), PoseCount(frames, skip, Good), ReasonCounts(frames, skip))
  }

  /** good <= with pose <= analysed <= read, and each reason count <= with pose. */
  lemma ExpectedTallyOrdered(frames: seq<Option<Pose>>, skip: nat)
    requires skip >= 1
    ensures var t := ExpectedTally(frames, skip);
      t.goodPostureFrames <= t.framesWithPose <= AnalysedCount(|frames|, skip) == |frames| / skip <= t.processedFrames
    ensures forall r :: r in ReasonOrder ==> ExpectedTally(frames, skip).lowScoreReasons[r] <= ExpectedTally(frames, skip).framesWithPose
  {
    PoseCountMonotone(frames, skip, Good, AnyPose);
    PoseCountBound(frames, skip, AnyPose);
    AnalysedCountIsQuotient(|frames|, skip);
  }

  /** The module-level read loop: bumps `processed_frames` on every frame, skips
      the frame unless the new count is a multiple of `frameSkip`, and scores
      the analysed frames that carry a pose. */
  method RunPostureLoop(frames: seq<Option<Pose>>, frameSkip: nat) returns (t: Tally)
    requires frameSkip >= 1
    ensures t == ExpectedTally(frames, frameSkip)
  {
    var framesWithPose, goodPostureFrames, processedFrames := 0, 0, 0;
    var lowScoreReasons := map[HeadTilt := 0, ShoulderMisalignment := 0, SpineBend := 0];
    var i := 0;
    while i < |frames|
      invariant 0 <= i <= |frames|
      invariant processedFrames == i
      invariant framesWithPose == PoseCount(frames[..i], frameSkip, AnyPose)
      invariant goodPostureFrames == PoseCount(frames[..i], frameSkip, Good)
      invariant lowScoreReasons == ReasonCounts(frames[..i], frameSkip)
    {
      var frame := frames[i];
      assert frames[..i + 1][..i] == frames[..i];
      i := i + 1;
      processedFrames := processedFrames + 1;
      if processedFrames % frameSkip != 0 {
        continue;
      }
      if frame.Some? {
        var p := frame.value;
        framesWithPose := framesWithPose + 1;
        var score := 100;
        if Abs(p.leftShoulderY - p.rightShoulderY) > 0.12 {
          score := score - 20;
          lowScoreReasons := lowScoreReasons[ShoulderMisalignment := lowScoreReasons[ShoulderMisalignment] + 1];
        }
        if Abs(p.noseY - p.leftShoulderY) > 0.25 {
          score := score - 30;
          lowScoreReasons := lowScoreReasons[HeadTilt := lowScoreReasons[HeadTilt] + 1];
        }
        var spineY := (p.leftHipY + p.rightHipY) / 2.0;
        if Abs(spineY - p.leftShoulderY) > 0.35 {
          score := score - 30;
          lowScoreReasons := lowScoreReasons[SpineBend := lowScoreReasons[SpineBend] + 1];
        }
        assert score == FrameScore(p);
        if score >= 60 {
          goodPostureFrames := goodPostureFrames + 1;
        }
      }
    }
    assert frames[..i] == frames;
    t := Tally(processedFrames, framesWithPose, goodPostureFrames, lowScoreReasons);
  }

  // ---------------------------------------------------------------------------
  // Final report

  datatype Report =
    | NoFramesProcessed
    | Scored(posturePercentage: real, coveragePercentage: real, reasonPercentages: seq<(Reason, real)>)

  /** The reasons printed under "Reasons for low score": those with a non-zero
      count, in dictionary order, each as a share of the frames with a pose. */
  function ReasonBreakdown(t: Tally, order: seq<Reason>): (b: seq<(Reason, real)>)
    requires t.Valid() && t.framesWithPose > 0
    requires forall r :: r in order ==> r in t.lowScoreReasons
    ensures |b| <= |order|
    ensures forall e :: e in b ==> e.0 in order && t.lowScoreReasons[e.0] > 0
    ensures forall e :: e in b ==> e.1 == Percentage(t.lowScoreReasons[e.0], t.framesWithPose)
    ensures forall e :: e in b ==> 0.0 < e.1 <= 100.0
    ensures forall r :: r in order && t.lowScoreReasons[r] > 0 ==> exists e :: e in b && e.0 == r
  {
    if order == [] then []
    else
      var rest := ReasonBreakdown(t, order[1..]);
      var r := order[0];
      var count := t.lowScoreReasons[r];
      if count > 0 then [(r, Percentage(count, t.framesWithPose))] + rest else rest
  }

  /** `x` comes strictly before `y` in `order`. */
  predicate Before(order: seq<Reason>, x: Reason, y: Reason)
  {
    exists p, q :: 0 <= p < q < |order| && order[p] == x && order[q] == y
  }

  lemma BeforeShift(order: seq<Reason>, x: Reason, y: Reason)
    requires order != [] && Before(order[1..], x, y)
    ensures Before(order, x, y)
  {
    var p, q :| 0 <= p < q < |order[1..]| && order[1..][p] == x && order[1..][q] == y;
    assert order[p + 1] == x && order[q + 1] == y;
  }

  /** The reasons with a non-zero count, in the order given. */
  function ListedReasons(counts: map<Reason, nat>, order: seq<Reason>): seq<Reason>
    requires forall r :: r in order ==> r in counts
  {
    if order == [] then []
    else (if counts[order[0]] > 0 then [order[0]] else []) + ListedReasons(counts, order[1..])
  }

  /** The breakdown's reasons are exactly the listed ones, position by position. */
  lemma {:induction false} BreakdownKeys(t: Tally, order: seq<Reason>)
    requires t.Valid() && t.framesWithPose > 0
    requires forall r :: r in order ==> r in t.lowScoreReasons
    ensures |ReasonBreakdown(t, order)| == |ListedReasons(t.lowScoreReasons, order)|
    ensures forall i :: 0 <= i < |ReasonBreakdown(t, order)| ==>
      ReasonBreakdown(t, order)[i].0 == ListedReasons(t.lowScoreReasons, order)[i]
  {
    if order != [] {
      BreakdownKeys(t, order[1..]);
      var b, rest := ReasonBreakdown(t, order), ReasonBreakdown(t, order[1..]);
      var l, listedRest := ListedReasons(t.lowScoreReasons, order), ListedReasons(t.lowScoreReasons, order[1..]);
      var count := t.lowScoreReasons[order[0]];
      if count > 0 {
        assert b == [(order[0], Percentage(count, t.framesWithPose))] + rest;
        assert l == [order[0]] + listedRest;
      } else {
        assert b == rest && l == listedRest;
      }
    }
  }

  /** The listed reasons keep the order they are given in. */
  lemma {:induction false} ListedInOrder(counts: map<Reason, nat>, order: seq<Reason>)
    requires forall r :: r in order ==> r in counts
    ensures forall i, j :: 0 <= i < j < |ListedReasons(counts, order)| ==>
      Before(order, ListedReasons(counts, order)[i], ListedReasons(counts, order)[j])
    ensures forall x :: x in ListedReasons(counts, order) ==> x in order
  {
    if order != [] {
      var l := ListedReasons(counts, order);
      var rest := ListedReasons(counts, order[1..]);
      ListedInOrder(counts, order[1..]);
      if counts[order[0]] > 0 {
        assert l == [order[0]] + rest;
        forall i, j | 0 <= i < j < |l| ensures Before(order, l[i], l[j]) {
          if i == 0 {
            assert rest[j - 1] in rest;
            FirstBeforeRest(order, rest[j - 1]);
          } else {
            BeforeShift(order, rest[i - 1], rest[j - 1]);
          }
        }
      } else {
        forall i, j | 0 <= i < j < |l| ensures Before(order, l[i], l[j]) {
          BeforeShift(order, l[i], l[j]);
        }
      }
    }
  }

  /** The breakdown follows the order of the dictionary's keys. */
  lemma ReasonBreakdownInOrder(t: Tally, order: seq<Reason>)
    requires t.Valid() && t.framesWithPose > 0
    requires forall r :: r in order ==> r in t.lowScoreReasons
    ensures forall i, j :: 0 <= i < j < |ReasonBreakdown(t, order)| ==>
      Before(order, ReasonBreakdown(t, order)[i].0, ReasonBreakdown(t, order)[j].0)
  {
    BreakdownKeys(t, order);
    ListedInOrder(t.lowScoreReasons, order);
  }

  lemma FirstBeforeRest(order: seq<Reason>, y: Reason)
    requires order != [] && y in order[1..]
    ensures Before(order, order[0], y)
  {
    var q :| 0 <= q < |order[1..]| && order[1..][q] == y;
    assert order[q + 1] == y;
  }

  /** The printed reasons: each non-zero reason once, in the order head tilt,
      shoulder misalignment, spine bend. */
  lemma ReasonsListedOnceInOrder(t: Tally)
    requires t.Valid() && t.framesWithPose > 0
    ensures forall i, j :: 0 <= i < j < |ReasonBreakdown(t, ReasonOrder)| ==>
      && Before(ReasonOrder, ReasonBreakdown(t, ReasonOrder)[i].0, ReasonBreakdown(t, ReasonOrder)[j].0)
      && ReasonBreakdown(t, ReasonOrder)[i].0 != ReasonBreakdown(t, ReasonOrder)[j].0
  {
    ReasonBreakdownInOrder(t, ReasonOrder);
    var b := ReasonBreakdown(t, ReasonOrder);
    forall i, j | 0 <= i < j < |b| ensures b[i].0 != b[j].0 {
      assert Before(ReasonOrder, b[i].0, b[j].0);
      var p, q :| 0 <= p < q < |ReasonOrder| && ReasonOrder[p] == b[i].0 && ReasonOrder[q] == b[j].0;
    }
  }

  /** The final summary: no division at all without a pose frame; otherwise the
      good share, the pose coverage over every frame read, and the breakdown,
      which is printed only when the score is below 100. */
  function Summarize(t: Tally): (rep: Report)
    requires t.Valid()
    ensures rep.NoFramesProcessed? <==> t.framesWithPose == 0
    ensures rep.Scored? ==> rep.posturePercentage == Percentage(t.goodPostureFrames, t.framesWithPose)
    ensures rep.Scored? ==> rep.coveragePercentage == Percentage(t.framesWithPose, t.processedFrames)
    ensures rep.Scored? && rep.posturePercentage < 100.0 ==> rep.reasonPercentages == ReasonBreakdown(t, ReasonOrder)
    ensures rep.Scored? ==> 0.0 <= rep.posturePercentage <= 100.0
    ensures rep.Scored? ==> 0.0 < rep.coveragePercentage <= 100.0
    ensures rep.Scored? ==> (rep.posturePercentage == 100.0 <==> t.goodPostureFrames == t.framesWithPose)
    ensures rep.Scored? && rep.posturePercentage == 100.0 ==> rep.reasonPercentages == []
  {
    if t.framesWithPose == 0 then NoFramesProcessed
    else
      var posturePercentage := Percentage(t.goodPostureFrames, t.framesWithPose);
      var coverage := Percentage(t.framesWithPose, t.processedFrames);
      Scored(posturePercentage, coverage,
             if posturePercentage < 100.0 then ReasonBreakdown(t, ReasonOrder) else [])
  }

  /** Coverage divides by every frame read, so it can never exceed `100 / skip`. */
  lemma {:induction false} CoverageCappedByStride(frames: seq<Option<Pose>>, skip: nat)
    requires skip >= 1
    ensures ExpectedTally(frames, skip).Valid()
    ensures Summarize(ExpectedTally(frames, skip)).Scored? ==>
      Summarize(ExpectedTally(frames, skip)).coveragePercentage <= 100.0 / skip as real
  {
    ExpectedTallyOrdered(frames, skip);
    var pose := PoseCount(frames, skip, AnyPose);
    if pose > 0 {
      CoverageBound(pose, |frames|, skip);
    }
  }

  lemma CoverageBound(pose: nat, n: nat, skip: nat)
    requires skip >= 1 && n > 0 && pose <= n / skip
    ensures Percentage(pose, n) <= 100.0 / skip as real
  {
    var q := n / skip;
    assert q * skip <= n;
    assert pose * skip <= q * skip by {
      assert (q - pose) * skip >= 0;
    }
    assert (pose * skip) as real == pose as real * skip as real;
    RatioBound(pose as real, n as real, skip as real);
  }

  lemma RatioBound(p: real, n: real, k: real)
    requires n > 0.0 && k >= 1.0 && p >= 0.0 && p * k <= n
    ensures p / n * 100.0 <= 100.0 / k
  {
    var x := p / n;
    assert x * n == p;
    assert (x * k) * n == p * k;
    if x * k > 1.0 {
      PositiveProduct(x * k - 1.0, n);
    }
    assert x * 100.0 == (x * k) * (100.0 / k);
    PositiveProduct(1.0 - x * k, 100.0 / k);
  }

  lemma PositiveProduct(a: real, b: real)
    requires a >= 0.0 && b > 0.0
    ensures a * b >= 0.0
  {
  }

  /** The whole script: the stride from the reported fps and frame count, the
      read loop, and the summary. A stride of at least 5 caps coverage at 20%. */
  method AnalysePostureVideo(fps: int, reportedFrames: int, frames: seq<Option<Pose>>)
    returns (r: Checked<Report>)
    ensures r.ZeroDivisionError? <==> fps == 0
    ensures r.Value? ==> (r.value.NoFramesProcessed? <==>
      forall n :: 1 <= n <= |frames| && Analysed(n, FrameSkip(fps, reportedFrames).value) ==> frames[n - 1].None?)
    ensures r.Value? ==> r.value == Summarize(ExpectedTally(frames, FrameSkip(fps, reportedFrames).value))
    ensures r.Value? && r.value.Scored? ==> r.value.coveragePercentage <= 20.0
  {
    var skip := FrameSkip(fps, reportedFrames);
    if skip.ZeroDivisionError? {
      return ZeroDivisionError;
    }
    var t := RunPostureLoop(frames, skip.value);
    ReportOfStride(frames, skip.value);
    r := Value(Summarize(t));
  }

  /** What the summary says for any stride the plan can pick. */
  lemma ReportOfStride(frames: seq<Option<Pose>>, skip: nat)
    requires skip >= MinimumStride
    ensures Summarize(ExpectedTally(frames, skip)).NoFramesProcessed? <==>
      forall n :: 1 <= n <= |frames| && Analysed(n, skip) ==> frames[n - 1].None?
    ensures Summarize(ExpectedTally(frames, skip)).Scored? ==>
      Summarize(ExpectedTally(frames, skip)).coveragePercentage <= 20.0
  {
    CoverageCappedByStride(frames, skip);
    NoPoseFrames(frames, skip);
    StrideShareAtMostTwenty(skip);
  }

  lemma StrideShareAtMostTwenty(skip: nat)
    requires skip >= MinimumStride
    ensures 100.0 / skip as real <= 20.0
  {
    var k := skip as real;
    assert 100.0 / k * k == 100.0;
  }

  /** No pose was counted exactly when every analysed frame lacked one. */
  lemma {:induction false} NoPoseFrames(frames: seq<Option<Pose>>, skip: nat)
    requires skip >= 1
    ensures PoseCount(frames, skip, AnyPose) == 0 <==>
      forall n :: 1 <= n <= |frames| && Analysed(n, skip) ==> frames[n - 1].None?
  {
    if frames != [] {
      var p := frames[..|frames| - 1];
      NoPoseFrames(p, skip);
      assert forall i :: 0 <= i < |p| ==> p[i] == frames[i];
    }
  }

  /** A pose failing all three tests. */
  const SlumpedPose: Pose := Pose(0.0, 0.5, 0.0, 1.0, 1.0)

  /** An analysed frame without a pose is counted towards nothing. */
  lemma {:induction false} NoPoseNoCount(frames: seq<Option<Pose>>, skip: nat, c: Criterion)
    requires skip >= 1
    requires forall i :: 0 <= i < |frames| ==> frames[i].None?
    ensures PoseCount(frames, skip, c) == 0
  {
    if frames != [] {
      NoPoseNoCount(frames[..|frames| - 1], skip, c);
    }
  }

  /** The frames of the example below: four frames skipped, then a slumped one. */
  const SlumpedClip: seq<Option<Pose>> := [None, None, None, None, Some(SlumpedPose)]

  lemma SlumpedPoseFailsAll()
    ensures Fires(SlumpedPose, HeadTilt) && Fires(SlumpedPose, ShoulderMisalignment) && Fires(SlumpedPose, SpineBend)
    ensures !GoodPosture(SlumpedPose)
  {
  }

  lemma SlumpedClipTally()
    ensures ExpectedTally(SlumpedClip, MinimumStride) == Tally(5, 1, 0, map[HeadTilt := 1, ShoulderMisalignment := 1, SpineBend := 1])
  {
    var blank: seq<Option<Pose>> := [None, None, None, None];
    assert SlumpedClip == blank + [Some(SlumpedPose)];
    assert SlumpedClip[..4] == blank;
    forall c: Criterion ensures PoseCount(blank, 5, c) == 0 {
      NoPoseNoCount(blank, 5, c);
    }
    SlumpedPoseFailsAll();
    assert Analysed(5, 5);
    assert PoseCount(SlumpedClip, 5, AnyPose) == 1 && PoseCount(SlumpedClip, 5, Good) == 0;
    assert PoseCount(SlumpedClip, 5, Penalised(HeadTilt)) == 1;
    assert PoseCount(SlumpedClip, 5, Penalised(ShoulderMisalignment)) == 1;
    assert PoseCount(SlumpedClip, 5, Penalised(SpineBend)) == 1;
  }

  /** The reason shares are each taken over the frames with a pose, so they can
      add up to more than 100: one analysed frame failing all three tests gives
      three shares of 100. */
  lemma ReasonSharesCanExceedHundred()
    ensures Summarize(ExpectedTally(SlumpedClip, MinimumStride))
      == Scored(0.0, 20.0, [(HeadTilt, 100.0), (ShoulderMisalignment, 100.0), (SpineBend, 100.0)])
  {
    SlumpedClipTally();
    var t := Tally(5, 1, 0, map[HeadTilt := 1, ShoulderMisalignment := 1, SpineBend := 1]);
    assert Percentage(1, 5) == 20.0;
    assert ReasonOrder[1..] == [ShoulderMisalignment, SpineBend];
    assert ReasonOrder[1..][1..] == [SpineBend];
    assert ReasonOrder[1..][1..][1..] == [];
  }
}
