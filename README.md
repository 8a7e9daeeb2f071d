# InterviewLY scoring core, modelled in Dafny

InterviewLY scores a recorded mock interview along five axes: posture, eye
contact, hand gestures, facial emotion, and the sentiment and fluency of
the transcript. Each axis has two versions: a stand-alone script and a page
of the web app. Both run the same kind of pipeline:

1. A sampler picks which frames of the video are analysed.
2. A per-frame classifier turns detector landmarks into a verdict, using
   fixed thresholds.
3. Counters or dictionaries are folded over the frame stream.
4. The result is a percentage or per-label counts (with the most common
   gesture on the gesture page), and an improvement tip.

On the text side, a transcript gets a sentiment label, a whole-word filler
count and a list of strongly negative sentences. A small helper derives the
output path of an AVI-to-MP4 conversion.

This project models that pipeline. The perception libraries are treated as
abstract inputs (pose, hand and face landmarks, face and hand counts,
classifier labels, and TextBlob polarities), and the model proves what the
thresholds, loops and tallies do with those inputs. Some of the facts proved
are not obvious from reading the code:

- The gesture chain can never produce "Fist".
- The posture script's coverage figure never exceeds 20%.
- A posture frame is good exactly when at most one penalty fires.
- The script's filler list holds `"ohhum"` and never counts a standalone "um".
- The eye-contact script divides by zero on an empty video.
- Every `.avi` in a path is rewritten, not only the suffix.

Layout: one module per source file, plus shared modules.

- `Base`: `Option`, a `Checked` result for `ZeroDivisionError`, Python's `//`
  and `int()`, `Percentage`, and a frame-detection count.
- `Landmarks`: the pose record.
- `Sampling`: the 0-based stride sampler.
- `Histogram`: label counts, the order of a `Counter`, and the first maximum.
- `Text`: `strip()` blankness and the whole-word, case-insensitive `findall` count.
- `Sentiment`: labels, sentences and the order-keeping filter.

Loops in the source are `while` loops in methods here. Each is proved
against a function defined frame by frame, and the properties are lemmas
about that function.

## Model

| member | source | states |
|---|---|---|
| PostureAnalysis.FrameSkip | Posture_analysis.py:13-18 | raises ZeroDivisionError exactly when fps is 0; otherwise the stride is at least 5, it is above 5 exactly when duration/200 reaches 6, and then it is the integer part of duration/200 |
| PostureAnalysis.ShortClipMinimumStride | Posture_analysis.py:15-18 | a clip shorter than 1200 s always gets stride 5 |
| PostureAnalysis.AnalysedCountIsQuotient | Posture_analysis.py:27-35 | the counter is bumped before the stride test, so of n frames read exactly n / skip are analysed (1-based selection) |
| PostureAnalysis.SpineY | Posture_analysis.py:48 | the spine height is the midpoint of the two hip heights |
| PostureAnalysis.FrameScore | Posture_analysis.py:50-62 | the score is 100 exactly when no criterion fires, 20 exactly when all three fire, and always one of 100/80/70/50/40/20 |
| PostureAnalysis.GoodIffAtMostOnePenalty | Posture_analysis.py:50-65 | a frame is good (score ≥ 60) exactly when at most one criterion fires, i.e. score in {100, 80, 70}; not good exactly for {50, 40, 20} |
| PostureAnalysis.PoseCountMonotone | Posture_analysis.py:42-65 | a criterion implied by another counts at least as many frames |
| PostureAnalysis.PoseCountBound | Posture_analysis.py:34-43 | no count exceeds the number of analysed frames |
| PostureAnalysis.ExpectedTallyOrdered | Posture_analysis.py:22-65 | good ≤ with pose ≤ analysed = n / skip ≤ read; each reason count ≤ frames with pose; the reason dictionary keeps its three keys |
| PostureAnalysis.RunPostureLoop | Posture_analysis.py:22-65 | the loop's counters and reason dictionary are exactly the frame-by-frame tally of the stream |
| PostureAnalysis.ReasonBreakdown | Posture_analysis.py:79-82 | lists the reasons with a non-zero count and no others, each as its share in (0, 100] of the frames with a pose |
| PostureAnalysis.ReasonBreakdownInOrder | Posture_analysis.py:79-82 | the listed reasons follow the order of the dictionary's keys: of any two entries, the first's key comes earlier in that order |
| PostureAnalysis.ReasonsListedOnceInOrder | Posture_analysis.py:24-82 | the printed reasons come in the order head tilt, shoulder misalignment, spine bend, each at most once |
| PostureAnalysis.Summarize | Posture_analysis.py:70-82 | no division without a pose frame; otherwise the posture share is good/with-pose·100, the coverage is with-pose/read·100, and below 100 the breakdown of every reason; posture share in [0,100] and 100 exactly when every pose frame is good, coverage in (0,100], no reasons at 100 |
| PostureAnalysis.CoverageCappedByStride | Posture_analysis.py:75 | coverage divides by every frame read, so it is at most 100 / skip |
| PostureAnalysis.NoPoseFrames | Posture_analysis.py:42-71 | the "no frames processed" branch is taken exactly when no analysed frame has a pose |
| PostureAnalysis.AnalysePostureVideo | Posture_analysis.py:13-82 | the whole script: ZeroDivisionError exactly when fps is 0; otherwise the report is the summary of the frame-by-frame tally at the planned stride, the no-pose branch is taken exactly when no analysed frame has a pose, and coverage is at most 20% |
| PostureAnalysis.ReportOfStride | Posture_analysis.py:69-75 | for any stride of at least 5, the summary takes the no-pose branch exactly when no analysed frame has a pose, and reports a coverage of at most 20% |
| PostureAnalysis.ReasonSharesCanExceedHundred | Posture_analysis.py:77-82 | each reason share is taken over the frames with a pose, so they can add up to more than 100: one analysed frame failing all three tests scores 0%, covers 20% of five frames read, and lists three shares of 100% |
| PosturePage.StraightCountExtremes | pages/posture.py:81-105 | every frame is classified: the straight count equals the frames read exactly when all are straight, and is 0 exactly when none is |
| PosturePage.BoundarySlopeSlouches | pages/posture.py:98-103 | a slope of exactly 0.05 is not straight (strict comparison) |
| PosturePage.ProcessVideo | pages/posture.py:74-110 | total counts every frame read; straight ≤ total; score 0 on an empty video, otherwise straight/total·100 in [0,100] |
| PosturePage.Tip | pages/posture.py:184-204 | the bands ≥ 80, [50, 80), < 50 partition the scores |
| EyeContactPage.CenteredExamples | pages/eyecontact.py:101 | eyes at 0.48/0.52 around a nose at 0.50 are centred; a left eye at 0.40 is not |
| EyeContactPage.ContactCountBound | pages/eyecontact.py:89-104 | with at most one face per frame, contacts ≤ frames with a face ≤ frames read |
| EyeContactPage.ProcessVideo | pages/eyecontact.py:73-109 | total counts every frame read; contacts are the centred faces (landmarks 33/133, 362/263 and 1); under the one-face limit contact ≤ total and the score is in [0,100]; 0 on an empty video |
| EyeContactPage.Tip | pages/eyecontact.py:179-199 | the bands ≥ 80, [50, 80), < 50 partition the scores |
| GesturePage.Classify | pages/gesture.py:101-113 | never Fist; Thumbs Up iff thumb and index above the wrist; Victory iff thumb not above and index and pinky above; Open Palm iff all three below |
| GesturePage.ThumbsUpExample | pages/gesture.py:101-102 | thumb = index = 0.1, pinky = 0.9, wrist = 0.5 gives Thumbs Up |
| GesturePage.FrameGesture | pages/gesture.py:89-117 | no hands gives No Hand; otherwise only the first hand is classified |
| GesturePage.CountsPartitionFrames | pages/gesture.py:78-117 | the five counters add up to the frames read and the Fist counter stays 0 |
| GesturePage.ProcessVideo | pages/gesture.py:74-122 | the dictionary the loop returns is the per-gesture frame count |
| GesturePage.MostCommon | pages/gesture.py:202 | a gesture with the largest count, every earlier key in dictionary order having a strictly smaller count |
| GesturePage.MostCommonOfTally | pages/gesture.py:78-141 | Fist is never the most common gesture; an empty video reports Open Palm |
| GesturePage.Tip | pages/gesture.py:203-237 | each of the five gestures maps to its own tip; Thumbs Up and Victory get different tips |
| EmotionPage.FrameInterval | pages/emotion.py:78-79 | the interval is at least 1; it is 1 when fps < 2·rate, and otherwise it is the k with k·rate ≤ fps < (k+1)·rate, the floor of fps / rate |
| EmotionPage.ExtractFrames | pages/emotion.py:70-94 | an unopened video gives no frames; otherwise ceil(n / k) frames are saved, the j-th being frame j·k |
| Sampling.SampledNonEmpty | pages/emotion.py:83-91 | a non-empty video keeps (n−1)/k + 1 frames, frame 0 first |
| Sampling.SampledLength | Emotion_analysis.py:18-30 | n frames read give ceil(n / k) samples |
| Sampling.SampledAt | pages/emotion.py:87-91 | the j-th sample is frame j·k, for every multiple of k below n |
| EmotionPage.AnalyzeFrame | pages/emotion.py:97-105 | never fails: a classifier failure gives "No Face Detected" |
| EmotionPage.AnalyzeEmotionsParallel | pages/emotion.py:107-111 | same length as the frames and each result is the label of the frame at the same position |
| EmotionPage.GenerateEmotionReport | pages/emotion.py:114-144 | (defined by the page, never called by its flow) error branch exactly for no emotions; otherwise every label occurring appears with its number of occurrences, every entry counts at least 1 and exactly its label's occurrences, the counts sum to the number of labels, and the dominant label occurs with maximal count |
| EmotionPage.Tip | pages/emotion.py:234-254 | "happy" present wins, then "neutral" present, else needs improvement |
| EmotionPage.AnalyseVideo | pages/emotion.py:165-254 | no analysis exactly when the video cannot be opened or is empty; otherwise the labels are the classifier's outcome on each sampled frame ((n−1)/k + 1 of them, the first from frame 0), the pie and breakdown counts list every label once with exactly its number of occurrences and sum to the number of labels, and the tip is that of these labels; no dominant label is shown |
| EmotionAnalysis.DetectEmotion | Emotion_analysis.py:5-12 | never fails: a classifier failure gives "No Face Detected" |
| EmotionAnalysis.CollectEmotions | Emotion_analysis.py:17-30 | frame_count ends at the frames read; (n+4)/5 labels, the j-th from frame 5j |
| EmotionAnalysis.Summary | Emotion_analysis.py:35 | the Counter holds every label read with its number of occurrences, and its counts sum to the list's length |
| Histogram.CounterSumsToLength | Emotion_analysis.py:35-40 | the counts of a Counter add up to the length of the list |
| Base.DetectedFramesExtremes | eye_contact.py:24-25 | the detection count equals the frames read exactly when every frame has a detection, and is 0 exactly when none has |
| EyeContact.MeasureEyeContact | eye_contact.py:12-30 | total counts every frame; contact counts frames with a face and never exceeds total; ZeroDivisionError exactly on an empty video, otherwise a share in [0,100] |
| GestureAnalysis.MeasureGestures | Gesture_analysis.py:10-28 | total counts every frame; gesture frames are those with a hand and never exceed total; 0 on an empty video, otherwise a share in [0,100] |
| Text.CountFrom | pages/sentiment.py:185-188 | the matches found from a position on, left to right and not overlapping, never cover more than the rest of the text |
| Text.CountFromCountsMatches | pages/sentiment.py:185-188 | for a filler made of word characters, the left-to-right scan counts exactly the positions where the whole word matches, so skipping past a match loses none |
| Text.HesitationsIgnoreCase | pages/sentiment.py:185-188 | the case-insensitive filler count is unchanged by changing the case of any letters |
| Text.FillerInsideWordNotCounted | pages/sentiment.py:186 | "so" inside "sofa" is not counted |
| Text.FillerCountedIgnoringCase | pages/sentiment.py:186 | "So, so." counts two occurrences of "so" |
| Sentiment.IssuesAreFlaggedSentences | pages/sentiment.py:190-194 | a text is reported exactly when a sentence with that text passes the filter |
| Sentiment.StricterFilterSubsequence | pages/sentiment.py:190-194 | a stricter filter reports a subsequence of a looser one's report, in sentence order |
| SentimentPage.Label | pages/sentiment.py:197-198 | Positive iff score > 0.1, Negative iff < −0.1, Neutral on [−0.1, 0.1] |
| SentimentPage.AnalyzeSentiment | pages/sentiment.py:170-210 | blank text gives the No Speech record; a TextBlob failure gives the Error record; otherwise a three-way label, TextBlob's score, the filler count and the texts of the long negative sentences |
| SentimentPage.GrammarIssuesInOrder | pages/sentiment.py:190-194 | issues are exactly the texts of the sentences with polarity < −0.3 and more than 3 words, as a subsequence of all sentences |
| SentimentPage.AnalysisIgnoresCase | pages/sentiment.py:172-188 | two texts that differ only in letter case are blank together and, under the same polarity, get the same label, score and hesitation count (the issue texts keep each text's own case) |
| SentimentPage.StandaloneUmCounted | pages/sentiment.py:184-188 | the page counts a standalone "um" |
| SentimentPage.Feedback | pages/sentiment.py:274-279 | > 5 fillers gives an error, 1–5 a warning, 0 a success |
| SentimentPage.Tip | pages/sentiment.py:294-314 | Negative comes first, then more than 3 fillers, else Great Job |
| SentimentPage.FailedAnalysisIsPraised | pages/sentiment.py:172-314 | a blank transcript or a TextBlob failure gets the excellent-clarity feedback and the Great Job tip |
| SentimentAnalysis.FillersConcatenated | sentiment_analysis.py:60 | the list has 9 entries, one of them "ohhum", and holds neither "um" nor "ohh" |
| SentimentAnalysis.StandaloneUmNotCounted | sentiment_analysis.py:60-61 | the script counts 0 hesitations in "um", while the page counts 1 |
| SentimentAnalysis.Label | sentiment_analysis.py:67 | Positive iff score > 0, Negative iff < 0, Neutral iff exactly 0 |
| SentimentAnalysis.LabelsDisagreeOnlyInBand | sentiment_analysis.py:67 | the script and page labels differ exactly for non-zero scores in [−0.1, 0.1] |
| SentimentAnalysis.AnalyzeText | sentiment_analysis.py:52-71 | a sign-only label (Positive iff the polarity is above 0, Negative iff below, Neutral iff exactly 0), TextBlob's score, the 9-filler count, and the texts of the sentences with polarity below −0.3 |
| SentimentAnalysis.ScriptIssuesCoverPageIssues | sentiment_analysis.py:64-70 | the script's issues are exactly the texts of sentences with polarity < −0.3, in order, and include the page's issues |
| SentimentAnalysis.ExtractAudio | sentiment_analysis.py:17-33 | a missing video returns nothing and runs nothing; otherwise success exactly when output.wav exists afterwards, a stale file included |
| SentimentAnalysis.TranscribeAudio | sentiment_analysis.py:35-50 | a transcript only for an existing file and a non-empty text |
| SentimentAnalysis.AnalyzeVideo | sentiment_analysis.py:73-88 | stops at the first failed stage: no audio, then no transcript exactly when Whisper's text is empty, otherwise the analysis of the transcript |
| Converter.ReplaceAll | pages/converter.py:9 | replacing by a string of the same length keeps the length |
| Converter.ReplaceAbsent | pages/converter.py:9 | a path without ".avi" is unchanged |
| Converter.ReplaceFirstOccurrence | pages/converter.py:9 | with no ".avi" before it, the first ".avi" becomes ".mp4" and the replacement continues on the rest of the path |
| Converter.EveryOccurrenceReplaced | pages/converter.py:9 | no ".avi" is left in any output path: every occurrence is replaced, and none is formed across a replacement |
| Converter.DoubleExtensionExample | pages/converter.py:9 | "x.avi.avi" becomes "x.mp4.mp4", not only its suffix |
| Converter.ConvertAviToMp4 | pages/converter.py:4-20 | FileNotFoundError exactly for a missing input; otherwise ffmpeg converts to the derived path with libx264/aac and overwriting, and the path is returned exactly on success, None on failure |
| Converter.OutputPaths | pages/converter.py:9-15 | an existing path without ".avi" is converted onto itself (with overwriting), and "stem.avi" onto "stem.mp4" |

## Left out

- The Streamlit UI is not modelled: page layout, uploads, session state, video preview and the pie charts. `app.py` and `pages/interview.py` are UI only.
- The perception libraries (MediaPipe, DeepFace, dlib, Whisper and TextBlob) are inputs to the model rather than part of it. Landmarks, face and hand counts, classifier labels, polarities and sentence splits are given.
- Video I/O is left out: opening and reading frames, resizing, colour conversion, writing frame images to a temporary directory, and drawing landmarks.
- Subprocess and file effects are abstract. ffmpeg is a flag saying whether it writes the output (or raises). The set of existing paths stands in for the file system. Temporary files, `os.remove`, logging and printing are not modelled.
- The page `extract_audio` and `transcribe_audio` in pages/sentiment.py are not part of this model. They are exception handling around ffmpeg and the speech model; only `analyze_sentiment` and the feedback and tip branches are modelled.
- EmotionPage.AnalyzeEmotionsParallel: the worker pool is modelled as a sequential map that keeps order. Concurrency is not modelled.
- EmotionPage.AnalyseVideo: the page lists its counts in the iteration order of `set(emotions)`, which is unspecified; the model lists them in first-occurrence order, and its contract states the counts but not their order.
- Calls the source does not guard are assumed not to raise: Whisper's `load_model` and `transcribe` and `TextBlob(text)` in sentiment_analysis.py, and the MediaPipe and dlib calls inside the frame loops. In the source such an exception ends the script; SentimentAnalysis.AnalyzeVideo and the loop models have no outcome for it.
- EmotionPage.GenerateEmotionReport: the source takes the key order of a `set`, which is unspecified. Among equally frequent labels the model picks the one that occurs first. The proved property (the dominant label has maximal count) holds for any tie order.
- Floating point: coordinates, polarities, durations and percentages are exact reals. IEEE rounding and the `:.2f` formatting are not modelled.
- Text.WholeWordCount: `\b`, `\w`, `re.IGNORECASE` and `str.strip()` are modelled over ASCII only. Unicode word characters, case folding and non-ASCII whitespace are out of scope.
- EyeContactPage.ProcessVideo: the bounds contact ≤ total and score ≤ 100 are stated only for frames with at most one face. The detector is configured with `max_num_faces=1`, which the model takes as a hypothesis; it does not enforce it.
- Module-level side effects are left out: the nltk downloads in sentiment_analysis.py, the hard-coded `/content/...` paths, and the notebook `!wget` line of eye_contact.py, which is not Python.
- The frame count and fps used by the posture script's stride formula are given as numbers. How OpenCV obtains them is not modelled.
