/** The stand-alone transcript script: extract the audio track, transcribe
    it, and analyse the transcript with a sign-only label, a nine-entry filler
    list and every strongly negative sentence, stopping at the first stage
    that fails. */
module SentimentAnalysis {
  import opened Base
  import opened Text
  import opened Sentiment
  import SentimentPage

  /** The script's filler list. Two adjacent string literals with no comma
      between them are one literal, so "ohh" and "um" make a single entry. */
  const Fillers: seq<string> := ["uh", "oh", "ohh" + "um", "like", "you know", "so", "actually", "basically", "literally"]

  /** The list has nine entries; "ohhum" is one of them, and neither "ohh" nor "um" is. */
  lemma FillersConcatenated()
    ensures |Fillers| == 9 && Fillers[2] == "ohhum"
    ensures "um" !in Fillers && "ohh" !in Fillers
  {
    assert Fillers[2] == "ohhum";
    assert forall i :: 0 <= i < |Fillers| ==> Fillers[i] != "um" && Fillers[i] != "ohh";
  }

  /** A text that matches none of the fillers has no hesitations. */
  lemma {:induction false} NoMatchNoHesitation(text: string, fillers: seq<string>)
    requires forall f :: f in fillers ==> |f| > 0
    requires forall k :: 0 <= k < |fillers| ==> WholeWordCount(text, fillers[k]) == 0
    ensures Hesitations(text, fillers) == 0
  {
    if fillers != [] {
      NoMatchNoHesitation(text, fillers[1..]);
    }
  }

  /** So a standalone "um" is never counted, while the page counts it. */
  lemma StandaloneUmNotCounted()
    ensures Hesitations("um", Fillers) == 0
    ensures Hesitations("um", SentimentPage.Fillers) == 1
  {
    assert WholeWordCount("um", "uh") == 0 by { assert Lower("um"[1]) != Lower("uh"[1]); }
    assert WholeWordCount("um", "oh") == 0 by { assert Lower("um"[0]) != Lower("oh"[0]); }
    assert WholeWordCount("um", "so") == 0 by { assert Lower("um"[0]) != Lower("so"[0]); }
    NoMatchNoHesitation("um", Fillers);
    SentimentPage.StandaloneUmCounted();
  }

  /** The sign of the polarity: exactly zero is Neutral. */
  function Label(score: real): (l: SentimentLabel)
    ensures l == Positive <==> score > 0.0
    ensures l == Negative <==> score < 0.0
    ensures l == Neutral <==> score == 0.0
  {
    if score > 0.0 then Positive else if score < 0.0 then Negative else Neutral
  }

  /** The two labellings agree except on the page's neutral band, where the
      script still reports the sign. */
  lemma LabelsDisagreeOnlyInBand(score: real)
    ensures Label(score) != SentimentPage.Label(score) <==> score != 0.0 && -0.1 <= score <= 0.1
    ensures SentimentPage.Label(score) != Neutral ==> Label(score) == SentimentPage.Label(score)
  {
  }

  /** A sentence reported as a grammar issue: polarity below -0.3, whatever its length. */
  predicate GrammarIssue(s: Sentence)
  {
    s.polarity < -0.3
  }

  /** `analyze_text`, given the text's TextBlob reading. Nothing is caught here. */
  function AnalyzeText(text: string, blob: Blob): (a: Analysis)
    ensures a.sentiment in {Positive, Negative, Neutral}
    ensures a.sentiment == Positive <==> blob.polarity > 0.0
    ensures a.sentiment == Negative <==> blob.polarity < 0.0
    ensures a.sentiment == Neutral <==> blob.polarity == 0.0
    ensures a.sentimentScore == blob.polarity
    ensures a.hesitationCount == Hesitations(text, Fillers)
    ensures a.grammarIssues == Issues(blob.sentences, GrammarIssue)
    ensures |a.grammarIssues| <= |blob.sentences|
  {
    Analysis(Label(blob.polarity), blob.polarity, Hesitations(text, Fillers), Issues(blob.sentences, GrammarIssue))
  }

  /** The script reports every sentence the page reports, and possibly more,
      in the same order; a text is reported exactly when a sentence with that
      text is strongly negative. */
  lemma ScriptIssuesCoverPageIssues(text: string, b: Blob, t: string)
    requires !IsBlank(text)
    ensures Subsequence(SentimentPage.AnalyzeSentiment(text, Some(b)).grammarIssues, AnalyzeText(text, b).grammarIssues)
    ensures Subsequence(AnalyzeText(text, b).grammarIssues, Texts(b.sentences))
    ensures t in AnalyzeText(text, b).grammarIssues <==>
      exists i :: 0 <= i < |b.sentences| && b.sentences[i].polarity < -0.3 && b.sentences[i].text == t
  {
    StricterFilterSubsequence(b.sentences, SentimentPage.GrammarIssue, GrammarIssue);
    StricterFilterSubsequence(b.sentences, GrammarIssue, (s: Sentence) => true);
    KeepAllIsTexts(b.sentences);
    IssuesAreFlaggedSentences(b.sentences, GrammarIssue, t);
  }

  /** The file the audio is extracted to. */
  const OutputAudio: string := "output.wav"

  /** `extract_audio`. `files` is the set of existing paths; ffmpeg is only run
      when the video exists, and writes (or overwrites) the output file when
      `ffmpegWritesOutput` holds. Success is judged by the output file existing
      afterwards, so a file left by an earlier run also counts as success. */
  method ExtractAudio(videoPath: string, files: set<string>, ffmpegWritesOutput: bool) returns (audioPath: Option<string>, filesAfter: set<string>)
    ensures videoPath !in files ==> audioPath == None && filesAfter == files
    ensures videoPath in files ==> filesAfter == files + (if ffmpegWritesOutput then {OutputAudio} else {})
    ensures audioPath != None <==> videoPath in files && (ffmpegWritesOutput || OutputAudio in files)
    ensures audioPath != None ==> audioPath == Some(OutputAudio) && OutputAudio in filesAfter
  {
    if videoPath !in files {
      return None, files;
    }
    filesAfter := files;
    if ffmpegWritesOutput {
      filesAfter := filesAfter + {OutputAudio};
    }
    if OutputAudio in filesAfter {
      audioPath := Some(OutputAudio);
    } else {
      audioPath := None;
    }
  }

  /** `transcribe_audio`: nothing for a missing file or an empty transcription,
      otherwise Whisper's text. */
  function TranscribeAudio(audioPath: string, files: set<string>, whisperText: string): (transcript: Option<string>)
    ensures transcript.Some? <==> audioPath in files && whisperText != ""
    ensures transcript.Some? ==> transcript.value == whisperText
  {
    if audioPath !in files then None
    else if whisperText != "" then Some(whisperText)
    else None
  }

  datatype PipelineOutcome =
    | NoAudio
    | NoTranscript
    | Analysed(transcript: string, analysis: Analysis)

  /** `analyze_video`: each stage runs only when the one before produced
      something. Whisper's text and TextBlob's reading of it are given. */
  method AnalyzeVideo(videoPath: string, files: set<string>, ffmpegWritesOutput: bool, whisperText: string, blob: Blob)
    returns (outcome: PipelineOutcome)
    ensures outcome == NoAudio <==> videoPath !in files || (!ffmpegWritesOutput && OutputAudio !in files)
    ensures outcome == NoTranscript <==> videoPath in files && (ffmpegWritesOutput || OutputAudio in files) && whisperText == ""
    ensures outcome.Analysed? ==> outcome.transcript == whisperText && whisperText != ""
    ensures outcome.Analysed? ==> outcome.analysis == AnalyzeText(whisperText, blob)
  {
    var audioPath, filesAfter := ExtractAudio(videoPath, files, ffmpegWritesOutput);
    if audioPath == None {
      return NoAudio;
    }
    var transcript := TranscribeAudio(audioPath.value, filesAfter, whisperText);
    if transcript == None || transcript.value == "" {
      return NoTranscript;
    }
    var analysis := AnalyzeText(transcript.value, blob);
    outcome := Analysed(transcript.value, analysis);
  }
}
