/** The transcript page's analyser: a blank transcript and a failing TextBlob
    give fixed records; otherwise a three-way label with a neutral band, the
    whole-word filler count and the long negative sentences. Then the filler
    feedback and the improvement tip. */
module SentimentPage {
  import opened Base
  import opened Text
  import opened Sentiment

  /** The page's filler words. */
  const Fillers: seq<string> := ["uh", "um", "like", "you know", "so", "actually", "basically"]

  /** Positive above 0.1, Negative below -0.1, Neutral on the band between,
      both ends included. */
  function Label(score: real): (l: SentimentLabel)
    ensures l == Positive <==> score > 0.1
    ensures l == Negative <==> score < -0.1
    ensures l == Neutral <==> -0.1 <= score <= 0.1
  {
    if score > 0.1 then Positive else if score < -0.1 then Negative else Neutral
  }

  /** A sentence reported as a grammar issue: polarity below -0.3 and more than three words. */
  predicate GrammarIssue(s: Sentence)
  {
    s.polarity < -0.3 && s.wordCount > 3
  }

  /** `analyze_sentiment`. The text's TextBlob reading is given, `None` when
      TextBlob raises. */
  function AnalyzeSentiment(text: string, blob: Option<Blob>): (a: Analysis)
    ensures IsBlank(text) ==> a == Analysis(NoSpeech, 0.0, 0, [])
    ensures !IsBlank(text) && blob.None? ==> a == Analysis(Error, 0.0, 0, [])
    ensures !IsBlank(text) && blob.Some? ==>
      a.sentiment in {Positive, Negative, Neutral} && a.sentimentScore == blob.value.polarity
      && a.hesitationCount == Hesitations(text, Fillers)
      && a.grammarIssues == Issues(blob.value.sentences, GrammarIssue)
      && |a.grammarIssues| <= |blob.value.sentences|
    ensures a.sentiment == Positive <==> !IsBlank(text) && blob.Some? && blob.value.polarity > 0.1
    ensures a.sentiment == Negative <==> !IsBlank(text) && blob.Some? && blob.value.polarity < -0.1
  {
    if IsBlank(text) then Analysis(NoSpeech, 0.0, 0, [])
    else match blob
      case None => Analysis(Error, 0.0, 0, [])
      case Some(b) => Analysis(Label(b.polarity), b.polarity, Hesitations(text, Fillers), Issues(b.sentences, GrammarIssue))
  }

  /** The reported issues are the texts of the long negative sentences, in
      sentence order. */
  lemma GrammarIssuesInOrder(text: string, b: Blob, t: string)
    requires !IsBlank(text)
    ensures Subsequence(AnalyzeSentiment(text, Some(b)).grammarIssues, Texts(b.sentences))
    ensures t in AnalyzeSentiment(text, Some(b)).grammarIssues <==>
      exists i :: 0 <= i < |b.sentences| && b.sentences[i].polarity < -0.3 && b.sentences[i].wordCount > 3 && b.sentences[i].text == t
  {
    StricterFilterSubsequence(b.sentences, GrammarIssue, (s: Sentence) => true);
    KeepAllIsTexts(b.sentences);
    IssuesAreFlaggedSentences(b.sentences, GrammarIssue, t);
  }

  /** Whitespace has no upper or lower case. */
  lemma SpaceIgnoresCase(a: char, b: char)
    requires Lower(a) == Lower(b)
    ensures IsSpace(a) == IsSpace(b)
  {
  }

  /** Two texts that differ only in letter case are blank together, and under
      the same polarity get the same label, score and hesitation count. The
      issue texts are the sentences' own texts, so they keep each text's case. */
  lemma AnalysisIgnoresCase(a: string, b: string, blobA: Option<Blob>, blobB: Option<Blob>)
    requires SameIgnoringCase(a, b)
    requires blobA.None? == blobB.None?
    requires blobA.Some? && blobB.Some? ==> blobA.value.polarity == blobB.value.polarity
    ensures IsBlank(a) == IsBlank(b)
    ensures AnalyzeSentiment(a, blobA).sentiment == AnalyzeSentiment(b, blobB).sentiment
    ensures AnalyzeSentiment(a, blobA).sentimentScore == AnalyzeSentiment(b, blobB).sentimentScore
    ensures AnalyzeSentiment(a, blobA).hesitationCount == AnalyzeSentiment(b, blobB).hesitationCount
  {
    forall i | 0 <= i < |a| ensures IsSpace(a[i]) == IsSpace(b[i]) {
      SpaceIgnoresCase(a[i], b[i]);
    }
    assert IsBlank(a) == IsBlank(b);
    HesitationsIgnoreCase(a, b, Fillers);
  }

  /** The page counts a standalone "um". */
  lemma StandaloneUmCounted()
    ensures Hesitations("um", Fillers) == 1
  {
    assert MatchesAt("um", "um", 0);
    assert Lower("um"[1]) != Lower("uh"[1]);
    assert Lower("um"[0]) != Lower("so"[0]);
  }

  datatype FillerFeedback = TooManyFillers | ModerateFillers | ExcellentClarity

  /** More than five fillers is an error, one to five a warning, none a success. */
  function Feedback(fillerCount: nat): (f: FillerFeedback)
    ensures f == TooManyFillers <==> fillerCount > 5
    ensures f == ModerateFillers <==> 1 <= fillerCount <= 5
    ensures f == ExcellentClarity <==> fillerCount == 0
  {
    if fillerCount > 5 then TooManyFillers else if fillerCount > 0 then ModerateFillers else ExcellentClarity
  }

  datatype SentimentTip = ImprovementNeeded | ClarityTips | GreatJob

  /** A negative label comes first, then more than three fillers, else praise. */
  function Tip(sentiment: SentimentLabel, fillerCount: nat): (t: SentimentTip)
    ensures t == ImprovementNeeded <==> sentiment == Negative
    ensures t == ClarityTips <==> sentiment != Negative && fillerCount > 3
    ensures t == GreatJob <==> sentiment != Negative && fillerCount <= 3
  {
    if sentiment == Negative then ImprovementNeeded else if fillerCount > 3 then ClarityTips else GreatJob
  }

  /** A blank transcript or a TextBlob failure is praised: it carries no
      fillers and is not Negative. */
  lemma FailedAnalysisIsPraised(text: string, blob: Option<Blob>)
    requires IsBlank(text) || blob.None?
    ensures Feedback(AnalyzeSentiment(text, blob).hesitationCount) == ExcellentClarity
    ensures Tip(AnalyzeSentiment(text, blob).sentiment, AnalyzeSentiment(text, blob).hesitationCount) == GreatJob
  {
  }
}
