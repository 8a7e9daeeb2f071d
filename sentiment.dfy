/** What both transcript analysers share: the sentiment labels, the analysis
    record, TextBlob's output as an abstract input, and the filter that keeps
    the flagged sentences in their order. */
module Sentiment {

  datatype SentimentLabel = Positive | Negative | Neutral | NoSpeech | Error

  /** One sentence as TextBlob splits it: its text, its polarity and its word count. */
  datatype Sentence = Sentence(text: string, polarity: real, wordCount: nat)

  /** TextBlob's reading of a whole text: its polarity and its sentences. */
  datatype Blob = Blob(polarity: real, sentences: seq<Sentence>)

  /** The dictionary both analysers return. */
  datatype Analysis = Analysis(sentiment: SentimentLabel, sentimentScore: real, hesitationCount: nat, grammarIssues: seq<string>)

  /** `[str(s) for s in sentences if keep(s)]`. */
  function Issues(sentences: seq<Sentence>, keep: Sentence -> bool): (issues: seq<string>)
    ensures |issues| <= |sentences|
  {
    if sentences == [] then []
    else
      var last := sentences[|sentences| - 1];
      Issues(sentences[..|sentences| - 1], keep) + (if keep(last) then [last.text] else [])
  }

  /** The text of every sentence, in order. */
  function Texts(sentences: seq<Sentence>): (texts: seq<string>)
    ensures |texts| == |sentences|
    ensures forall i :: 0 <= i < |sentences| ==> texts[i] == sentences[i].text
  {
    if sentences == [] then [] else Texts(sentences[..|sentences| - 1]) + [sentences[|sentences| - 1].text]
  }

  /** `a` is `b` with some elements left out, the rest in their order. */
  predicate Subsequence(a: seq<string>, b: seq<string>)
    decreases |b|
  {
    if a == [] then true
    else if b == [] then false
    else (a[|a| - 1] == b[|b| - 1] && Subsequence(a[..|a| - 1], b[..|b| - 1])) || Subsequence(a, b[..|b| - 1])
  }

  /** A text is reported exactly when some sentence with that text is flagged. */
  lemma {:induction false} IssuesAreFlaggedSentences(sentences: seq<Sentence>, keep: Sentence -> bool, t: string)
    ensures t in Issues(sentences, keep) <==> exists i :: 0 <= i < |sentences| && keep(sentences[i]) && sentences[i].text == t
  {
    if sentences != [] {
      var p := sentences[..|sentences| - 1];
      IssuesAreFlaggedSentences(p, keep, t);
      assert forall i :: 0 <= i < |p| ==> p[i] == sentences[i];
      if exists i :: 0 <= i < |sentences| && keep(sentences[i]) && sentences[i].text == t {
        var i :| 0 <= i < |sentences| && keep(sentences[i]) && sentences[i].text == t;
        if i < |p| {
          assert keep(p[i]) && p[i].text == t;
        }
      }
    }
  }

  /** A stricter filter reports a subsequence of what a looser one reports;
      with the filter that keeps everything this says the issues come in
      sentence order. */
  lemma {:induction false} StricterFilterSubsequence(sentences: seq<Sentence>, strict: Sentence -> bool, loose: Sentence -> bool)
    requires forall i :: 0 <= i < |sentences| && strict(sentences[i]) ==> loose(sentences[i])
    ensures Subsequence(Issues(sentences, strict), Issues(sentences, loose))
  {
    if sentences != [] {
      var p := sentences[..|sentences| - 1];
      var last := sentences[|sentences| - 1];
      assert forall i :: 0 <= i < |p| ==> p[i] == sentences[i];
      StricterFilterSubsequence(p, strict, loose);
      var a, b := Issues(sentences, strict), Issues(sentences, loose);
      if strict(last) {
        assert a[..|a| - 1] == Issues(p, strict) && b[..|b| - 1] == Issues(p, loose);
      } else if loose(last) {
        assert a == Issues(p, strict);
        assert b == Issues(p, loose) + [last.text];
        assert b[..|b| - 1] == Issues(p, loose);
        assert Subsequence(a, b[..|b| - 1]);
      } else {
        assert a == Issues(p, strict) && b == Issues(p, loose);
      }
    }
  }

  /** Every sentence is kept by the filter that keeps everything. */
  lemma {:induction false} KeepAllIsTexts(sentences: seq<Sentence>)
    ensures Issues(sentences, (s: Sentence) => true) == Texts(sentences)
  {
    if sentences != [] {
      KeepAllIsTexts(sentences[..|sentences| - 1]);
    }
  }
}
