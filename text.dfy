/** The string predicates both transcript analysers rely on: `str.strip()`
    emptiness and the count of `re.findall(r"\b<word>\b", text, re.IGNORECASE)`
    for a literal word, over ASCII characters. */
module Text {

  /** The ASCII characters `str.isspace()` accepts: tab, line feed, vertical
      tab, form feed, carriage return, the four separators 0x1C to 0x1F, space. */
  predicate IsSpace(c: char)
  {
    (9 <= c as int <= 13) || (28 <= c as int <= 32)
  }

  /** `not text.strip()`: nothing is left once surrounding whitespace is removed. */
  predicate IsBlank(text: string)
  {
    forall i :: 0 <= i < |text| ==> IsSpace(text[i])
  }

  /** The ASCII characters `\w` matches. */
  predicate IsWordChar(c: char)
  {
    ('a' <= c <= 'z') || ('A' <= c <= 'Z') || ('0' <= c <= '9') || c == '_'
  }

  /** ASCII lower-casing, the comparison `re.IGNORECASE` makes. */
  function Lower(c: char): (l: char)
    ensures 'A' <= c <= 'Z' ==> 'a' <= l <= 'z' && l as int == c as int + 32
    ensures !('A' <= c <= 'Z') ==> l == c
  {
    if 'A' <= c <= 'Z' then (c as int + 32) as char else c
  }

  /** Two texts that differ at most in the case of their letters. */
  predicate SameIgnoringCase(a: string, b: string)
  {
    |a| == |b| && forall k :: 0 <= k < |a| ==> Lower(a[k]) == Lower(b[k])
  }

  /** Whether position `i` holds a word character; positions outside the text do not. */
  predicate WordAt(text: string, i: int)
  {
    0 <= i < |text| && IsWordChar(text[i])
  }

  /** `\b` at position `i`: a word character on exactly one side. */
  predicate Boundary(text: string, i: int)
  {
    WordAt(text, i - 1) != WordAt(text, i)
  }

  /** The pattern `\b<w>\b` matches at position `i`, ignoring case. */
  predicate MatchesAt(text: string, w: string, i: nat)
  {
    i + |w| <= |text|
    && (forall k :: 0 <= k < |w| ==> Lower(text[i + k]) == Lower(w[k]))
    && Boundary(text, i) && Boundary(text, i + |w|)
  }

  /** The matches `findall` reports from position `i` on: it tries each start
      position in turn and resumes after the end of every match it reports. */
  function CountFrom(text: string, w: string, i: nat): (n: nat)
    requires |w| > 0 && i <= |text|
    ensures n * |w| <= |text| - i
    decreases |text| - i
  {
    if i + |w| > |text| then 0
    else if MatchesAt(text, w, i) then 1 + CountFrom(text, w, i + |w|)
    else CountFrom(text, w, i + 1)
  }

  /** `len(re.findall(rf"\b{w}\b", text, re.IGNORECASE))`. */
  function WholeWordCount(text: string, w: string): (n: nat)
    requires |w| > 0
    ensures n * |w| <= |text|
  {
    CountFrom(text, w, 0)
  }

  /** The total of the whole-word counts of every listed filler. */
  function Hesitations(text: string, fillers: seq<string>): nat
    requires forall f :: f in fillers ==> |f| > 0
  {
    if fillers == [] then 0 else WholeWordCount(text, fillers[0]) + Hesitations(text, fillers[1..])
  }

  /** Characters equal up to case are word characters together. */
  lemma WordCharIgnoresCase(a: char, b: char)
    requires Lower(a) == Lower(b)
    ensures IsWordChar(a) == IsWordChar(b)
  {
  }

  lemma MatchesAtIgnoresCase(a: string, b: string, w: string, i: nat)
    requires SameIgnoringCase(a, b)
    ensures MatchesAt(a, w, i) == MatchesAt(b, w, i)
  {
    if 0 <= i - 1 < |a| {
      WordCharIgnoresCase(a[i - 1], b[i - 1]);
    }
    if i < |a| {
      WordCharIgnoresCase(a[i], b[i]);
    }
    if 0 <= i + |w| - 1 < |a| {
      WordCharIgnoresCase(a[i + |w| - 1], b[i + |w| - 1]);
    }
    if i + |w| < |a| {
      WordCharIgnoresCase(a[i + |w|], b[i + |w|]);
    }
  }

  /** Changing the case of letters changes no match count. */
  lemma {:induction false} CountFromIgnoresCase(a: string, b: string, w: string, i: nat)
    requires |w| > 0 && i <= |a|
    requires SameIgnoringCase(a, b)
    ensures CountFrom(a, w, i) == CountFrom(b, w, i)
    decreases |a| - i
  {
    if i + |w| <= |a| {
      MatchesAtIgnoresCase(a, b, w, i);
      if MatchesAt(a, w, i) {
        CountFromIgnoresCase(a, b, w, i + |w|);
      } else {
        CountFromIgnoresCase(a, b, w, i + 1);
      }
    }
  }

  /** The hesitation count does not depend on the case of the text's letters. */
  lemma {:induction false} HesitationsIgnoreCase(a: string, b: string, fillers: seq<string>)
    requires forall f :: f in fillers ==> |f| > 0
    requires SameIgnoringCase(a, b)
    ensures Hesitations(a, fillers) == Hesitations(b, fillers)
  {
    if fillers != [] {
      CountFromIgnoresCase(a, b, fillers[0], 0);
      HesitationsIgnoreCase(a, b, fillers[1..]);
    }
  }

  /** Every character of `w` is a word character (true of every filler but "you know"). */
  predicate WordOnly(w: string)
  {
    forall k :: 0 <= k < |w| ==> IsWordChar(w[k])
  }

  /** The positions from `i` on where the pattern matches, each counted once,
      overlapping or not. */
  function MatchPositions(text: string, w: string, i: nat): nat
    requires |w| > 0 && i <= |text|
    decreases |text| - i
  {
    if i + |w| > |text| then 0
    else (if MatchesAt(text, w, i) then 1 else 0) + MatchPositions(text, w, i + 1)
  }

  /** A whole-word match of a word-only pattern has no other match starting inside it. */
  lemma NoMatchInside(text: string, w: string, i: nat, k: nat)
    requires WordOnly(w) && MatchesAt(text, w, i) && i < k < i + |w|
    ensures !MatchesAt(text, w, k)
  {
    WordCharIgnoresCase(text[i + (k - 1 - i)], w[k - 1 - i]);
    WordCharIgnoresCase(text[i + (k - i)], w[k - i]);
    assert WordAt(text, k - 1) && WordAt(text, k);
  }

  lemma {:induction false} SkipInside(text: string, w: string, i: nat, j: nat)
    requires WordOnly(w) && |w| > 0 && MatchesAt(text, w, i) && i < j <= i + |w|
    ensures MatchPositions(text, w, i + 1) == MatchPositions(text, w, j)
    decreases j - i
  {
    if j > i + 1 {
      SkipInside(text, w, i, j - 1);
      NoMatchInside(text, w, i, j - 1);
    }
  }

  /** For a word-only filler, `findall`'s left-to-right scan misses nothing:
      its count is the number of positions where the whole word matches. */
  lemma {:induction false} CountFromCountsMatches(text: string, w: string, i: nat)
    requires |w| > 0 && WordOnly(w) && i <= |text|
    ensures CountFrom(text, w, i) == MatchPositions(text, w, i)
    decreases |text| - i
  {
    if i + |w| <= |text| {
      if MatchesAt(text, w, i) {
        CountFromCountsMatches(text, w, i + |w|);
        SkipInside(text, w, i, i + |w|);
      } else {
        CountFromCountsMatches(text, w, i + 1);
      }
    }
  }

  /** A filler inside a longer word is not a whole-word match: "so" in "sofa". */
  lemma FillerInsideWordNotCounted()
    ensures WholeWordCount("sofa", "so") == 0
  {
    assert !Boundary("sofa", 2);
    assert !MatchesAt("sofa", "so", 0);
    assert !MatchesAt("sofa", "so", 1);
    assert !MatchesAt("sofa", "so", 2);
  }

  /** Upper-case and punctuated occurrences are counted: "So, so." has two. */
  lemma FillerCountedIgnoringCase()
    ensures WholeWordCount("So, so.", "so") == 2
  {
    assert MatchesAt("So, so.", "so", 0);
    assert Lower("So, so."[2]) != Lower("so"[0]);
    assert Lower("So, so."[3]) != Lower("so"[0]);
    assert MatchesAt("So, so.", "so", 4);
  }
}
