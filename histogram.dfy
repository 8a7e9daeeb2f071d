/** Label frequencies: how often each label occurs in a list, the distinct
    labels in order of first occurrence (the key order of Python's Counter),
    and the first position holding the largest count. */
module Histogram {

  /** A label produced by a classifier. */
  type Label = string

  /** `s.count(x)`. */
  function Count(s: seq<Label>, x: Label): (n: nat)
    ensures n <= |s|
    ensures n == 0 <==> x !in s
  {
    if s == [] then 0
    else Count(s[..|s| - 1], x) + (if s[|s| - 1] == x then 1 else 0)
  }

  /** The distinct labels of `s`, each at its first occurrence. */
  function Distinct(s: seq<Label>): (d: seq<Label>)
    ensures forall x :: x in d <==> x in s
  {
    if s == [] then []
    else
      var p := s[..|s| - 1];
      var d := Distinct(p);
      assert forall x :: x in s <==> x in p || x == s[|s| - 1];
      if s[|s| - 1] in p then d else d + [s[|s| - 1]]
  }

  predicate NoDuplicates(s: seq<Label>)
  {
    forall i, j :: 0 <= i < j < |s| ==> s[i] != s[j]
  }

  lemma {:induction false} DistinctNoDuplicates(s: seq<Label>)
    ensures NoDuplicates(Distinct(s))
  {
    if s != [] {
      DistinctNoDuplicates(s[..|s| - 1]);
    }
  }

  /** The (label, count) pairs of `labels`, in their order. */
  function Tally(s: seq<Label>, labels: seq<Label>): (t: seq<(Label, nat)>)
    ensures |t| == |labels|
    ensures forall i :: 0 <= i < |t| ==> t[i] == (labels[i], Count(s, labels[i]))
  {
    if labels == [] then [] else [(labels[0], Count(s, labels[0]))] + Tally(s, labels[1..])
  }

  /** `Counter(s).items()`: every distinct label with its count, in first-occurrence order. */
  function Counter(s: seq<Label>): seq<(Label, nat)>
  {
    Tally(s, Distinct(s))
  }

  /** The counts of a tally, in its order. */
  function Values(t: seq<(Label, nat)>): (v: seq<int>)
    ensures |v| == |t| && forall i :: 0 <= i < |t| ==> v[i] == t[i].1
  {
    if t == [] then [] else [t[0].1] + Values(t[1..])
  }

  function Sum(t: seq<(Label, nat)>): nat
  {
    if t == [] then 0 else t[0].1 + Sum(t[1..])
  }

  lemma {:induction false} SumAppend(a: seq<(Label, nat)>, b: seq<(Label, nat)>)
    ensures Sum(a + b) == Sum(a) + Sum(b)
  {
    if a != [] {
      assert (a + b)[1..] == a[1..] + b;
      SumAppend(a[1..], b);
    } else {
      assert a + b == b;
    }
  }

  /** Reading one more label `y` adds one to the tally of every listed copy of `y`. */
  lemma {:induction false} TallyStep(p: seq<Label>, y: Label, labels: seq<Label>)
    ensures Sum(Tally(p + [y], labels)) == Sum(Tally(p, labels)) + Count(labels, y)
    decreases |labels|
  {
    if labels != [] {
      assert (p + [y])[..|p + [y]| - 1] == p;
      TallyStep(p, y, labels[1..]);
      CountFront(labels, y);
    }
  }

  /** Counting from the front agrees with counting from the back. */
  lemma {:induction false} CountFront(s: seq<Label>, x: Label)
    requires s != []
    ensures Count(s, x) == (if s[0] == x then 1 else 0) + Count(s[1..], x)
  {
    if |s| > 1 {
      var p := s[..|s| - 1];
      CountFront(p, x);
      assert p[1..] == s[1..][..|s[1..]| - 1];
    }
  }

  lemma {:induction false} CountAppend(a: seq<Label>, y: Label, x: Label)
    ensures Count(a + [y], x) == Count(a, x) + (if y == x then 1 else 0)
  {
    assert (a + [y])[..|a + [y]| - 1] == a;
  }

  /** A label occurs once in a duplicate-free list that holds it. */
  lemma {:induction false} CountUnique(s: seq<Label>, x: Label)
    requires NoDuplicates(s) && x in s
    ensures Count(s, x) == 1
  {
    var p := s[..|s| - 1];
    if s[|s| - 1] == x {
      assert x !in p;
    } else {
      CountUnique(p, x);
    }
  }

  /** The counts of the distinct labels add up to the length of the list. */
  lemma {:induction false} CounterSumsToLength(s: seq<Label>)
    ensures Sum(Counter(s)) == |s|
  {
    if s != [] {
      var p, y := s[..|s| - 1], s[|s| - 1];
      assert s == p + [y];
      CounterSumsToLength(p);
      var d := Distinct(p);
      DistinctNoDuplicates(p);
      TallyStep(p, y, d);
      if y in p {
        CountUnique(d, y);
      } else {
        assert Count(d, y) == 0;
        assert Tally(s, d + [y]) == Tally(s, d) + Tally(s, [y]);
        SumAppend(Tally(s, d), Tally(s, [y]));
        CountAppend(p, y, y);
      }
    }
  }

  /** Every label of the counter occurs at least once and with its real count. */
  lemma CounterEntries(s: seq<Label>)
    ensures forall e :: e in Counter(s) ==> e.0 in s && e.1 == Count(s, e.0) && e.1 >= 1
    ensures forall x :: x in s ==> (x, Count(s, x)) in Counter(s)
  {
    var d := Distinct(s);
    forall x | x in s ensures (x, Count(s, x)) in Counter(s) {
      var i :| 0 <= i < |d| && d[i] == x;
      assert Counter(s)[i] == (x, Count(s, x));
    }
  }

  /** The first position of a largest value: what `max` over a sequence keyed by
      value returns, since it keeps the earlier of two equal candidates. */
  function FirstMaxIndex(values: seq<int>): (i: nat)
    requires |values| > 0
    ensures i < |values|
    ensures forall j :: 0 <= j < |values| ==> values[j] <= values[i]
    ensures forall j :: 0 <= j < i ==> values[j] < values[i]
  {
    if |values| == 1 then 0
    else
      var best := FirstMaxIndex(values[..|values| - 1]);
      if values[|values| - 1] > values[best] then |values| - 1 else best
  }
}
