/** The fixed-stride frame sampler used by both emotion analysers: a shared
    counter starts at 0, is bumped on every frame read, and a frame is kept
    when the counter is a multiple of the stride at the moment it is read. */
module Sampling {
  import opened Base

  /** Whether the frame with 0-based index `i` is kept by stride `k`. */
  predicate Selected(i: nat, k: nat)
    requires k >= 1
  {
    i % k == 0
  }

  /** The frames of `s` whose 0-based index is kept by stride `k`, in frame order.
      Defined frame by frame, as the read loop sees the stream. */
  function Sampled<F>(s: seq<F>, k: nat): seq<F>
    requires k >= 1
  {
    if s == [] then []
    else Sampled(s[..|s| - 1], k) + (if Selected(|s| - 1, k) then [s[|s| - 1]] else [])
  }

  /** One more frame read adds one sample exactly when its index is a multiple of `k`. */
  lemma CeilStep(n: nat, k: nat)
    requires k >= 1
    ensures (n + 1 + k - 1) / k == (n + k - 1) / k + (if n % k == 0 then 1 else 0)
  {
    var q, r := n / k, n % k;
    if r == 0 {
      DivMod(n + k - 1, k, q, k - 1);
      DivMod(n + k, k, q + 1, 0);
    } else {
      DivMod(n + k - 1, k, q + 1, r - 1);
      DivMod(n + k, k, q + 1, r);
    }
  }

  /** Of `n` frames, `ceil(n / k)` are kept. */
  lemma {:induction false} SampledLength<F>(s: seq<F>, k: nat)
    requires k >= 1
    ensures |Sampled(s, k)| == (|s| + k - 1) / k
  {
    if s == [] {
      DivMod(k - 1, k, 0, k - 1);
    } else {
      var p := s[..|s| - 1];
      SampledLength(p, k);
      CeilStep(|p|, k);
    }
  }

  /** The `j`-th sample is frame `j * k`, and every multiple of `k` below `|s|` is sampled. */
  lemma {:induction false} SampledAt<F>(s: seq<F>, k: nat, j: nat)
    requires k >= 1 && j * k < |s|
    ensures j < |Sampled(s, k)| && Sampled(s, k)[j] == s[j * k]
  {
    var p := s[..|s| - 1];
    SampledLength(p, k);
    SampledLength(s, k);
    if j * k < |p| {
      SampledAt(p, k, j);
    } else {
      assert j * k == |p|;
      DivMod(|p|, k, j, 0);
      DivMod(|p| + k - 1, k, j, k - 1);
    }
  }

  /** For a non-empty stream, `(n - 1) / k + 1` frames are kept and frame 0 is the first. */
  lemma SampledNonEmpty<F>(s: seq<F>, k: nat)
    requires k >= 1 && |s| >= 1
    ensures |Sampled(s, k)| == (|s| - 1) / k + 1
    ensures Sampled(s, k)[0] == s[0]
  {
    SampledLength(s, k);
    var q, r := (|s| - 1) / k, (|s| - 1) % k;
    DivMod(|s| + k - 1, k, q + 1, r);
    SampledAt(s, k, 0);
  }

  /** No sample lies at or beyond the end of the stream. */
  lemma SampledBeyond<F>(s: seq<F>, k: nat, j: nat)
    requires k >= 1 && j * k >= |s|
    ensures j >= |Sampled(s, k)|
  {
    SampledLength(s, k);
    var q := (|s| + k - 1) / k;
    if j < q {
      MulMonotone(j + 1, q, k);
    }
  }
}
