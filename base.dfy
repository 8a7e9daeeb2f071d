/** Shared vocabulary of the per-frame analysis pipeline: optional detector
    results, the outcome of a Python division that may raise, Python's
    integer rounding operators, and the percentage every axis reports. */
module Base {

  /** A detector result that may be absent (`None` plays Python's `None`). */
  datatype Option<T> = None | Some(value: T)

  /** The value of an expression that divides, or the ZeroDivisionError it raises. */
  datatype Checked<T> = Value(value: T) | ZeroDivisionError

  function Max(a: int, b: int): (m: int)
    ensures m >= a && m >= b && (m == a || m == b)
  {
    if a >= b then a else b
  }

  /** Python's `a // b`: the quotient rounded toward negative infinity. */
  function FloorDiv(a: int, b: int): (q: int)
    requires b != 0
    ensures b > 0 ==> b * q <= a < b * q + b
    ensures b < 0 ==> b * q + b < a <= b * q
  {
    if b > 0 then a / b else (-a) / (-b)
  }

  /** Python's `int(x)` on a float: the integer part, rounded toward zero. */
  function Trunc(x: real): (n: int)
    ensures x >= 0.0 ==> n as real <= x < n as real + 1.0
    ensures x < 0.0 ==> n as real - 1.0 < x <= n as real
  {
    if x >= 0.0 then x.Floor else -((-x).Floor)
  }

  /** `part / whole * 100`, the form every axis reports its score in. */
  function Percentage(part: nat, whole: nat): (r: real)
    requires whole > 0
    ensures part <= whole ==> 0.0 <= r <= 100.0
    ensures r == 0.0 <==> part == 0
    ensures r == 100.0 <==> part == whole
  {
    PercentageBounds(part, whole);
    part as real / whole as real * 100.0
  }

  lemma PercentageBounds(part: nat, whole: nat)
    requires whole > 0
    ensures part <= whole ==> 0.0 <= part as real / whole as real * 100.0 <= 100.0
    ensures part as real / whole as real * 100.0 == 0.0 <==> part == 0
    ensures part as real / whole as real * 100.0 == 100.0 <==> part == whole
  {
    var q := part as real / whole as real;
    assert q * whole as real == part as real;
    if part <= whole {
      assert q <= 1.0;
    }
  }

  /** Quotient and remainder are the unique pair with `a == k * q + r`, `0 <= r < k`. */
  lemma DivMod(a: int, k: int, q: int, r: int)
    requires k > 0 && a == k * q + r && 0 <= r < k
    ensures a / k == q && a % k == r
  {
    var q', r' := a / k, a % k;
    assert a == k * q' + r';
    if q > q' {
      MulAtLeast(k, q - q');
    } else if q < q' {
      MulAtLeast(k, q' - q);
    }
  }

  lemma {:induction false} MulAtLeast(k: int, d: int)
    requires k > 0 && d >= 1
    ensures k * d >= k
    decreases d
  {
    if d > 1 {
      MulAtLeast(k, d - 1);
      assert k * d == k * (d - 1) + k;
    }
  }

  lemma {:induction false} MulMonotone(a: int, b: int, k: nat)
    requires a <= b
    ensures a * k <= b * k
    decreases b - a
  {
    if a < b {
      MulMonotone(a, b - 1, k);
      assert b * k == (b - 1) * k + k;
    }
  }

  /** The number of frames in which the detector found at least one object,
      given how many it found in each frame. */
  function DetectedFrames(detections: seq<nat>): (n: nat)
    ensures n <= |detections|
  {
    if detections == [] then 0
    else DetectedFrames(detections[..|detections| - 1]) + (if detections[|detections| - 1] > 0 then 1 else 0)
  }

  /** The count is the number of frames read exactly when every frame had a
      detection, and zero exactly when none had. */
  lemma {:induction false} DetectedFramesExtremes(detections: seq<nat>)
    ensures DetectedFrames(detections) == |detections| <==> forall i :: 0 <= i < |detections| ==> detections[i] > 0
    ensures DetectedFrames(detections) == 0 <==> forall i :: 0 <= i < |detections| ==> detections[i] == 0
  {
    if detections != [] {
      var p := detections[..|detections| - 1];
      DetectedFramesExtremes(p);
      assert forall i :: 0 <= i < |p| ==> p[i] == detections[i];
    }
  }
}
