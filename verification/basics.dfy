/** Small shared vocabulary: optional values, bounds and rounding. */
module Basics {

  datatype Option<+T> = None | Some(value: T)

  type pos = n: int | 1 <= n witness 1

  function Min(a: int, b: int): int {
    if a <= b then a else b
  }

  function Max(a: int, b: int): int {
    if a <= b then b else a
  }

  /** Integer quotient rounded up, as `math.ceil` of an exact quotient. */
  function CeilDiv(a: int, b: pos): (c: int)
    ensures (c - 1) * b < a <= c * b
  {
    -((-a) / b)
  }

  /** `math.ceil` on an exact real. */
  function Ceil(x: real): (c: int)
    ensures c as real - 1.0 < x <= c as real
  {
    -((-x).Floor)
  }

  lemma CeilMonotone(x: real, y: real)
    requires x <= y
    ensures Ceil(x) <= Ceil(y)
  {
  }

  lemma MulMonotone(a: int, b: int, k: nat)
    requires a <= b
    ensures a * k <= b * k
  {
  }

  /** `math.floor` of an exact quotient. */
  function FloorDiv(a: int, b: pos): (q: int)
    ensures q * b <= a < (q + 1) * b
    ensures 0 <= a ==> 0 <= q
  {
    a / b
  }

  lemma FloorIsLargest(a: int, b: pos, k: int)
    ensures k * b <= a <==> k <= FloorDiv(a, b)
  {
    var q := FloorDiv(a, b);
    if k <= q {
      MulMonotone(k, q, b);
    } else {
      MulMonotone(q + 1, k, b);
    }
  }

  lemma SubsetSize<T>(a: set<T>, b: set<T>)
    requires a <= b
    ensures |a| <= |b|
  {
    assert b == a + (b - a);
  }

  /** The `retryAfter` of a reply: its milliseconds in whole seconds, and one second at least. */
  function WholeSeconds(ms: int): (seconds: pos)
    ensures ms <= seconds * 1000
    ensures 1 < seconds ==> (seconds - 1) * 1000 < ms
  {
    Max(1, CeilDiv(ms, 1000))
  }
}
