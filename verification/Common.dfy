/** Small value types and text operations used by several components. */
module Common {

  datatype Option<+T> = None | Some(value: T) {
    function GetOr(default: T): T {
      if Some? then value else default
    }
  }

  function Min(a: int, b: int): (r: int)
    ensures r <= a && r <= b && (r == a || r == b)
  {
    if a <= b then a else b
  }

  function Max(a: int, b: int): (r: int)
    ensures r >= a && r >= b && (r == a || r == b)
  {
    if a >= b then a else b
  }

  function MinR(a: real, b: real): (r: real)
    ensures r <= a && r <= b && (r == a || r == b)
  {
    if a <= b then a else b
  }

  function MaxR(a: real, b: real): (r: real)
    ensures r >= a && r >= b && (r == a || r == b)
  {
    if a >= b then a else b
  }

  function Abs(x: real): (r: real)
    ensures r >= 0.0 && (r == x || r == -x)
  {
    if x >= 0.0 then x else -x
  }

  /** The value nearest to x within the limits. */
  function Clamp(x: real, low: real, high: real): (r: real)
    ensures low <= high ==> low <= r <= high && (low <= x <= high ==> r == x)
    ensures low <= high ==> (x < low ==> r == low) && (x > high ==> r == high)
  {
    MaxR(low, MinR(high, x))
  }

  /** Multiplication by name, so that proofs about linear facts need not see a product. */
  function Times(k: real, x: real): real { k * x }

  lemma TimesMonotone(k: real, x: real, y: real)
    requires 0.0 <= k && x <= y
    ensures Times(k, x) <= Times(k, y)
  {
  }

  lemma TimesNext(k: real, n: int)
    ensures Times(k, (n + 1) as real) == Times(k, n as real) + k
  {
  }

  lemma QuotientAtLeast(p: real, q: real, x: real)
    requires q > 0.0
    ensures p / q >= x <==> p >= Times(x, q)
  {
    assert p / q * q == p;
    if p / q >= x {
      TimesMonotone(q, x, p / q);
    } else {
      assert (x - p / q) * q > 0.0;
    }
  }

  /** math.ceil */
  function Ceil(x: real): (c: int)
    ensures x <= c as real < x + 1.0
  {
    -((-x).Floor)
  }

  lemma CeilMonotone(x: real, y: real)
    requires x <= y
    ensures Ceil(x) <= Ceil(y)
  {
  }

  /** The last n elements, or all of them when there are fewer: Python's s[-n:] for positive n. */
  function LastN<T>(s: seq<T>, n: nat): (r: seq<T>)
    ensures |r| == Min(n, |s|)
  {
    if |s| <= n then s else s[|s| - n..]
  }
}
