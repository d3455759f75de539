/** Floor and ceiling division, and the order facts every money computation below rests on. */
module Rounding {

  /** Division rounded up, as `ceil_div` writes it: the least q with n <= q * d. */
  function CeilDiv(n: nat, d: nat): (q: nat)
    requires d > 0
    ensures n <= q * d
    ensures q > 0 ==> (q - 1) * d < n
  {
    if n == 0 then 0 else
    DivBounds(n - 1, d);
    (n - 1) / d + 1
  }

  lemma DivBounds(n: nat, d: nat)
    requires d > 0
    ensures (n / d) * d <= n < (n / d + 1) * d
    ensures n / d >= 0
  {
    var q := n / d;
    assert n == q * d + n % d;
    assert (q + 1) * d == q * d + d;
  }

  lemma MulLe(a: int, b: int, c: int)
    requires a <= b && 0 <= c
    ensures a * c <= b * c
  {
  }

  lemma MulCancel(a: int, b: int, c: int)
    requires a * c <= b * c && 0 < c
    ensures a <= b
  {
  }

  lemma MulPos(a: int, b: int)
    requires a > 0 && b > 0
    ensures a * b > 0
  {
  }

  /** Rounding up stays below a bound exactly when the exact quotient does. */
  lemma CeilLe(n: nat, d: nat, k: int)
    requires d > 0
    ensures CeilDiv(n, d) <= k <==> n <= k * d
  {
    var q := CeilDiv(n, d);
    if q <= k {
      MulLe(q, k, d);
    } else if q > 0 && k <= q - 1 {
      MulLe(k, q - 1, d);
    }
  }

  /** Rounding down stays above a bound exactly when the exact quotient does. */
  lemma FloorGe(n: nat, d: nat, k: int)
    requires d > 0
    ensures k <= n / d <==> k * d <= n
  {
    DivBounds(n, d);
    if k <= n / d {
      MulLe(k, n / d, d);
    } else {
      MulLe(n / d + 1, k, d);
    }
  }

  lemma FloorMono(a: nat, b: nat, d: nat)
    requires d > 0 && a <= b
    ensures a / d <= b / d
  {
    FloorGe(a, d, a / d);
    FloorGe(b, d, a / d);
  }

  lemma CeilMono(a: nat, b: nat, d: nat)
    requires d > 0 && a <= b
    ensures CeilDiv(a, d) <= CeilDiv(b, d)
  {
    CeilLe(a, d, CeilDiv(b, d));
  }

  /** Splitting a sum before rounding up costs at most one unit and never gains. */
  lemma CeilSplit(a: nat, b: nat, d: nat)
    requires d > 0
    ensures CeilDiv(a + b, d) <= CeilDiv(a, d) + CeilDiv(b, d) <= CeilDiv(a + b, d) + 1
  {
    var x, y, z := CeilDiv(a, d), CeilDiv(b, d), CeilDiv(a + b, d);
    assert (x + y) * d == x * d + y * d;
    CeilLe(a + b, d, x + y);
    CeilMono(a, a + b, d);
    CeilMono(b, a + b, d);
    if x + y > z + 1 {
      assert (x - 1) * d + (y - 1) * d == (x + y - 2) * d;
      MulLe(z, x + y - 2, d);
      assert false;
    }
  }
}
