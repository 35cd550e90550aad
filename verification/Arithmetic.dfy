/** Facts about integer multiplication and division by a positive number. */
module Arithmetic {

  lemma MulOrder(a: int, b: int, p: int)
    requires a <= b && p >= 0
    ensures a * p <= b * p
  {
    assert (b - a) * p >= 0;
  }

  lemma MulGrows(x: int, d: int)
    requires d > 0
    ensures x >= 1 ==> x * d >= d
    ensures x <= -1 ==> x * d <= -d
  {
    if x >= 1 {
      assert (x - 1) * d >= 0;
    } else if x <= -1 {
      assert (-x - 1) * d >= 0;
    }
  }

  lemma Distribute(q: int, r: int, p: int)
    ensures (4 * q + r) * p == q * (4 * p) + r * p
  {
  }

  lemma DivUnique(n: int, d: int, q: int, r: int)
    requires d > 0 && n == q * d + r && 0 <= r < d
    ensures n / d == q
  {
    var x := n / d - q;
    assert x * d == r - n % d;
    MulGrows(x, d);
  }

  lemma ModUnique(n: int, d: int, q: int, r: int)
    requires d > 0 && n == q * d + r && 0 <= r < d
    ensures n % d == r
  {
    DivUnique(n, d, q, r);
  }

  lemma DivDiv(n: nat, p: nat)
    requires p > 0
    ensures n / p / 4 == n / (4 * p)
  {
    var q, r, s := n / p / 4, n / p % 4, n % p;
    Distribute(q, r, p);
    MulOrder(0, r, p);
    MulOrder(r, 3, p);
    DivUnique(n, 4 * p, q, r * p + s);
  }

  /** Adding a multiple of d does not change the remainder. */
  lemma ModAdd(a: int, b: int, d: int)
    requires d > 0 && a % d == 0
    ensures (a + b) % d == b % d
  {
    var q, r := a / d, b / d;
    assert a == q * d && b == r * d + b % d;
    assert a + b == (q + r) * d + b % d;
    ModUnique(a + b, d, q + r, b % d);
  }

  lemma ModSub(n: int, d: int)
    requires d > 0
    ensures (n - d) % d == n % d
  {
    ModUnique(d, d, 1, 0);
    ModAdd(d, n - d, d);
  }
}
