/** Facts about division and remainder that the solver does not find by itself. */
module Modular {

  lemma MulGap(q: nat, d: int, e: int)
    requires d < e
    ensures q * e >= q * d + q
  {
    assert q * e == q * d + q + q * (e - d - 1);
    assert q * (e - d - 1) >= 0;
  }

  /** Quotient and remainder are unique. */
  lemma DivModUnique(x: int, q: nat, d: int, r: nat)
    requires 0 < q && x == q * d + r && r < q
    ensures x % q == r && x / q == d
  {
    var e := x / q;
    if d < e {
      MulGap(q, d, e);
    } else if e < d {
      MulGap(q, e, d);
    }
  }

  lemma ModAddMultiple(x: int, q: nat, k: int)
    requires 0 < q
    ensures (x + q * k) % q == x % q
  {
    var d, r := x / q, x % q;
    assert x + q * k == q * (d + k) + r;
    DivModUnique(x + q * k, q, d + k, r);
  }

  /** Numbers less than q apart have different remainders. */
  lemma ModDistinct(a: int, b: int, q: nat)
    requires 0 < q && a < b < a + q
    ensures a % q != b % q
  {
    var d, e := a / q, b / q;
    assert a == q * d + a % q && b == q * e + b % q;
    if d < e {
      MulGap(q, d, e);
    } else if e < d {
      MulGap(q, e, d);
    }
  }

  lemma ModNext(n: int, q: nat)
    requires 0 < q
    ensures (n % q + 1) % q == (n + 1) % q
  {
    ModAddMultiple(n % q + 1, q, n / q);
    assert n % q + 1 + q * (n / q) == n + 1;
  }

  lemma DistributeDifference(q: int, d: int, e: int)
    ensures q * d - q * e == q * (d - e)
  {
  }

  /** Remainders are equal exactly when the modulus divides the difference. */
  lemma ModEqual(a: nat, b: nat, q: nat)
    requires 0 < q
    ensures a % q == b % q <==> (a - b) % q == 0
  {
    var d, e, r, t := a / q, b / q, a % q, b % q;
    DistributeDifference(q, d, e);
    assert a == q * d + r && b == q * e + t;
    if r >= t {
      DivModUnique(a - b, q, d - e, r - t);
    } else {
      DistributeDifference(q, d - e, 1);
      DivModUnique(a - b, q, d - e - 1, r - t + q);
    }
  }
}
