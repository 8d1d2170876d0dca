/** Facts about products and rounded quotients of naturals. */
module Arithmetic {

  lemma {:induction false} MulMonotone(a: nat, b: nat, c: nat)
    requires a <= b
    ensures a * c <= b * c
  {
    assert b * c == a * c + (b - a) * c;
  }

  lemma {:induction false} MulGroups(a: nat, b: nat, c: nat)
    ensures a * (b * c) == (a * b) * c
  {
  }

  lemma {:induction false} MulStrict(a: nat, b: nat, c: nat)
    requires a < b && c > 0
    ensures a * c < b * c
  {
    MulMonotone(a + 1, b, c);
    assert (a + 1) * c == a * c + c;
  }

  /** `n / d` rounded down. */
  function Floor(n: nat, d: nat): (q: nat)
    requires d > 0
  {
    n / d
  }

  /** `(n + d - 1) / d`, rounded up. */
  function Ceiling(n: nat, d: nat): (q: nat)
    requires d > 0
  {
    (n + d - 1) / d
  }

  /** Rounding down never crosses an integer threshold from above. */
  lemma {:induction false} FloorAtLeast(n: nat, d: nat, k: nat)
    requires d > 0
    ensures k <= Floor(n, d) <==> k * d <= n
  {
    var q := n / d;
    assert n == q * d + n % d;
    if k <= q {
      MulMonotone(k, q, d);
    } else {
      MulMonotone(q + 1, k, d);
      assert (q + 1) * d == q * d + d;
    }
  }

  /** Rounding up never crosses one from below. */
  lemma {:induction false} CeilingAtMost(n: nat, d: nat, k: nat)
    requires d > 0
    ensures Ceiling(n, d) <= k <==> n <= k * d
  {
    FloorAtLeast(n + d - 1, d, k + 1);
    assert (k + 1) * d == k * d + d;
  }

  /** Parts rounded down add up to no more than the whole rounded down. */
  lemma {:induction false} FloorSum(x: nat, y: nat, d: nat)
    requires d > 0
    ensures Floor(x, d) + Floor(y, d) <= Floor(x + y, d)
  {
    var a, b := Floor(x, d), Floor(y, d);
    FloorAtLeast(x, d, a);
    FloorAtLeast(y, d, b);
    assert (a + b) * d == a * d + b * d;
    FloorAtLeast(x + y, d, a + b);
  }

  lemma {:induction false} FloorMonotone(x: nat, y: nat, d: nat)
    requires d > 0 && x <= y
    ensures Floor(x, d) <= Floor(y, d)
  {
    FloorAtLeast(x, d, Floor(x, d));
    FloorAtLeast(y, d, Floor(x, d));
  }

  lemma {:induction false} CancelRight(a: nat, b: nat, c: nat)
    requires c > 0
    ensures a * c <= b * c <==> a <= b
  {
    if a <= b {
      MulMonotone(a, b, c);
    } else {
      MulStrict(b, a, c);
    }
  }
}
