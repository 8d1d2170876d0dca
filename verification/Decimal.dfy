/** Unsigned decimal text without leading zeros, the shape every integer check
    of the API accepts: `0` or a non-zero digit followed by digits. */
module Decimal {
  import opened TextOrder

  const ZERO: CodeUnit := 0x30

  predicate IsDigit(c: CodeUnit) { ZERO <= c <= ZERO + 9 }

  predicate IsDecimal(t: Text) {
    |t| > 0 && (forall i :: 0 <= i < |t| ==> IsDigit(t[i])) && (t[0] == ZERO ==> |t| == 1)
  }

  /** `BigInt(text)` of an accepted text. */
  function Value(t: Text): nat
    requires forall i :: 0 <= i < |t| ==> IsDigit(t[i])
  {
    if t == [] then 0
    else
      assert IsDigit(t[|t| - 1]);
      10 * Value(t[..|t| - 1]) + (t[|t| - 1] - ZERO)
  }

  /** `toString()` of an unsigned integer. */
  function Digits(n: nat): (t: Text)
    ensures |t| > 0
  {
    if n < 10 then [ZERO + n] else Digits(n / 10) + [ZERO + n % 10]
  }

  function Pow10(k: nat): nat {
    if k == 0 then 1 else 10 * Pow10(k - 1)
  }

  lemma {:induction false} Pow10Positive(k: nat)
    ensures Pow10(k) > 0
  {
    if k > 0 {
      Pow10Positive(k - 1);
    }
  }

  lemma {:induction false} DigitsRoundTrip(n: nat)
    ensures IsDecimal(Digits(n)) && Value(Digits(n)) == n && (n > 0 ==> Digits(n)[0] != ZERO)
  {
    if n >= 10 {
      var t := Digits(n);
      DigitsRoundTrip(n / 10);
      assert t[..|t| - 1] == Digits(n / 10);
    } else {
      assert Digits(n)[..0] == [];
    }
  }

  lemma {:induction false} LeadingDigitCounts(t: Text)
    requires IsDecimal(t) && t[0] != ZERO
    ensures Value(t) > 0
  {
    if |t| > 1 {
      var p := t[..|t| - 1];
      assert p[0] == t[0] && forall i :: 0 <= i < |p| ==> p[i] == t[i];
      LeadingDigitCounts(p);
    } else {
      assert t[..0] == [];
    }
  }

  /** An accepted text is the one its value prints as. */
  lemma {:induction false} ValueRoundTrip(t: Text)
    requires IsDecimal(t)
    ensures Digits(Value(t)) == t
  {
    if |t| == 1 {
      assert t[..0] == [];
    } else {
      var p, d := t[..|t| - 1], t[|t| - 1] - ZERO;
      assert p[0] == t[0] && forall i :: 0 <= i < |p| ==> p[i] == t[i];
      LeadingDigitCounts(p);
      ValueRoundTrip(p);
      assert IsDigit(t[|t| - 1]);
      assert Value(t) / 10 == Value(p) && Value(t) % 10 == d;
      assert t == p + [t[|t| - 1]];
    }
  }

  lemma {:induction false} DigitsLength(n: nat, k: nat)
    requires k > 0 && n < Pow10(k)
    ensures |Digits(n)| <= k
  {
    if n >= 10 {
      assert k > 1;
      DigitsLength(n / 10, k - 1);
    }
  }

  lemma {:induction false} DigitsInjective(a: nat, b: nat)
    requires Digits(a) == Digits(b)
    ensures a == b
  {
    DigitsRoundTrip(a);
    DigitsRoundTrip(b);
  }
}
