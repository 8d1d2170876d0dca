/** The trigger decision of an entry order
    (api/src/services/duskEntryOrderPreview.ts): a price rounded to an integer
    decides exactly as the unrounded ratio would. */
module EntryOrder {
  import opened Options
  import opened Arithmetic
  import opened Decimal
  import opened Payloads

  const NAD := 1_000_000_000

  /** What an opened position traded: base and quote amounts in raw units. */
  predicate IsValid(debtAsset: int, notional: int, collateral: int, baseDecimals: int, quoteDecimals: int) {
    && (debtAsset == 0 || debtAsset == 1)
    && notional > 0 && collateral > 0
    && 0 <= baseDecimals <= 18 && 0 <= quoteDecimals <= 18
  }

  function BaseOf(debtAsset: int, notional: nat,
                  collateral: nat): nat { if debtAsset == 0 then notional else collateral }

  function QuoteOf(debtAsset: int, notional: nat,
                   collateral: nat): nat { if debtAsset == 0 then collateral else notional }

  function Excess(a: nat, b: nat): nat { if a > b then a - b else 0 }

  function Numerator(quote: nat, baseDecimals: nat, quoteDecimals: nat): nat {
    quote * NAD * Pow10(Excess(baseDecimals, quoteDecimals))
  }

  function Denominator(base: nat, baseDecimals: nat, quoteDecimals: nat): (d: nat)
    requires base > 0
    ensures d > 0
  {
    Pow10Positive(Excess(quoteDecimals, baseDecimals));
    ProductPositive(base, Pow10(Excess(quoteDecimals, baseDecimals)));
    base * Pow10(Excess(quoteDecimals, baseDecimals))
  }

  lemma {:induction false} ProductPositive(a: nat, b: nat)
    requires a > 0 && b > 0
    ensures a * b > 0
  {
    MulStrict(0, a, b);
  }

  /** `duskEntryExecutionPrice`: None where it throws. */
  function ExecutionPrice(debtAsset: int, notional: int, collateral: int, baseDecimals: int,
                          quoteDecimals: int): Option<nat> {
    if !IsValid(debtAsset, notional, collateral, baseDecimals, quoteDecimals) then None
    else
      var base, quote := BaseOf(debtAsset, notional, collateral), QuoteOf(debtAsset, notional, collateral);
      var n, d := Numerator(quote, baseDecimals, quoteDecimals), Denominator(base, baseDecimals, quoteDecimals);
      var price := (n + if debtAsset == 1 then d - 1 else 0) / d;
      if price > U64 then None else Some(price)
  }

  /** The order's decision on its price. */
  predicate Reached(debtAsset: int, price: nat, limit: nat) {
    if debtAsset == 0 then price >= limit else price <= limit
  }

  // ----- the exact ratio -----

  /** The unrounded price is `ExactNumerator / ExactDenominator`: raw amounts put
      on whole-token scale, in units of 10^-9. */
  function ExactNumerator(quote: nat, baseDecimals: nat): nat { quote * NAD * Pow10(baseDecimals) }

  function ExactDenominator(base: nat, quoteDecimals: nat): nat { base * Pow10(quoteDecimals) }

  lemma {:induction false} Pow10Adds(a: nat, b: nat)
    ensures Pow10(a + b) == Pow10(a) * Pow10(b)
  {
    if a > 0 {
      Pow10Adds(a - 1, b);
      Pow10Next(a - 1);
      Pow10Next(a - 1 + b);
      hide Pow10;
      MulGroups(10, Pow10(a - 1), Pow10(b));
    }
  }

  lemma {:induction false} Pow10Next(k: nat)
    ensures Pow10(k + 1) == 10 * Pow10(k)
  {
  }

  /** Both sides of the ratio carry the same power of ten more. */
  lemma {:induction false} SameRatio(base: nat, quote: nat, baseDecimals: nat, quoteDecimals: nat) returns (scale: nat)
    requires base > 0
    ensures scale > 0
    ensures ExactNumerator(quote, baseDecimals) == Numerator(quote, baseDecimals, quoteDecimals) * scale
    ensures ExactDenominator(base, quoteDecimals) == Denominator(base, baseDecimals, quoteDecimals) * scale
  {
    var shared := if baseDecimals < quoteDecimals then baseDecimals else quoteDecimals;
    scale := Pow10(shared);
    Pow10Positive(shared);
    var up, down := Pow10(Excess(baseDecimals, quoteDecimals)), Pow10(Excess(quoteDecimals, baseDecimals));
    Pow10Adds(Excess(baseDecimals, quoteDecimals), shared);
    Pow10Adds(Excess(quoteDecimals, baseDecimals), shared);
    Associate(quote * NAD, up, scale);
    Associate(base, down, scale);
  }

  lemma {:induction false} Associate(a: nat, b: nat, c: nat)
    ensures a * (b * c) == (a * b) * c
  {
  }

  /** A threshold against the ratio reads the same on either scale. */
  lemma {:induction false} Rescaled(n: nat, d: nat, scale: nat, k: nat)
    requires scale > 0
    ensures k * d <= n <==> k * (d * scale) <= n * scale
    ensures n <= k * d <==> n * scale <= k * (d * scale)
  {
    Associate(k, d, scale);
    CancelRight(k * d, n, scale);
    CancelRight(n, k * d, scale);
  }

  /** A position that owes base sold its notional for the collateral; one that owes
      quote paid its notional for it. */
  lemma {:induction false} RawRatio(debtAsset: int, notional: int, collateral: int, baseDecimals: int, quoteDecimals: int)
    requires IsValid(debtAsset, notional, collateral, baseDecimals, quoteDecimals)
    ensures var exact := ExactNumerator(QuoteOf(debtAsset, notional, collateral), baseDecimals);
            var per := ExactDenominator(BaseOf(debtAsset, notional, collateral), quoteDecimals);
            var perBase, perQuote := 1_000_000_000 * Pow10(baseDecimals), Pow10(quoteDecimals);
            if debtAsset == 0 then exact == collateral * perBase && per == notional * perQuote
            else exact == notional * perBase && per == collateral * perQuote
  {
    Associate(QuoteOf(debtAsset, notional, collateral), NAD, Pow10(baseDecimals));
  }

  /** For every position, all decimals and every limit, the rounded price
      triggers exactly when the exact price does: a base-debt order at or above
      its limit, a quote-debt order at or below. */
  lemma {:induction false} RoundingNeverTriggers(debtAsset: int, notional: int, collateral: int, baseDecimals: int,
                                                 quoteDecimals: int, limit: nat)
    requires ExecutionPrice(debtAsset, notional, collateral, baseDecimals, quoteDecimals).Some?
    ensures var price := ExecutionPrice(debtAsset, notional, collateral, baseDecimals, quoteDecimals).value;
            var perBase, perQuote := 1_000_000_000 * Pow10(baseDecimals), Pow10(quoteDecimals);
            Reached(debtAsset, price, limit) <==>
              if debtAsset == 0 then limit * (notional * perQuote) <= collateral * perBase
              else notional * perBase <= limit * (collateral * perQuote)
  {
    RawRatio(debtAsset, notional, collateral, baseDecimals, quoteDecimals);
    hide ExactNumerator, ExactDenominator, Numerator, Denominator;
    var base, quote := BaseOf(debtAsset, notional, collateral), QuoteOf(debtAsset, notional, collateral);
    var n, d := Numerator(quote, baseDecimals, quoteDecimals), Denominator(base, baseDecimals, quoteDecimals);
    var scale := SameRatio(base, quote, baseDecimals, quoteDecimals);
    Rescaled(n, d, scale, limit);
    if debtAsset == 0 {
      FloorAtLeast(n, d, limit);
    } else {
      CeilingAtMost(n, d, limit);
    }
  }

  /** It gives a price exactly for valid amounts whose price fits u64. */
  lemma {:induction false} PriceExists(debtAsset: int, notional: int, collateral: int, baseDecimals: int,
                                       quoteDecimals: int)
    ensures ExecutionPrice(debtAsset, notional, collateral, baseDecimals, quoteDecimals).Some?
       <==> && notional > 0 && collateral > 0 && 0 <= baseDecimals <= 18 && 0 <= quoteDecimals <= 18
            && var perBase, perQuote := 1_000_000_000 * Pow10(baseDecimals), Pow10(quoteDecimals);
               if debtAsset == 0 then collateral * perBase < (U64 + 1) * (notional * perQuote)
               else debtAsset == 1 && notional * perBase <= U64 * (collateral * perQuote)
  {
    if IsValid(debtAsset, notional, collateral, baseDecimals, quoteDecimals) {
      RawRatio(debtAsset, notional, collateral, baseDecimals, quoteDecimals);
      hide ExactNumerator, ExactDenominator, Numerator, Denominator;
      var base, quote := BaseOf(debtAsset, notional, collateral), QuoteOf(debtAsset, notional, collateral);
      var n, d := Numerator(quote, baseDecimals, quoteDecimals), Denominator(base, baseDecimals, quoteDecimals);
      var scale := SameRatio(base, quote, baseDecimals, quoteDecimals);
      if debtAsset == 0 {
        Rescaled(n, d, scale, U64 + 1);
        FloorAtLeast(n, d, U64 + 1);
      } else {
        Rescaled(n, d, scale, U64);
        CeilingAtMost(n, d, U64);
      }
    }
  }

  /** The direction matters: one quote for three base is 333333333.3, which is
      under a limit of 333333334, yet rounded up it would reach it. */
  lemma {:induction false} OtherRoundingTriggers()
    ensures var n, d := Numerator(1, 0, 0), Denominator(3, 0, 0);
            Reached(0, Ceiling(n, d), 333_333_334) && !Reached(0, Floor(n, d), 333_333_334) && n < 333_333_334 * d
  {
    assert Pow10(0) == 1;
  }
}
