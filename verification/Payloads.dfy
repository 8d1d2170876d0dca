/** Decoded event payloads, and the checks the API makes on their fields. */
module Payloads {
  import opened Options
  import opened TextOrder
  import Decimal

  const U64: nat := 0xFFFF_FFFF_FFFF_FFFF

  /** A decoded payload value, `Undefined` where a key is missing. */
  datatype Value = Undefined | Null | Bool(b: bool) | Number(n: int) | String(text: Text) | List | Record(fields: Payload)

  type Payload = map<string, Value>

  function Get(p: Payload, name: string): Value {
    if name in p then p[name] else Undefined
  }

  /** `===`: objects from different rows are never the same object. */
  predicate StrictEquals(a: Value, b: Value) {
    !a.Record? && !a.List? && a == b
  }

  /** A decimal string of at most `digits` digits within `max`; None where the
      program throws. */
  function Unsigned(v: Value, digits: nat, max: nat): (r: Option<nat>)
    ensures r.Some? ==> r.value <= max
  {
    if v.String? && Decimal.IsDecimal(v.text) && |v.text| <= digits && Decimal.Value(v.text) <= max
    then Some(Decimal.Value(v.text)) else None
  }

  /** The text of an amount. */
  function Printed(n: nat): Value {
    String(Decimal.Digits(n))
  }

  /** ... and every amount in range is accepted as it prints. */
  lemma {:induction false} PrintedIsUnsigned(n: nat, digits: nat, max: nat)
    requires digits > 0 && n <= max < Decimal.Pow10(digits)
    ensures Unsigned(Printed(n), digits, max) == Some(n)
  {
    Decimal.DigitsRoundTrip(n);
    Decimal.DigitsLength(n, digits);
  }

  /** An accepted field is its amount, printed. */
  lemma {:induction false} UnsignedReadsBack(v: Value, digits: nat, max: nat)
    ensures Unsigned(v, digits, max).Some? ==> v == Printed(Unsigned(v, digits, max).value)
  {
    if Unsigned(v, digits, max).Some? {
      Decimal.ValueRoundTrip(v.text);
    }
  }
}
