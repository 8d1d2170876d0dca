/** What one native event is worth (api/src/services/duskActivityMath.ts): the
    amounts it reports, the as-of price of each asset, and the value in units of
    10^-36 dollars. */
module ActivityMath {
  import opened Options
  import opened TextOrder
  import opened Arithmetic
  import opened Payloads
  import opened Sequences
  import Decimal

  /** A value, or a thrown error. */
  datatype Outcome<+T> = Done(value: T) | Thrown {
    predicate IsFailure() { Thrown? }

    function PropagateFailure<U>(): Outcome<U>
      requires Thrown?
    {
      Thrown
    }

    function Extract(): T
      requires Done?
    {
      value
    }
  }

  function OrThrow<T>(o: Option<T>): Outcome<T> {
    if o.Some? then Done(o.value) else Thrown
  }

  // ----- payload fields -----

  datatype Side = Base | Quote

  function Other(s: Side): Side { if s == Base then Quote else Base }

  function Fields(v: Value): Outcome<Payload> {
    if v.Record? then Done(v.fields) else Thrown
  }

  /** `new PublicKey(text).toBase58() === text`, left to the caller. */
  type Keys = Text -> bool

  function Address(v: Value, isKey: Keys): Outcome<Text> {
    if v.String? && isKey(v.text) then Done(v.text) else Thrown
  }

  function AsU64(v: Value): (r: Outcome<nat>)
    ensures r.Done? ==> r.value <= U64
  {
    OrThrow(Unsigned(v, 20, U64))
  }

  function AsSide(v: Value): Outcome<Side> {
    if v == String(Ascii("0")) then Done(Base) else if v == String(Ascii("1")) then Done(Quote) else Thrown
  }

  const TWO_63: int := 0x8000_0000_0000_0000

  /** `0`, or a non-zero number of at most 19 digits with an optional minus sign,
      within i64. */
  function AsI64(v: Value): (r: Outcome<int>)
    ensures r.Done? ==> -TWO_63 <= r.value < TWO_63
  {
    if !v.String? || v.text == [] then Thrown
    else
      var negative := v.text[0] == 0x2D;
      var digits := if negative then v.text[1..] else v.text;
      if !Decimal.IsDecimal(digits) || |digits| > 19 || (negative && digits[0] == Decimal.ZERO) then Thrown
      else
        var n: int := if negative then 0 - Decimal.Value(digits) else Decimal.Value(digits);
        if -TWO_63 <= n < TWO_63 then Done(n) else Thrown
  }

  // ----- amounts -----

  datatype Metric = Volume | SwapFees | RetainedFees | CompoundedFees | ReportedInterest | CreditVolume | MarginVolume

  datatype Asset = OfSide(side: Side) | OfMint(mint: Text)

  datatype Leg = Leg(amount: nat, asset: Asset)

  /** `output` is a swap's curve output, before any output-side fee. */
  datatype Amount = Amount(metric: Metric, amount: nat, asset: Asset, output: Option<Leg>)

  datatype Kind =
    | SwapExecuted | PositionOpened | PositionUpdated | PositionClosed | PositionLiquidated
    | MarketDebtUpdated | FlashSettled | EmergencySettled | HlpClosed | HlpTerminalLiquidated

  datatype SwapBasis = EmbeddedReceipts | CanonicalSwaps

  predicate IsSettlement(kind: Kind) { kind == FlashSettled || kind == EmergencySettled }

  predicate IsPosition(kind: Kind) {
    kind == PositionOpened || kind == PositionUpdated || kind == PositionClosed || kind == PositionLiquidated
  }

  /** `metadata` names the same market and slot as the event around it. */
  function CheckMetadata(kind: Kind, event: Payload, market: Text, slot: nat, isKey: Keys): Outcome<bool> {
    if IsPosition(kind) || kind == MarketDebtUpdated then
      var metadata :- Fields(Get(event, "metadata"));
      var inner :- Address(Get(metadata, "market"), isKey);
      var innerSlot :- AsU64(Get(metadata, "slot"));
      if inner != market || innerSlot != slot then Thrown
      else
        var _ :- Address(Get(metadata, "signer"), isKey);
        Done(true)
    else Done(true)
  }

  function SwapOf(kind: Kind, event: Payload, basis: SwapBasis): Outcome<Option<Payload>> {
    if kind == SwapExecuted then Done(Some(event))
    else if IsPosition(kind) && basis == EmbeddedReceipts then
      if kind == PositionUpdated && Get(event, "swap") == Null then Done(None)
      else
        var swap :- Fields(Get(event, "swap"));
        Done(Some(swap))
    else Done(None)
  }

  function SwapAmounts(swap: Payload, leverage: bool): Outcome<seq<Amount>> {
    var inputSide :- AsSide(Get(swap, "asset_in_side"));
    var feeSide :- AsSide(Get(swap, "fee_asset_side"));
    var amountIn :- AsU64(Get(swap, "amount_in"));
    var amountOut :- AsU64(Get(swap, "amount_out"));
    var grossOut :- AsU64(Get(swap, "gross_amount_out"));
    var netInput :- AsU64(Get(swap, "amount_in_after_fee"));
    var baseFee :- AsU64(Get(swap, "base_fee"));
    var divergence :- AsU64(Get(swap, "divergence_fee"));
    var volatility :- AsU64(Get(swap, "volatility_fee"));
    var retained :- AsU64(Get(swap, "retained_fee"));
    var compounded :- AsU64(Get(swap, "compounded_fee"));
    var total := baseFee + divergence + volatility;
    if amountIn == 0 || amountOut > grossOut || netInput > amountIn || total > U64
       || retained > divergence + volatility || compounded + retained > total then Thrown
    else
      var credit :- if leverage then AsU64(Get(swap, "claimable_fee_credit")) else Done(0);
      if credit > total - retained - compounded then Thrown
      else Done([
        Amount(Volume, amountIn, OfSide(inputSide), Some(Leg(grossOut, OfSide(Other(inputSide))))),
        Amount(SwapFees, total, OfSide(feeSide), None),
        Amount(RetainedFees, retained, OfSide(feeSide), None),
        Amount(CompoundedFees, compounded, OfSide(feeSide), None)])
  }

  /** New debt counts as credit; a repayment does not. */
  function CreditAmounts(kind: Kind, event: Payload, isKey: Keys): Outcome<seq<Amount>> {
    if kind != MarketDebtUpdated then Done([])
    else
      var delta :- AsI64(Get(event, "debt_delta"));
      if delta <= 0 then Done([])
      else
        var mint :- Address(Get(event, "debt_asset_mint"), isKey);
        Done([Amount(CreditVolume, delta, OfMint(mint), None)])
  }

  function Magnitude(n: int): nat { if n < 0 then -n else n }

  /** Collateral opened or closed. Margin moves and repayments are no turnover. */
  function Exposure(kind: Kind, event: Payload): (r: Outcome<nat>)
    ensures r.Done? ==> r.value <= U64
  {
    if kind == PositionOpened then AsU64(Get(event, "collateral_amount"))
    else if kind == PositionClosed || kind == PositionLiquidated then AsU64(Get(event, "collateral_sold"))
    else if IsSettlement(kind) && Get(event, "leverage") == Bool(true) then
      if kind == FlashSettled then AsU64(Get(event, "collateral_debit"))
      else
        var quote :- Fields(Get(event, "quote"));
        AsU64(Get(quote, "collateral_debit"))
    else if kind == PositionUpdated then
      var delta :- AsI64(Get(event, "collateral_delta"));
      if Get(event, "swap") != Null then Done(Magnitude(delta))
      else
        var borrowed :- AsU64(Get(event, "borrowed_amount"));
        Done(if borrowed > 0 then Magnitude(delta) else 0)
    else Done(0)
  }

  function MarginAmounts(kind: Kind, event: Payload, isKey: Keys): Outcome<seq<Amount>> {
    var exposure :- Exposure(kind, event);
    if exposure == 0 then Done([])
    else if IsSettlement(kind) then
      var debt :- AsSide(Get(event, "debt_asset"));
      Done([Amount(MarginVolume, exposure, OfSide(Other(debt)), None)])
    else
      var mint :- Address(Get(event, "collateral_asset_mint"), isKey);
      Done([Amount(MarginVolume, exposure, OfMint(mint), None)])
  }

  function InterestAmounts(kind: Kind, event: Payload, isKey: Keys): Outcome<seq<Amount>> {
    if IsSettlement(kind) then
      var holder :- if kind == FlashSettled then Done(event) else Fields(Get(event, "quote"));
      var loss :- Fields(Get(holder, "loss"));
      var paid :- AsU64(Get(loss, "interest_paid"));
      var debt :- AsSide(Get(event, "debt_asset"));
      Done([Amount(ReportedInterest, paid, OfSide(debt), None)])
    else if kind == MarketDebtUpdated || kind == PositionClosed || kind == PositionLiquidated then
      var paid :- AsU64(Get(event, "interest_paid"));
      var mint :- Address(Get(event, "debt_asset_mint"), isKey);
      Done([Amount(ReportedInterest, paid, OfMint(mint), None)])
    else if kind == HlpClosed || kind == HlpTerminalLiquidated then
      var target :- AsSide(Get(event, if kind == HlpClosed then "asset_side" else "target_asset"));
      var paid :- AsU64(Get(event, "interest_paid"));
      Done([Amount(ReportedInterest, paid, OfSide(Other(target)), None)])
    else Done([])
  }

  datatype Parsed = Parsed(market: Text, hasSwap: bool, amounts: seq<Amount>)

  predicate IsLeverage(kind: Kind, event: Payload) {
    IsPosition(kind) || (IsSettlement(kind) && Get(event, "leverage") == Bool(true))
  }

  /** `parseActivityEvent` for an event of a supported kind. */
  function Parse(kind: Kind, payload: Value, slot: Value, basis: SwapBasis, isKey: Keys): Outcome<Parsed> {
    var event :- Fields(payload);
    var market :- Address(Get(event, "market"), isKey);
    var sourceSlot :- AsU64(slot);
    var _ :- CheckMetadata(kind, event, market, sourceSlot, isKey);
    var swap :- SwapOf(kind, event, basis);
    var trades :- if swap.Some? then SwapAmounts(swap.value, IsLeverage(kind, event)) else Done([]);
    var credit :- CreditAmounts(kind, event, isKey);
    var margin :- MarginAmounts(kind, event, isKey);
    var interest :- InterestAmounts(kind, event, isKey);
    Done(Parsed(market, swap.Some?, trades + (credit + (margin + interest))))
  }

  // ----- what every parsed event promises -----

  /** The amounts of a swap: one input, its output on the other side, and a fee
      on one side whose retained and compounded parts do not exceed it. */
  ghost predicate IsTrade(a: seq<Amount>) {
    && |a| == 4
    && a[0].metric == Volume && a[1].metric == SwapFees && a[2].metric == RetainedFees && a[3].metric == CompoundedFees
    && a[0].amount > 0 && a[0].asset.OfSide?
    && a[0].output.Some? && a[0].output.value.amount <= U64
    && a[0].output.value.asset == OfSide(Other(a[0].asset.side))
    && a[1].asset.OfSide? && a[1].asset == a[2].asset == a[3].asset
    && a[1].output.None? && a[2].output.None? && a[3].output.None?
    && a[2].amount + a[3].amount <= a[1].amount <= U64 && a[0].amount <= U64
  }

  lemma {:induction false} SwapIsTrade(swap: Payload, leverage: bool)
    ensures SwapAmounts(swap, leverage).Done? ==> IsTrade(SwapAmounts(swap, leverage).value)
  {
  }

  function PrintedSide(s: Side): Value { String(Ascii(if s == Base then "0" else "1")) }

  lemma {:induction false} U64ReadsBack(v: Value)
    ensures AsU64(v).Done? ==> v == Printed(AsU64(v).value)
  {
    UnsignedReadsBack(v, 20, U64);
  }

  /** The parsed amounts are the swap's own fields: what went in, the curve's
      gross output, and a fee that is the sum of its three printed parts. */
  lemma {:induction false} SwapReadsBack(swap: Payload, leverage: bool)
    ensures var r := SwapAmounts(swap, leverage);
            r.Done? ==>
              var a := r.value;
              && |a| == 4 && a[0].output.Some? && a[0].asset.OfSide? && a[1].asset.OfSide?
              && Get(swap, "asset_in_side") == PrintedSide(a[0].asset.side)
              && Get(swap, "fee_asset_side") == PrintedSide(a[1].asset.side)
              && Get(swap, "amount_in") == Printed(a[0].amount)
              && Get(swap, "gross_amount_out") == Printed(a[0].output.value.amount)
              && Get(swap, "retained_fee") == Printed(a[2].amount)
              && Get(swap, "compounded_fee") == Printed(a[3].amount)
              && exists b: nat, d: nat, v: nat ::
                   && Get(swap, "base_fee") == Printed(b) && Get(swap, "divergence_fee") == Printed(d)
                   && Get(swap, "volatility_fee") == Printed(v)
                   && b + d + v == a[1].amount && a[2].amount <= d + v
  {
    hide AsU64, Printed;
    if SwapAmounts(swap, leverage).Done? {
      U64ReadsBack(Get(swap, "amount_in"));
      U64ReadsBack(Get(swap, "gross_amount_out"));
      U64ReadsBack(Get(swap, "base_fee"));
      U64ReadsBack(Get(swap, "divergence_fee"));
      U64ReadsBack(Get(swap, "volatility_fee"));
      U64ReadsBack(Get(swap, "retained_fee"));
      U64ReadsBack(Get(swap, "compounded_fee"));
      assert Get(swap, "base_fee") == Printed(AsU64(Get(swap, "base_fee")).value);
    }
  }

  /** Turnover is the event's own collateral figure, in the collateral asset: the
      side opposite a settlement's debt, or the position's collateral mint. */
  lemma {:induction false} MarginReadsBack(kind: Kind, event: Payload, isKey: Keys)
    ensures var r := MarginAmounts(kind, event, isKey);
            r.Done? && r.value != [] ==>
              var a := r.value[0];
              && (IsSettlement(kind) ==> a.asset.OfSide? && Get(event, "debt_asset") == PrintedSide(Other(a.asset.side)))
              && (!IsSettlement(kind) ==> a.asset.OfMint? && Get(event, "collateral_asset_mint") == String(a.asset.mint))
              && (kind == PositionOpened ==> Get(event, "collateral_amount") == Printed(a.amount))
              && (kind == PositionClosed || kind == PositionLiquidated ==> Get(event, "collateral_sold") == Printed(a.amount))
              && (kind == FlashSettled ==> Get(event, "collateral_debit") == Printed(a.amount))
              && (kind == EmergencySettled ==> Get(event, "quote").Record?)
              && (kind == EmergencySettled ==> Get(Get(event, "quote").fields, "collateral_debit") == Printed(a.amount))
              && (kind == PositionUpdated ==> AsI64(Get(event, "collateral_delta")).Done?)
              && (kind == PositionUpdated ==> a.amount == Magnitude(AsI64(Get(event, "collateral_delta")).value) > 0)
  {
    hide AsU64, Printed, AsI64;
    U64ReadsBack(Get(event, "collateral_amount"));
    U64ReadsBack(Get(event, "collateral_sold"));
    U64ReadsBack(Get(event, "collateral_debit"));
    if Get(event, "quote").Record? {
      U64ReadsBack(Get(Get(event, "quote").fields, "collateral_debit"));
    }
  }

  /** Interest is the event's own figure, for a settlement that of its loss record,
      in the debt asset: a settlement's debt side, the debt mint, or the side that
      funds a closed target. */
  lemma {:induction false} InterestReadsBack(kind: Kind, event: Payload, isKey: Keys)
    ensures var r := InterestAmounts(kind, event, isKey);
            r.Done? && r.value != [] ==>
              var a := r.value[0];
              && (IsSettlement(kind) ==> a.asset.OfSide? && Get(event, "debt_asset") == PrintedSide(a.asset.side))
              && (kind == HlpClosed ==> a.asset.OfSide? && Get(event, "asset_side") == PrintedSide(Other(a.asset.side)))
              && (kind == HlpTerminalLiquidated ==> a.asset.OfSide? && Get(event, "target_asset") == PrintedSide(Other(a.asset.side)))
              && (!IsSettlement(kind) && kind != HlpClosed && kind != HlpTerminalLiquidated ==>
                    a.asset.OfMint? && Get(event, "debt_asset_mint") == String(a.asset.mint))
              && (!IsSettlement(kind) ==> Get(event, "interest_paid") == Printed(a.amount))
              && (kind == FlashSettled ==>
                    && Get(event, "loss").Record?
                    && Get(Get(event, "loss").fields, "interest_paid") == Printed(a.amount))
              && (kind == EmergencySettled ==>
                    && Get(event, "quote").Record? && Get(Get(event, "quote").fields, "loss").Record?
                    && Get(Get(Get(event, "quote").fields, "loss").fields, "interest_paid") == Printed(a.amount))
  {
    hide AsU64, Printed;
    U64ReadsBack(Get(event, "interest_paid"));
    if IsSettlement(kind) && InterestAmounts(kind, event, isKey).Done? {
      var holder := if kind == FlashSettled then event else Get(event, "quote").fields;
      U64ReadsBack(Get(Get(holder, "loss").fields, "interest_paid"));
    }
  }

  /** At most one amount, of this metric, within u64 and with no output leg. */
  ghost predicate Single(a: seq<Amount>, metric: Metric) {
    |a| <= 1 && (|a| == 1 ==> a[0].metric == metric && a[0].amount <= U64 && a[0].output.None?)
  }

  lemma {:induction false} SingleCredit(kind: Kind, event: Payload, isKey: Keys)
    ensures CreditAmounts(kind, event, isKey).Done? ==> Single(CreditAmounts(kind, event, isKey).value, CreditVolume)
  {
  }

  lemma {:induction false} SingleMargin(kind: Kind, event: Payload, isKey: Keys)
    ensures MarginAmounts(kind, event, isKey).Done? ==> Single(MarginAmounts(kind, event, isKey).value, MarginVolume)
  {
  }

  lemma {:induction false} SingleInterest(kind: Kind, event: Payload, isKey: Keys)
    ensures InterestAmounts(kind, event, isKey).Done? ==> Single(InterestAmounts(kind, event, isKey).value, ReportedInterest)
  {
  }

  predicate OncePerMetric(a: seq<Amount>) {
    forall i, j :: 0 <= i < j < |a| ==> a[i].metric != a[j].metric
  }

  lemma {:induction false} PartsAreDistinct(trades: seq<Amount>, credit: seq<Amount>, margin: seq<Amount>,
                                            interest: seq<Amount>)
    requires trades == [] || IsTrade(trades)
    requires Single(credit, CreditVolume) && Single(margin, MarginVolume) && Single(interest, ReportedInterest)
    ensures var all := trades + (credit + (margin + interest));
            && OncePerMetric(all)
            && (forall i :: 0 <= i < |all| ==> all[i].amount <= U64)
            && (forall i :: 0 <= i < |all| ==> (all[i].metric == Volume <==> trades != [] && i == 0))
            && (trades != [] ==> all[..4] == trades)
  {
  }

  /** No metric is counted twice for one event, every amount is a u64, and a
      swap's amounts are the first four. */
  lemma {:induction false} ParsedOnce(kind: Kind, payload: Value, slot: Value, basis: SwapBasis, isKey: Keys)
    ensures var r := Parse(kind, payload, slot, basis, isKey);
            r.Done? ==>
              && OncePerMetric(r.value.amounts)
              && (forall i :: 0 <= i < |r.value.amounts| ==> r.value.amounts[i].amount <= U64)
              && (r.value.hasSwap ==> |r.value.amounts| >= 4 && IsTrade(r.value.amounts[..4]))
              && (r.value.hasSwap <==> exists i :: 0 <= i < |r.value.amounts| && r.value.amounts[i].metric == Volume)
  {
    hide CreditAmounts, MarginAmounts, InterestAmounts, SwapAmounts, IsTrade, CheckMetadata, Single, OncePerMetric;
    var r := Parse(kind, payload, slot, basis, isKey);
    if r.Done? {
      var event := payload.fields;
      var swap := SwapOf(kind, event, basis).value;
      SingleCredit(kind, event, isKey);
      SingleMargin(kind, event, isKey);
      SingleInterest(kind, event, isKey);
      if swap.Some? {
        SwapIsTrade(swap.value, IsLeverage(kind, event));
      }
      var trades := if swap.Some? then SwapAmounts(swap.value, IsLeverage(kind, event)).value else [];
      PartsAreDistinct(trades, CreditAmounts(kind, event, isKey).value, MarginAmounts(kind, event, isKey).value,
                       InterestAmounts(kind, event, isKey).value);
      TradeIsFour(trades);
      assert r.value.hasSwap ==> r.value.amounts[0].metric == Volume;
    }
  }

  lemma {:induction false} TradeIsFour(trades: seq<Amount>)
    ensures IsTrade(trades) ==> |trades| == 4
  {
  }

  /** Which events count as a swap: with canonical swap events only they do; with
      embedded receipts every position action with a receipt does as well. */
  lemma {:induction false} SwapSource(kind: Kind, payload: Value, slot: Value, basis: SwapBasis, isKey: Keys)
    ensures var r := Parse(kind, payload, slot, basis, isKey);
            r.Done? ==>
              (r.value.hasSwap <==>
                 || kind == SwapExecuted
                 || (basis == EmbeddedReceipts && IsPosition(kind)
                     && !(kind == PositionUpdated && Get(payload.fields, "swap") == Null)))
  {
    hide CreditAmounts, MarginAmounts, InterestAmounts, SwapAmounts, CheckMetadata;
  }

  // ----- ... and exactly the events that give it -----

  predicate Gives(p: Payload, name: string, n: nat) {
    Get(p, name) == Printed(n) && n <= U64
  }

  /** The text of an i64. */
  function SignedText(n: int): Text {
    if n < 0 then [0x2D] + Decimal.Digits(-n) else Decimal.Digits(n)
  }

  predicate GivesSigned(p: Payload, name: string, n: int) {
    Get(p, name) == String(SignedText(n)) && -0x8000_0000_0000_0000 <= n < 0x8000_0000_0000_0000
  }

  predicate GivesKey(p: Payload, name: string, key: Text, isKey: Keys) {
    Get(p, name) == String(key) && isKey(key)
  }

  predicate GivesSide(p: Payload, name: string, s: Side) {
    Get(p, name) == PrintedSide(s)
  }

  lemma {:induction false} Pow10OfWords()
    ensures U64 < Decimal.Pow10(20) && 0x8000_0000_0000_0000 < Decimal.Pow10(19)
  {
    assert Decimal.Pow10(20) == 100_000_000_000_000_000_000 && Decimal.Pow10(19) == 10_000_000_000_000_000_000 by {
      assert Decimal.Pow10(5) == 100_000;
      assert Decimal.Pow10(10) == 10_000_000_000;
      assert Decimal.Pow10(15) == 1_000_000_000_000_000;
    }
  }

  lemma {:induction false} U64Gives(p: Payload, name: string, n: nat)
    ensures AsU64(Get(p, name)) == Done(n) <==> Gives(p, name, n)
  {
    hide Unsigned;
    U64ReadsBack(Get(p, name));
    if Gives(p, name, n) {
      Pow10OfWords();
      PrintedIsUnsigned(n, 20, U64);
    }
  }

  lemma {:induction false} DigitsAreDecimal(n: nat)
    ensures Decimal.IsDecimal(Decimal.Digits(n)) && Decimal.Value(Decimal.Digits(n)) == n
    ensures Decimal.Digits(n)[0] == Decimal.ZERO <==> n == 0
    ensures Decimal.Digits(n)[0] != 0x2D
  {
    Decimal.DigitsRoundTrip(n);
    if Decimal.Digits(n)[0] == Decimal.ZERO {
      var t := Decimal.Digits(n);
      assert t == [Decimal.ZERO];
      assert t[..0] == [];
    }
    if n == 0 {
      assert Decimal.Digits(0) == [Decimal.ZERO];
    }
  }

  lemma {:induction false} I64Gives(p: Payload, name: string, n: int)
    ensures AsI64(Get(p, name)) == Done(n) <==> GivesSigned(p, name, n)
  {
    var v := Get(p, name);
    Pow10OfWords();
    hide Decimal.IsDecimal, Decimal.Value, Decimal.Digits, Decimal.Pow10;
    var size := if n < 0 then -n else n;
    DigitsAreDecimal(size);
    if GivesSigned(p, name, n) {
      Decimal.DigitsLength(size, 19);
      assert n < 0 ==> v.text[1..] == Decimal.Digits(size);
    }
    if AsI64(v) == Done(n) {
      var digits := if v.text[0] == 0x2D then v.text[1..] else v.text;
      Decimal.ValueRoundTrip(digits);
      DigitsAreDecimal(Decimal.Value(digits));
      assert v.text[0] == 0x2D ==> v.text == [0x2D] + digits;
    }
  }

  lemma {:induction false} SideGives(p: Payload, name: string, s: Side)
    ensures AsSide(Get(p, name)) == Done(s) <==> GivesSide(p, name, s)
  {
    assert Ascii("0")[0] == 0x30 && Ascii("1")[0] == 0x31;
  }

  lemma {:induction false} KeyGives(p: Payload, name: string, key: Text, isKey: Keys)
    ensures Address(Get(p, name), isKey) == Done(key) <==> GivesKey(p, name, key, isKey)
  {
  }

  /** The fields of a swap's receipt. */
  datatype Receipt = Receipt(inSide: Side, feeSide: Side, amountIn: nat, amountOut: nat, grossOut: nat, netInput: nat,
                             baseFee: nat, divergence: nat, volatility: nat, retained: nat, compounded: nat, credit: nat)

  /** The payload gives this receipt, and its amounts are consistent. */
  predicate SwapGives(s: Payload, leverage: bool, x: Receipt) {
    && GivesSide(s, "asset_in_side", x.inSide) && GivesSide(s, "fee_asset_side", x.feeSide)
    && Gives(s, "amount_in", x.amountIn) && Gives(s, "amount_out", x.amountOut)
    && Gives(s, "gross_amount_out", x.grossOut) && Gives(s, "amount_in_after_fee", x.netInput)
    && Gives(s, "base_fee", x.baseFee) && Gives(s, "divergence_fee", x.divergence)
    && Gives(s, "volatility_fee", x.volatility) && Gives(s, "retained_fee", x.retained)
    && Gives(s, "compounded_fee", x.compounded)
    && 0 < x.amountIn && x.amountOut <= x.grossOut && x.netInput <= x.amountIn
    && x.baseFee + x.divergence + x.volatility <= U64
    && x.retained <= x.divergence + x.volatility
    && x.compounded + x.retained + x.credit <= x.baseFee + x.divergence + x.volatility
    && (if leverage then Gives(s, "claimable_fee_credit", x.credit) else x.credit == 0)
  }

  /** The curve's input and output, the whole fee, and its retained and compounded parts. */
  function SwapReports(x: Receipt): seq<Amount> {
    [Amount(Volume, x.amountIn, OfSide(x.inSide), Some(Leg(x.grossOut, OfSide(if x.inSide == Base then Quote else Base)))),
     Amount(SwapFees, x.baseFee + x.divergence + x.volatility, OfSide(x.feeSide), None),
     Amount(RetainedFees, x.retained, OfSide(x.feeSide), None),
     Amount(CompoundedFees, x.compounded, OfSide(x.feeSide), None)]
  }

  lemma {:induction false} SwapFields(s: Payload, leverage: bool, x: Receipt)
    ensures SwapGives(s, leverage, x) ==> SwapAmounts(s, leverage) == Done(SwapReports(x))
  {
    hide AsU64, AsSide, Gives, GivesSide;
    SideGives(s, "asset_in_side", x.inSide);
    SideGives(s, "fee_asset_side", x.feeSide);
    U64Gives(s, "amount_in", x.amountIn);
    U64Gives(s, "amount_out", x.amountOut);
    U64Gives(s, "gross_amount_out", x.grossOut);
    U64Gives(s, "amount_in_after_fee", x.netInput);
    U64Gives(s, "base_fee", x.baseFee);
    U64Gives(s, "divergence_fee", x.divergence);
    U64Gives(s, "volatility_fee", x.volatility);
    U64Gives(s, "retained_fee", x.retained);
    U64Gives(s, "compounded_fee", x.compounded);
    U64Gives(s, "claimable_fee_credit", x.credit);
  }

  lemma {:induction false} SwapReceipt(s: Payload, leverage: bool) returns (x: Receipt)
    requires SwapAmounts(s, leverage).Done?
    ensures SwapGives(s, leverage, x)
  {
    hide AsU64, AsSide, Gives, GivesSide;
    var credit := if leverage then AsU64(Get(s, "claimable_fee_credit")).value else 0;
    x := Receipt(AsSide(Get(s, "asset_in_side")).value, AsSide(Get(s, "fee_asset_side")).value,
                 AsU64(Get(s, "amount_in")).value, AsU64(Get(s, "amount_out")).value,
                 AsU64(Get(s, "gross_amount_out")).value, AsU64(Get(s, "amount_in_after_fee")).value,
                 AsU64(Get(s, "base_fee")).value, AsU64(Get(s, "divergence_fee")).value,
                 AsU64(Get(s, "volatility_fee")).value, AsU64(Get(s, "retained_fee")).value,
                 AsU64(Get(s, "compounded_fee")).value, credit);
    SideGives(s, "asset_in_side", x.inSide);
    SideGives(s, "fee_asset_side", x.feeSide);
    U64Gives(s, "amount_in", x.amountIn);
    U64Gives(s, "amount_out", x.amountOut);
    U64Gives(s, "gross_amount_out", x.grossOut);
    U64Gives(s, "amount_in_after_fee", x.netInput);
    U64Gives(s, "base_fee", x.baseFee);
    U64Gives(s, "divergence_fee", x.divergence);
    U64Gives(s, "volatility_fee", x.volatility);
    U64Gives(s, "retained_fee", x.retained);
    U64Gives(s, "compounded_fee", x.compounded);
    U64Gives(s, "claimable_fee_credit", x.credit);
  }

  /** A growing debt is credit in its mint; a repayment or no change is none. */
  ghost predicate CreditGives(kind: Kind, e: Payload, isKey: Keys, a: seq<Amount>) {
    if kind != MarketDebtUpdated then a == []
    else exists delta ::
      GivesSigned(e, "debt_delta", delta)
      && if delta <= 0 then a == []
         else exists mint :: GivesKey(e, "debt_asset_mint", mint, isKey) && a == [Amount(CreditVolume, delta, OfMint(mint), None)]
  }

  lemma {:induction false} CreditIsItsFields(kind: Kind, e: Payload, isKey: Keys, a: seq<Amount>)
    ensures CreditAmounts(kind, e, isKey) == Done(a) <==> CreditGives(kind, e, isKey, a)
  {
    hide AsI64, Address, GivesSigned, GivesKey;
    forall delta ensures AsI64(Get(e, "debt_delta")) == Done(delta) <==> GivesSigned(e, "debt_delta", delta) {
      I64Gives(e, "debt_delta", delta);
    }
    forall mint ensures Address(Get(e, "debt_asset_mint"), isKey) == Done(mint) <==> GivesKey(e, "debt_asset_mint", mint, isKey) {
      KeyGives(e, "debt_asset_mint", mint, isKey);
    }
  }

  /** The collateral opened, sold or debited; of an update that swaps or borrows,
      what its collateral moved by. */
  ghost predicate ExposureGives(kind: Kind, e: Payload, n: nat) {
    match kind
    case PositionOpened => Gives(e, "collateral_amount", n)
    case PositionClosed => Gives(e, "collateral_sold", n)
    case PositionLiquidated => Gives(e, "collateral_sold", n)
    case FlashSettled => if Get(e, "leverage") == Bool(true) then Gives(e, "collateral_debit", n) else n == 0
    case EmergencySettled =>
      if Get(e, "leverage") == Bool(true)
      then Get(e, "quote").Record? && Gives(Get(e, "quote").fields, "collateral_debit", n) else n == 0
    case PositionUpdated =>
      exists delta ::
        && GivesSigned(e, "collateral_delta", delta)
        && var moved := if delta < 0 then -delta else delta;
           if Get(e, "swap") != Null then n == moved
           else exists borrowed: nat :: Gives(e, "borrowed_amount", borrowed) && n == if borrowed > 0 then moved else 0
    case _ => n == 0
  }

  lemma {:induction false} ExposureIsItsFields(kind: Kind, e: Payload, n: nat)
    ensures Exposure(kind, e) == Done(n) <==> ExposureGives(kind, e, n)
  {
    hide AsU64, AsI64, Gives, GivesSigned;
    U64Gives(e, "collateral_amount", n);
    U64Gives(e, "collateral_sold", n);
    U64Gives(e, "collateral_debit", n);
    if Get(e, "quote").Record? {
      U64Gives(Get(e, "quote").fields, "collateral_debit", n);
    }
    forall delta ensures AsI64(Get(e, "collateral_delta")) == Done(delta) <==> GivesSigned(e, "collateral_delta", delta) {
      I64Gives(e, "collateral_delta", delta);
    }
    forall borrowed: nat ensures AsU64(Get(e, "borrowed_amount")) == Done(borrowed) <==> Gives(e, "borrowed_amount", borrowed) {
      U64Gives(e, "borrowed_amount", borrowed);
    }
  }

  /** Turnover in the collateral asset: opposite a settlement's debt, else its mint. */
  ghost predicate MarginGives(kind: Kind, e: Payload, isKey: Keys, a: seq<Amount>) {
    exists n: nat ::
      && ExposureGives(kind, e, n)
      && if n == 0 then a == []
         else if kind == FlashSettled || kind == EmergencySettled then
           exists debt :: GivesSide(e, "debt_asset", debt)
                          && a == [Amount(MarginVolume, n, OfSide(if debt == Base then Quote else Base), None)]
         else exists mint :: GivesKey(e, "collateral_asset_mint", mint, isKey) && a == [Amount(MarginVolume, n, OfMint(mint), None)]
  }

  lemma {:induction false} MarginIsItsFields(kind: Kind, e: Payload, isKey: Keys, a: seq<Amount>)
    ensures MarginAmounts(kind, e, isKey) == Done(a) <==> MarginGives(kind, e, isKey, a)
  {
    hide AsSide, Address, Exposure, ExposureGives, GivesSide, GivesKey;
    forall n: nat ensures Exposure(kind, e) == Done(n) <==> ExposureGives(kind, e, n) {
      ExposureIsItsFields(kind, e, n);
    }
    forall debt ensures AsSide(Get(e, "debt_asset")) == Done(debt) <==> GivesSide(e, "debt_asset", debt) {
      SideGives(e, "debt_asset", debt);
    }
    forall mint
      ensures Address(Get(e, "collateral_asset_mint"), isKey) == Done(mint) <==> GivesKey(e, "collateral_asset_mint", mint, isKey)
    {
      KeyGives(e, "collateral_asset_mint", mint, isKey);
    }
  }

  /** One figure of reported interest, in an asset. */
  predicate Reports(p: Payload, asset: Asset, a: seq<Amount>) {
    |a| == 1 && Gives(p, "interest_paid", a[0].amount) && a[0] == Amount(ReportedInterest, a[0].amount, asset, None)
  }

  /** The record of a settlement's loss: its own, or its quote's. */
  predicate IsLoss(kind: Kind, e: Payload, loss: Payload) {
    if kind == FlashSettled then Get(e, "loss") == Record(loss)
    else Get(e, "quote").Record? && Get(Get(e, "quote").fields, "loss") == Record(loss)
  }

  ghost predicate InterestGives(kind: Kind, e: Payload, isKey: Keys, a: seq<Amount>) {
    match kind
    case FlashSettled =>
      exists loss, debt :: IsLoss(kind, e, loss) && GivesSide(e, "debt_asset", debt) && Reports(loss, OfSide(debt), a)
    case EmergencySettled =>
      exists loss, debt :: IsLoss(kind, e, loss) && GivesSide(e, "debt_asset", debt) && Reports(loss, OfSide(debt), a)
    case HlpClosed =>
      exists target :: GivesSide(e, "asset_side", target) && Reports(e, OfSide(if target == Base then Quote else Base), a)
    case HlpTerminalLiquidated =>
      exists target :: GivesSide(e, "target_asset", target) && Reports(e, OfSide(if target == Base then Quote else Base), a)
    case MarketDebtUpdated => exists mint :: GivesKey(e, "debt_asset_mint", mint, isKey) && Reports(e, OfMint(mint), a)
    case PositionClosed => exists mint :: GivesKey(e, "debt_asset_mint", mint, isKey) && Reports(e, OfMint(mint), a)
    case PositionLiquidated => exists mint :: GivesKey(e, "debt_asset_mint", mint, isKey) && Reports(e, OfMint(mint), a)
    case _ => a == []
  }

  lemma {:induction false} ReportsIs(p: Payload, asset: Asset, a: seq<Amount>)
    ensures Reports(p, asset, a) <==>
              AsU64(Get(p, "interest_paid")).Done?
              && a == [Amount(ReportedInterest, AsU64(Get(p, "interest_paid")).value, asset, None)]
  {
    hide AsU64, Gives;
    if a != [] {
      U64Gives(p, "interest_paid", a[0].amount);
    }
  }

  lemma {:induction false} SettlementInterest(kind: Kind, e: Payload, isKey: Keys, a: seq<Amount>)
    requires kind == FlashSettled || kind == EmergencySettled
    ensures InterestAmounts(kind, e, isKey) == Done(a) <==> InterestGives(kind, e, isKey, a)
  {
    hide AsU64, AsSide, GivesSide, Reports;
    forall debt ensures AsSide(Get(e, "debt_asset")) == Done(debt) <==> GivesSide(e, "debt_asset", debt) {
      SideGives(e, "debt_asset", debt);
    }
    forall loss, debt ensures Reports(loss, OfSide(debt), a) <==>
      AsU64(Get(loss, "interest_paid")).Done? && a == [Amount(ReportedInterest, AsU64(Get(loss, "interest_paid")).value, OfSide(debt), None)]
    {
      ReportsIs(loss, OfSide(debt), a);
    }
    if InterestAmounts(kind, e, isKey) == Done(a) {
      var holder := if kind == FlashSettled then e else Get(e, "quote").fields;
      assert IsLoss(kind, e, Get(holder, "loss").fields);
    }
  }

  lemma {:induction false} PlainInterest(kind: Kind, e: Payload, isKey: Keys, a: seq<Amount>)
    requires kind != FlashSettled && kind != EmergencySettled
    ensures InterestAmounts(kind, e, isKey) == Done(a) <==> InterestGives(kind, e, isKey, a)
  {
    hide AsU64, AsSide, Address, GivesSide, GivesKey, Reports;
    forall s ensures AsSide(Get(e, "asset_side")) == Done(s) <==> GivesSide(e, "asset_side", s) {
      SideGives(e, "asset_side", s);
    }
    forall s ensures AsSide(Get(e, "target_asset")) == Done(s) <==> GivesSide(e, "target_asset", s) {
      SideGives(e, "target_asset", s);
    }
    forall mint ensures Address(Get(e, "debt_asset_mint"), isKey) == Done(mint) <==> GivesKey(e, "debt_asset_mint", mint, isKey) {
      KeyGives(e, "debt_asset_mint", mint, isKey);
    }
    forall asset ensures Reports(e, asset, a) <==>
      AsU64(Get(e, "interest_paid")).Done? && a == [Amount(ReportedInterest, AsU64(Get(e, "interest_paid")).value, asset, None)]
    {
      ReportsIs(e, asset, a);
    }
  }

  lemma {:induction false} InterestIsItsFields(kind: Kind, e: Payload, isKey: Keys, a: seq<Amount>)
    ensures InterestAmounts(kind, e, isKey) == Done(a) <==> InterestGives(kind, e, isKey, a)
  {
    hide *;
    if kind == FlashSettled || kind == EmergencySettled {
      SettlementInterest(kind, e, isKey, a);
    } else {
      PlainInterest(kind, e, isKey, a);
    }
  }

  /** A position's or a debt's event names its market, slot and signer once more. */
  ghost predicate MetadataGives(kind: Kind, e: Payload, market: Text, slot: nat, isKey: Keys) {
    kind in {PositionOpened, PositionUpdated, PositionClosed, PositionLiquidated, MarketDebtUpdated} ==>
      && Get(e, "metadata").Record?
      && var m := Get(e, "metadata").fields;
         && GivesKey(m, "market", market, isKey) && Gives(m, "slot", slot)
         && exists signer :: GivesKey(m, "signer", signer, isKey)
  }

  lemma {:induction false} MetadataIsItsFields(kind: Kind, e: Payload, market: Text, slot: nat, isKey: Keys)
    ensures CheckMetadata(kind, e, market, slot, isKey).Done? <==> MetadataGives(kind, e, market, slot, isKey)
  {
    hide AsU64, Address, Gives, GivesKey;
    if Get(e, "metadata").Record? {
      var m := Get(e, "metadata").fields;
      KeyGives(m, "market", market, isKey);
      U64Gives(m, "slot", slot);
      forall signer ensures Address(Get(m, "signer"), isKey) == Done(signer) <==> GivesKey(m, "signer", signer, isKey) {
        KeyGives(m, "signer", signer, isKey);
      }
    }
  }

  /** The swap an event counts: a canonical one, or a position's embedded receipt. */
  predicate SwapIn(kind: Kind, e: Payload, basis: SwapBasis, swap: Option<Payload>) {
    match kind
    case SwapExecuted => swap == Some(e)
    case PositionUpdated =>
      if basis == CanonicalSwaps || Get(e, "swap") == Null then swap.None? else swap.Some? && Get(e, "swap") == Record(swap.value)
    case PositionOpened => if basis == CanonicalSwaps then swap.None? else swap.Some? && Get(e, "swap") == Record(swap.value)
    case PositionClosed => if basis == CanonicalSwaps then swap.None? else swap.Some? && Get(e, "swap") == Record(swap.value)
    case PositionLiquidated => if basis == CanonicalSwaps then swap.None? else swap.Some? && Get(e, "swap") == Record(swap.value)
    case _ => swap.None?
  }

  lemma {:induction false} SwapInIs(kind: Kind, e: Payload, basis: SwapBasis, swap: Option<Payload>)
    ensures SwapOf(kind, e, basis) == Done(swap) <==> SwapIn(kind, e, basis, swap)
  {
  }

  /** A swap counts its receipt's amounts; its credit matters for a position. */
  ghost predicate TradesGive(kind: Kind, swap: Option<Payload>, trades: seq<Amount>) {
    if swap.None? then trades == []
    else exists x :: SwapGives(swap.value, kind != SwapExecuted, x) && trades == SwapReports(x)
  }

  lemma {:induction false} TradesAre(kind: Kind, e: Payload, basis: SwapBasis, swap: Option<Payload>, trades: seq<Amount>)
    requires SwapIn(kind, e, basis, swap)
    ensures (if swap.Some? then SwapAmounts(swap.value, IsLeverage(kind, e)) else Done([])) == Done(trades)
       <==> TradesGive(kind, swap, trades)
  {
    hide SwapAmounts, SwapGives, SwapReports;
    if swap.Some? {
      assert IsLeverage(kind, e) == (kind != SwapExecuted);
      forall x | SwapGives(swap.value, kind != SwapExecuted, x)
        ensures SwapAmounts(swap.value, IsLeverage(kind, e)) == Done(SwapReports(x))
      {
        SwapFields(swap.value, IsLeverage(kind, e), x);
      }
      if SwapAmounts(swap.value, IsLeverage(kind, e)).Done? {
        var x := SwapReceipt(swap.value, IsLeverage(kind, e));
        SwapFields(swap.value, IsLeverage(kind, e), x);
      }
    }
  }

  /** What an event's fields give, part by part. */
  ghost predicate EventGives(kind: Kind, payload: Value, slot: Value, basis: SwapBasis, isKey: Keys, p: Parsed,
                             swap: Option<Payload>, trades: seq<Amount>, credit: seq<Amount>, margin: seq<Amount>,
                             interest: seq<Amount>, sourceSlot: nat) {
    && payload.Record? && GivesKey(payload.fields, "market", p.market, isKey)
    && slot == Printed(sourceSlot) && sourceSlot <= U64
    && MetadataGives(kind, payload.fields, p.market, sourceSlot, isKey)
    && SwapIn(kind, payload.fields, basis, swap) && p.hasSwap == swap.Some?
    && TradesGive(kind, swap, trades) && CreditGives(kind, payload.fields, isKey, credit)
    && MarginGives(kind, payload.fields, isKey, margin) && InterestGives(kind, payload.fields, isKey, interest)
    && p.amounts == trades + (credit + (margin + interest))
  }

  lemma {:induction false} SlotGives(slot: Value, n: nat)
    ensures AsU64(slot) == Done(n) <==> slot == Printed(n) && n <= U64
  {
    U64Gives(map["" := slot], "", n);
  }

  /** Whatever the fields give is what is parsed ... */
  lemma {:induction false} GivenIsParsed(kind: Kind, payload: Value, slot: Value, basis: SwapBasis, isKey: Keys, p: Parsed,
                                         swap: Option<Payload>, trades: seq<Amount>, credit: seq<Amount>,
                                         margin: seq<Amount>, interest: seq<Amount>, sourceSlot: nat)
    requires EventGives(kind, payload, slot, basis, isKey, p, swap, trades, credit, margin, interest, sourceSlot)
    ensures Parse(kind, payload, slot, basis, isKey) == Done(p)
  {
    hide AsU64, Address, GivesKey, CheckMetadata, MetadataGives, SwapOf, SwapIn, SwapAmounts, TradesGive, CreditAmounts,
         CreditGives, MarginAmounts, MarginGives, InterestAmounts, InterestGives, Printed, IsLeverage;
    var e := payload.fields;
    KeyGives(e, "market", p.market, isKey);
    SlotGives(slot, sourceSlot);
    MetadataIsItsFields(kind, e, p.market, sourceSlot, isKey);
    SwapInIs(kind, e, basis, swap);
    TradesAre(kind, e, basis, swap, trades);
    CreditIsItsFields(kind, e, isKey, credit);
    MarginIsItsFields(kind, e, isKey, margin);
    InterestIsItsFields(kind, e, isKey, interest);
  }

  /** ... and whatever is parsed is what the fields give. */
  lemma {:induction false} ParsedIsGiven(kind: Kind, payload: Value, slot: Value, basis: SwapBasis, isKey: Keys)
    returns (swap: Option<Payload>, trades: seq<Amount>, credit: seq<Amount>, margin: seq<Amount>, interest: seq<Amount>,
             sourceSlot: nat)
    requires Parse(kind, payload, slot, basis, isKey).Done?
    ensures EventGives(kind, payload, slot, basis, isKey, Parse(kind, payload, slot, basis, isKey).value, swap, trades,
                       credit, margin, interest, sourceSlot)
  {
    hide AsU64, Address, GivesKey, CheckMetadata, MetadataGives, SwapOf, SwapIn, SwapAmounts, TradesGive, CreditAmounts,
         CreditGives, MarginAmounts, MarginGives, InterestAmounts, InterestGives, Printed, IsLeverage;
    var e, p := payload.fields, Parse(kind, payload, slot, basis, isKey).value;
    sourceSlot, swap := AsU64(slot).value, SwapOf(kind, e, basis).value;
    trades := (if swap.Some? then SwapAmounts(swap.value, IsLeverage(kind, e)) else Done([])).value;
    credit, margin, interest := CreditAmounts(kind, e, isKey).value, MarginAmounts(kind, e, isKey).value, InterestAmounts(kind, e, isKey).value;
    KeyGives(e, "market", p.market, isKey);
    SlotGives(slot, sourceSlot);
    MetadataIsItsFields(kind, e, p.market, sourceSlot, isKey);
    SwapInIs(kind, e, basis, swap);
    TradesAre(kind, e, basis, swap, trades);
    CreditIsItsFields(kind, e, isKey, credit);
    MarginIsItsFields(kind, e, isKey, margin);
    InterestIsItsFields(kind, e, isKey, interest);
  }

  /** An event is parsed to something exactly when its fields give it. */
  lemma {:induction false} ParsesExactly(kind: Kind, payload: Value, slot: Value, basis: SwapBasis, isKey: Keys, p: Parsed)
    ensures Parse(kind, payload, slot, basis, isKey) == Done(p) <==>
            exists swap: Option<Payload>, trades: seq<Amount>, credit: seq<Amount>, margin: seq<Amount>,
              interest: seq<Amount>, sourceSlot: nat ::
              EventGives(kind, payload, slot, basis, isKey, p, swap, trades, credit, margin, interest, sourceSlot)
  {
    hide *;
    if Parse(kind, payload, slot, basis, isKey) == Done(p) {
      var swap, trades, credit, margin, interest, sourceSlot := ParsedIsGiven(kind, payload, slot, basis, isKey);
    }
    if swap: Option<Payload>, trades: seq<Amount>, credit: seq<Amount>, margin: seq<Amount>, interest: seq<Amount>,
      sourceSlot: nat :|
      EventGives(kind, payload, slot, basis, isKey, p, swap, trades, credit, margin, interest, sourceSlot)
    {
      GivenIsParsed(kind, payload, slot, basis, isKey, p, swap, trades, credit, margin, interest, sourceSlot);
    }
  }

  // ----- as-of prices -----

  /** A price in units of 10^-36 dollars a whole token. */
  datatype Price = Price(mint: Text, decimals: int, units: int, quality: string, observation: Option<string>)

  const OBSERVED := "external-observation"
  const ESTIMATED := "external-reference"
  const DERIVED := "derived-reference"

  /** A provider's quote; a time that does not parse is None. */
  datatype External = External(id: string, mint: Text, decimals: int, units: int,
                               sourceTime: Option<int>, observedAt: Option<int>, estimated: bool)

  datatype Capture = Capture(id: string, slot: int, blockTime: Option<int>)

  datatype Bound = Bound(baseMint: Text, quoteMint: Text, baseDecimals: int, quoteDecimals: int)

  datatype Spot = Spot(base: int, quote: int)

  datatype PriceBasis = PriceBasis(capture: Option<Capture>, bound: Bound, spot: Option<Spot>,
                                   prices: seq<Price>, stablecoins: set<Text>)

  function MintOf(bound: Bound, s: Side): Text { if s == Base then bound.baseMint else bound.quoteMint }

  function DecimalsOf(bound: Bound, s: Side): int { if s == Base then bound.baseDecimals else bound.quoteDecimals }

  /** Sourced, then observed, no later than the event. */
  function Current(time: Option<int>): External -> bool {
    (q: External) => q.sourceTime.Some? && q.observedAt.Some? && time.Some?
      && q.sourceTime.value <= q.observedAt.value <= time.value
  }

  function FindExternal(quotes: seq<External>, mint: Text, decimals: int): Option<External> {
    if quotes == [] then None
    else if quotes[0].mint == mint && quotes[0].decimals == decimals then Some(quotes[0])
    else FindExternal(quotes[1..], mint, decimals)
  }

  function FindExact(prices: seq<Price>, mint: Text, decimals: int): Option<Price> {
    if prices == [] then None
    else if prices[0].mint == mint && prices[0].decimals == decimals then Some(prices[0])
    else FindExact(prices[1..], mint, decimals)
  }

  const NAD := 1_000_000_000

  /** `multiplyPriceRatio`: rounded down; a price out of range throws. */
  function MultiplyRatio(units: int, spot: int): Outcome<int>
    requires spot > 0
  {
    if units <= 0 || units >= Decimal.Pow10(136) then Thrown
    else
      var product := units * spot / NAD;
      if product <= 0 || product >= Decimal.Pow10(136) then Thrown else Done(product)
  }

  /** The counterasset's price that a curve price may be taken over: its provider
      quote, or its peg when it is a stablecoin; never for a stablecoin itself. */
  function Counter(basis: PriceBasis, current: seq<External>, s: Side): Option<(int, Option<string>)> {
    var mint, other := MintOf(basis.bound, s), MintOf(basis.bound, Other(s));
    var decimals := DecimalsOf(basis.bound, Other(s));
    if mint in basis.stablecoins then None
    else
      var provided := FindExternal(current, other, decimals);
      if provided.Some? then Some((provided.value.units, Some(provided.value.id)))
      else if other in basis.stablecoins then
        var peg := FindExact(basis.prices, other, decimals);
        if peg.Some? then Some((peg.value.units, peg.value.observation)) else None
      else None
  }

  function OfThisMint(mint: Text): Price -> bool { (q: Price) => q.mint == mint }

  /** Own quote, then the curve over the counterasset, then the captured price. */
  function SidePrices(basis: PriceBasis, current: seq<External>, s: Side): Outcome<seq<Price>> {
    var mint, decimals := MintOf(basis.bound, s), DecimalsOf(basis.bound, s);
    var own := FindExternal(current, mint, decimals);
    if own.Some? then
      Done([Price(mint, decimals, own.value.units, if own.value.estimated then ESTIMATED else OBSERVED, Some(own.value.id))])
    else
      var counter := Counter(basis, current, s);
      var spot := if basis.spot.None? then 0 else if s == Base then basis.spot.value.base else basis.spot.value.quote;
      if counter.Some? && spot > 0 then
        var units :- MultiplyRatio(counter.value.0, spot);
        Done([Price(mint, decimals, units, DERIVED, counter.value.1)])
      else Done(Keep(basis.prices, OfThisMint(mint)))
  }

  /** `activityPriceBasis`. */
  function AsOf(basis: PriceBasis, external: seq<External>, time: Option<int>): Outcome<PriceBasis> {
    var current := Keep(external, Current(time));
    var base :- SidePrices(basis, current, Base);
    var quote :- SidePrices(basis, current, Quote);
    Done(basis.(prices := base + quote))
  }

  // ----- valuation -----

  datatype Valued = Valued(metric: Metric, amount: nat, asset: Asset, usd: Option<nat>,
                           capture: Option<string>, quality: Option<string>, observation: Option<string>)

  function AssetMint(asset: Asset, price: Option<PriceBasis>): Option<Text> {
    match asset
    case OfMint(mint) => Some(mint)
    case OfSide(s) => if price.None? then None else Some(MintOf(price.value.bound, s))
  }

  predicate IsStable(asset: Asset, price: Option<PriceBasis>) {
    price.Some? && AssetMint(asset, price).value in price.value.stablecoins
  }

  function FindQuote(prices: seq<Price>, mint: Text): (r: Option<Price>)
    ensures r.Some? ==> r.value in prices && r.value.mint == mint
  {
    if prices == [] then None
    else if prices[0].mint == mint then Some(prices[0])
    else FindQuote(prices[1..], mint)
  }

  /** A leg's quote, None when it is unpriced. */
  function LegQuote(asset: Asset, price: Option<PriceBasis>): Outcome<Option<Price>> {
    if price.None? then Done(None)
    else
      var bound, mint := price.value.bound, AssetMint(asset, price).value;
      if mint != bound.baseMint && mint != bound.quoteMint then Thrown
      else
        var quote := FindQuote(price.value.prices, mint);
        if quote.None? then Done(None)
        else
          var decimals := DecimalsOf(bound, if mint == bound.baseMint then Base else Quote);
          if quote.value.decimals != decimals || decimals < 0 || decimals > 255 || quote.value.units <= 0 then Thrown
          else Done(quote)
  }

  /** Rounded down to a unit. */
  function Worth(amount: nat, quote: Price): nat
    requires quote.decimals >= 0 && quote.units > 0
  {
    Decimal.Pow10Positive(quote.decimals);
    Floor(amount * (quote.units as nat), Decimal.Pow10(quote.decimals))
  }

  lemma {:induction false} WorthNests(part: nat, other: nat, whole: nat, quote: Price)
    requires quote.decimals >= 0 && quote.units > 0 && part + other <= whole
    ensures Worth(part, quote) + Worth(other, quote) <= Worth(whole, quote)
  {
    var units: nat, scale := quote.units, Decimal.Pow10(quote.decimals);
    Decimal.Pow10Positive(quote.decimals);
    FloorSum(part * units, other * units, scale);
    assert (part + other) * units == part * units + other * units;
    MulMonotone(part + other, whole, units);
    FloorMonotone((part + other) * units, whole * units, scale);
  }

  /** A leg at its own price, or None where it is unpriced. */
  function ValuedLeg(metric: Metric, amount: nat, asset: Asset, price: Option<PriceBasis>): Outcome<Option<Valued>> {
    var quote :- LegQuote(asset, price);
    if quote.None? then Done(None)
    else if amount > U64 then Thrown
    else
      var q := quote.value;
      var capture := if price.value.capture.Some? then Some(price.value.capture.value.id) else None;
      Done(Some(Valued(metric, amount, asset, Some(Worth(amount, q)), capture, Some(q.quality), q.observation)))
  }

  /** One amount: nothing is worth nothing; a trade is taken from its stablecoin
      output when only that leg is a stablecoin and it is priced. */
  function ValueOne(a: Amount, price: Option<PriceBasis>): Outcome<Valued> {
    if a.amount > U64 then Thrown
    else if a.amount == 0 then Done(Valued(a.metric, 0, a.asset, Some(0), None, None, None))
    else
      var input :- ValuedLeg(a.metric, a.amount, a.asset, price);
      var leg :- if a.output.Some? && IsStable(a.output.value.asset, price) && !IsStable(a.asset, price)
                 then ValuedLeg(a.metric, a.output.value.amount, a.output.value.asset, price) else Done(None);
      Done(if leg.Some? then leg.value
           else if input.Some? then input.value
           else Valued(a.metric, a.amount, a.asset, None, None, None, None))
  }

  function ValueEach(amounts: seq<Amount>, price: Option<PriceBasis>): (r: Outcome<seq<Valued>>)
    ensures r.Done? ==> |r.value| == |amounts|
    ensures r.Done? ==> forall i :: 0 <= i < |amounts| ==> ValueOne(amounts[i], price) == Done(r.value[i])
    decreases |amounts|
  {
    if amounts == [] then Done([])
    else
      var first :- ValueOne(amounts[0], price);
      var rest :- ValueEach(amounts[1..], price);
      Done([first] + rest)
  }

  const MAX_SAFE := 0x1F_FFFF_FFFF_FFFF

  predicate InTime(price: Option<PriceBasis>, eventSlot: int, time: int) {
    price.Some? && price.value.capture.Some? ==>
      var c := price.value.capture.value;
      0 <= c.slot < eventSlot && c.slot <= MAX_SAFE && c.blockTime.Some? && c.blockTime.value <= time
  }

  /** A price that needs a snapshot has one. */
  predicate IsFounded(price: Option<PriceBasis>) {
    price.Some? && price.value.capture.None? ==>
      price.value.spot.None? && forall i :: 0 <= i < |price.value.prices| ==> price.value.prices[i].quality != DERIVED
  }

  /** `valueActivityAmounts`. */
  function ValueAmounts(amounts: seq<Amount>, price: Option<PriceBasis>, eventSlot: int,
                        time: Option<int>): Outcome<seq<Valued>> {
    if !(0 <= eventSlot <= MAX_SAFE) || time.None? then Thrown
    else if !InTime(price, eventSlot, time.value) || !IsFounded(price) then Thrown
    else ValueEach(amounts, price)
  }

  /** Parse, price and value one event, as the activity reader does. */
  function ValueEvent(kind: Kind, payload: Value, slot: Value, swaps: SwapBasis, isKey: Keys,
                      basis: Option<PriceBasis>, external: seq<External>, eventSlot: int, time: Option<int>): Outcome<seq<Valued>> {
    var parsed :- Parse(kind, payload, slot, swaps, isKey);
    var price :- if basis.None? then Done(None) else Priced(basis.value, external, time);
    ValueAmounts(parsed.amounts, price, eventSlot, time)
  }

  function Priced(basis: PriceBasis, external: seq<External>, time: Option<int>): Outcome<Option<PriceBasis>> {
    var price :- AsOf(basis, external, time);
    Done(Some(price))
  }

  // ----- no look-ahead -----

  /** Sourced or observed after the event, observed before its source, or undated. */
  ghost predicate IsLate(q: External, time: Option<int>) {
    || time.None? || q.sourceTime.None? || q.observedAt.None?
    || q.sourceTime.value > time.value || q.observedAt.value > time.value || q.sourceTime.value > q.observedAt.value
  }

  /** Quotes sourced or observed after the event, put anywhere among the others,
      change no price and so no value. */
  lemma {:induction false} LateQuotesDoNotMatter(basis: PriceBasis, before: seq<External>, late: seq<External>,
                                                 after: seq<External>, time: Option<int>)
    requires forall q :: q in late ==> IsLate(q, time)
    ensures AsOf(basis, before + (late + after), time) == AsOf(basis, before + after, time)
  {
    hide SidePrices;
    KeepSplits(before, late + after, Current(time));
    KeepSplits(late, after, Current(time));
    KeepSplits(before, after, Current(time));
    KeepNone(late, Current(time));
    assert [] + Keep(after, Current(time)) == Keep(after, Current(time));
  }

  /** A stablecoin without a quote of its own keeps its captured price: neither
      the curve nor any quote of the other asset can move it. */
  lemma {:induction false} StablecoinKeepsItsPeg(a: PriceBasis, b: PriceBasis, currentA: seq<External>, currentB: seq<External>, s: Side)
    requires a.bound == b.bound && a.prices == b.prices
    requires MintOf(a.bound, s) in a.stablecoins && MintOf(a.bound, s) in b.stablecoins
    requires FindExternal(currentA, MintOf(a.bound, s), DecimalsOf(a.bound, s)).None?
    requires FindExternal(currentB, MintOf(a.bound, s), DecimalsOf(a.bound, s)).None?
    ensures SidePrices(a, currentA, s) == SidePrices(b, currentB, s)
  {
  }

  /** A quote of this asset that is in time. */
  ghost predicate IsTimely(q: External, time: Option<int>, mint: Text, decimals: int) {
    !IsLate(q, time) && q.mint == mint && q.decimals == decimals
  }

  ghost predicate IsFirstTimely(external: seq<External>, time: Option<int>, mint: Text, decimals: int, i: nat) {
    && i < |external| && IsTimely(external[i], time, mint, decimals)
    && forall j :: 0 <= j < i ==> !IsTimely(external[j], time, mint, decimals)
  }

  lemma {:induction false} FindsFirst(x: External, rest: seq<External>, time: Option<int>, mint: Text, decimals: int)
    ensures FindExternal(Keep([x] + rest, Current(time)), mint, decimals)
         == if IsTimely(x, time, mint, decimals) then Some(x) else FindExternal(Keep(rest, Current(time)), mint, decimals)
  {
    hide Keep;
    KeepFirst(x, rest, Current(time));
    var kept := Keep(rest, Current(time));
    assert ([x] + kept)[1..] == kept && [] + kept == kept;
  }

  lemma {:induction false} FirstTimelyIsFound(external: seq<External>, time: Option<int>, mint: Text, decimals: int,
                                              q: External)
    returns (i: nat)
    requires q in external && IsTimely(q, time, mint, decimals)
    ensures IsFirstTimely(external, time, mint, decimals, i)
    ensures FindExternal(Keep(external, Current(time)), mint, decimals) == Some(external[i])
    decreases |external|
  {
    hide Keep, FindExternal, IsTimely;
    var x, rest := external[0], external[1..];
    assert external == [x] + rest;
    FindsFirst(x, rest, time, mint, decimals);
    if IsTimely(x, time, mint, decimals) {
      i := 0;
    } else {
      i := FirstTimelyIsFound(rest, time, mint, decimals, q);
      i := i + 1;
    }
  }

  /** A quote in time is used: the first one of the asset is its only price, with
      its own units, quality and observation. */
  lemma {:induction false} TimelyQuotePrices(basis: PriceBasis, external: seq<External>, time: Option<int>, s: Side)
    returns (i: nat)
    requires exists q :: q in external && IsTimely(q, time, MintOf(basis.bound, s), DecimalsOf(basis.bound, s))
    ensures IsFirstTimely(external, time, MintOf(basis.bound, s), DecimalsOf(basis.bound, s), i)
    ensures SidePrices(basis, Keep(external, Current(time)), s)
         == (var q := external[i];
             Done([Price(q.mint, q.decimals, q.units, if q.estimated then ESTIMATED else OBSERVED, Some(q.id))]))
  {
    hide FindExternal;
    var q :| q in external && IsTimely(q, time, MintOf(basis.bound, s), DecimalsOf(basis.bound, s));
    i := FirstTimelyIsFound(external, time, MintOf(basis.bound, s), DecimalsOf(basis.bound, s), q);
  }

  // ----- the three sources of a price -----

  ghost predicate HasTimely(external: seq<External>, time: Option<int>, mint: Text, decimals: int) {
    exists q :: q in external && IsTimely(q, time, mint, decimals)
  }

  ghost predicate IsFirstExact(prices: seq<Price>, mint: Text, decimals: int, k: nat) {
    && k < |prices| && prices[k].mint == mint && prices[k].decimals == decimals
    && forall j :: 0 <= j < k ==> !(prices[j].mint == mint && prices[j].decimals == decimals)
  }

  /** What a curve price of this side is taken over, when its mint is no stablecoin:
      the first timely quote of the other asset, or without one the peg of a
      stablecoin. */
  ghost predicate IsCounter(basis: PriceBasis, external: seq<External>, time: Option<int>, s: Side, units: int,
                            observation: Option<string>) {
    var o := if s == Base then Quote else Base;
    var mint, other, decimals := MintOf(basis.bound, s), MintOf(basis.bound, o), DecimalsOf(basis.bound, o);
    && mint !in basis.stablecoins
    && if HasTimely(external, time, other, decimals) then
         exists i: nat :: IsFirstTimely(external, time, other, decimals, i)
                     && units == external[i].units && observation == Some(external[i].id)
       else
         other in basis.stablecoins
         && exists k: nat :: IsFirstExact(basis.prices, other, decimals, k)
                        && units == basis.prices[k].units && observation == basis.prices[k].observation
  }

  lemma {:induction false} NoTimelyIsFound(external: seq<External>, time: Option<int>, mint: Text, decimals: int)
    requires !HasTimely(external, time, mint, decimals)
    ensures FindExternal(Keep(external, Current(time)), mint, decimals).None?
    decreases |external|
  {
    hide Keep, FindExternal, IsTimely;
    if external == [] {
      NothingIsFound(time, mint, decimals);
    } else {
      var x, rest := external[0], external[1..];
      assert external == [x] + rest && x in external;
      FindsFirst(x, rest, time, mint, decimals);
      NoTimelyIsFound(rest, time, mint, decimals);
    }
  }

  lemma {:induction false} NothingIsFound(time: Option<int>, mint: Text, decimals: int)
    ensures FindExternal(Keep([], Current(time)), mint, decimals).None?
  {
  }

  lemma {:induction false} ExactIsFirst(prices: seq<Price>, mint: Text, decimals: int)
    ensures FindExact(prices, mint, decimals).None? ==> forall k: nat :: !IsFirstExact(prices, mint, decimals, k)
    ensures forall k: nat :: IsFirstExact(prices, mint, decimals, k) ==> FindExact(prices, mint, decimals) == Some(prices[k])
    ensures FindExact(prices, mint, decimals).Some? ==> exists k: nat :: IsFirstExact(prices, mint, decimals, k)
    decreases |prices|
  {
    if prices != [] && !(prices[0].mint == mint && prices[0].decimals == decimals) {
      var rest := prices[1..];
      ExactIsFirst(rest, mint, decimals);
      forall k: nat | IsFirstExact(prices, mint, decimals, k) ensures FindExact(prices, mint, decimals) == Some(prices[k]) {
        assert IsFirstExact(rest, mint, decimals, k - 1);
      }
      if FindExact(rest, mint, decimals).Some? {
        var k: nat :| IsFirstExact(rest, mint, decimals, k);
        assert IsFirstExact(prices, mint, decimals, k + 1);
      }
    } else if prices != [] {
      assert IsFirstExact(prices, mint, decimals, 0);
    }
  }

  lemma {:induction false} FirstTimelyIsOne(external: seq<External>, time: Option<int>, mint: Text, decimals: int, i: nat, j: nat)
    requires IsFirstTimely(external, time, mint, decimals, i) && IsFirstTimely(external, time, mint, decimals, j)
    ensures i == j
  {
    hide IsTimely;
  }

  lemma {:induction false} CounterIs(basis: PriceBasis, external: seq<External>, time: Option<int>, s: Side, units: int,
                                     observation: Option<string>)
    ensures Counter(basis, Keep(external, Current(time)), s) == Some((units, observation)) <==>
              IsCounter(basis, external, time, s, units, observation)
  {
    hide Keep, FindExternal, FindExact, IsTimely, IsFirstExact, MintOf, DecimalsOf;
    var other := if s == Base then Quote else Base;
    var mint, decimals := MintOf(basis.bound, other), DecimalsOf(basis.bound, other);
    ExactIsFirst(basis.prices, mint, decimals);
    if HasTimely(external, time, mint, decimals) {
      var q :| q in external && IsTimely(q, time, mint, decimals);
      var i := FirstTimelyIsFound(external, time, mint, decimals, q);
      forall j: nat | IsFirstTimely(external, time, mint, decimals, j) ensures j == i {
        FirstTimelyIsOne(external, time, mint, decimals, i, j);
      }
    } else {
      NoTimelyIsFound(external, time, mint, decimals);
    }
  }

  /** Rounded down to a unit of 10^-36 dollars, within range. */
  predicate IsCurvePrice(units: int, spot: int, price: int) {
    && 0 < units < Decimal.Pow10(136) && 0 < price < Decimal.Pow10(136)
    && price * 1_000_000_000 <= units * spot < (price + 1) * 1_000_000_000
  }

  lemma {:induction false} CurvePriceIs(units: int, spot: int, price: int)
    requires spot > 0
    ensures MultiplyRatio(units, spot) == Done(price) <==> IsCurvePrice(units, spot, price)
  {
    hide Decimal.Pow10;
    var product := units * spot;
    assert product == product / NAD * NAD + product % NAD;
  }

  function SpotOf(basis: PriceBasis, s: Side): int {
    match basis.spot
    case None => 0
    case Some(spot) => if s == Base then spot.base else spot.quote
  }

  /** One asset's prices: its first timely quote; else the curve over the other
      asset's price; else what was captured for its mint. */
  ghost predicate IsPriced(basis: PriceBasis, external: seq<External>, time: Option<int>, s: Side, ps: seq<Price>) {
    var b := basis.bound;
    var mint := if s == Base then b.baseMint else b.quoteMint;
    var decimals := if s == Base then b.baseDecimals else b.quoteDecimals;
    if HasTimely(external, time, mint, decimals) then
      exists i: nat :: IsFirstTimely(external, time, mint, decimals, i)
                  && ps == [Price(mint, decimals, external[i].units, if external[i].estimated then ESTIMATED else OBSERVED,
                                  Some(external[i].id))]
    else if SpotOf(basis, s) > 0 && exists units, observation :: IsCounter(basis, external, time, s, units, observation) then
      exists units, observation :: IsCounter(basis, external, time, s, units, observation)
                                   && IsCurved(mint, decimals, units, SpotOf(basis, s), observation, ps)
    else AreOfMint(basis.prices, mint, ps)
  }

  /** The captured prices of a mint, in their order. */
  ghost predicate AreOfMint(prices: seq<Price>, mint: Text, ps: seq<Price>)
    decreases |prices|
  {
    if prices == [] then ps == []
    else if prices[0].mint == mint then ps != [] && ps[0] == prices[0] && AreOfMint(prices[1..], mint, ps[1..])
    else AreOfMint(prices[1..], mint, ps)
  }

  lemma {:induction false} CapturedAre(prices: seq<Price>, mint: Text, ps: seq<Price>)
    ensures Keep(prices, OfThisMint(mint)) == ps <==> AreOfMint(prices, mint, ps)
    decreases |prices|
  {
    if prices != [] {
      if prices[0].mint == mint {
        if ps != [] {
          CapturedAre(prices[1..], mint, ps[1..]);
          assert ps == [ps[0]] + ps[1..];
        }
      } else {
        CapturedAre(prices[1..], mint, ps);
        assert [] + Keep(prices[1..], OfThisMint(mint)) == Keep(prices[1..], OfThisMint(mint));
      }
    }
  }

  ghost predicate IsCurved(mint: Text, decimals: int, units: int, spot: int, observation: Option<string>, ps: seq<Price>) {
    |ps| == 1 && IsCurvePrice(units, spot, ps[0].units) && ps[0] == Price(mint, decimals, ps[0].units, DERIVED, observation)
  }

  lemma {:induction false} SideIsPriced(basis: PriceBasis, external: seq<External>, time: Option<int>, s: Side, ps: seq<Price>)
    ensures SidePrices(basis, Keep(external, Current(time)), s) == Done(ps) <==> IsPriced(basis, external, time, s, ps)
  {
    hide Keep, FindExternal, IsTimely, IsCounter, Counter, MultiplyRatio, IsCurvePrice;
    var mint, decimals := MintOf(basis.bound, s), DecimalsOf(basis.bound, s);
    if HasTimely(external, time, mint, decimals) {
      var q :| q in external && IsTimely(q, time, mint, decimals);
      var i := FirstTimelyIsFound(external, time, mint, decimals, q);
      TimelyIsOfAsset(external, time, mint, decimals, i);
      forall j: nat | IsFirstTimely(external, time, mint, decimals, j) ensures j == i {
        FirstTimelyIsOne(external, time, mint, decimals, i, j);
      }
    } else {
      NoTimelyIsFound(external, time, mint, decimals);
      CurveIsPriced(basis, external, time, s, ps);
    }
  }

  lemma {:induction false} TimelyIsOfAsset(external: seq<External>, time: Option<int>, mint: Text, decimals: int, i: nat)
    requires IsFirstTimely(external, time, mint, decimals, i)
    ensures external[i].mint == mint && external[i].decimals == decimals
  {
  }

  lemma {:induction false} CurveIsPriced(basis: PriceBasis, external: seq<External>, time: Option<int>, s: Side, ps: seq<Price>)
    requires !HasTimely(external, time, MintOf(basis.bound, s), DecimalsOf(basis.bound, s))
    requires FindExternal(Keep(external, Current(time)), MintOf(basis.bound, s), DecimalsOf(basis.bound, s)).None?
    ensures SidePrices(basis, Keep(external, Current(time)), s) == Done(ps) <==> IsPriced(basis, external, time, s, ps)
  {
    hide Keep, FindExternal, IsTimely, IsCounter, Counter, MultiplyRatio, IsCurvePrice, HasTimely;
    CapturedAre(basis.prices, MintOf(basis.bound, s), ps);
    var spot, counter := SpotOf(basis, s), Counter(basis, Keep(external, Current(time)), s);
    forall units, observation
      ensures counter == Some((units, observation)) <==> IsCounter(basis, external, time, s, units, observation)
    {
      CounterIs(basis, external, time, s, units, observation);
    }
    if counter.Some? {
      assert counter == Some((counter.value.0, counter.value.1));
      assert IsCounter(basis, external, time, s, counter.value.0, counter.value.1);
      if spot > 0 {
        CurveIsTaken(basis, external, time, s, counter.value, ps);
      }
    }
  }

  lemma {:induction false} CurveIsTaken(basis: PriceBasis, external: seq<External>, time: Option<int>, s: Side,
                                        counter: (int, Option<string>), ps: seq<Price>)
    requires FindExternal(Keep(external, Current(time)), MintOf(basis.bound, s), DecimalsOf(basis.bound, s)).None?
    requires Counter(basis, Keep(external, Current(time)), s) == Some(counter) && SpotOf(basis, s) > 0
    ensures SidePrices(basis, Keep(external, Current(time)), s) == Done(ps) <==>
            exists units, observation :: IsCounter(basis, external, time, s, units, observation)
              && IsCurved(MintOf(basis.bound, s), DecimalsOf(basis.bound, s), units, SpotOf(basis, s), observation, ps)
  {
    hide Keep, FindExternal, IsTimely, IsCounter, Counter, MultiplyRatio, IsCurvePrice, MintOf, DecimalsOf;
    var mint, decimals, spot := MintOf(basis.bound, s), DecimalsOf(basis.bound, s), SpotOf(basis, s);
    CounterIs(basis, external, time, s, counter.0, counter.1);
    assert counter == (counter.0, counter.1);
    if ps != [] {
      CurvePriceIs(counter.0, spot, ps[0].units);
    }
    if units, observation :| IsCounter(basis, external, time, s, units, observation)
                             && IsCurved(mint, decimals, units, spot, observation, ps)
    {
      CounterIs(basis, external, time, s, units, observation);
      assert ps == [ps[0]];
    }
    if SidePrices(basis, Keep(external, Current(time)), s) == Done(ps) {
      assert IsCurved(mint, decimals, counter.0, spot, counter.1, ps);
    }
  }

  /** At an event's time a basis holds the base asset's prices and then the quote
      asset's, and nothing else of it changes; there is none exactly when one of
      the two cannot be priced. */
  lemma {:induction false} AsOfExactly(basis: PriceBasis, external: seq<External>, time: Option<int>, r: PriceBasis)
    ensures AsOf(basis, external, time) == Done(r) <==>
            exists base, quote :: IsPriced(basis, external, time, Base, base) && IsPriced(basis, external, time, Quote, quote)
                                  && r == basis.(prices := base + quote)
  {
    hide SidePrices, IsPriced, Keep;
    var current := Keep(external, Current(time));
    var base, quote := SidePrices(basis, current, Base), SidePrices(basis, current, Quote);
    if base.Done? && quote.Done? {
      SideIsPriced(basis, external, time, Base, base.value);
      SideIsPriced(basis, external, time, Quote, quote.value);
    }
    if b, q :| IsPriced(basis, external, time, Base, b) && IsPriced(basis, external, time, Quote, q)
               && r == basis.(prices := b + q)
    {
      SideIsPriced(basis, external, time, Base, b);
      SideIsPriced(basis, external, time, Quote, q);
    }
  }

  // ----- what a value is -----

  ghost predicate IsFirstOf(prices: seq<Price>, mint: Text, k: nat) {
    k < |prices| && prices[k].mint == mint && forall j :: 0 <= j < k ==> prices[j].mint != mint
  }

  /** The first price listed for the asset's mint, which is one of the market's and
      has its decimals; None when there is no price. */
  ghost predicate IsQuoted(asset: Asset, price: Option<PriceBasis>, q: Option<Price>) {
    if price.None? then q.None?
    else
      var b, prices := price.value.bound, price.value.prices;
      var mint := match asset case OfMint(mint) => mint case OfSide(s) => if s == Base then b.baseMint else b.quoteMint;
      && (mint == b.baseMint || mint == b.quoteMint)
      && if forall j :: 0 <= j < |prices| ==> prices[j].mint != mint then q.None?
         else
           && q.Some? && (exists k: nat :: IsFirstOf(prices, mint, k) && q.value == prices[k])
           && q.value.decimals == (if mint == b.baseMint then b.baseDecimals else b.quoteDecimals)
           && 0 <= q.value.decimals <= 255 && q.value.units > 0
  }

  lemma {:induction false} FoundIsFirst(prices: seq<Price>, mint: Text)
    ensures FindQuote(prices, mint).None? <==> forall j :: 0 <= j < |prices| ==> prices[j].mint != mint
    ensures FindQuote(prices, mint).Some? ==>
              exists k: nat :: IsFirstOf(prices, mint, k) && FindQuote(prices, mint) == Some(prices[k])
    ensures forall k: nat :: IsFirstOf(prices, mint, k) ==> FindQuote(prices, mint) == Some(prices[k])
    decreases |prices|
  {
    if prices != [] {
      if prices[0].mint == mint {
        assert IsFirstOf(prices, mint, 0);
      } else {
        var rest := prices[1..];
        FoundIsFirst(rest, mint);
        assert forall j :: 0 < j < |prices| ==> prices[j] == rest[j - 1];
        if FindQuote(rest, mint).Some? {
          var k: nat :| IsFirstOf(rest, mint, k) && FindQuote(rest, mint) == Some(rest[k]);
          assert IsFirstOf(prices, mint, k + 1);
        }
        forall k: nat | IsFirstOf(prices, mint, k) ensures FindQuote(prices, mint) == Some(prices[k]) {
          assert IsFirstOf(rest, mint, k - 1);
        }
      }
    }
  }

  lemma {:induction false} LegIsQuoted(asset: Asset, price: Option<PriceBasis>, q: Option<Price>)
    ensures LegQuote(asset, price) == Done(q) <==> IsQuoted(asset, price, q)
  {
    hide FindQuote, IsFirstOf;
    if price.Some? {
      FoundIsFirst(price.value.prices, AssetMint(asset, price).value);
    }
  }

  /** An amount's value at a quote, rounded down to a unit. */
  predicate IsWorth(amount: nat, q: Price, usd: nat)
    requires q.decimals >= 0
  {
    var whole := Decimal.Pow10(q.decimals);
    usd * whole <= amount * q.units < (usd + 1) * whole
  }

  lemma {:induction false} WorthIs(amount: nat, q: Price, usd: nat)
    requires q.decimals >= 0 && q.units > 0
    ensures Worth(amount, q) == usd <==> IsWorth(amount, q, usd)
  {
    var d := Decimal.Pow10(q.decimals);
    Decimal.Pow10Positive(q.decimals);
    var units: nat := q.units;
    FloorAtLeast(amount * units, d, usd);
    FloorAtLeast(amount * units, d, usd + 1);
  }

  /** A leg's value and where its price is from. */
  ghost predicate LegValued(metric: Metric, amount: nat, asset: Asset, price: Option<PriceBasis>, q: Price, v: Valued) {
    && q.decimals >= 0 && price.Some? && v.usd.Some? && IsWorth(amount, q, v.usd.value)
    && v == Valued(metric, amount, asset, v.usd,
                   match price.value.capture { case None => None case Some(c) => Some(c.id) }, Some(q.quality), q.observation)
  }

  ghost predicate IsStablecoin(asset: Asset, price: Option<PriceBasis>) {
    price.Some? && (match asset
                    case OfMint(mint) => mint
                    case OfSide(s) => if s == Base then price.value.bound.baseMint else price.value.bound.quoteMint)
                   in price.value.stablecoins
  }

  /** A trade whose output alone is a stablecoin. */
  ghost predicate PaysCash(a: Amount, price: Option<PriceBasis>) {
    a.output.Some? && IsStablecoin(a.output.value.asset, price) && !IsStablecoin(a.asset, price)
  }

  /** Nothing is worth nothing; a trade is worth its cash when that is priced, and
      otherwise every amount is worth its own asset's price, or has none. */
  ghost predicate ValueGives(a: Amount, price: Option<PriceBasis>, v: Valued) {
    && a.amount <= U64
    && if a.amount == 0 then v == Valued(a.metric, 0, a.asset, Some(0), None, None, None)
       else exists own :: IsQuoted(a.asset, price, own)
                          && (if PaysCash(a, price) then CashValued(a, price, own, v) else OwnValued(a, price, own, v))
  }

  ghost predicate CashValued(a: Amount, price: Option<PriceBasis>, own: Option<Price>, v: Valued)
    requires a.output.Some?
  {
    var out := a.output.value;
    exists cash :: IsQuoted(out.asset, price, cash)
                   && (if cash.None? then OwnValued(a, price, own, v)
                       else out.amount <= U64 && LegValued(a.metric, out.amount, out.asset, price, cash.value, v))
  }

  ghost predicate OwnValued(a: Amount, price: Option<PriceBasis>, own: Option<Price>, v: Valued) {
    if own.None? then v == Valued(a.metric, a.amount, a.asset, None, None, None, None)
    else LegValued(a.metric, a.amount, a.asset, price, own.value, v)
  }

  lemma {:induction false} LegValuedIs(metric: Metric, amount: nat, asset: Asset, price: Option<PriceBasis>, v: Valued)
    requires LegQuote(asset, price).Done? && LegQuote(asset, price).value.Some? && amount <= U64
    ensures ValuedLeg(metric, amount, asset, price) == Done(Some(v)) <==>
              LegValued(metric, amount, asset, price, LegQuote(asset, price).value.value, v)
  {
    hide Worth, IsWorth, Decimal.Pow10;
    var q := LegQuote(asset, price).value.value;
    if v.usd.Some? {
      WorthIs(amount, q, v.usd.value);
    }
    WorthIs(amount, q, Worth(amount, q));
  }

  lemma {:induction false} ValueIsGiven(a: Amount, price: Option<PriceBasis>, v: Valued)
    ensures ValueOne(a, price) == Done(v) <==> ValueGives(a, price, v)
  {
    hide LegQuote, IsQuoted, ValuedLeg, LegValued;
    forall asset, q ensures LegQuote(asset, price) == Done(q) <==> IsQuoted(asset, price, q) {
      LegIsQuoted(asset, price, q);
    }
    LegOutcome(a.metric, a.amount, a.asset, price, v);
    if a.output.Some? {
      LegOutcome(a.metric, a.output.value.amount, a.output.value.asset, price, v);
    }
  }

  lemma {:induction false} LegOutcome(metric: Metric, amount: nat, asset: Asset, price: Option<PriceBasis>, v: Valued)
    ensures LegQuote(asset, price).Thrown? ==> ValuedLeg(metric, amount, asset, price).Thrown?
    ensures LegQuote(asset, price) == Done(None) ==> ValuedLeg(metric, amount, asset, price) == Done(None)
    ensures LegQuote(asset, price).Done? && LegQuote(asset, price).value.Some? ==>
              && (ValuedLeg(metric, amount, asset, price).Done? <==> amount <= U64)
              && (amount <= U64 ==>
                    ValuedLeg(metric, amount, asset, price).value.Some?
                    && (ValuedLeg(metric, amount, asset, price) == Done(Some(v)) <==>
                          LegValued(metric, amount, asset, price, LegQuote(asset, price).value.value, v)))
  {
    hide LegQuote, LegValued, Worth;
    if LegQuote(asset, price).Done? && LegQuote(asset, price).value.Some? {
      QuoteIsSound(asset, price);
      if amount <= U64 {
        LegValuedIs(metric, amount, asset, price, v);
      }
    }
  }

  lemma {:induction false} QuoteIsSound(asset: Asset, price: Option<PriceBasis>)
    requires LegQuote(asset, price).Done? && LegQuote(asset, price).value.Some?
    ensures price.Some? && LegQuote(asset, price).value.value.decimals >= 0 && LegQuote(asset, price).value.value.units > 0
  {
  }

  /** The snapshot is from an earlier slot and no later time; without one nothing
      is priced over a curve. */
  ghost predicate IsFromBefore(price: Option<PriceBasis>, eventSlot: int, time: int) {
    price.Some? ==>
      match price.value.capture
      case Some(c) => 0 <= c.slot < eventSlot && c.slot <= 0x1F_FFFF_FFFF_FFFF && c.blockTime.Some? && c.blockTime.value <= time
      case None => price.value.spot.None? && forall q :: q in price.value.prices ==> q.quality != DERIVED
  }

  /** The values of an event are exactly those its prices give, each on its own. */
  lemma {:induction false} ValuesExactly(amounts: seq<Amount>, price: Option<PriceBasis>, eventSlot: int,
                                         time: Option<int>, vs: seq<Valued>)
    ensures ValueAmounts(amounts, price, eventSlot, time) == Done(vs) <==>
              && 0 <= eventSlot <= 0x1F_FFFF_FFFF_FFFF && time.Some? && IsFromBefore(price, eventSlot, time.value)
              && |vs| == |amounts| && forall i :: 0 <= i < |vs| ==> ValueGives(amounts[i], price, vs[i])
  {
    hide ValueEach, ValueOne, ValueGives;
    EachIsValued(amounts, price, vs);
    forall i | 0 <= i < |amounts| && i < |vs|
      ensures ValueOne(amounts[i], price) == Done(vs[i]) <==> ValueGives(amounts[i], price, vs[i])
    {
      ValueIsGiven(amounts[i], price, vs[i]);
    }
    assert price.Some? ==> forall q :: q in price.value.prices ==> exists i :: 0 <= i < |price.value.prices| && price.value.prices[i] == q;
  }

  lemma {:induction false} EachIsValued(amounts: seq<Amount>, price: Option<PriceBasis>, vs: seq<Valued>)
    ensures ValueEach(amounts, price) == Done(vs) <==>
              |vs| == |amounts| && forall i :: 0 <= i < |vs| ==> ValueOne(amounts[i], price) == Done(vs[i])
    decreases |amounts|
  {
    hide ValueOne;
    if amounts != [] {
      if vs != [] {
        EachIsValued(amounts[1..], price, vs[1..]);
        assert vs == [vs[0]] + vs[1..];
        if |vs| == |amounts| && forall i :: 0 <= i < |vs| ==> ValueOne(amounts[i], price) == Done(vs[i]) {
          assert forall i :: 0 <= i < |vs[1..]| ==> ValueOne(amounts[1..][i], price) == Done(vs[1..][i]);
        }
      }
    }
  }

  /** No accepted value comes from a snapshot at or after the event's slot, or
      later than its time; without a snapshot nothing is priced over a curve. */
  lemma {:induction false} ValuesAreFromBefore(amounts: seq<Amount>, price: Option<PriceBasis>, eventSlot: int,
                                               time: Option<int>, i: nat)
    requires ValueAmounts(amounts, price, eventSlot, time).Done? && i < |amounts|
    ensures var v := ValueAmounts(amounts, price, eventSlot, time).value[i];
            && v.metric == amounts[i].metric
            && (v.capture.Some? || v.quality == Some(DERIVED) ==>
                  && price.Some? && price.value.capture.Some? && v.capture == Some(price.value.capture.value.id)
                  && 0 <= price.value.capture.value.slot < eventSlot
                  && price.value.capture.value.blockTime.Some? && price.value.capture.value.blockTime.value <= time.value)
  {
    hide ValueOne, ValueEach;
    ValuedFrom(amounts[i], price);
  }

  /** What is valued over a snapshot is valued over the price's own. */
  lemma {:induction false} ValuedFrom(a: Amount, price: Option<PriceBasis>)
    requires IsFounded(price) && ValueOne(a, price).Done?
    ensures var v := ValueOne(a, price).value;
            && v.metric == a.metric
            && (v.capture.Some? || v.quality == Some(DERIVED) ==>
                  price.Some? && price.value.capture.Some? && v.capture == Some(price.value.capture.value.id))
  {
    hide Worth, MintOf, DecimalsOf, IsStable;
  }

  /** A trade is valued once, by its cash: a priced stablecoin output of a
      non-stablecoin input gives amount, asset and dollars; else the input does. */
  lemma {:induction false} TradeIsValuedByItsCash(a: Amount, price: Option<PriceBasis>)
    requires a.output.Some? && a.amount > 0 && ValueOne(a, price).Done?
    ensures var v, out := ValueOne(a, price).value, a.output.value;
            var cash := IsStable(out.asset, price) && !IsStable(a.asset, price)
                        && LegQuote(out.asset, price).Done? && LegQuote(out.asset, price).value.Some?;
            && v.amount == (if cash then out.amount else a.amount) && v.asset == (if cash then out.asset else a.asset)
            && LegQuote(v.asset, price).Done?
            && v.usd == if LegQuote(v.asset, price).value.Some?
                        then Some(Worth(v.amount, LegQuote(v.asset, price).value.value)) else None
  {
    hide LegQuote, Worth;
  }

  /** An amount without an output leg is worth its own asset's price. */
  lemma {:induction false} ValuedInItsOwn(a: Amount, price: Option<PriceBasis>)
    requires a.output.None? && ValueOne(a, price).Done?
    ensures var usd := ValueOne(a, price).value.usd;
            if a.amount == 0 then usd == Some(0)
            else LegQuote(a.asset, price).Done?
                 && usd == if LegQuote(a.asset, price).value.Some?
                           then Some(Worth(a.amount, LegQuote(a.asset, price).value.value)) else None
  {
    hide LegQuote;
  }

  /** A fee value that covers its parts; a positive part is unpriced exactly
      when the fee is. */
  ghost predicate FeesNest(amounts: seq<Amount>, v: seq<Valued>) {
    |amounts| == |v| && |v| >= 4
    && if v[1].usd.Some?
       then v[2].usd.Some? && v[3].usd.Some? && v[2].usd.value + v[3].usd.value <= v[1].usd.value
       else forall k :: 2 <= k <= 3 ==> (v[k].usd.None? <==> amounts[k].amount > 0)
  }

  lemma {:induction false} TradeFeesNest(amounts: seq<Amount>, price: Option<PriceBasis>)
    requires |amounts| >= 4 && IsTrade(amounts[..4]) && ValueEach(amounts, price).Done?
    ensures FeesNest(amounts, ValueEach(amounts, price).value)
  {
    hide ValueOne, LegQuote, Worth;
    var v := ValueEach(amounts, price).value;
    forall k | 1 <= k <= 3 ensures ValueOne(amounts[k], price) == Done(v[k]) && amounts[..4][k] == amounts[k] {
    }
    ValuedInItsOwn(amounts[1], price);
    ValuedInItsOwn(amounts[2], price);
    ValuedInItsOwn(amounts[3], price);
    var quote := LegQuote(amounts[1].asset, price);
    if quote.Done? && quote.value.Some? {
      PricedLeg(amounts[1].asset, price);
      WorthNests(amounts[2].amount, amounts[3].amount, amounts[1].amount, quote.value.value);
      WorthOfNothing(quote.value.value);
    }
  }

  lemma {:induction false} PricedLeg(asset: Asset, price: Option<PriceBasis>)
    ensures LegQuote(asset, price).Done? && LegQuote(asset, price).value.Some? ==>
              LegQuote(asset, price).value.value.units > 0 && LegQuote(asset, price).value.value.decimals >= 0
  {
  }

  lemma {:induction false} WorthOfNothing(quote: Price)
    requires quote.decimals >= 0 && quote.units > 0
    ensures Worth(0, quote) == 0
  {
    Decimal.Pow10Positive(quote.decimals);
    FloorAtLeast(0, Decimal.Pow10(quote.decimals), 1);
  }

  // ----- a whole event -----

  /** For every accepted swap event, the retained and the compounded fee never
      exceed the fee in dollars, whatever the prices. */
  lemma {:induction false} SwapFeesNest(kind: Kind, payload: Value, slot: Value, swaps: SwapBasis, isKey: Keys,
                     basis: Option<PriceBasis>, external: seq<External>, eventSlot: int, time: Option<int>)
    ensures var values := ValueEvent(kind, payload, slot, swaps, isKey, basis, external, eventSlot, time);
            values.Done? ==>
              var parsed := Parse(kind, payload, slot, swaps, isKey).value;
              parsed.hasSwap ==> FeesNest(parsed.amounts, values.value)
  {
    hide Parse, ValueEach, IsTrade, FeesNest, InTime, IsFounded, Priced, OncePerMetric;
    if ValueEvent(kind, payload, slot, swaps, isKey, basis, external, eventSlot, time).Done?
       && Parse(kind, payload, slot, swaps, isKey).value.hasSwap {
      ParsedOnce(kind, payload, slot, swaps, isKey);
      var price := if basis.None? then None else Priced(basis.value, external, time).value;
      TradeFeesNest(Parse(kind, payload, slot, swaps, isKey).value.amounts, price);
    }
  }

  /** Late quotes change no value and no refusal of any event. */
  lemma {:induction false} LateQuotesNeverReprice(kind: Kind, payload: Value, slot: Value, swaps: SwapBasis,
                                                  isKey: Keys,
                               basis: Option<PriceBasis>, before: seq<External>, late: seq<External>, after: seq<External>,
                               eventSlot: int, time: Option<int>)
    requires forall q :: q in late ==> IsLate(q, time)
    ensures ValueEvent(kind, payload, slot, swaps, isKey, basis, before + (late + after), eventSlot, time)
         == ValueEvent(kind, payload, slot, swaps, isKey, basis, before + after, eventSlot, time)
  {
    hide Parse, ValueAmounts, AsOf;
    if basis.Some? {
      LateQuotesDoNotMatter(basis.value, before, late, after, time);
    }
  }
}
