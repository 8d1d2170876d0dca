/** `foldLeverageCashFlows` (api/src/services/duskLeverageCashFlows.ts): owner
    flows of one leverage position, independent of the order events arrive in. */
module CashFlows {
  import opened Options
  import opened TextOrder
  import opened Payloads
  import opened Sequences
  import Decimal

  const U128: nat := 0xFFFF_FFFF_FFFF_FFFF_FFFF_FFFF_FFFF_FFFF
  const MAX_SAFE := 0x1F_FFFF_FFFF_FFFF

  /** `amount`: a decimal string of at most 39 digits within `max`, or a throw. */
  function Amount(v: Value, max: nat): Option<nat> {
    Unsigned(v, 39, max)
  }

  datatype Event = Event(name: string, slot: int, payload: Payload)

  datatype Position = Position(address: Text, market: Text, openedSlot: int, marginRaw: Text, collateralRaw: Text, debtShares: Text)

  datatype Result = Unavailable | Available(contributed: nat, withdrawn: nat)

  const OPENED := "LeveragePositionOpened"
  const UPDATED := "LeveragePositionUpdated"
  const FLASH := "FlashLiquidationSettled"
  const EMERGENCY := "EmergencyLiquidationSettled"

  predicate IsSettlement(e: Event) { e.name == FLASH || e.name == EMERGENCY }

  /** One row's owner debit, owner credit and post-state. */
  datatype Flow = Flow(paid: nat, received: nat, collateral: nat, shares: nat)

  /** The row's payload state: nested for a settlement. */
  function StateOf(e: Event): Option<Payload> {
    if !IsSettlement(e) then Some(e.payload)
    else match Get(e.payload, "position_state")
      case Record(fields) => Some(fields)
      case _ => None
  }

  predicate RowMatches(owner: Text, position: Position, initial: Payload, sourceSlot: int, e: Event, state: Payload) {
    && -MAX_SAFE <= e.slot <= MAX_SAFE
    && Get(e.payload, "market") == String(position.market)
    && Get(state, "owner") == String(owner)
    && e.slot <= sourceSlot
    && (IsSettlement(e) ==> Get(e.payload, "leverage") == Bool(true) && Get(state, "closed") == Bool(false))
    && (!IsSettlement(e) && e.name != OPENED ==>
          && StrictEquals(Get(e.payload, "debt_asset_mint"), Get(initial, "debt_asset_mint"))
          && StrictEquals(Get(e.payload, "collateral_asset_mint"), Get(initial, "collateral_asset_mint")))
  }

  /** Owner debit and credit by event; None where the program gives up. */
  function Owner(e: Event): Option<(nat, nat)> {
    if e.name == UPDATED then
      var paid, received := Amount(Get(e.payload, "owner_debit"), U64), Amount(Get(e.payload, "owner_credit"), U64);
      if paid.Some? && received.Some? then Some((paid.value, received.value)) else None
    else if e.name == FLASH then
      var surplus := Amount(Get(e.payload, "owner_surplus"), U64);
      if surplus.Some? then Some((0, surplus.value)) else None
    else if e.name == EMERGENCY then
      match Get(e.payload, "quote")
      case Record(quote) =>
        var credit := Amount(Get(quote, "owner_credit"), U64);
        if credit.Some? then Some((0, credit.value)) else None
      case _ => None
    else if e.name == OPENED then Some((0, 0))
    else None
  }

  /** A row alone: everything the loop body needs of it but the running totals. */
  function FlowOf(owner: Text, position: Position, initial: Payload, sourceSlot: int, e: Event): Option<Flow> {
    match StateOf(e)
    case None => None
    case Some(state) =>
      if !RowMatches(owner, position, initial, sourceSlot, e, state) then None
      else match Owner(e)
        case None => None
        case Some(flows) =>
          var collateral := Amount(Get(state, if IsSettlement(e) then "leverage_collateral_amount" else "collateral_amount"), U64);
          var shares := Amount(Get(state, if IsSettlement(e) then "leverage_debt_shares" else "debt_shares"), U128);
          if collateral.Some? && shares.Some?
          then Some(Flow(flows.0, flows.1, collateral.value, shares.value)) else None
  }

  /** A valid row carries its flow in its own fields: debits and credits of an
      update, the owner's surplus or credit of a settlement, nothing of the
      opening, and the state it leaves. */
  lemma {:induction false} FlowReadsBack(owner: Text, position: Position, initial: Payload, sourceSlot: int, e: Event)
    ensures var flow := FlowOf(owner, position, initial, sourceSlot, e);
            flow.Some? ==>
              && (e.name == UPDATED ==> Get(e.payload, "owner_debit") == Printed(flow.value.paid)
                                        && Get(e.payload, "owner_credit") == Printed(flow.value.received))
              && (e.name == FLASH ==> Get(e.payload, "owner_surplus") == Printed(flow.value.received))
              && (e.name == EMERGENCY ==> Get(e.payload, "quote").Record?
                                          && Get(Get(e.payload, "quote").fields, "owner_credit") == Printed(flow.value.received))
              && (e.name != UPDATED ==> flow.value.paid == 0)
              && (e.name == OPENED ==> flow.value.received == 0)
    ensures var flow := FlowOf(owner, position, initial, sourceSlot, e);
            flow.Some? ==>
              if IsSettlement(e) then
                && Get(e.payload, "position_state").Record?
                && Get(Get(e.payload, "position_state").fields, "leverage_collateral_amount") == Printed(flow.value.collateral)
                && Get(Get(e.payload, "position_state").fields, "leverage_debt_shares") == Printed(flow.value.shares)
              else
                && Get(e.payload, "collateral_amount") == Printed(flow.value.collateral)
                && Get(e.payload, "debt_shares") == Printed(flow.value.shares)
  {
    hide RowMatches, Unsigned;
    var state := StateOf(e);
    if state.Some? {
      UnsignedReadsBack(Get(e.payload, "owner_debit"), 39, U64);
      UnsignedReadsBack(Get(e.payload, "owner_credit"), 39, U64);
      UnsignedReadsBack(Get(e.payload, "owner_surplus"), 39, U64);
      if Get(e.payload, "quote").Record? {
        UnsignedReadsBack(Get(Get(e.payload, "quote").fields, "owner_credit"), 39, U64);
      }
      UnsignedReadsBack(Get(state.value, "collateral_amount"), 39, U64);
      UnsignedReadsBack(Get(state.value, "debt_shares"), 39, U128);
      UnsignedReadsBack(Get(state.value, "leverage_collateral_amount"), 39, U64);
      UnsignedReadsBack(Get(state.value, "leverage_debt_shares"), 39, U128);
    }
  }

  // ----- ... and exactly those fields -----

  /** The field is this amount, printed. */
  predicate Gives(p: Payload, name: string, n: nat, max: nat) {
    Get(p, name) == Printed(n) && n <= max
  }

  lemma {:induction false} Pow10OfDigits()
    ensures U64 < Decimal.Pow10(39) && U128 < Decimal.Pow10(39)
  {
    assert Decimal.Pow10(39) == 1000_000_000_000_000_000_000_000_000_000_000_000_000 by {
      assert Decimal.Pow10(4) == 10_000;
      assert Decimal.Pow10(8) == 100_000_000;
      assert Decimal.Pow10(12) == 1_000_000_000_000;
      assert Decimal.Pow10(16) == 10_000_000_000_000_000;
      assert Decimal.Pow10(20) == 100_000_000_000_000_000_000;
      assert Decimal.Pow10(24) == 1_000_000_000_000_000_000_000_000;
      assert Decimal.Pow10(28) == 10_000_000_000_000_000_000_000_000_000;
      assert Decimal.Pow10(32) == 100_000_000_000_000_000_000_000_000_000_000;
      assert Decimal.Pow10(36) == 1_000_000_000_000_000_000_000_000_000_000_000_000;
    }
  }

  lemma {:induction false} AmountGives(v: Value, max: nat, n: nat)
    requires max == U64 || max == U128
    ensures Amount(v, max) == Some(n) <==> v == Printed(n) && n <= max
  {
    UnsignedReadsBack(v, 39, max);
    if v == Printed(n) && n <= max {
      Pow10OfDigits();
      PrintedIsUnsigned(n, 39, max);
    }
  }

  /** The row's own state names the owner and gives what the row leaves. */
  predicate OwnState(p: Payload, owner: Text, f: Flow) {
    Get(p, "owner") == String(owner) && Gives(p, "collateral_amount", f.collateral, U64) && Gives(p, "debt_shares", f.shares, U128)
  }

  /** A leveraged settlement of a position that stays open, with its nested state. */
  predicate SettledState(p: Payload, owner: Text, f: Flow) {
    && Get(p, "leverage") == Bool(true)
    && Get(p, "position_state").Record?
    && var s := Get(p, "position_state").fields;
       && Get(s, "closed") == Bool(false) && Get(s, "owner") == String(owner)
       && Gives(s, "leverage_collateral_amount", f.collateral, U64) && Gives(s, "leverage_debt_shares", f.shares, U128)
  }

  /** The opening's mints, as texts, numbers or flags; an object never equals one. */
  predicate SameMints(p: Payload, initial: Payload) {
    && Get(p, "debt_asset_mint") == Get(initial, "debt_asset_mint")
    && Get(p, "collateral_asset_mint") == Get(initial, "collateral_asset_mint")
    && !Get(p, "debt_asset_mint").Record? && !Get(p, "debt_asset_mint").List?
    && !Get(p, "collateral_asset_mint").Record? && !Get(p, "collateral_asset_mint").List?
  }

  /** The row is of this market and slot range, and gives this flow kind by kind. */
  predicate RowGives(owner: Text, position: Position, initial: Payload, sourceSlot: int, e: Event, f: Flow) {
    && -MAX_SAFE <= e.slot <= MAX_SAFE && e.slot <= sourceSlot
    && Get(e.payload, "market") == String(position.market)
    && (match e.name
        case "LeveragePositionOpened" => OwnState(e.payload, owner, f) && f.paid == 0 && f.received == 0
        case "LeveragePositionUpdated" =>
          && OwnState(e.payload, owner, f) && SameMints(e.payload, initial)
          && Gives(e.payload, "owner_debit", f.paid, U64) && Gives(e.payload, "owner_credit", f.received, U64)
        case "FlashLiquidationSettled" =>
          SettledState(e.payload, owner, f) && f.paid == 0 && Gives(e.payload, "owner_surplus", f.received, U64)
        case "EmergencyLiquidationSettled" =>
          && SettledState(e.payload, owner, f) && f.paid == 0
          && Get(e.payload, "quote").Record? && Gives(Get(e.payload, "quote").fields, "owner_credit", f.received, U64)
        case _ => false)
  }

  lemma {:induction false} OwnStateIs(p: Payload, owner: Text, f: Flow)
    ensures OwnState(p, owner, f) <==>
              && Get(p, "owner") == String(owner) && Amount(Get(p, "collateral_amount"), U64) == Some(f.collateral)
              && Amount(Get(p, "debt_shares"), U128) == Some(f.shares)
  {
    hide Amount, Printed;
    AmountGives(Get(p, "collateral_amount"), U64, f.collateral);
    AmountGives(Get(p, "debt_shares"), U128, f.shares);
  }

  lemma {:induction false} SettledStateIs(p: Payload, owner: Text, f: Flow)
    ensures SettledState(p, owner, f) <==>
              && Get(p, "leverage") == Bool(true) && Get(p, "position_state").Record?
              && var s := Get(p, "position_state").fields;
                 && Get(s, "closed") == Bool(false) && Get(s, "owner") == String(owner)
                 && Amount(Get(s, "leverage_collateral_amount"), U64) == Some(f.collateral)
                 && Amount(Get(s, "leverage_debt_shares"), U128) == Some(f.shares)
  {
    hide Amount, Printed;
    if Get(p, "position_state").Record? {
      var s := Get(p, "position_state").fields;
      AmountGives(Get(s, "leverage_collateral_amount"), U64, f.collateral);
      AmountGives(Get(s, "leverage_debt_shares"), U128, f.shares);
    }
  }

  /** A row has a flow exactly when its fields give it. */
  lemma {:induction false} FlowIsItsFields(owner: Text, position: Position, initial: Payload, sourceSlot: int, e: Event,
                                           f: Flow)
    ensures FlowOf(owner, position, initial, sourceSlot, e) == Some(f) <==> RowGives(owner, position, initial, sourceSlot, e, f)
  {
    hide *;
    if IsSettlement(e) {
      SettlementIsItsFields(owner, position, initial, sourceSlot, e, f);
    } else {
      UpdateIsItsFields(owner, position, initial, sourceSlot, e, f);
    }
  }

  lemma {:induction false} SettlementIsItsFields(owner: Text, position: Position, initial: Payload, sourceSlot: int,
                                                 e: Event, f: Flow)
    requires IsSettlement(e)
    ensures FlowOf(owner, position, initial, sourceSlot, e) == Some(f) <==> RowGives(owner, position, initial, sourceSlot, e, f)
  {
    hide Amount, Printed, SettledState, OwnState;
    SettledStateIs(e.payload, owner, f);
    AmountGives(Get(e.payload, "owner_surplus"), U64, f.received);
    if Get(e.payload, "quote").Record? {
      AmountGives(Get(Get(e.payload, "quote").fields, "owner_credit"), U64, f.received);
    }
  }

  lemma {:induction false} UpdateIsItsFields(owner: Text, position: Position, initial: Payload, sourceSlot: int,
                                             e: Event, f: Flow)
    requires !IsSettlement(e)
    ensures FlowOf(owner, position, initial, sourceSlot, e) == Some(f) <==> RowGives(owner, position, initial, sourceSlot, e, f)
  {
    hide Amount, Printed, OwnState, SettledState;
    OwnStateIs(e.payload, owner, f);
    AmountGives(Get(e.payload, "owner_debit"), U64, f.paid);
    AmountGives(Get(e.payload, "owner_credit"), U64, f.received);
  }

  /** Rows of this position since it opened. */
  function Concerns(position: Position): Event -> bool {
    (e: Event) => Get(e.payload, "position") == String(position.address) && e.slot >= position.openedSlot
  }

  function Opens(): Event -> bool {
    (e: Event) => e.name == OPENED
  }

  // ----- the closed form -----

  /** Sum of a flow over the rows that have one. */
  function Total(part: Flow -> nat, flows: Event -> Option<Flow>, rows: seq<Event>): nat
    decreases |rows|
  {
    if rows == [] then 0
    else (if flows(rows[0]).Some? then part(flows(rows[0]).value) else 0) + Total(part, flows, rows[1..])
  }

  function Paid(): Flow -> nat { (f: Flow) => f.paid }

  function Received(): Flow -> nat { (f: Flow) => f.received }

  /** The highest slot, not below -1. */
  function Latest(rows: seq<Event>): (m: int)
    ensures m >= -1
    ensures forall e :: e in rows ==> e.slot <= m
    ensures m == -1 || exists e :: e in rows && e.slot == m
  {
    if rows == [] then -1
    else
      var rest := Latest(rows[1..]);
      assert rows == [rows[0]] + rows[1..];
      if rows[0].slot > rest then rows[0].slot else rest
  }

  function Flows(owner: Text, position: Position, initial: Payload, sourceSlot: int): Event -> Option<Flow> {
    (e: Event) => FlowOf(owner, position, initial, sourceSlot, e)
  }

  predicate Starts(position: Position, openings: seq<Event>, sourceSlot: int) {
    && sourceSlot >= position.openedSlot
    && |openings| == 1
    && openings[0].slot == position.openedSlot
    && Amount(Get(openings[0].payload, "margin_amount"), U64).Some?
    && Amount(Get(openings[0].payload, "margin_amount"), U64) == Amount(String(position.marginRaw), U64)
  }

  predicate AccountMatches(position: Position, collateral: nat, shares: nat) {
    && Amount(String(position.collateralRaw), U64) == Some(collateral)
    && Amount(String(position.debtShares), U128) == Some(shares)
  }

  /** Some row at the highest slot leaves the account as it is now. */
  ghost predicate EndsAtAccount(position: Position, flows: Event -> Option<Flow>, rows: seq<Event>) {
    exists e :: e in rows && e.slot == Latest(rows) && flows(e).Some?
                && AccountMatches(position, flows(e).value.collateral, flows(e).value.shares)
  }

  ghost predicate AllValid(flows: Event -> Option<Flow>, rows: seq<Event>) {
    forall j :: 0 <= j < |rows| ==> flows(rows[j]).Some?
  }

  /** Every row is valid, both totals fit u128 and some row at the highest slot
      leaves the account's state; then the totals are the sums. No order and no
      running total is mentioned. */
  ghost function Settled(position: Position, flows: Event -> Option<Flow>, margin: nat, rows: seq<Event>): Result {
    var contributed, withdrawn := margin + Total(Paid(), flows, rows), Total(Received(), flows, rows);
    if AllValid(flows, rows) && contributed <= U128 && withdrawn <= U128 && EndsAtAccount(position, flows, rows)
    then Available(contributed, withdrawn) else Unavailable
  }

  /** The fold's meaning: one matching opening, then `Settled` over its rows. */
  ghost function ClosedForm(owner: Text, position: Position, events: seq<Event>, sourceSlot: int): Result {
    var rows := Keep(events, Concerns(position));
    var openings := Keep(rows, Opens());
    if !Starts(position, openings, sourceSlot) then Unavailable
    else Settled(position, Flows(owner, position, openings[0].payload, sourceSlot),
                 Amount(String(position.marginRaw), U64).value, rows)
  }

  // ----- the loop -----

  lemma {:induction false} TotalSplits(part: Flow -> nat, flows: Event -> Option<Flow>, a: seq<Event>, b: seq<Event>)
    ensures Total(part, flows, a + b) == Total(part, flows, a) + Total(part, flows, b)
    decreases |a|
  {
    if a == [] {
      assert a + b == b;
    } else {
      assert (a + b)[1..] == a[1..] + b;
      TotalSplits(part, flows, a[1..], b);
    }
  }

  lemma {:induction false} LatestIs(rows: seq<Event>, m: int)
    requires m >= -1 && forall e :: e in rows ==> e.slot <= m
    requires m == -1 || exists e :: e in rows && e.slot == m
    ensures m == Latest(rows)
  {
  }

  function Post(f: Flow): (nat, nat) { (f.collateral, f.shares) }

  /** Post-states of the rows at one slot, in order. */
  function PostsAt(flows: Event -> Option<Flow>, rows: seq<Event>, slot: int): seq<(nat, nat)>
    decreases |rows|
  {
    if rows == [] then []
    else PostIf(flows, rows[0], slot) + PostsAt(flows, rows[1..], slot)
  }

  function NextStates(states: seq<(nat, nat)>, lastSlot: int, slot: int, post: (nat, nat)): seq<(nat, nat)> {
    if slot > lastSlot then [post] else if slot == lastSlot then states + [post] else states
  }

  function Later(a: int, b: int): int {
    if b > a then b else a
  }

  lemma {:induction false} LatestStep(done: seq<Event>, e: Event)
    ensures Latest(done + [e]) == Later(Latest(done), e.slot)
  {
    if Latest(done) != -1 {
      var x :| x in done && x.slot == Latest(done);
      assert x in done + [e];
    }
    assert e in done + [e];
    LatestIs(done + [e], Later(Latest(done), e.slot));
  }

  function PostIf(flows: Event -> Option<Flow>, e: Event, slot: int): seq<(nat, nat)> {
    if e.slot == slot && flows(e).Some? then [Post(flows(e).value)] else []
  }

  lemma {:induction false} PostsFirst(flows: Event -> Option<Flow>, e: Event, rest: seq<Event>, slot: int)
    ensures PostsAt(flows, [e] + rest, slot) == PostIf(flows, e, slot) + PostsAt(flows, rest, slot)
  {
    assert ([e] + rest)[1..] == rest;
  }

  lemma {:induction false} PostsNext(flows: Event -> Option<Flow>, done: seq<Event>, e: Event, slot: int)
    ensures PostsAt(flows, done + [e], slot) == PostsAt(flows, done, slot) + PostIf(flows, e, slot)
    decreases |done|
  {
    if done == [] {
      assert done + [e] == [e] + [];
      PostsFirst(flows, e, [], slot);
    } else {
      assert done == [done[0]] + done[1..];
      assert done + [e] == [done[0]] + (done[1..] + [e]);
      PostsNext(flows, done[1..], e, slot);
      PostsFirst(flows, done[0], done[1..] + [e], slot);
      PostsFirst(flows, done[0], done[1..], slot);
    }
  }

  lemma {:induction false} PostsAbove(flows: Event -> Option<Flow>, rows: seq<Event>, slot: int)
    requires forall e :: e in rows ==> e.slot < slot
    ensures PostsAt(flows, rows, slot) == []
    decreases |rows|
  {
    if rows != [] {
      assert rows == [rows[0]] + rows[1..];
      PostsAbove(flows, rows[1..], slot);
    }
  }

  lemma {:induction false} PostsAre(flows: Event -> Option<Flow>, rows: seq<Event>, slot: int, st: (nat, nat))
    ensures st in PostsAt(flows, rows, slot)
       <==> exists e :: e in rows && e.slot == slot && flows(e).Some? && Post(flows(e).value) == st
    decreases |rows|
  {
    if rows != [] {
      assert rows == [rows[0]] + rows[1..];
      PostsAre(flows, rows[1..], slot, st);
    }
  }

  lemma {:induction false} StatesStep(flows: Event -> Option<Flow>, done: seq<Event>, e: Event)
    requires flows(e).Some?
    ensures PostsAt(flows, done + [e], Latest(done + [e]))
         == NextStates(PostsAt(flows, done, Latest(done)), Latest(done), e.slot, Post(flows(e).value))
  {
    LatestStep(done, e);
    PostsNext(flows, done, e, Latest(done + [e]));
    if e.slot > Latest(done) {
      PostsAbove(flows, done, e.slot);
    }
  }

  lemma {:induction false} StatesDecide(position: Position, flows: Event -> Option<Flow>, rows: seq<Event>)
    ensures (exists st :: st in PostsAt(flows, rows, Latest(rows)) && AccountMatches(position, st.0, st.1))
       <==> EndsAtAccount(position, flows, rows)
  {
    if st :| st in PostsAt(flows, rows, Latest(rows)) && AccountMatches(position, st.0, st.1) {
      PostsAre(flows, rows, Latest(rows), st);
    }
    if EndsAtAccount(position, flows, rows) {
      var e :| e in rows && e.slot == Latest(rows) && flows(e).Some?
               && AccountMatches(position, flows(e).value.collateral, flows(e).value.shares);
      PostsAre(flows, rows, Latest(rows), Post(flows(e).value));
    }
  }

  /** The loop's variables after the rows of a prefix. */
  ghost predicate Running(flows: Event -> Option<Flow>, margin: nat, done: seq<Event>,
                          contributed: nat, withdrawn: nat, lastSlot: int, states: seq<(nat, nat)>) {
    && AllValid(flows, done)
    && contributed == margin + Total(Paid(), flows, done)
    && withdrawn == Total(Received(), flows, done)
    && lastSlot == Latest(done)
    && states == PostsAt(flows, done, lastSlot)
  }

  lemma {:induction false} TotalNext(part: Flow -> nat, flows: Event -> Option<Flow>, done: seq<Event>, e: Event)
    requires flows(e).Some?
    ensures Total(part, flows, done + [e]) == Total(part, flows, done) + part(flows(e).value)
  {
    TotalSplits(part, flows, done, [e]);
    assert Total(part, flows, [e]) == part(flows(e).value) + Total(part, flows, [e][1..]);
  }

  lemma {:induction false} RunningStart(flows: Event -> Option<Flow>, margin: nat)
    ensures Running(flows, margin, [], margin, 0, -1, [])
  {
  }

  lemma {:induction false} RunningStep(flows: Event -> Option<Flow>, margin: nat, done: seq<Event>, e: Event,
                    contributed: nat, withdrawn: nat, lastSlot: int, states: seq<(nat, nat)>)
    requires flows(e).Some? && Running(flows, margin, done, contributed, withdrawn, lastSlot, states)
    ensures Running(flows, margin, done + [e], contributed + flows(e).value.paid, withdrawn + flows(e).value.received,
                    Later(lastSlot, e.slot), NextStates(states, lastSlot, e.slot, Post(flows(e).value)))
  {
    TotalNext(Paid(), flows, done, e);
    TotalNext(Received(), flows, done, e);
    StatesStep(flows, done, e);
    LatestStep(done, e);
  }

  /** Flows are never negative, so a prefix that overflows means the total does. */
  lemma {:induction false} PrefixIsNoMore(part: Flow -> nat, flows: Event -> Option<Flow>, rows: seq<Event>, i: nat)
    requires i <= |rows|
    ensures Total(part, flows, rows[..i]) <= Total(part, flows, rows)
  {
    assert rows == rows[..i] + rows[i..];
    TotalSplits(part, flows, rows[..i], rows[i..]);
  }

  /** Where the loop gives up on the rows. */
  ghost predicate GivesUp(flows: Event -> Option<Flow>, margin: nat, rows: seq<Event>) {
    !AllValid(flows, rows) || margin + Total(Paid(), flows, rows) > U128 || Total(Received(), flows, rows) > U128
  }

  /** A running total over u128 already decides. */
  lemma {:induction false} OverflowGivesUp(flows: Event -> Option<Flow>, margin: nat, rows: seq<Event>, i: nat)
    requires i <= |rows|
    requires margin + Total(Paid(), flows, rows[..i]) > U128 || Total(Received(), flows, rows[..i]) > U128
    ensures GivesUp(flows, margin, rows)
  {
    PrefixIsNoMore(Paid(), flows, rows, i);
    PrefixIsNoMore(Received(), flows, rows, i);
  }

  datatype Totals = Totals(contributed: nat, withdrawn: nat, states: seq<(nat, nat)>)

  /** The loop over the rows of the position. */
  method Accumulate(flows: Event -> Option<Flow>, margin: nat, rows: seq<Event>) returns (r: Option<Totals>)
    requires margin <= U128
    ensures r.None? <==> GivesUp(flows, margin, rows)
    ensures r.Some? ==> Running(flows, margin, rows, r.value.contributed, r.value.withdrawn, Latest(rows), r.value.states)
  {
    hide Total, PostsAt, Latest;
    var contributed: nat, withdrawn: nat := margin, 0;
    var lastSlot, states: seq<(nat, nat)> := -1, [];
    RunningStart(flows, margin);
    assert rows[..0] == [];
    var i := 0;
    while i < |rows|
      invariant i <= |rows|
      invariant Running(flows, margin, rows[..i], contributed, withdrawn, lastSlot, states)
      invariant contributed <= U128 && withdrawn <= U128
    {
      var row := rows[i];
      var flow := flows(row);
      if flow.None? {
        return None;
      }
      RunningStep(flows, margin, rows[..i], row, contributed, withdrawn, lastSlot, states);
      assert rows[..i] + [row] == rows[..i + 1];
      contributed, withdrawn := contributed + flow.value.paid, withdrawn + flow.value.received;
      if contributed > U128 || withdrawn > U128 {
        OverflowGivesUp(flows, margin, rows, i + 1);
        return None;
      }
      if row.slot > lastSlot {
        lastSlot, states := row.slot, [Post(flow.value)];
      } else if row.slot == lastSlot {
        states := states + [Post(flow.value)];
      }
      i := i + 1;
    }
    assert rows[..|rows|] == rows;
    return Some(Totals(contributed, withdrawn, states));
  }

  method Fold(owner: Text, position: Position, events: seq<Event>, sourceSlot: int) returns (r: Result)
    ensures r == ClosedForm(owner, position, events, sourceSlot)
  {
    hide Keep, Total, PostsAt, Latest;
    var rows := Keep(events, Concerns(position));
    var openings := Keep(rows, Opens());
    if !Starts(position, openings, sourceSlot) {
      return Unavailable;
    }
    var flows := Flows(owner, position, openings[0].payload, sourceSlot);
    var totals := Accumulate(flows, Amount(String(position.marginRaw), U64).value, rows);
    if totals.None? {
      return Unavailable;
    }
    StatesDecide(position, flows, rows);
    if !exists st :: st in totals.value.states && AccountMatches(position, st.0, st.1) {
      return Unavailable;
    }
    return Available(totals.value.contributed, totals.value.withdrawn);
  }

  // ----- the result, read off the events -----

  function PaidBy(flows: seq<Flow>): nat {
    if flows == [] then 0 else flows[0].paid + PaidBy(flows[1..])
  }

  function ReceivedBy(flows: seq<Flow>): nat {
    if flows == [] then 0 else flows[0].received + ReceivedBy(flows[1..])
  }

  /** This position's events since it opened. */
  function Mine(position: Position): Event -> bool {
    (e: Event) => Get(e.payload, "position") == String(position.address) && position.openedSlot <= e.slot
  }

  /** One opening among the rows, at the opened slot and with the account's margin. */
  predicate OpensAt(position: Position, rows: seq<Event>, o: nat, margin: nat) {
    && o < |rows| && rows[o].name == "LeveragePositionOpened"
    && (forall j :: 0 <= j < |rows| && j != o ==> rows[j].name != "LeveragePositionOpened")
    && rows[o].slot == position.openedSlot
    && Gives(rows[o].payload, "margin_amount", margin, U64) && position.marginRaw == Decimal.Digits(margin)
  }

  /** A row at the highest slot leaves the account's collateral and debt. */
  predicate EndsAs(position: Position, rows: seq<Event>, flows: seq<Flow>, last: nat)
    requires |flows| == |rows|
  {
    && last < |rows| && -1 <= rows[last].slot && (forall j :: 0 <= j < |rows| ==> rows[j].slot <= rows[last].slot)
    && position.collateralRaw == Decimal.Digits(flows[last].collateral)
    && position.debtShares == Decimal.Digits(flows[last].shares)
  }

  /** The position's history accounts for these totals. */
  ghost predicate Reconciles(owner: Text, position: Position, rows: seq<Event>, sourceSlot: int, flows: seq<Flow>, o: nat,
                             margin: nat, last: nat) {
    && position.openedSlot <= sourceSlot && |flows| == |rows| && OpensAt(position, rows, o, margin)
    && (forall j :: 0 <= j < |rows| ==> RowGives(owner, position, rows[o].payload, sourceSlot, rows[j], flows[j]))
    && EndsAs(position, rows, flows, last)
    && margin + PaidBy(flows) <= U128 && ReceivedBy(flows) <= U128
  }

  lemma {:induction false} TotalsAre(flows: Event -> Option<Flow>, rows: seq<Event>, fs: seq<Flow>)
    requires |fs| == |rows| && forall j :: 0 <= j < |rows| ==> flows(rows[j]) == Some(fs[j])
    ensures Total(Paid(), flows, rows) == PaidBy(fs) && Total(Received(), flows, rows) == ReceivedBy(fs)
    decreases |rows|
  {
    if rows != [] {
      TotalsAre(flows, rows[1..], fs[1..]);
    }
  }

  lemma {:induction false} KeepOne(rows: seq<Event>, o: nat)
    requires o < |rows| && rows[o].name == OPENED && forall j :: 0 <= j < |rows| && j != o ==> rows[j].name != OPENED
    ensures Keep(rows, Opens()) == [rows[o]]
  {
    var a, b := rows[..o], rows[o + 1..];
    assert rows == a + ([rows[o]] + b);
    KeepSplits(a, [rows[o]] + b, Opens());
    KeepFirst(rows[o], b, Opens());
    forall x | x in a ensures !Opens()(x) {
    }
    forall x | x in b ensures !Opens()(x) {
    }
    KeepNone(a, Opens());
    KeepNone(b, Opens());
  }

  lemma {:induction false} OneKept(rows: seq<Event>) returns (o: nat)
    requires |Keep(rows, Opens())| == 1
    ensures o < |rows| && rows[o].name == OPENED && Keep(rows, Opens())[0] == rows[o]
    ensures forall j :: 0 <= j < |rows| && j != o ==> rows[j].name != OPENED
  {
    var kept := Keep(rows, Opens());
    assert kept[0] in kept && Opens()(kept[0]);
    o :| 0 <= o < |rows| && rows[o] == kept[0];
    forall j | 0 <= j < |rows| && j != o ensures rows[j].name != OPENED {
      if rows[j].name == OPENED {
        TwoKept(rows, if j < o then j else o, if j < o then o else j);
      }
    }
  }

  lemma {:induction false} TwoKept(rows: seq<Event>, i: nat, j: nat)
    requires i < j < |rows| && rows[i].name == OPENED && rows[j].name == OPENED
    ensures |Keep(rows, Opens())| >= 2
  {
    var a, b := rows[..j], rows[j..];
    assert rows == a + b && a[i] == rows[i] && b[0] == rows[j];
    KeepSplits(a, b, Opens());
    assert Opens()(a[i]) && a[i] in a && Opens()(b[0]) && b[0] in b;
    assert a[i] in Keep(a, Opens()) && b[0] in Keep(b, Opens());
  }

  lemma {:induction false} MineConcerns(position: Position, events: seq<Event>)
    ensures Keep(events, Mine(position)) == Keep(events, Concerns(position))
  {
    if events != [] {
      MineConcerns(position, events[1..]);
      assert Mine(position)(events[0]) == Concerns(position)(events[0]);
    }
  }

  lemma {:induction false} StartsIs(position: Position, rows: seq<Event>, sourceSlot: int, o: nat, margin: nat)
    requires o < |rows| && rows[o].name == OPENED
    requires forall j :: 0 <= j < |rows| && j != o ==> rows[j].name != OPENED
    ensures Starts(position, [rows[o]], sourceSlot) && Amount(String(position.marginRaw), U64) == Some(margin) <==>
              position.openedSlot <= sourceSlot && OpensAt(position, rows, o, margin)
  {
    hide Amount;
    AmountGives(Get(rows[o].payload, "margin_amount"), U64, margin);
    AmountGives(String(position.marginRaw), U64, margin);
  }

  lemma {:induction false} AccountIs(position: Position, f: Flow)
    requires f.collateral <= U64 && f.shares <= U128
    ensures AccountMatches(position, f.collateral, f.shares) <==>
              position.collateralRaw == Decimal.Digits(f.collateral) && position.debtShares == Decimal.Digits(f.shares)
  {
    hide Amount;
    AmountGives(String(position.collateralRaw), U64, f.collateral);
    AmountGives(String(position.debtShares), U128, f.shares);
  }

  lemma {:induction false} GivenIsInRange(owner: Text, position: Position, initial: Payload, sourceSlot: int, e: Event,
                                          f: Flow)
    requires RowGives(owner, position, initial, sourceSlot, e, f)
    ensures f.collateral <= U64 && f.shares <= U128 && e.slot >= -MAX_SAFE
  {
  }

  lemma {:induction false} OpensOnce(position: Position, rows: seq<Event>, o: nat, margin: nat)
    requires OpensAt(position, rows, o, margin)
    ensures o < |rows| && rows[o].name == OPENED && forall j :: 0 <= j < |rows| && j != o ==> rows[j].name != OPENED
  {
    hide Printed;
  }

  /** What reconciles is what the fold gives. */
  lemma {:induction false} ReconciledIsAvailable(owner: Text, position: Position, events: seq<Event>, sourceSlot: int,
                                                 flows: seq<Flow>, o: nat, margin: nat, last: nat)
    requires Reconciles(owner, position, Keep(events, Mine(position)), sourceSlot, flows, o, margin, last)
    ensures ClosedForm(owner, position, events, sourceSlot) == Available(margin + PaidBy(flows), ReceivedBy(flows))
  {
    hide Total, PaidBy, ReceivedBy, RowGives, FlowOf, Amount, Latest, Keep, OpensAt, Starts, AccountMatches;
    MineConcerns(position, events);
    var rows := Keep(events, Concerns(position));
    OpensOnce(position, rows, o, margin);
    KeepOne(rows, o);
    StartsIs(position, rows, sourceSlot, o, margin);
    var of := Flows(owner, position, rows[o].payload, sourceSlot);
    forall j | 0 <= j < |rows| ensures of(rows[j]) == Some(flows[j]) {
      FlowIsItsFields(owner, position, rows[o].payload, sourceSlot, rows[j], flows[j]);
    }
    TotalsAre(of, rows, flows);
    GivenIsInRange(owner, position, rows[o].payload, sourceSlot, rows[last], flows[last]);
    AccountIs(position, flows[last]);
    assert Concerns(position)(rows[last]) && rows[last] in rows;
    LatestIs(rows, rows[last].slot);
  }

  lemma {:induction false} StartsOnce(position: Position, openings: seq<Event>, sourceSlot: int)
    requires Starts(position, openings, sourceSlot)
    ensures |openings| == 1 && openings == [openings[0]] && Amount(String(position.marginRaw), U64).Some?
  {
    hide Amount;
  }

  /** ... and what the fold gives reconciles. */
  lemma {:induction false} AvailableIsReconciled(owner: Text, position: Position, events: seq<Event>, sourceSlot: int)
    returns (flows: seq<Flow>, o: nat, margin: nat, last: nat)
    requires ClosedForm(owner, position, events, sourceSlot).Available?
    ensures Reconciles(owner, position, Keep(events, Mine(position)), sourceSlot, flows, o, margin, last)
    ensures ClosedForm(owner, position, events, sourceSlot) == Available(margin + PaidBy(flows), ReceivedBy(flows))
  {
    StartsOnce(position, Keep(Keep(events, Concerns(position)), Opens()), sourceSlot);
    hide Total, PaidBy, ReceivedBy, RowGives, FlowOf, Amount, Latest, Keep, OpensAt, Starts, AccountMatches;
    MineConcerns(position, events);
    var rows := Keep(events, Concerns(position));
    o := OneKept(rows);
    margin := Amount(String(position.marginRaw), U64).value;
    StartsIs(position, rows, sourceSlot, o, margin);
    flows, last := SettledIsReconciled(owner, position, rows, sourceSlot, o, margin);
  }

  lemma {:induction false} SettledIsReconciled(owner: Text, position: Position, rows: seq<Event>, sourceSlot: int, o: nat,
                                               margin: nat) returns (flows: seq<Flow>, last: nat)
    requires position.openedSlot <= sourceSlot && OpensAt(position, rows, o, margin)
    requires Settled(position, Flows(owner, position, rows[o].payload, sourceSlot), margin, rows).Available?
    ensures Reconciles(owner, position, rows, sourceSlot, flows, o, margin, last)
    ensures Settled(position, Flows(owner, position, rows[o].payload, sourceSlot), margin, rows)
         == Available(margin + PaidBy(flows), ReceivedBy(flows))
  {
    hide Total, PaidBy, ReceivedBy, RowGives, FlowOf, Amount, Latest, OpensAt, AccountMatches;
    OpensOnce(position, rows, o, margin);
    var initial := rows[o].payload;
    var of := Flows(owner, position, initial, sourceSlot);
    flows := seq(|rows|, j requires 0 <= j < |rows| => of(rows[j]).value);
    forall j | 0 <= j < |rows| ensures RowGives(owner, position, initial, sourceSlot, rows[j], flows[j]) {
      assert of(rows[j]).Some?;
      FlowIsItsFields(owner, position, initial, sourceSlot, rows[j], flows[j]);
    }
    TotalsAre(of, rows, flows);
    last := EndingRow(position, of, rows);
    GivenIsInRange(owner, position, initial, sourceSlot, rows[last], flows[last]);
    AccountIs(position, flows[last]);
  }

  lemma {:induction false} EndingRow(position: Position, flows: Event -> Option<Flow>, rows: seq<Event>) returns (last: nat)
    requires EndsAtAccount(position, flows, rows)
    ensures last < |rows| && -1 <= rows[last].slot && forall j :: 0 <= j < |rows| ==> rows[j].slot <= rows[last].slot
    ensures flows(rows[last]).Some?
            && AccountMatches(position, flows(rows[last]).value.collateral, flows(rows[last]).value.shares)
  {
    hide AccountMatches;
    var e :| e in rows && e.slot == Latest(rows) && flows(e).Some?
             && AccountMatches(position, flows(e).value.collateral, flows(e).value.shares);
    last :| 0 <= last < |rows| && rows[last] == e;
    forall j | 0 <= j < |rows| ensures rows[j].slot <= rows[last].slot {
      assert rows[j] in rows;
    }
  }

  /** The fold is available with some totals exactly when the position's events,
      field by field, account for them. */
  lemma {:induction false} AvailableExactly(owner: Text, position: Position, events: seq<Event>, sourceSlot: int,
                                            contributed: nat, withdrawn: nat)
    ensures ClosedForm(owner, position, events, sourceSlot) == Available(contributed, withdrawn) <==>
            exists flows: seq<Flow>, o: nat, margin: nat, last: nat ::
              && Reconciles(owner, position, Keep(events, Mine(position)), sourceSlot, flows, o, margin, last)
              && contributed == margin + PaidBy(flows) && withdrawn == ReceivedBy(flows)
  {
    hide *;
    if ClosedForm(owner, position, events, sourceSlot) == Available(contributed, withdrawn) {
      var flows, o, margin, last := AvailableIsReconciled(owner, position, events, sourceSlot);
    }
    if flows: seq<Flow>, o: nat, margin: nat, last: nat :|
      && Reconciles(owner, position, Keep(events, Mine(position)), sourceSlot, flows, o, margin, last)
      && contributed == margin + PaidBy(flows) && withdrawn == ReceivedBy(flows)
    {
      ReconciledIsAvailable(owner, position, events, sourceSlot, flows, o, margin, last);
    }
  }

  // ----- order and strangers -----

  /** The same events of this position since it opened, in any order and among
      any others. */
  ghost predicate SameHistory(position: Position, a: seq<Event>, b: seq<Event>) {
    forall e :: Concerns(position)(e) ==> multiset(a)[e] == multiset(b)[e]
  }

  lemma {:induction false} TotalPermutes(part: Flow -> nat, flows: Event -> Option<Flow>, a: seq<Event>, b: seq<Event>)
    requires multiset(a) == multiset(b)
    ensures Total(part, flows, a) == Total(part, flows, b)
    decreases |a|
  {
    PermutedLength(a, b);
    if a != [] {
      assert a[0] in b;
      var k :| 0 <= k < |b| && b[k] == a[0];
      var before, after := b[..k], b[k + 1..];
      assert b == before + ([b[k]] + after);
      assert a == [a[0]] + a[1..];
      MovedOut(a[0], a[1..], before, after);
      TotalPermutes(part, flows, a[1..], before + after);
      TotalSplits(part, flows, before, [b[k]] + after);
      TotalSplits(part, flows, [b[k]], after);
      TotalSplits(part, flows, before, after);
      TotalSplits(part, flows, [a[0]], a[1..]);
    }
  }

  lemma {:induction false} ValidPermutes(flows: Event -> Option<Flow>, a: seq<Event>, b: seq<Event>)
    requires AllValid(flows, a) && forall x :: x in b ==> x in a
    ensures AllValid(flows, b)
  {
    forall j | 0 <= j < |b| ensures flows(b[j]).Some? {
      assert b[j] in a;
    }
  }

  lemma {:induction false} SettledPermutes(position: Position, flows: Event -> Option<Flow>, margin: nat,
                                           a: seq<Event>, b: seq<Event>)
    requires multiset(a) == multiset(b)
    ensures Settled(position, flows, margin, a) == Settled(position, flows, margin, b)
  {
    PermutedLength(a, b);
    TotalPermutes(Paid(), flows, a, b);
    TotalPermutes(Received(), flows, a, b);
    LatestIs(a, Latest(b));
    if AllValid(flows, a) {
      ValidPermutes(flows, a, b);
    } else if AllValid(flows, b) {
      ValidPermutes(flows, b, a);
    }
  }

  /** The fold depends on which events of the position it is given, not on the
      order they arrive in nor on events of other positions or earlier lives. */
  lemma {:induction false} ArrivalDoesNotMatter(owner: Text, position: Position, a: seq<Event>, b: seq<Event>,
                                                sourceSlot: int)
    requires SameHistory(position, a, b)
    ensures ClosedForm(owner, position, a, sourceSlot) == ClosedForm(owner, position, b, sourceSlot)
  {
    var ra, rb := Keep(a, Concerns(position)), Keep(b, Concerns(position));
    KeepPermutes(a, b, Concerns(position));
    var oa, ob := Keep(ra, Opens()), Keep(rb, Opens());
    KeepPermutes(ra, rb, Opens());
    SingletonPermutes(oa, ob);
    if Starts(position, oa, sourceSlot) {
      SettledPermutes(position, Flows(owner, position, oa[0].payload, sourceSlot),
                      Amount(String(position.marginRaw), U64).value, ra, rb);
    }
  }

  /** An event of another position, or from before this one opened, put
      anywhere changes nothing. */
  lemma {:induction false} StrangersDoNotMatter(owner: Text, position: Position, a: seq<Event>, b: seq<Event>,
                                                stranger: Event, sourceSlot: int)
    requires !Concerns(position)(stranger)
    ensures ClosedForm(owner, position, a + ([stranger] + b), sourceSlot) == ClosedForm(owner, position, a + b, sourceSlot)
  {
    forall e | Concerns(position)(e) ensures multiset(a + ([stranger] + b))[e] == multiset(a + b)[e] {
      assert e != stranger;
    }
    ArrivalDoesNotMatter(owner, position, a + ([stranger] + b), a + b, sourceSlot);
  }
}
