/** `readMarketActivity` (api/src/services/duskMarketActivity.ts): native activity
    folded page by page into totals per metric, overall and per market. */
module MarketActivity {
  import opened Options
  import opened TextOrder
  import opened Payloads
  import opened Sequences
  import opened ActivityMath
  import Decimal
  import Paging

  // ----- totals -----

  datatype Tally = Tally(valued: nat, unpriced: nat, observations: nat, estimated: nat)

  const NONE := Tally(0, 0, 0, 0)

  /** `emptyMetrics`: one tally for each metric. */
  const EMPTY: map<Metric, Tally> :=
    map[Volume := NONE, SwapFees := NONE, RetainedFees := NONE, CompoundedFees := NONE,
        ReportedInterest := NONE, CreditVolume := NONE, MarginVolume := NONE]

  datatype Totals = Totals(metrics: map<Metric, Tally>, swaps: nat, events: nat)

  const NOTHING := Totals(EMPTY, 0, 0)

  ghost predicate IsTotals(t: Totals) {
    forall k: Metric :: k in t.metrics
  }

  lemma {:induction false} NothingIsTotals()
    ensures IsTotals(NOTHING)
  {
    forall k: Metric ensures k in EMPTY {
      match k case Volume => case _ =>
    }
  }

  /** One valued amount into its metric's tally. */
  function Tallied(t: Tally, v: Valued): Tally {
    if v.usd.None? then t.(observations := t.observations + 1, unpriced := t.unpriced + 1)
    else t.(observations := t.observations + 1, valued := t.valued + v.usd.value,
            estimated := t.estimated + if v.quality.Some? && v.quality != Some(OBSERVED) then 1 else 0)
  }

  function AddValues(m: map<Metric, Tally>, vs: seq<Valued>): (r: map<Metric, Tally>)
    requires forall k: Metric :: k in m
    ensures forall k: Metric :: k in r
    decreases |vs|
  {
    if vs == [] then m
    else AddValues(m[vs[0].metric := Tallied(m[vs[0].metric], vs[0])], vs[1..])
  }

  function AddEvent(t: Totals, vs: seq<Valued>, hasSwap: bool): (r: Totals)
    requires IsTotals(t)
    ensures IsTotals(r)
  {
    Totals(AddValues(t.metrics, vs), t.swaps + (if hasSwap then 1 else 0), t.events + 1)
  }

  // ----- rows -----

  /** The latest prior swap snapshot, found by its event key. */
  datatype Snapshot = Snapshot(key: string, slot: nat, time: int, payload: Value)

  datatype Row = Row(position: Paging.Position, market: Text, kind: Kind, payload: Value, time: int,
                     external: seq<External>, snapshot: Option<Snapshot>, created: Option<Value>)

  /** What the model leaves to the caller: key checks and price projection. */
  datatype Setting = Setting(isKey: Keys, swaps: SwapBasis,
                             observed: Snapshot -> Outcome<PriceBasis>,
                             reference: (Value, int) -> Outcome<PriceBasis>)

  /** The price basis of a row, projected afresh. */
  function BasisOf(s: Setting, row: Row): Outcome<Option<PriceBasis>> {
    if row.snapshot.Some? then
      var basis :- s.observed(row.snapshot.value);
      Done(Some(basis))
    else if row.created.Some? then
      var basis :- s.reference(row.created.value, row.time);
      Done(Some(basis))
    else Done(None)
  }

  datatype Worthed = Worthed(values: seq<Valued>, hasSwap: bool)

  /** A row's values on a basis; a throw when its payload is of another market. */
  function Worths(s: Setting, row: Row, basis: Option<PriceBasis>): Outcome<Worthed> {
    var slot := String(Decimal.Digits(row.position.slot));
    var parsed :- Parse(row.kind, row.payload, slot, s.swaps, s.isKey);
    if parsed.market != row.market then Thrown
    else
      var values :- ValueEvent(row.kind, row.payload, slot, s.swaps, s.isKey, basis, row.external, row.position.slot, Some(row.time));
      Done(Worthed(values, parsed.hasSwap))
  }

  // ----- one unpaged fold -----

  datatype Report = Report(all: Totals, byMarket: map<Text, Totals>, firstSlot: Option<nat>, lastSlot: Option<nat>)

  ghost predicate IsReport(r: Report) {
    IsTotals(r.all) && forall m :: m in r.byMarket ==> IsTotals(r.byMarket[m])
  }

  function Start(): (r: Report)
    ensures IsReport(r)
  {
    NothingIsTotals();
    Report(NOTHING, map[], None, None)
  }

  function MarketOf(r: Report, market: Text): (t: Totals)
    requires IsReport(r)
    ensures IsTotals(t)
  {
    NothingIsTotals();
    if market in r.byMarket then r.byMarket[market] else NOTHING
  }

  function Counted(r: Report, row: Row, w: Worthed): (n: Report)
    requires IsReport(r)
    ensures IsReport(n)
  {
    Report(AddEvent(r.all, w.values, w.hasSwap),
           r.byMarket[row.market := AddEvent(MarketOf(r, row.market), w.values, w.hasSwap)],
           if r.firstSlot.Some? then r.firstSlot else Some(row.position.slot),
           Some(row.position.slot))
  }

  function CountRow(s: Setting, r: Report, row: Row): (n: Outcome<Report>)
    requires IsReport(r)
    ensures n.Done? ==> IsReport(n.value)
  {
    var basis :- BasisOf(s, row);
    var w :- Worths(s, row, basis);
    Done(Counted(r, row, w))
  }

  /** Every row once, each on a basis of its own: no page and no memo. */
  function Fold(s: Setting, r: Report, rows: seq<Row>): (n: Outcome<Report>)
    requires IsReport(r)
    ensures n.Done? ==> IsReport(n.value)
    decreases |rows|
  {
    if rows == [] then Done(r)
    else
      var next :- CountRow(s, r, rows[0]);
      Fold(s, next, rows[1..])
  }

  lemma {:induction false} FoldNext(s: Setting, r: Report, done: seq<Row>, row: Row)
    requires IsReport(r)
    ensures Fold(s, r, done + [row])
         == if Fold(s, r, done).Thrown? then Thrown else CountRow(s, Fold(s, r, done).value, row)
    decreases |done|
  {
    if done == [] {
      assert done + [row] == [row] && [row][1..] == [];
    } else {
      assert (done + [row])[1..] == done[1..] + [row];
      var next := CountRow(s, r, done[0]);
      if next.Done? {
        FoldNext(s, next.value, done[1..], row);
      }
    }
  }

  lemma {:induction false} FoldThrows(s: Setting, r: Report, rows: seq<Row>, i: nat)
    requires IsReport(r) && i <= |rows| && Fold(s, r, rows[..i]).Thrown?
    ensures Fold(s, r, rows).Thrown?
    decreases |rows|
  {
    if i > 0 {
      var next := CountRow(s, r, rows[0]);
      assert rows[..i][1..] == rows[1..][..i - 1];
      if next.Done? {
        FoldThrows(s, next.value, rows[1..], i - 1);
      }
    }
  }

  // ----- the paged read -----

  /** `ORDER BY a.slot, a.event_key` over positions that are unique. */
  ghost predicate Rises(rows: seq<Row>) {
    forall i, j :: 0 <= i < j < |rows| ==> Paging.Less(rows[i].position, rows[j].position)
  }

  predicate SameKey(a: Row, b: Row) {
    a.snapshot.Some? && b.snapshot.Some? && a.snapshot.value.key == b.snapshot.value.key
  }

  /** A snapshot's event key is its primary key. */
  ghost predicate KeysNameSnapshots(rows: seq<Row>) {
    forall i, j :: 0 <= i < |rows| && 0 <= j < |rows| && SameKey(rows[i], rows[j]) ==> rows[i].snapshot == rows[j].snapshot
  }

  /** `(a.slot,a.event_key) > ($9,$10)`; the start, slot -1, is below every row. */
  function Above(after: Option<Paging.Position>): Row -> bool {
    (r: Row) => after.None? || Paging.Less(after.value, r.position)
  }

  function Page(rows: seq<Row>, after: Option<Paging.Position>, limit: nat): seq<Row> {
    Take(Keep(rows, Above(after)), limit)
  }

  function AfterRow(rows: seq<Row>, p: nat): Option<Paging.Position>
    requires p <= |rows|
  {
    if p == 0 then None else Some(rows[p - 1].position)
  }

  lemma {:induction false} PageIsNext(rows: seq<Row>, p: nat, limit: nat)
    requires Rises(rows) && p <= |rows|
    ensures Page(rows, AfterRow(rows, p), limit) == Take(rows[p..], limit)
  {
    var keep := Above(AfterRow(rows, p));
    assert rows == rows[..p] + rows[p..];
    KeepSplits(rows[..p], rows[p..], keep);
    forall x | x in rows[..p] ensures !keep(x) {
      var i :| 0 <= i < p && rows[i] == x;
      Paging.LessIsIrreflexive(x.position);
      if i < p - 1 && Paging.Less(rows[p - 1].position, x.position) {
        Paging.LessIsTransitive(x.position, rows[p - 1].position, x.position);
      }
    }
    KeepNone(rows[..p], keep);
    KeepAll(rows[p..], keep);
    assert [] + rows[p..] == rows[p..];
  }

  /** Every memo entry is what projecting some row's snapshot gave. */
  ghost predicate IsMemo(s: Setting, rows: seq<Row>, memo: map<string, PriceBasis>) {
    forall k :: k in memo ==>
      exists i :: 0 <= i < |rows| && rows[i].snapshot.Some? && rows[i].snapshot.value.key == k
                  && s.observed(rows[i].snapshot.value) == Done(memo[k])
  }

  lemma {:induction false} MemoIsFresh(s: Setting, rows: seq<Row>, memo: map<string, PriceBasis>, i: nat)
    requires IsMemo(s, rows, memo) && KeysNameSnapshots(rows) && i < |rows|
    requires rows[i].snapshot.Some? && rows[i].snapshot.value.key in memo
    ensures s.observed(rows[i].snapshot.value) == Done(memo[rows[i].snapshot.value.key])
  {
    var j :| 0 <= j < |rows| && rows[j].snapshot.Some? && rows[j].snapshot.value.key == rows[i].snapshot.value.key
             && s.observed(rows[j].snapshot.value) == Done(memo[rows[i].snapshot.value.key]);
    assert SameKey(rows[i], rows[j]);
  }

  /** The basis of a row through the page's memo. */
  method Basis(s: Setting, row: Row, memo: map<string, PriceBasis>, ghost rows: seq<Row>, ghost i: nat)
    returns (basis: Outcome<Option<PriceBasis>>, kept: map<string, PriceBasis>)
    requires i < |rows| && rows[i] == row && KeysNameSnapshots(rows) && IsMemo(s, rows, memo)
    ensures basis == BasisOf(s, row) && IsMemo(s, rows, kept)
  {
    kept := memo;
    if row.snapshot.Some? {
      var key := row.snapshot.value.key;
      if key in memo {
        MemoIsFresh(s, rows, memo, i);
        return Done(Some(memo[key])), kept;
      }
      var projected := s.observed(row.snapshot.value);
      if projected.Thrown? {
        return Thrown, kept;
      }
      kept := memo[key := projected.value];
      return Done(Some(projected.value)), kept;
    }
    if row.created.Some? {
      var projected := s.reference(row.created.value, row.time);
      return if projected.Thrown? then Thrown else Done(Some(projected.value)), kept;
    }
    return Done(None), kept;
  }

  /** One page, rows `p` on, with a memo of its own. */
  method CountPage(s: Setting, page: seq<Row>, before: Report, ghost rows: seq<Row>,
                   ghost p: nat) returns (r: Outcome<Report>)
    requires p + |page| <= |rows| && page == rows[p..p + |page|] && KeysNameSnapshots(rows)
    requires IsReport(before) && Fold(s, Start(), rows[..p]) == Done(before)
    ensures r.Done? ==> IsReport(r.value) && Fold(s, Start(), rows[..p + |page|]) == r
    ensures r.Thrown? ==> Fold(s, Start(), rows).Thrown?
  {
    hide Fold, IsMemo, KeysNameSnapshots, Worths, Counted, BasisOf;
    var report := before;
    var memo: map<string, PriceBasis> := map[];
    EmptyMemo(s, rows);
    var j := 0;
    while j < |page|
      invariant j <= |page|
      invariant IsReport(report) && Fold(s, Start(), rows[..p + j]) == Done(report)
      invariant IsMemo(s, rows, memo)
    {
      var row := page[j];
      assert row == rows[p + j];
      var basis;
      basis, memo := Basis(s, row, memo, rows, p + j);
      var worth := if basis.Thrown? then Thrown else Worths(s, row, basis.value);
      assert rows[..p + j + 1] == rows[..p + j] + [row];
      FoldNext(s, Start(), rows[..p + j], row);
      if worth.Thrown? {
        FoldThrows(s, Start(), rows, p + j + 1);
        return Thrown;
      }
      report := Counted(report, row, worth.value);
      j := j + 1;
    }
    return Done(report);
  }

  lemma {:induction false} FoldOfNone(s: Setting, r: Report)
    requires IsReport(r)
    ensures Fold(s, r, []) == Done(r)
  {
  }

  lemma {:induction false} EmptyMemo(s: Setting, rows: seq<Row>)
    ensures IsMemo(s, rows, map[])
  {
  }

  // ----- the report's totals -----

  /** A number a report gives, of one metric or of all. */
  datatype Figure = Valued(m: Metric) | Unpriced(m: Metric) | Observations(m: Metric) | Estimated(m: Metric) | Swaps | Events

  function Measure(f: Figure, t: Totals): nat
    requires IsTotals(t)
  {
    match f
    case Valued(m) => t.metrics[m].valued
    case Unpriced(m) => t.metrics[m].unpriced
    case Observations(m) => t.metrics[m].observations
    case Estimated(m) => t.metrics[m].estimated
    case Swaps => t.swaps
    case Events => t.events
  }

  /** What one value adds to a figure. */
  function GainOf(f: Figure, v: ActivityMath.Valued): nat {
    match f
    case Valued(m) => if v.metric == m && v.usd.Some? then v.usd.value else 0
    case Unpriced(m) => if v.metric == m && v.usd.None? then 1 else 0
    case Observations(m) => if v.metric == m then 1 else 0
    case Estimated(m) => if v.metric == m && v.usd.Some? && v.quality.Some? && v.quality != Some(OBSERVED) then 1 else 0
    case Swaps => 0
    case Events => 0
  }

  function GainOfAll(f: Figure, vs: seq<ActivityMath.Valued>): nat {
    if vs == [] then 0 else GainOf(f, vs[0]) + GainOfAll(f, vs[1..])
  }

  /** What one event adds to a figure. */
  function Gain(f: Figure, vs: seq<ActivityMath.Valued>, hasSwap: bool): nat {
    match f
    case Swaps => if hasSwap then 1 else 0
    case Events => 1
    case _ => GainOfAll(f, vs)
  }

  lemma {:induction false} ValuesAdd(f: Figure, m: map<Metric, Tally>, vs: seq<ActivityMath.Valued>, swaps: nat,
                                     events: nat)
    requires forall k: Metric :: k in m
    ensures Measure(f, Totals(AddValues(m, vs), swaps, events)) == Measure(f, Totals(m, swaps, events)) + GainOfAll(f, vs)
    decreases |vs|
  {
    if vs == [] {
    } else {
      var next := m[vs[0].metric := Tallied(m[vs[0].metric], vs[0])];
      assert Measure(f, Totals(next, swaps, events)) == Measure(f, Totals(m, swaps, events)) + GainOf(f, vs[0]);
      ValuesAdd(f, next, vs[1..], swaps, events);
    }
  }

  lemma {:induction false} EventAdds(f: Figure, t: Totals, vs: seq<ActivityMath.Valued>, hasSwap: bool)
    requires IsTotals(t)
    ensures Measure(f, AddEvent(t, vs, hasSwap)) == Measure(f, t) + Gain(f, vs, hasSwap)
  {
    ValuesAdd(f, t.metrics, vs, t.swaps, t.events);
  }

  ghost predicate AllTotals(m: map<Text, Totals>) {
    forall k :: k in m ==> IsTotals(m[k])
  }

  /** A figure summed over the markets. */
  ghost function SumOver(f: Figure, m: map<Text, Totals>): nat
    requires AllTotals(m)
    decreases |m|
  {
    if m == map[] then 0
    else
      var k :| k in m;
      Measure(f, m[k]) + SumOver(f, m - {k})
  }

  lemma {:induction false} SumTakes(f: Figure, m: map<Text, Totals>, k: Text)
    requires AllTotals(m) && k in m
    ensures SumOver(f, m) == Measure(f, m[k]) + SumOver(f, m - {k})
    decreases |m|
  {
    hide Measure, IsTotals;
    var first :| first in m && SumOver(f, m) == Measure(f, m[first]) + SumOver(f, m - {first});
    if first != k {
      SumTakes(f, m - {first}, k);
      SumTakes(f, m - {k}, first);
      assert m - {first} - {k} == m - {k} - {first};
    }
  }

  lemma {:induction false} NothingMeasures(f: Figure)
    ensures IsTotals(NOTHING) && Measure(f, NOTHING) == 0
  {
    NothingIsTotals();
    assert forall k: Metric :: k in EMPTY ==> EMPTY[k] == NONE;
  }

  lemma {:induction false} SumUpdates(f: Figure, m: map<Text, Totals>, k: Text, t: Totals)
    requires AllTotals(m) && IsTotals(t)
    ensures AllTotals(m[k := t])
    ensures SumOver(f, m[k := t]) + (if k in m then Measure(f, m[k]) else 0) == SumOver(f, m) + Measure(f, t)
  {
    SumTakes(f, m[k := t], k);
    if k in m {
      SumTakes(f, m, k);
      assert m[k := t] - {k} == m - {k};
    } else {
      assert m[k := t] - {k} == m;
    }
  }

  /** The report's figures are the sums of its markets'. */
  ghost predicate Agrees(r: Report, f: Figure) {
    IsReport(r) && Measure(f, r.all) == SumOver(f, r.byMarket)
  }

  lemma {:induction false} CountedAgrees(r: Report, row: Row, w: Worthed, f: Figure)
    requires Agrees(r, f)
    ensures Agrees(Counted(r, row, w), f)
  {
    hide Measure, SumOver, AddEvent, Gain;
    var market := MarketOf(r, row.market);
    NothingMeasures(f);
    EventAdds(f, r.all, w.values, w.hasSwap);
    EventAdds(f, market, w.values, w.hasSwap);
    SumUpdates(f, r.byMarket, row.market, AddEvent(market, w.values, w.hasSwap));
  }

  lemma {:induction false} FoldAgrees(s: Setting, r: Report, rows: seq<Row>, f: Figure)
    requires Agrees(r, f) && Fold(s, r, rows).Done?
    ensures Agrees(Fold(s, r, rows).value, f)
    decreases |rows|
  {
    if rows != [] {
      hide Agrees, Counted, BasisOf, Worths;
      var basis := BasisOf(s, rows[0]);
      var w := Worths(s, rows[0], basis.value);
      CountedAgrees(r, rows[0], w.value, f);
      FoldAgrees(s, Counted(r, rows[0], w.value), rows[1..], f);
    }
  }

  /** For every metric the global valued, unpriced, observation and estimated
      totals, and the event and swap counts, are the sums over the markets. */
  lemma {:induction false} GlobalIsSumOfMarkets(s: Setting, rows: seq<Row>, f: Figure)
    ensures Fold(s, Start(), rows).Done? ==> Agrees(Fold(s, Start(), rows).value, f)
  {
    hide Fold;
    NothingMeasures(f);
    if Fold(s, Start(), rows).Done? {
      FoldAgrees(s, Start(), rows, f);
    }
  }

  // ----- what a report counts -----

  /** A row's values on the basis that its own snapshot or market gives. */
  function RowWorth(s: Setting, row: Row): Outcome<Worthed> {
    var basis :- BasisOf(s, row);
    Worths(s, row, basis)
  }

  /** The row's basis is its snapshot's, or without one its market's, or none; its
      event is of its market; and its amounts are valued at its time, on the
      provider's quotes of that time. */
  ghost predicate RowGives(s: Setting, row: Row, w: Worthed, parsed: Parsed, basis: Option<PriceBasis>,
                           price: Option<PriceBasis>) {
    && (match row.snapshot
        case Some(x) => basis.Some? && s.observed(x) == Done(basis.value)
        case None =>
          match row.created
          case Some(market) => basis.Some? && s.reference(market, row.time) == Done(basis.value)
          case None => basis.None?)
    && Parse(row.kind, row.payload, Printed(row.position.slot), s.swaps, s.isKey) == Done(parsed)
    && parsed.market == row.market && w.hasSwap == parsed.hasSwap
    && price.Some? == basis.Some? && (basis.Some? ==> AsOf(basis.value, row.external, Some(row.time)) == Done(price.value))
    && ValueAmounts(parsed.amounts, price, row.position.slot, Some(row.time)) == Done(w.values)
  }

  lemma {:induction false} RowIsValued(s: Setting, row: Row, w: Worthed)
    ensures RowWorth(s, row) == Done(w) <==> exists parsed, basis, price :: RowGives(s, row, w, parsed, basis, price)
  {
    hide Parse, AsOf, ValueAmounts;
    if RowWorth(s, row) == Done(w) {
      var parsed := Parse(row.kind, row.payload, Printed(row.position.slot), s.swaps, s.isKey).value;
      var basis := BasisOf(s, row).value;
      var price := if basis.None? then None else Some(AsOf(basis.value, row.external, Some(row.time)).value);
      assert RowGives(s, row, w, parsed, basis, price);
    }
    if parsed, basis, price :| RowGives(s, row, w, parsed, basis, price) {
      assert BasisOf(s, row) == Done(basis);
    }
  }

  /** What the rows of a market, or of all, add to a figure. */
  function Gains(s: Setting, f: Figure, rows: seq<Row>, market: Option<Text>): nat {
    if rows == [] then 0
    else
      var last := rows[|rows| - 1];
      var w := RowWorth(s, last);
      Gains(s, f, rows[..|rows| - 1], market)
      + if w.Done? && (market.None? || market.value == last.market) then Gain(f, w.value.values, w.value.hasSwap) else 0
  }

  ghost predicate HasMarket(rows: seq<Row>, m: Text) {
    exists i :: 0 <= i < |rows| && rows[i].market == m
  }

  /** Every figure is what the rows add to it, overall and market by market; the
      markets are those of the rows, and the slots those of the first and last. */
  ghost predicate Reports(s: Setting, rows: seq<Row>, r: Report, f: Figure, m: Text) {
    && IsReport(r)
    && Measure(f, r.all) == Gains(s, f, rows, None)
    && (m in r.byMarket <==> HasMarket(rows, m))
    && (m in r.byMarket ==> Measure(f, r.byMarket[m]) == Gains(s, f, rows, Some(m)))
    && r.firstSlot == (if rows == [] then None else Some(rows[0].position.slot))
    && r.lastSlot == (if rows == [] then None else Some(rows[|rows| - 1].position.slot))
  }

  lemma {:induction false} CountedReports(s: Setting, rows: seq<Row>, r: Report, row: Row, w: Worthed, f: Figure, m: Text)
    requires Reports(s, rows, r, f, m) && RowWorth(s, row) == Done(w)
    ensures Reports(s, rows + [row], Counted(r, row, w), f, m)
  {
    hide Measure, Gain, AddEvent, RowWorth;
    var more := rows + [row];
    assert more[..|rows|] == rows && more[|rows|] == row;
    NothingMeasures(f);
    EventAdds(f, r.all, w.values, w.hasSwap);
    EventAdds(f, MarketOf(r, row.market), w.values, w.hasSwap);
    MoreMarkets(rows, row, m);
    if m !in r.byMarket {
      NoGains(s, f, rows, m);
    }
  }

  lemma {:induction false} MoreMarkets(rows: seq<Row>, row: Row, m: Text)
    ensures HasMarket(rows + [row], m) <==> HasMarket(rows, m) || row.market == m
  {
    var more := rows + [row];
    assert more[|rows|] == row;
    if i :| 0 <= i < |rows| && rows[i].market == m {
      assert more[i] == rows[i];
    }
  }

  lemma {:induction false} NoGains(s: Setting, f: Figure, rows: seq<Row>, m: Text)
    requires !HasMarket(rows, m)
    ensures Gains(s, f, rows, Some(m)) == 0
  {
    hide RowWorth;
    if rows != [] {
      var n := |rows| - 1;
      MoreMarkets(rows[..n], rows[n], m);
      assert rows == rows[..n] + [rows[n]];
      NoGains(s, f, rows[..n], m);
    }
  }

  /** A read is thrown exactly when some row cannot be valued, and otherwise it
      reports what the rows add up to. */
  lemma {:induction false} FoldReports(s: Setting, rows: seq<Row>, f: Figure, m: Text)
    ensures var r := Fold(s, Start(), rows);
            && (r.Thrown? <==> exists i :: 0 <= i < |rows| && RowWorth(s, rows[i]).Thrown?)
            && (r.Done? ==> Reports(s, rows, r.value, f, m))
  {
    hide Fold, Counted, BasisOf, Worths, Measure;
    if rows == [] {
      FoldOfNone(s, Start());
      NothingMeasures(f);
    } else {
      var n := |rows| - 1;
      var done, row := rows[..n], rows[n];
      assert rows == done + [row];
      FoldReports(s, done, f, m);
      FoldNext(s, Start(), done, row);
      var before := Fold(s, Start(), done);
      if before.Thrown? {
        var i :| 0 <= i < |done| && RowWorth(s, done[i]).Thrown?;
        assert rows[i] == done[i];
      } else if RowWorth(s, row).Done? {
        CountedReports(s, done, before.value, row, RowWorth(s, row).value, f, m);
      }
    }
  }

  lemma {:induction false} AllReports(s: Setting, rows: seq<Row>)
    ensures var r := Fold(s, Start(), rows);
            && (r.Thrown? <==> exists i :: 0 <= i < |rows| && RowWorth(s, rows[i]).Thrown?)
            && (r.Done? ==> forall f, m :: Reports(s, rows, r.value, f, m))
  {
    hide Fold, Reports, RowWorth;
    FoldReports(s, rows, Events, []);
    if Fold(s, Start(), rows).Done? {
      forall f, m ensures Reports(s, rows, Fold(s, Start(), rows).value, f, m) {
        FoldReports(s, rows, f, m);
      }
    }
  }

  /** For every page size, the paged read with its per-page memo is the one
      unpaged fold, and reports what the rows add up to. */
  method Read(s: Setting, rows: seq<Row>, limit: nat) returns (r: Outcome<Report>)
    requires limit > 0 && Rises(rows) && KeysNameSnapshots(rows)
    ensures r == Fold(s, Start(), rows)
    ensures r.Thrown? <==> exists i :: 0 <= i < |rows| && RowWorth(s, rows[i]).Thrown?
    ensures r.Done? ==> forall f, m :: Reports(s, rows, r.value, f, m)
  {
    AllReports(s, rows);
    hide Fold, Page, KeysNameSnapshots, Rises, Reports, RowWorth;
    var report := Start();
    var after: Option<Paging.Position> := None;
    ghost var p: nat := 0;
    FoldOfNone(s, Start());
    assert rows[..0] == [];
    while true
      invariant p <= |rows| && after == AfterRow(rows, p)
      invariant IsReport(report) && Fold(s, Start(), rows[..p]) == Done(report)
      decreases |rows| - p
    {
      var page := Page(rows, after, limit);
      PageIsNext(rows, p, limit);
      assert page == rows[p..p + |page|];
      if page == [] {
        break;
      }
      var counted := CountPage(s, page, report, rows, p);
      if counted.Thrown? {
        return Thrown;
      }
      report := counted.value;
      after := Some(page[|page| - 1].position);
      p := p + |page|;
      if |page| < limit {
        break;
      }
    }
    assert rows[..p] == rows;
    return Done(report);
  }

  /** `metricResponse`'s `observedUsd`. */
  function ObservedUsd(t: Tally): Option<nat> {
    if t.unpriced > 0 then None else Some(t.valued)
  }

  lemma {:induction false} PositiveTerm(f: Figure, m: map<Text, Totals>)
    requires AllTotals(m)
    ensures SumOver(f, m) > 0 <==> exists k :: k in m && Measure(f, m[k]) > 0
    decreases |m|
  {
    hide Measure, IsTotals;
    if m != map[] {
      var first :| first in m && SumOver(f, m) == Measure(f, m[first]) + SumOver(f, m - {first});
      PositiveTerm(f, m - {first});
      if k :| k in m && Measure(f, m[k]) > 0 {
        assert k == first || k in m - {first};
      }
    }
  }

  /** The overall figure is withheld exactly when some market's is. */
  lemma {:induction false} WithheldTogether(s: Setting, rows: seq<Row>, k: Metric)
    ensures Fold(s, Start(), rows).Done? ==>
              var r := Fold(s, Start(), rows).value;
              (ObservedUsd(r.all.metrics[k]).None? <==>
                 exists m :: m in r.byMarket && ObservedUsd(r.byMarket[m].metrics[k]).None?)
  {
    hide Fold;
    GlobalIsSumOfMarkets(s, rows, Unpriced(k));
    if Fold(s, Start(), rows).Done? {
      var r := Fold(s, Start(), rows).value;
      PositiveTerm(Unpriced(k), r.byMarket);
      forall m | m in r.byMarket ensures Measure(Unpriced(k), r.byMarket[m]) > 0 <==> ObservedUsd(r.byMarket[m].metrics[k]).None? {
      }
    }
  }
}
