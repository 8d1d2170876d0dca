/** The candle query (`buildCandlesQuery`, api/src/controllers/swapController.ts)
    over `[from, to)`: bucketed trades, gaps filled with the last close. */
module Candles {
  import opened Options
  import opened Sequences

  /** A row of `swaps`; None is SQL's null. */
  datatype Trade = Trade(pair: string, time: int, reserve0: Option<int>, reserve1: Option<int>, volume: Option<real>)

  /** `reserve0 > 0 AND reserve1 IS NOT NULL`. */
  predicate HasPrice(t: Trade) {
    t.reserve0.Some? && t.reserve0.value > 0 && t.reserve1.Some?
  }

  function Price(t: Trade): real
    requires HasPrice(t)
  {
    t.reserve1.value as real / t.reserve0.value as real
  }

  datatype Window = Window(pair: string, from: int, to: int, width: int, origin: int)

  predicate IsWindow(w: Window) { w.from < w.to && w.width > 0 }

  lemma {:induction false} StartsOnGrid(from: int, origin: int, width: int)
    requires width > 0
    ensures (from - (from - origin) % width - origin) % width == 0
  {
    var d := from - origin;
    assert d - d % width == d / width * width;
    MultipleLeavesNothing(d / width, width);
  }

  lemma {:induction false} MultipleLeavesNothing(k: int, width: int)
    requires width > 0
    ensures k * width % width == 0
  {
    var q, r := k * width / width, k * width % width;
    assert k * width == q * width + r;
    assert (k - q) * width == r;
    MultipleIsFar(k - q, width);
  }

  lemma {:induction false} MultipleIsFar(n: int, width: int)
    requires width > 0
    ensures (n >= 1 ==> n * width >= width) && (n <= -1 ==> n * width <= -width)
  {
    if n >= 1 {
      assert (n - 1) * width >= 0;
    } else if n <= -1 {
      assert (n + 1) * width <= 0;
    }
  }

  /** The start of the bucket around `from`. */
  function FirstBucket(w: Window): (b: int)
    requires IsWindow(w)
    ensures b <= w.from < b + w.width && (b - w.origin) % w.width == 0
  {
    StartsOnGrid(w.from, w.origin, w.width);
    w.from - (w.from - w.origin) % w.width
  }

  function InWindow(w: Window): Trade -> bool {
    (t: Trade) => t.pair == w.pair && w.from <= t.time < w.to
  }

  function PricedIn(w: Window): Trade -> bool {
    (t: Trade) => InWindow(w)(t) && HasPrice(t)
  }

  function PricedBefore(w: Window): Trade -> bool {
    (t: Trade) => t.pair == w.pair && t.time < w.from && HasPrice(t)
  }

  function InBucket(b: int, width: int): Trade -> bool {
    (t: Trade) => b <= t.time < b + width
  }

  ghost predicate AllPriced(ts: seq<Trade>) {
    forall i :: 0 <= i < |ts| ==> HasPrice(ts[i])
  }

  /** The trade of the greatest time; of several, the last in scan order. */
  function Latest(ts: seq<Trade>): (t: Trade)
    requires ts != []
    ensures t in ts && forall x :: x in ts ==> x.time <= t.time
  {
    if |ts| == 1 then ts[0]
    else
      assert ts == [ts[0]] + ts[1..];
      var rest := Latest(ts[1..]);
      if ts[0].time > rest.time then ts[0] else rest
  }

  function Max(a: real, b: real): real { if a > b then a else b }

  function Min(a: real, b: real): real { if a < b then a else b }

  function Highest(ts: seq<Trade>): real
    requires ts != [] && AllPriced(ts)
  {
    if |ts| == 1 then Price(ts[0]) else Max(Price(ts[0]), Highest(ts[1..]))
  }

  function Lowest(ts: seq<Trade>): real
    requires ts != [] && AllPriced(ts)
  {
    if |ts| == 1 then Price(ts[0]) else Min(Price(ts[0]), Lowest(ts[1..]))
  }

  function VolumeOf(t: Trade): real { if t.volume.Some? then t.volume.value else 0.0 }

  /** `COALESCE(SUM(volume_usd), 0)`. */
  function Volume(ts: seq<Trade>): real {
    if ts == [] then 0.0 else VolumeOf(ts[0]) + Volume(ts[1..])
  }

  lemma {:induction false} VolumeAdds(ts: seq<Trade>, t: Trade)
    ensures Volume([]) == 0.0
    ensures Volume(ts + [t]) == match t.volume case Some(v) => Volume(ts) + v case None => Volume(ts)
  {
    if ts == [] {
      assert ts + [t] == [t] && [t][1..] == [];
    } else {
      assert (ts + [t])[1..] == ts[1..] + [t];
      VolumeAdds(ts[1..], t);
    }
  }

  // ----- the query -----

  /** A row of `filled`. */
  datatype Row = Row(bucket: int, trades: seq<Trade>, close: Option<real>)

  function CloseOf(trades: seq<Trade>, carried: Option<real>): Option<real>
    requires AllPriced(trades)
  {
    if trades == [] then carried else Some(Price(Latest(trades)))
  }

  lemma {:induction false} KeepPriced(ts: seq<Trade>, p: Trade -> bool)
    requires AllPriced(ts)
    ensures AllPriced(Keep(ts, p))
  {
    forall i | 0 <= i < |Keep(ts, p)| ensures HasPrice(Keep(ts, p)[i]) {
      assert Keep(ts, p)[i] in ts;
    }
  }

  function TradesOf(priced: seq<Trade>, b: int, width: int): (r: seq<Trade>)
    requires AllPriced(priced)
    ensures AllPriced(r)
  {
    KeepPriced(priced, InBucket(b, width));
    Keep(priced, InBucket(b, width))
  }

  /** Every bucket up to `until`, with its trades and the carried close. */
  function Fill(priced: seq<Trade>, b: int, width: int, until: int, carried: Option<real>): seq<Row>
    requires width > 0 && AllPriced(priced)
    decreases until - b
  {
    if b >= until then []
    else
      var trades := TradesOf(priced, b, width);
      var close := CloseOf(trades, carried);
      [Row(b, trades, close)] + Fill(priced, b + width, width, until, close)
  }

  /** The last close before the window. */
  function Seed(trades: seq<Trade>, w: Window): Option<real> {
    var before := Keep(trades, PricedBefore(w));
    if before == [] then None else Some(Price(Latest(before)))
  }

  function Filled(trades: seq<Trade>, w: Window): seq<Row>
    requires IsWindow(w)
  {
    var priced := Keep(trades, PricedIn(w));
    assert forall i :: 0 <= i < |priced| ==> priced[i] in priced;
    Fill(priced, FirstBucket(w), w.width, w.to, Seed(trades, w))
  }

  function HasClose(): Row -> bool { (r: Row) => r.close.Some? }

  datatype Candle = Candle(time: int, open: real, high: real, low: real, close: real, volume: real)

  /** One row with the close of the row before it, if any. */
  function CandleOf(r: Row, lag: Option<real>): Candle
    requires r.close.Some? && AllPriced(r.trades)
  {
    var close := r.close.value;
    var open := if lag.Some? then lag.value else close;
    Candle(r.bucket, open,
           Max(if r.trades == [] then close else Highest(r.trades), open),
           Min(if r.trades == [] then close else Lowest(r.trades), open),
           close, Volume(r.trades))
  }

  ghost predicate AreRows(rows: seq<Row>) {
    forall i :: 0 <= i < |rows| ==> AllPriced(rows[i].trades)
  }

  function Drawn(rows: seq<Row>, lag: Option<real>): (cs: seq<Candle>)
    requires AreRows(rows) && forall i :: 0 <= i < |rows| ==> rows[i].close.Some?
    ensures |cs| == |rows|
    ensures forall i :: 0 <= i < |cs| ==> cs[i] == CandleOf(rows[i], if i == 0 then lag else rows[i - 1].close)
    decreases |rows|
  {
    if rows == [] then [] else [CandleOf(rows[0], lag)] + Drawn(rows[1..], rows[0].close)
  }

  // ----- filled rows -----

  /** The next bucket, its close carried from the row before when it has no trade. */
  ghost predicate Follows(prev: Row, r: Row, width: int) {
    AllPriced(r.trades) && r.bucket == prev.bucket + width && r.close == CloseOf(r.trades, prev.close)
  }

  /** Consecutive buckets from `b` to `until`, each with its own trades. */
  ghost predicate IsFilling(rows: seq<Row>, priced: seq<Trade>, b: int, width: int, until: int, carried: Option<real>) {
    && AreRows(rows)
    && (b < until ==> rows != [])
    && (forall i :: 0 <= i < |rows| ==> rows[i].trades == Keep(priced, InBucket(rows[i].bucket, width)))
    && (rows != [] ==> rows[0].bucket == b && rows[0].close == CloseOf(rows[0].trades, carried))
    && (forall i :: 0 < i < |rows| ==> Follows(rows[i - 1], rows[i], width))
    && (rows != [] ==> rows[|rows| - 1].bucket < until <= rows[|rows| - 1].bucket + width)
  }

  lemma {:induction false} FillingCons(priced: seq<Trade>, b: int, width: int, until: int, carried: Option<real>,
                                       r: Row, rest: seq<Row>)
    requires width > 0 && b < until && AllPriced(r.trades) && r.bucket == b && r.trades == Keep(priced, InBucket(b, width))
    requires r.close == CloseOf(r.trades, carried) && IsFilling(rest, priced, b + width, width, until, r.close)
    requires rest == [] ==> b + width >= until
    ensures IsFilling([r] + rest, priced, b, width, until, carried)
  {
    hide Keep, CloseOf, AllPriced;
    var rows := [r] + rest;
    forall i | 0 < i < |rows| ensures Follows(rows[i - 1], rows[i], width) {
      assert rows[i] == rest[i - 1];
      if i > 1 {
        assert Follows(rest[i - 2], rest[i - 1], width);
      }
    }
  }

  lemma {:induction false} FillNext(priced: seq<Trade>, b: int, width: int, until: int, carried: Option<real>)
    requires width > 0 && AllPriced(priced)
    ensures b >= until ==> Fill(priced, b, width, until, carried) == []
    ensures b < until ==>
              var trades := TradesOf(priced, b, width);
              var close := CloseOf(trades, carried);
              Fill(priced, b, width, until, carried)
              == [Row(b, trades, close)] + Fill(priced, b + width, width, until, close)
  {
    hide CloseOf, TradesOf;
  }

  lemma {:induction false} NothingIsFilling(priced: seq<Trade>, b: int, width: int, until: int, carried: Option<real>)
    requires b >= until
    ensures IsFilling([], priced, b, width, until, carried)
  {
    hide Keep, CloseOf;
  }

  lemma {:induction false} FillIsFilling(priced: seq<Trade>, b: int, width: int, until: int, carried: Option<real>)
    requires width > 0 && AllPriced(priced)
    ensures IsFilling(Fill(priced, b, width, until, carried), priced, b, width, until, carried)
    decreases until - b
  {
    hide IsFilling, Fill, Keep, CloseOf;
    FillNext(priced, b, width, until, carried);
    if b >= until {
      NothingIsFilling(priced, b, width, until, carried);
    } else {
      var trades := TradesOf(priced, b, width);
      var close := CloseOf(trades, carried);
      FillIsFilling(priced, b + width, width, until, close);
      FillNext(priced, b + width, width, until, close);
      FillingCons(priced, b, width, until, carried, Row(b, trades, close), Fill(priced, b + width, width, until, close));
    }
  }

  /** Carrying never loses a close, so the rows without one are a head of the list. */
  lemma {:induction false} CloseStays(prev: Row, r: Row, width: int)
    requires Follows(prev, r, width)
    ensures prev.close.Some? ==> r.close.Some?
    ensures r.close.None? ==> r.trades == []
  {
  }

  lemma {:induction false} TrimDrops(rows: seq<Row>) returns (d: nat)
    requires forall i :: 0 < i < |rows| && rows[i - 1].close.Some? ==> rows[i].close.Some?
    ensures d <= |rows| && Keep(rows, HasClose()) == rows[d..]
    ensures forall i :: 0 <= i < |rows| ==> (rows[i].close.Some? <==> d <= i)
  {
    if rows == [] {
      d := 0;
    } else if rows[0].close.Some? {
      d := 0;
      AllStay(rows, |rows|);
      KeepAll(rows, HasClose());
      assert rows[0..] == rows;
    } else {
      var rest := TrimDrops(rows[1..]);
      d := rest + 1;
      assert rows[d..] == rows[1..][rest..];
      forall i | 0 <= i < |rows| ensures rows[i].close.Some? <==> d <= i {
        assert i > 0 ==> rows[i] == rows[1..][i - 1];
      }
    }
  }

  lemma {:induction false} AllStay(rows: seq<Row>, n: nat)
    requires 0 < n <= |rows| && rows[0].close.Some?
    requires forall i :: 0 < i < |rows| && rows[i - 1].close.Some? ==> rows[i].close.Some?
    ensures forall i :: 0 <= i < n ==> rows[i].close.Some?
  {
    if n > 1 {
      AllStay(rows, n - 1);
      assert rows[n - 2].close.Some?;
    }
  }

  /** The rows of `trimmed`: those from the first close on. */
  ghost predicate IsTrimmed(rows: seq<Row>, all: seq<Row>, d: nat) {
    && d <= |all| && rows == all[d..]
    && (forall i :: 0 <= i < |rows| ==> rows[i].close.Some?)
    && (forall i :: 0 <= i < d ==> all[i].close.None?)
  }

  lemma {:induction false} FillingTrims(all: seq<Row>, priced: seq<Trade>, b: int, width: int, until: int,
                                        carried: Option<real>) returns (d: nat)
    requires IsFilling(all, priced, b, width, until, carried)
    ensures IsTrimmed(Keep(all, HasClose()), all, d)
  {
    hide Keep;
    forall i | 0 < i < |all| ensures all[i - 1].close.Some? ==> all[i].close.Some? {
      CloseStays(all[i - 1], all[i], width);
    }
    d := TrimDrops(all);
  }

  lemma {:induction false} FilledIsFilling(trades: seq<Trade>, w: Window)
    requires IsWindow(w)
    ensures IsFilling(Filled(trades, w), Keep(trades, PricedIn(w)), FirstBucket(w), w.width, w.to, Seed(trades, w))
  {
    hide IsFilling, Fill;
    var priced := Keep(trades, PricedIn(w));
    assert forall i :: 0 <= i < |priced| ==> priced[i] in priced;
    FillIsFilling(priced, FirstBucket(w), w.width, w.to, Seed(trades, w));
  }

  function Shown(trades: seq<Trade>, w: Window): (rows: seq<Row>)
    requires IsWindow(w)
    ensures AreRows(rows) && forall i :: 0 <= i < |rows| ==> rows[i].close.Some?
  {
    FilledIsFilling(trades, w);
    ShownRows(Filled(trades, w));
    Keep(Filled(trades, w), HasClose())
  }

  lemma {:induction false} ShownRows(all: seq<Row>)
    requires AreRows(all)
    ensures AreRows(Keep(all, HasClose())) && forall i :: 0 <= i < |Keep(all, HasClose())| ==> Keep(all, HasClose())[i].close.Some?
  {
    var rows := Keep(all, HasClose());
    forall i | 0 <= i < |rows| ensures rows[i].close.Some? && AllPriced(rows[i].trades) {
      assert rows[i] in rows;
      var j :| 0 <= j < |all| && all[j] == rows[i];
    }
  }

  /** The query's candles, oldest first. */
  function Query(trades: seq<Trade>, w: Window): seq<Candle>
    requires IsWindow(w)
  {
    Drawn(Shown(trades, w), None)
  }

  // ----- what every chart shows -----

  ghost predicate IsPriceOf(x: real, trades: seq<Trade>) {
    exists t :: t in trades && HasPrice(t) && Price(t) == x
  }

  lemma {:induction false} PricesBetween(ts: seq<Trade>)
    requires ts != [] && AllPriced(ts)
    ensures forall t :: t in ts ==> HasPrice(t) && Lowest(ts) <= Price(t) <= Highest(ts)
    ensures IsPriceOf(Lowest(ts), ts) && IsPriceOf(Highest(ts), ts)
  {
    assert ts[0] in ts;
    if |ts| > 1 {
      assert ts == [ts[0]] + ts[1..];
      PricesBetween(ts[1..]);
    }
  }

  /** Low and high are the least range around the open, the close and every
      trade of the bucket. */
  ghost predicate Encloses(c: Candle, trades: seq<Trade>) {
    && c.low <= c.open <= c.high
    && c.low <= c.close <= c.high
    && (forall t :: t in trades ==> HasPrice(t) && c.low <= Price(t) <= c.high)
    && (c.high == c.open || c.high == c.close || IsPriceOf(c.high, trades))
    && (c.low == c.open || c.low == c.close || IsPriceOf(c.low, trades))
  }

  lemma {:induction false} CandleEncloses(prev: Option<real>, r: Row, carried: Option<real>)
    requires AllPriced(r.trades) && r.close.Some? && r.close == CloseOf(r.trades, carried)
    ensures Encloses(CandleOf(r, prev), r.trades)
  {
    if r.trades != [] {
      PricesBetween(r.trades);
    }
  }

  /** One candle over the trades of its own bucket; without a trade it repeats
      the close before it. */
  ghost predicate ShowsBucket(c: Candle, before: Option<real>, trades: seq<Trade>) {
    && Encloses(c, trades)
    && c.volume == Volume(trades)
    && (trades != [] ==> HasPrice(Latest(trades)) && c.close == Price(Latest(trades)))
    && (trades == [] && before.Some? ==> c.close == before.value)
  }

  function CloseBefore(cs: seq<Candle>, seed: Option<real>, i: nat): Option<real>
    requires i <= |cs|
  {
    if i == 0 then seed else Some(cs[i - 1].close)
  }

  ghost predicate ShowsTrades(cs: seq<Candle>, seed: Option<real>, priced: seq<Trade>, w: Window) {
    forall i :: 0 <= i < |cs| ==>
      ShowsBucket(cs[i], CloseBefore(cs, seed, i), Keep(priced, InBucket(cs[i].time, w.width)))
  }

  /** Each opens where the one before closed, bucket after bucket, up to the end
      of the window. */
  ghost predicate IsUnbroken(cs: seq<Candle>, w: Window) {
    && (forall i :: 0 < i < |cs| ==> cs[i].open == cs[i - 1].close && cs[i].time == cs[i - 1].time + w.width)
    && (cs != [] ==> cs[|cs| - 1].time < w.to <= cs[|cs| - 1].time + w.width)
  }

  /** The rows from the d-th on continue the same filling. */
  lemma {:induction false} FillingSuffix(all: seq<Row>, priced: seq<Trade>, b: int, width: int, until: int,
                                         carried: Option<real>, d: nat)
    requires IsFilling(all, priced, b, width, until, carried) && d < |all|
    ensures IsFilling(all[d..], priced, all[d].bucket, width, until, if d == 0 then carried else all[d - 1].close)
  {
    hide CloseOf, Keep, AllPriced;
    var rows := all[d..];
    if d > 0 {
      assert Follows(all[d - 1], all[d], width);
    }
    forall i | 0 < i < |rows| ensures Follows(rows[i - 1], rows[i], width) {
      assert Follows(all[d + i - 1], all[d + i], width);
    }
  }

  lemma {:induction false} CandleFields(r: Row, lag: Option<real>)
    requires r.close.Some? && AllPriced(r.trades)
    ensures var c := CandleOf(r, lag);
            && c.time == r.bucket && c.close == r.close.value && c.volume == Volume(r.trades)
            && c.open == if lag.Some? then lag.value else r.close.value
  {
  }

  lemma {:induction false} DrawnAt(rows: seq<Row>, i: nat)
    requires AreRows(rows) && (forall k :: 0 <= k < |rows| ==> rows[k].close.Some?) && i < |rows|
    ensures var c := Drawn(rows, None)[i];
            && c.time == rows[i].bucket && c.close == rows[i].close.value && c.volume == Volume(rows[i].trades)
            && c.open == if i == 0 then rows[0].close.value else rows[i - 1].close.value
  {
    CandleFields(rows[i], if i == 0 then None else rows[i - 1].close);
  }

  lemma {:induction false} DrawnFollows(rows: seq<Row>, priced: seq<Trade>, b: int, w: Window, carried: Option<real>, i: nat)
    requires IsFilling(rows, priced, b, w.width, w.to, carried) && forall i :: 0 <= i < |rows| ==> rows[i].close.Some?
    requires 0 < i < |rows|
    ensures var cs := Drawn(rows, None);
            cs[i].open == cs[i - 1].close && cs[i].time == cs[i - 1].time + w.width
  {
    hide CloseOf, Keep, AllPriced, CandleOf, Drawn;
    DrawnAt(rows, i);
    DrawnAt(rows, i - 1);
    assert Follows(rows[i - 1], rows[i], w.width);
  }

  lemma {:induction false} DrawnIsUnbroken(rows: seq<Row>, priced: seq<Trade>, b: int, w: Window, carried: Option<real>)
    requires IsFilling(rows, priced, b, w.width, w.to, carried) && forall i :: 0 <= i < |rows| ==> rows[i].close.Some?
    ensures IsUnbroken(Drawn(rows, None), w)
  {
    hide CloseOf, Keep, AllPriced, CandleOf, Drawn;
    var cs := Drawn(rows, None);
    forall i | 0 < i < |cs| ensures cs[i].open == cs[i - 1].close && cs[i].time == cs[i - 1].time + w.width {
      DrawnFollows(rows, priced, b, w, carried, i);
    }
    if cs != [] {
      DrawnAt(rows, |cs| - 1);
    }
  }

  lemma {:induction false} CarriedClose(trades: seq<Trade>, carried: Option<real>)
    requires AllPriced(trades)
    ensures trades == [] ==> CloseOf(trades, carried) == carried
    ensures trades != [] ==> HasPrice(Latest(trades)) && CloseOf(trades, carried) == Some(Price(Latest(trades)))
  {
  }

  lemma {:induction false} DrawnShowsTrades(rows: seq<Row>, priced: seq<Trade>, b: int, w: Window,
                                            carried: Option<real>)
    requires IsFilling(rows, priced, b, w.width, w.to, carried) && forall i :: 0 <= i < |rows| ==> rows[i].close.Some?
    ensures ShowsTrades(Drawn(rows, None), carried, priced, w)
  {
    hide CloseOf, Keep, AllPriced, Encloses, CandleOf, Latest, Price, HasPrice, Volume;
    var cs := Drawn(rows, None);
    forall i | 0 <= i < |cs|
      ensures ShowsBucket(cs[i], CloseBefore(cs, carried, i), Keep(priced, InBucket(cs[i].time, w.width)))
    {
      DrawnAt(rows, i);
      var before := if i == 0 then carried else rows[i - 1].close;
      if i > 0 {
        assert Follows(rows[i - 1], rows[i], w.width);
        DrawnAt(rows, i - 1);
      }
      CarriedClose(rows[i].trades, before);
      CandleEncloses(if i == 0 then None else rows[i - 1].close, rows[i], before);
    }
  }

  /** For every trade list and window: candles that enclose their trades, each
      opening where the one before closed, with no gap up to the end. */
  lemma {:induction false} ChartIsContinuous(trades: seq<Trade>, w: Window)
    requires IsWindow(w)
    ensures IsUnbroken(Query(trades, w), w) && ShowsTrades(Query(trades, w), Seed(trades, w), Keep(trades, PricedIn(w)), w)
  {
    hide Keep, Filled, IsFilling, CloseOf, AllPriced;
    var all, priced := Filled(trades, w), Keep(trades, PricedIn(w));
    FilledIsFilling(trades, w);
    var d := FillingTrims(all, priced, FirstBucket(w), w.width, w.to, Seed(trades, w));
    if d < |all| {
      var carried := if d == 0 then Seed(trades, w) else all[d - 1].close;
      PricedAreInside(trades, w);
      TrimmedStarts(all, priced, w, Seed(trades, w), d);
      FillingSuffix(all, priced, FirstBucket(w), w.width, w.to, Seed(trades, w), d);
      DrawnIsUnbroken(Shown(trades, w), priced, all[d].bucket, w, carried);
      DrawnShowsTrades(Shown(trades, w), priced, all[d].bucket, w, carried);
    }
  }

  /** Where the chart starts. */
  ghost predicate StartsRight(cs: seq<Candle>, seed: Option<real>, priced: seq<Trade>, w: Window)
    requires IsWindow(w)
  {
    && (cs == [] <==> seed.None? && priced == [])
    && (cs != [] && seed.Some? ==> cs[0].time == FirstBucket(w))
    && (cs != [] && seed.None? ==>
          && Keep(priced, InBucket(cs[0].time, w.width)) != []
          && forall t :: t in priced ==> t.time >= cs[0].time)
  }

  /** The chart starts at the window's first bucket when an earlier price is
      known, and else at the first bucket with a priced trade; it is empty
      exactly when there is neither. */
  lemma {:induction false} ChartStarts(trades: seq<Trade>, w: Window)
    requires IsWindow(w)
    ensures StartsRight(Query(trades, w), Seed(trades, w), Keep(trades, PricedIn(w)), w)
  {
    hide Keep, Filled, IsFilling, AllPriced, CandleOf;
    var all, priced, seed := Filled(trades, w), Keep(trades, PricedIn(w)), Seed(trades, w);
    FilledIsFilling(trades, w);
    var d := FillingTrims(all, priced, FirstBucket(w), w.width, w.to, seed);
    PricedAreInside(trades, w);
    TrimmedStarts(all, priced, w, seed, d);
    FillingTrades(all, priced, FirstBucket(w), w, seed, d);
    if d < |all| {
      DrawnAt(Shown(trades, w), 0);
    }
  }

  // ----- ... read off the trades themselves -----

  /** A trade of the window that has a price. */
  ghost predicate IsCharted(t: Trade, w: Window) {
    t.pair == w.pair && w.from <= t.time < w.to && t.reserve0.Some? && t.reserve0.value > 0 && t.reserve1.Some?
  }

  ghost predicate IsEarlier(t: Trade, w: Window) {
    t.pair == w.pair && t.time < w.from && t.reserve0.Some? && t.reserve0.value > 0 && t.reserve1.Some?
  }

  ghost predicate InCandle(t: Trade, w: Window, c: Candle) {
    IsCharted(t, w) && c.time <= t.time < c.time + w.width
  }

  /** The trade's price is `x`: its second reserve is `x` times its first. */
  predicate At(t: Trade, x: real)
    requires t.reserve0.Some? && t.reserve1.Some?
  {
    t.reserve1.value as real == x * t.reserve0.value as real
  }

  predicate Within(t: Trade, low: real, high: real)
    requires t.reserve0.Some? && t.reserve1.Some?
  {
    low * t.reserve0.value as real <= t.reserve1.value as real <= high * t.reserve0.value as real
  }

  /** Every charted trade of the candle lies within it; high and low are reached;
      the close is a latest trade's, or without a trade the close before. */
  ghost predicate Depicts(c: Candle, before: Option<real>, trades: seq<Trade>, w: Window) {
    && c.low <= c.open <= c.high && c.low <= c.close <= c.high
    && (forall t :: t in trades && InCandle(t, w, c) ==> Within(t, c.low, c.high))
    && (c.high == c.open || c.high == c.close || exists t :: t in trades && InCandle(t, w, c) && At(t, c.high))
    && (c.low == c.open || c.low == c.close || exists t :: t in trades && InCandle(t, w, c) && At(t, c.low))
    && ((exists t :: t in trades && InCandle(t, w, c)) ==>
          exists t :: t in trades && InCandle(t, w, c) && At(t, c.close)
                      && forall x :: x in trades && InCandle(x, w, c) ==> x.time <= t.time)
    && ((forall t :: t in trades ==> !InCandle(t, w, c)) && before.Some? ==> c.close == before.value)
  }

  /** The close known before the window: a latest earlier trade's. */
  ghost predicate IsSeed(seed: Option<real>, trades: seq<Trade>, w: Window) {
    && (seed.None? <==> forall t :: t in trades ==> !IsEarlier(t, w))
    && (seed.Some? ==> exists t :: t in trades && IsEarlier(t, w) && At(t, seed.value)
                                   && forall x :: x in trades && IsEarlier(x, w) ==> x.time <= t.time)
  }

  lemma {:induction false} PriceIsRatio(t: Trade, x: real)
    requires HasPrice(t)
    ensures At(t, Price(t)) && (x <= Price(t) <==> x * t.reserve0.value as real <= t.reserve1.value as real)
    ensures Price(t) <= x <==> t.reserve1.value as real <= x * t.reserve0.value as real
  {
    var a, b := t.reserve0.value as real, t.reserve1.value as real;
    QuotientBounds(b, a, x);
  }

  lemma {:induction false} QuotientBounds(b: real, a: real, x: real)
    requires a > 0.0
    ensures b / a * a == b && (x <= b / a <==> x * a <= b) && (b / a <= x <==> b <= x * a)
  {
    var q := b / a;
    assert q * a == b;
    if x <= q {
      ScaleKeepsOrder(x, q, a);
    }
    if q <= x {
      ScaleKeepsOrder(q, x, a);
    }
  }

  lemma {:induction false} ScaleKeepsOrder(x: real, y: real, a: real)
    requires a > 0.0 && x <= y
    ensures x * a <= y * a && (x * a == y * a ==> x == y)
  {
    assert (y - x) * a >= 0.0;
    assert y * a == x * a + (y - x) * a;
    if x < y {
      assert (y - x) * a > 0.0;
    }
  }

  lemma {:induction false} SeedIsLatest(trades: seq<Trade>, w: Window)
    ensures IsSeed(Seed(trades, w), trades, w)
  {
    var before := Keep(trades, PricedBefore(w));
    forall t ensures t in before <==> t in trades && IsEarlier(t, w) {
      EarlierTrades(trades, w, t);
    }
    if before != [] {
      var t := Latest(before);
      PriceIsRatio(t, 0.0);
      assert At(t, Seed(trades, w).value);
      assert before[0] in before;
    }
  }

  lemma {:induction false} ShownIsDepicted(c: Candle, before: Option<real>, trades: seq<Trade>, w: Window)
    requires ShowsBucket(c, before, Keep(Keep(trades, PricedIn(w)), InBucket(c.time, w.width)))
    ensures Depicts(c, before, trades, w)
  {
    var own := Keep(Keep(trades, PricedIn(w)), InBucket(c.time, w.width));
    hide Keep, Latest, Volume, Price, HasPrice, At, Within;
    forall t ensures t in own <==> t in trades && InCandle(t, w, c) {
      OwnTrades(trades, w, c, t);
    }
    forall t | t in own && HasPrice(t) ensures At(t, Price(t)) && (c.low <= Price(t) <= c.high ==> Within(t, c.low, c.high)) {
      PriceWithin(t, c.low, c.high);
    }
    if own == [] {
      assert forall t :: t !in own;
    } else {
      LatestIsLast(own);
      assert own[0] in own;
      assert At(Latest(own), c.close);
    }
  }

  lemma {:induction false} OwnTrades(trades: seq<Trade>, w: Window, c: Candle, t: Trade)
    ensures t in Keep(Keep(trades, PricedIn(w)), InBucket(c.time, w.width)) <==> t in trades && InCandle(t, w, c)
  {
    ChartedTrades(trades, w, t);
    assert InBucket(c.time, w.width)(t) <==> c.time <= t.time < c.time + w.width;
  }

  lemma {:induction false} ChartedTrades(trades: seq<Trade>, w: Window, t: Trade)
    ensures t in Keep(trades, PricedIn(w)) <==> t in trades && IsCharted(t, w)
  {
    assert InWindow(w)(t) <==> t.pair == w.pair && w.from <= t.time < w.to;
    assert PricedIn(w)(t) <==> InWindow(w)(t) && HasPrice(t);
  }

  lemma {:induction false} EarlierTrades(trades: seq<Trade>, w: Window, t: Trade)
    ensures t in Keep(trades, PricedBefore(w)) <==> t in trades && IsEarlier(t, w)
  {
    assert PricedBefore(w)(t) <==> IsEarlier(t, w);
  }

  lemma {:induction false} PriceWithin(t: Trade, low: real, high: real)
    requires HasPrice(t)
    ensures At(t, Price(t)) && (low <= Price(t) <= high ==> Within(t, low, high))
  {
    hide Price;
    PriceIsRatio(t, low);
    PriceIsRatio(t, high);
  }

  lemma {:induction false} LatestIsLast(ts: seq<Trade>)
    requires ts != []
    ensures Latest(ts) in ts && forall x :: x in ts ==> x.time <= Latest(ts).time
  {
  }

  /** The chart, read off the trades: each candle depicts the charted trades of its
      bucket, the first carries the seed, and it is empty exactly when no trade of
      the pair up to the window's end has a price. */
  lemma {:induction false} ChartDepictsTrades(trades: seq<Trade>, w: Window)
    requires IsWindow(w)
    ensures var cs, seed := Query(trades, w), Seed(trades, w);
            && IsSeed(seed, trades, w)
            && (forall i :: 0 <= i < |cs| ==> Depicts(cs[i], CloseBefore(cs, seed, i), trades, w))
            && (forall i :: 0 <= i < |cs| ==> (cs[i].time - w.origin) % w.width == 0)
            && (cs == [] <==> forall t :: t in trades ==> !IsCharted(t, w) && !IsEarlier(t, w))
  {
    var cs, seed, priced := Query(trades, w), Seed(trades, w), Keep(trades, PricedIn(w));
    hide Keep, Query, Seed, FirstBucket, Depicts, Latest, ShowsBucket;
    forall t ensures t in priced <==> t in trades && IsCharted(t, w) {
      ChartedTrades(trades, w, t);
    }
    SeedIsLatest(trades, w);
    ChartIsContinuous(trades, w);
    ChartStarts(trades, w);
    OnGrid(trades, w);
    forall i | 0 <= i < |cs| ensures Depicts(cs[i], CloseBefore(cs, seed, i), trades, w) {
      ShownIsDepicted(cs[i], CloseBefore(cs, seed, i), trades, w);
    }
    if priced != [] {
      assert priced[0] in priced;
    }
  }

  lemma {:induction false} OnGrid(trades: seq<Trade>, w: Window)
    requires IsWindow(w)
    ensures var cs := Query(trades, w); forall i :: 0 <= i < |cs| ==> (cs[i].time - w.origin) % w.width == 0
  {
    hide Keep, IsFilling, AllPriced, CandleOf;
    var all := Filled(trades, w);
    FilledIsFilling(trades, w);
    var d := FillingTrims(all, Keep(trades, PricedIn(w)), FirstBucket(w), w.width, w.to, Seed(trades, w));
    var shown := Shown(trades, w);
    forall i | 0 <= i < |shown| ensures (Query(trades, w)[i].time - w.origin) % w.width == 0 {
      DrawnAt(shown, i);
      BucketOnGrid(all, Keep(trades, PricedIn(w)), w, Seed(trades, w), d + i);
    }
  }

  lemma {:induction false} BucketOnGrid(all: seq<Row>, priced: seq<Trade>, w: Window, seed: Option<real>, i: nat)
    requires IsWindow(w) && IsFilling(all, priced, FirstBucket(w), w.width, w.to, seed) && i < |all|
    ensures (all[i].bucket - w.origin) % w.width == 0
    decreases i
  {
    hide Keep, CloseOf, AllPriced;
    if i > 0 {
      BucketOnGrid(all, priced, w, seed, i - 1);
      assert Follows(all[i - 1], all[i], w.width);
      OneMoreWidth(all[i - 1].bucket - w.origin, w.width);
    }
  }

  lemma {:induction false} OneMoreWidth(x: int, width: int)
    requires width > 0 && x % width == 0
    ensures (x + width) % width == 0
  {
    var k := x / width;
    assert x + width == (k + 1) * width;
    MultipleLeavesNothing(k + 1, width);
  }

  lemma {:induction false} PricedAreInside(trades: seq<Trade>, w: Window)
    requires IsWindow(w)
    ensures forall t :: t in Keep(trades, PricedIn(w)) ==> FirstBucket(w) <= t.time < w.to
  {
    forall t | t in Keep(trades, PricedIn(w)) ensures FirstBucket(w) <= t.time < w.to {
      assert PricedIn(w)(t) && InWindow(w)(t);
    }
  }

  lemma {:induction false} FillingTrades(all: seq<Row>, priced: seq<Trade>, b: int, w: Window, seed: Option<real>,
                                         d: nat)
    requires IsWindow(w) && IsFilling(all, priced, b, w.width, w.to, seed)
    ensures all != [] ==> all[0].bucket == b
    ensures d < |all| ==> all[d].trades == Keep(priced, InBucket(all[d].bucket, w.width))
  {
  }

  lemma {:induction false} TrimmedStarts(all: seq<Row>, priced: seq<Trade>, w: Window, seed: Option<real>, d: nat)
    requires IsWindow(w) && IsFilling(all, priced, FirstBucket(w), w.width, w.to, seed)
    requires d <= |all| && (forall i :: 0 <= i < d ==> all[i].close.None?) && (d < |all| ==> all[d].close.Some?)
    requires forall t :: t in priced ==> FirstBucket(w) <= t.time < w.to
    ensures seed.Some? ==> d == 0 && |all| > 0
    ensures d < |all| && seed.None? ==> all[d].trades != [] && forall t :: t in priced ==> t.time >= all[d].bucket
    ensures d == |all| ==> priced == []
    ensures seed.None? && priced == [] ==> d == |all|
  {
    hide Keep, AllPriced;
    forall i | 0 <= i < |all| && all[i].trades != [] ensures d <= i {
      assert i > 0 ==> Follows(all[i - 1], all[i], w.width);
    }
    forall t | t in priced ensures d < |all| && t.time >= all[d].bucket {
      var i := BucketHolds(all, priced, FirstBucket(w), w, seed, t);
      BucketsRise(all, w.width, d, i);
    }
    if d < |all| && seed.None? {
      assert d > 0 ==> Follows(all[d - 1], all[d], w.width);
      HeldTrades(priced, InBucket(all[d].bucket, w.width));
    }
    if priced != [] {
      assert priced[0] in priced;
    }
  }

  lemma {:induction false} HeldTrades(priced: seq<Trade>, p: Trade -> bool)
    ensures priced == [] ==> Keep(priced, p) == []
  {
  }

  lemma {:induction false} BucketsRise(all: seq<Row>, width: int, i: nat, j: nat)
    requires width > 0 && i <= j < |all| && forall k :: 0 < k < |all| ==> Follows(all[k - 1], all[k], width)
    ensures all[i].bucket <= all[j].bucket
    decreases j
  {
    if i < j {
      assert Follows(all[j - 1], all[j], width);
      BucketsRise(all, width, i, j - 1);
    }
  }

  /** Every priced trade is in one of the buckets. */
  lemma {:induction false} BucketHolds(all: seq<Row>, priced: seq<Trade>, b: int, w: Window, carried: Option<real>,
                                       t: Trade)
    returns (i: nat)
    requires IsWindow(w) && IsFilling(all, priced, b, w.width, w.to, carried)
    requires t in priced && b <= t.time < w.to
    ensures i < |all| && t in all[i].trades && all[i].bucket <= t.time
  {
    i := LastStart(all, w.width, t.time, |all|);
    assert t in Keep(priced, InBucket(all[i].bucket, w.width));
  }

  lemma {:induction false} LastStart(all: seq<Row>, width: int, time: int, n: nat) returns (i: nat)
    requires 0 < n <= |all| && all[0].bucket <= time < all[n - 1].bucket + width
    requires forall k :: 0 < k < |all| ==> Follows(all[k - 1], all[k], width)
    ensures i < n && all[i].bucket <= time < all[i].bucket + width
  {
    if all[n - 1].bucket <= time {
      i := n - 1;
    } else {
      assert Follows(all[n - 2], all[n - 1], width);
      i := LastStart(all, width, time, n - 1);
    }
  }

  // ----- volume -----

  function RowsVolume(rows: seq<Row>): real {
    if rows == [] then 0.0 else Volume(rows[0].trades) + RowsVolume(rows[1..])
  }

  function ChartVolume(cs: seq<Candle>): real {
    if cs == [] then 0.0 else cs[0].volume + ChartVolume(cs[1..])
  }

  /** A condition that splits in two splits the volume. */
  lemma {:induction false} VolumeSplits(ts: seq<Trade>, whole: Trade -> bool, one: Trade -> bool, other: Trade -> bool)
    requires forall t :: t in ts ==> (whole(t) <==> one(t) || other(t)) && !(one(t) && other(t))
    ensures Volume(Keep(ts, whole)) == Volume(Keep(ts, one)) + Volume(Keep(ts, other))
  {
    if ts != [] {
      hide Volume, VolumeOf, Keep;
      var t, rest := ts[0], ts[1..];
      assert ts == [t] + rest;
      VolumeSplits(rest, whole, one, other);
      KeptVolume(t, rest, whole);
      KeptVolume(t, rest, one);
      KeptVolume(t, rest, other);
    }
  }

  lemma {:induction false} KeptVolume(t: Trade, rest: seq<Trade>, p: Trade -> bool)
    ensures Volume(Keep([t] + rest, p)) == (if p(t) then VolumeOf(t) else 0.0) + Volume(Keep(rest, p))
  {
    KeepFirst(t, rest, p);
    var kept := Keep(rest, p);
    assert ([t] + kept)[1..] == kept;
    assert [] + kept == kept;
  }

  function From(b: int): Trade -> bool { (t: Trade) => t.time >= b }

  lemma {:induction false} FillVolume(priced: seq<Trade>, b: int, width: int, until: int, carried: Option<real>)
    requires width > 0 && AllPriced(priced) && forall t :: t in priced ==> t.time < until
    ensures RowsVolume(Fill(priced, b, width, until, carried)) == Volume(Keep(priced, From(b)))
    decreases until - b
  {
    hide Volume, Keep, Fill, CloseOf, TradesOf, RowsVolume;
    FillNext(priced, b, width, until, carried);
    if b >= until {
      NoVolume(priced, From(b));
    } else {
      var trades := TradesOf(priced, b, width);
      var close := CloseOf(trades, carried);
      var rest := Fill(priced, b + width, width, until, close);
      FillVolume(priced, b + width, width, until, close);
      BucketVolume(priced, b, width);
      RowsVolumeCons(Row(b, trades, close), rest);
    }
  }

  lemma {:induction false} NoVolume(ts: seq<Trade>, p: Trade -> bool)
    requires forall t :: t in ts ==> !p(t)
    ensures RowsVolume([]) == 0.0 && Volume(Keep(ts, p)) == 0.0
  {
    KeepNone(ts, p);
  }

  lemma {:induction false} BucketVolume(priced: seq<Trade>, b: int, width: int)
    requires width > 0 && AllPriced(priced)
    ensures Volume(Keep(priced, From(b))) == Volume(TradesOf(priced, b, width)) + Volume(Keep(priced, From(b + width)))
  {
    hide Volume, Keep;
    VolumeSplits(priced, From(b), InBucket(b, width), From(b + width));
  }

  lemma {:induction false} RowsVolumeCons(r: Row, rest: seq<Row>)
    ensures RowsVolume([r] + rest) == Volume(r.trades) + RowsVolume(rest)
  {
    hide Volume;
    assert ([r] + rest)[1..] == rest;
  }

  lemma {:induction false} TrimKeepsVolume(rows: seq<Row>)
    requires forall i :: 0 <= i < |rows| && rows[i].close.None? ==> rows[i].trades == []
    ensures RowsVolume(Keep(rows, HasClose())) == RowsVolume(rows)
  {
    if rows != [] {
      TrimKeepsVolume(rows[1..]);
      assert rows == [rows[0]] + rows[1..];
      KeepFirst(rows[0], rows[1..], HasClose());
      var kept := Keep(rows[1..], HasClose());
      assert ([rows[0]] + kept)[1..] == kept;
      assert [] + kept == kept;
    }
  }

  lemma {:induction false} DrawnVolume(rows: seq<Row>, lag: Option<real>)
    requires AreRows(rows) && forall i :: 0 <= i < |rows| ==> rows[i].close.Some?
    ensures ChartVolume(Drawn(rows, lag)) == RowsVolume(rows)
    decreases |rows|
  {
    if rows != [] {
      DrawnVolume(rows[1..], rows[0].close);
      CandleFields(rows[0], lag);
      var rest := Drawn(rows[1..], rows[0].close);
      assert ([CandleOf(rows[0], lag)] + rest)[1..] == rest;
    }
  }

  lemma {:induction false} ClosedRows(all: seq<Row>, priced: seq<Trade>, b: int, w: Window, seed: Option<real>)
    requires IsFilling(all, priced, b, w.width, w.to, seed)
    ensures forall i :: 0 <= i < |all| && all[i].close.None? ==> all[i].trades == []
  {
    forall i | 0 <= i < |all| && all[i].close.None? ensures all[i].trades == [] {
      assert i > 0 ==> Follows(all[i - 1], all[i], w.width);
    }
  }

  /** The candle volumes add up to the volume of the priced trades. */
  lemma {:induction false} VolumeIsPricedVolume(trades: seq<Trade>, w: Window)
    requires IsWindow(w)
    ensures ChartVolume(Query(trades, w)) == Volume(Keep(trades, PricedIn(w)))
  {
    hide Keep, Volume, IsFilling;
    var all, priced, seed := Filled(trades, w), Keep(trades, PricedIn(w)), Seed(trades, w);
    FilledIsFilling(trades, w);
    ClosedRows(all, priced, FirstBucket(w), w, seed);
    PricedAreInside(trades, w);
    AllArePriced(trades, w);
    FillVolume(priced, FirstBucket(w), w.width, w.to, seed);
    KeepAll(priced, From(FirstBucket(w)));
    TrimKeepsVolume(all);
    DrawnVolume(Shown(trades, w), None);
  }

  lemma {:induction false} AllArePriced(trades: seq<Trade>, w: Window)
    ensures AllPriced(Keep(trades, PricedIn(w)))
  {
    var priced := Keep(trades, PricedIn(w));
    forall i | 0 <= i < |priced| ensures HasPrice(priced[i]) {
      assert priced[i] in priced;
    }
  }

  function UnpricedIn(w: Window): Trade -> bool {
    (t: Trade) => InWindow(w)(t) && !HasPrice(t)
  }

  /** That is the volume of all trades in the window exactly when the trades
      without a price carry none between them. */
  lemma {:induction false} VolumeIsWhole(trades: seq<Trade>, w: Window)
    requires IsWindow(w)
    ensures ChartVolume(Query(trades, w)) == Volume(Keep(trades, InWindow(w))) <==> Volume(Keep(trades, UnpricedIn(w))) == 0.0
  {
    hide Keep, Volume, Query;
    VolumeIsPricedVolume(trades, w);
    VolumeSplits(trades, InWindow(w), PricedIn(w), UnpricedIn(w));
  }

  /** A trade that left an empty reserve is not charted, nor is its volume. */
  lemma {:induction false} EmptyReserveIsDropped()
    ensures var w := Window("p", 0, 60, 60, 0);
            var ts := [Trade("p", 30, Some(0), Some(5), Some(7.0))];
            ChartVolume(Query(ts, w)) == 0.0 && Volume(Keep(ts, InWindow(w))) == 7.0
  {
    hide Query;
    var w := Window("p", 0, 60, 60, 0);
    var t := Trade("p", 30, Some(0), Some(5), Some(7.0));
    VolumeIsPricedVolume([t], w);
    assert InWindow(w)(t) && !HasPrice(t);
    assert !PricedIn(w)(t);
    KeepNone([t], PricedIn(w));
    KeepAll([t], InWindow(w));
    assert [t][1..] == [];
  }
}
