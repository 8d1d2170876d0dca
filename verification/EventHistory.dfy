/** Event history pages (api/src/services/duskEventHistory.ts): selection,
    the role-split query, the page with its cursor, and the walk. */
module EventHistory {
  import opened Options
  import opened TextOrder
  import opened Paging
  import opened Sequences
  import Decimal
  import EventKeys

  const MAX_I64 := 0x7FFF_FFFF_FFFF_FFFF

  // ----- the joined rows -----

  /** A canonical event joined with its observation and event time. `settled`:
      confirmed or finalized, alike in both tables. `consistent`: exactly one
      stream row, and it matches. The rest are payload fields, None when absent. */
  datatype Row = Row(
    observationId: nat,
    settled: bool,
    name: string,
    slot: nat,
    blockTime: Option<int>,
    consistent: bool,
    market: Option<string>,
    trader: Option<string>,
    borrower: Option<string>,
    owner: Option<string>,
    stateOwner: Option<string>,
    liquidator: Option<string>,
    buyer: Option<string>,
    caller: Option<string>,
    leverage: Option<bool>,
    closed: Option<bool>)

  /** The primary key of canonical_events is the event key. */
  type Table = map<Text, Row>

  const HISTORY_EVENTS: set<string> := {
    "SwapExecuted", "LiquidityAdded", "LiquidityRemoved",
    "MarketCollateralDeposited", "MarketCollateralWithdrawn", "MarketDebtUpdated",
    "BorrowPositionLiquidated", "LeveragePositionOpened", "LeveragePositionUpdated",
    "LeveragePositionClosed", "LeveragePositionLiquidated",
    "FlashLiquidationSettled", "EmergencyLiquidationSettled"}

  const HISTORY_EVENTS_V2 := HISTORY_EVENTS + {"HlpOpened", "HlpClosed", "YieldClaimed"}

  const CLOSE_EVENTS: set<string> := {
    "LeveragePositionClosed", "LeveragePositionLiquidated", "FlashLiquidationSettled", "EmergencyLiquidationSettled"}

  const LIQUIDATIONS: set<string> := {
    "BorrowPositionLiquidated", "LeveragePositionLiquidated", "FlashLiquidationSettled", "EmergencyLiquidationSettled"}

  /** `dusk_ingestion.event_history_actor`. */
  function Actor(r: Row): Option<string> {
    if r.name == "SwapExecuted" then r.trader
    else if r.name == "BorrowPositionLiquidated" then r.borrower
    else if r.name == "FlashLiquidationSettled" then r.stateOwner
    else r.owner
  }

  /** `COALESCE(liquidator, buyer, caller)`. */
  function Counterparty(r: Row): Option<string> {
    if r.liquidator.Some? then r.liquidator else if r.buyer.Some? then r.buyer else r.caller
  }

  // ----- the query -----

  datatype Category = LeverageClose | Activity

  datatype Query = Query(
    version: nat,
    owner: Option<string>,
    category: Option<Category>,
    market: Option<string>,
    since: Option<int>,
    until: int,
    limit: nat,
    deployment: string)

  /** The pinned identity and first slot; `addresses` is base58 well-formedness. */
  datatype Pin = Pin(identity: seq<Text>, firstSlot: nat, isAddress: string -> bool, isDigest: string -> bool)

  function Events(q: Query): set<string> {
    if q.version == 2 then HISTORY_EVENTS_V2 else HISTORY_EVENTS
  }

  /** The checks of `eventHistorySelection` other than the cursor's, at time `now`. */
  predicate Selects(pin: Pin, q: Query, now: int) {
    && (q.version == 1 || q.version == 2)
    && 1 <= q.limit <= 500
    && pin.isDigest(q.deployment)
    && 0 <= q.until <= now + 1000
    && (q.since.Some? ==> q.since.value <= q.until)
    && q.owner.Some? == q.category.Some?
    && (q.category == Some(Activity) ==> q.version == 2)
    && (q.market.Some? ==> pin.isAddress(q.market.value))
    && (q.owner.Some? ==> pin.isAddress(q.owner.value))
  }

  /** Everything but the role filter and the cursor. */
  predicate InWindow(q: Query, watermark: nat, r: Row) {
    && r.settled && r.observationId <= watermark
    && r.name in (if q.category == Some(LeverageClose) then CLOSE_EVENTS else Events(q))
    && (q.category == Some(LeverageClose) ==>
          || r.name in {"LeveragePositionClosed", "LeveragePositionLiquidated"}
          || (r.leverage == Some(true) && r.closed == Some(true)))
    && (q.market.Some? ==> r.market == q.market)
    && (q.since.Some? && r.blockTime.Some? ==> r.blockTime.value >= q.since.value)
    && (r.blockTime.Some? ==> r.blockTime.value <= q.until)
  }

  /** The role the selection asks for, as one condition. */
  predicate HasRole(q: Query, r: Row) {
    || q.owner.None?
    || Actor(r) == q.owner
    || (q.category == Some(Activity) && r.name in LIQUIDATIONS && Counterparty(r) == q.owner)
  }

  function Positions(t: Table, keys: set<Text>): set<Position>
    requires keys <= t.Keys
  {
    set k | k in keys :: Position(t[k].slot, k)
  }

  /** The events a selection means at a watermark. */
  function Matching(q: Query, watermark: nat, t: Table): set<Position> {
    Positions(t, set k | k in t && InWindow(q, watermark, t[k]) && HasRole(q, t[k]))
  }

  /** The first branch: the actor, or everybody without an owner. */
  function ActorBranch(q: Query, watermark: nat, t: Table): set<Position> {
    Positions(t, set k | k in t && InWindow(q, watermark, t[k]) && (q.owner.None? || Actor(t[k]) == q.owner))
  }

  /** The second branch, whose actor IS DISTINCT FROM the counterparty. */
  function LiquidatorBranch(q: Query, watermark: nat, t: Table): set<Position> {
    Positions(t, set k | k in t && InWindow(q, watermark, t[k]) && t[k].name in LIQUIDATIONS
                         && Counterparty(t[k]) == q.owner && Actor(t[k]) != Counterparty(t[k]))
  }

  /** `buildEventHistoryQuery`: each branch filtered, ordered and limited to
      limit + 1, then merged and limited again. */
  ghost function QueryRows(q: Query, watermark: nat, t: Table, cursor: Option<Position>): seq<Position> {
    var first := Take(Descending(Below(ActorBranch(q, watermark, t), cursor)), q.limit + 1);
    if q.category != Some(Activity) || q.owner.None? then first
    else
      var second := Take(Descending(Below(LiquidatorBranch(q, watermark, t), cursor)), q.limit + 1);
      Take(Merge(first, second), q.limit + 1)
  }

  lemma {:induction false} BranchesPartition(q: Query, watermark: nat, t: Table)
    requires q.category == Some(Activity) && q.owner.Some?
    ensures ActorBranch(q, watermark, t) !! LiquidatorBranch(q, watermark, t)
    ensures ActorBranch(q, watermark, t) + LiquidatorBranch(q, watermark, t) == Matching(q, watermark, t)
  {
    forall p | p in ActorBranch(q, watermark, t) ensures p !in LiquidatorBranch(q, watermark, t) {
    }
    forall p ensures p in Matching(q, watermark, t) <==> p in ActorBranch(q, watermark, t) + LiquidatorBranch(q, watermark, t) {
    }
  }

  /** The split query returns the top of the single role condition, for null
      actors, for both roles at once, and without a role. */
  lemma {:induction false} SplitQueryIsSingleQuery(q: Query, watermark: nat, t: Table, cursor: Option<Position>)
    requires q.owner.Some? == q.category.Some?
    ensures QueryRows(q, watermark, t, cursor) == Take(Descending(Below(Matching(q, watermark, t), cursor)), q.limit + 1)
  {
    hide Below, Descending, Take;
    if q.category == Some(Activity) {
      BranchesPartition(q, watermark, t);
      LimitedUnion(ActorBranch(q, watermark, t), LiquidatorBranch(q, watermark, t), cursor, q.limit + 1);
    } else {
      assert ActorBranch(q, watermark, t) == Matching(q, watermark, t);
    }
  }

  lemma {:induction false} LimitedUnion(a: set<Position>, b: set<Position>, cursor: Option<Position>, n: nat)
    requires a !! b
    ensures Take(Merge(Take(Descending(Below(a, cursor)), n), Take(Descending(Below(b, cursor)), n)), n) ==
            Take(Descending(Below(a + b, cursor)), n)
  {
    MergeIsUnion(Below(a, cursor), Below(b, cursor));
    assert Below(a, cursor) + Below(b, cursor) == Below(a + b, cursor);
    LimitBranches(Descending(Below(a, cursor)), Descending(Below(b, cursor)), n, n, n);
  }

  /** One receipt per event, even when both roles match. */
  lemma {:induction false} NoEventTwice(q: Query, watermark: nat, t: Table, cursor: Option<Position>, i: nat, j: nat)
    requires q.owner.Some? == q.category.Some?
    requires i < j < |QueryRows(q, watermark, t, cursor)|
    ensures QueryRows(q, watermark, t, cursor)[i].key != QueryRows(q, watermark, t, cursor)[j].key
  {
    var rows := QueryRows(q, watermark, t, cursor);
    SplitQueryIsSingleQuery(q, watermark, t, cursor);
    PageFacts(Matching(q, watermark, t), cursor, q.limit + 1);
    assert rows[i] in Elements(rows) && rows[j] in Elements(rows);
    LessIsIrreflexive(rows[i]);
  }

  // ----- one page -----

  /** The digest input of the cursor scope: all of the selection but limit and cursor. */
  datatype Scope = Scope(identity: seq<Text>, deployment: string, market: Option<string>, since: Option<int>, until: int,
                         owner: Option<string>, category: Option<Category>, events: set<string>)

  datatype Cursor = Cursor(scope: Scope, watermark: nat, at: Position)

  function ScopeOf(pin: Pin, q: Query): Scope {
    Scope(pin.identity, q.deployment, q.market, q.since, q.until, q.owner, q.category, Events(q))
  }

  /** Characters of the base64url cursor: 46 of JSON around a 64-digit scope
      digest, two integers and an event key that needs no escaping. */
  function EncodedLength(c: Cursor): nat {
    (4 * (46 + 64 + |Decimal.Digits(c.watermark)| + |Decimal.Digits(c.at.slot)| + |c.at.key|) + 2) / 3
  }

  /** The cursor checks of selection and of `readEventHistory`. */
  predicate AcceptsCursor(pin: Pin, q: Query, c: Cursor, current: nat)
    requires |pin.identity| == 4
  {
    && EncodedLength(c) <= 2048
    && c.scope == ScopeOf(pin, q)
    && c.watermark <= MAX_I64 && c.at.slot <= MAX_I64
    && c.at.slot >= pin.firstSlot
    && EventKeys.CursorKey(c.at.key, pin.identity)
    && c.watermark <= current
  }

  datatype Outcome = Invalid | Inconsistent | Read(events: seq<Position>, next: Option<Cursor>)

  predicate SoundRow(pin: Pin, r: Row) {
    r.consistent && r.blockTime.Some? && r.slot >= pin.firstSlot
  }

  ghost predicate SoundRows(pin: Pin, t: Table, rows: seq<Position>) {
    forall i :: 0 <= i < |rows| ==> rows[i].key in t && SoundRow(pin, t[rows[i].key])
  }

  /** `readEventHistory` over one snapshot whose latest observation is `current`. */
  ghost function ReadPage(pin: Pin, q: Query, now: int, t: Table, current: nat, cursor: Option<Cursor>): Outcome
    requires |pin.identity| == 4
  {
    if !Selects(pin, q, now) || (cursor.Some? && !AcceptsCursor(pin, q, cursor.value, current)) then Invalid
    else ReadRows(pin, q, t, Mark(cursor, current), Place(cursor))
  }

  /** The watermark of a walk is its first page's. */
  function Mark(cursor: Option<Cursor>, current: nat): nat {
    if cursor.Some? then cursor.value.watermark else current
  }

  /** The query, the row checks and the slice. */
  ghost function ReadRows(pin: Pin, q: Query, t: Table, watermark: nat, cursor: Option<Position>): Outcome {
    var rows := QueryRows(q, watermark, t, cursor);
    if SoundRows(pin, t, rows) then Slice(ScopeOf(pin, q), watermark, rows, q.limit) else Inconsistent
  }

  /** `rows.slice(0, limit)` and the cursor of its last row. */
  function Slice(scope: Scope, watermark: nat, rows: seq<Position>, limit: nat): Outcome {
    var page := Take(rows, limit);
    Read(page, if |rows| > limit && page != [] then Some(Cursor(scope, watermark, page[|page| - 1])) else None)
  }

  function Place(cursor: Option<Cursor>): Option<Position> {
    if cursor.Some? then Some(cursor.value.at) else None
  }

  /** Every slot is a BIGINT. */
  ghost predicate SlotsFit(t: Table) {
    forall k :: k in t ==> t[k].slot <= MAX_I64
  }

  /** Every key is one a cursor may carry: printed by the indexer, within bounds. */
  ghost predicate KeysFit(pin: Pin, t: Table)
    requires |pin.identity| == 4
  {
    forall k :: k in t ==> EventKeys.CursorKey(k, pin.identity)
  }

  ghost predicate SoundTable(pin: Pin, t: Table) {
    forall k :: k in t ==> SoundRow(pin, t[k])
  }

  lemma {:induction false} QueriedRowsMatch(q: Query, w: nat, t: Table, cursor: Option<Position>)
    requires q.owner.Some? == q.category.Some?
    ensures forall i :: 0 <= i < |QueryRows(q, w, t, cursor)| ==> QueryRows(q, w, t, cursor)[i] in Matching(q, w, t)
    ensures forall i :: 0 <= i < |QueryRows(q, w, t, cursor)| ==> QueryRows(q, w, t, cursor)[i].key in t
  {
    hide QueryRows, Descending, Take;
    var rows := QueryRows(q, w, t, cursor);
    SplitQueryIsSingleQuery(q, w, t, cursor);
    PageFacts(Matching(q, w, t), cursor, q.limit + 1);
    forall i | 0 <= i < |rows| ensures rows[i] in Matching(q, w, t) && rows[i].key in t {
      assert rows[i] in Elements(rows);
    }
  }

  ghost function NextRows(scope: Scope, w: nat, s: set<Position>, cursor: Option<Position>, limit: nat): Outcome
    requires limit > 0
  {
    Read(Page(s, cursor, limit),
         if HasMore(s, cursor, limit) then Some(Cursor(scope, w, NextCursor(s, cursor, limit).value)) else None)
  }

  lemma {:induction false} SliceIsPage(scope: Scope, w: nat, s: set<Position>, cursor: Option<Position>, limit: nat)
    requires limit > 0
    ensures Slice(scope, w, Take(Descending(Below(s, cursor)), limit + 1), limit) == NextRows(scope, w, s, cursor, limit)
  {
    OneExtraRowDecides(s, cursor, limit);
    PageFacts(s, cursor, limit);
  }

  /** The rows a page looks at: its own and one more. */
  ghost function RowsToRead(q: Query, w: nat, t: Table, cursor: Option<Position>): seq<Position> {
    Take(Descending(Below(Matching(q, w, t), cursor)), q.limit + 1)
  }

  lemma {:induction false} SelectionBounds(pin: Pin, q: Query, now: int)
    requires Selects(pin, q, now)
    ensures q.limit > 0 && q.owner.Some? == q.category.Some?
  {
  }

  /** A page is the next rows of the matching set below its cursor, with a cursor
      exactly when more follow; it throws exactly when one of those rows, or the
      one after them, is inconsistent. */
  lemma {:induction false} PageIsNextRows(pin: Pin, q: Query, now: int, t: Table, current: nat, cursor: Option<Cursor>)
    requires |pin.identity| == 4 && Selects(pin, q, now)
    requires cursor.Some? ==> AcceptsCursor(pin, q, cursor.value, current)
    ensures var w := Mark(cursor, current);
            ReadPage(pin, q, now, t, current, cursor) ==
            if SoundRows(pin, t, RowsToRead(q, w, t, Place(cursor)))
            then NextRows(ScopeOf(pin, q), w, Matching(q, w, t), Place(cursor), q.limit) else Inconsistent
  {
    hide Selects, AcceptsCursor, Matching, Descending, Take, Below, QueryRows, Slice, NextRows, SoundRows;
    var w := Mark(cursor, current);
    SelectionBounds(pin, q, now);
    SplitQueryIsSingleQuery(q, w, t, Place(cursor));
    SliceIsPage(ScopeOf(pin, q), w, Matching(q, w, t), Place(cursor), q.limit);
  }

  lemma {:induction false} DigitsOfI64(n: nat)
    requires n <= MAX_I64
    ensures |Decimal.Digits(n)| <= 19
  {
    assert Decimal.Pow10(19) == 10_000_000_000_000_000_000 by {
      assert Decimal.Pow10(5) == 100_000;
      assert Decimal.Pow10(10) == 10_000_000_000;
      assert Decimal.Pow10(15) == 1_000_000_000_000_000;
    }
    Decimal.DigitsLength(n, 19);
  }

  lemma {:induction false} AcceptedBelow(pin: Pin, q: Query, now: int, cursor: Option<Cursor>, current: nat)
    requires |pin.identity| == 4
    ensures cursor.Some? && AcceptsCursor(pin, q, cursor.value, current) ==> Mark(cursor, current) <= current
    ensures Selects(pin, q, now) ==> (q.owner.Some? <==> q.category.Some?)
  {
    hide EventKeys.CursorKey;
  }

  /** What an issued cursor holds: the scope, the watermark and a sound row. */
  lemma {:induction false} IssuedCursorHolds(pin: Pin, q: Query, now: int, t: Table, current: nat, cursor: Option<Cursor>)
    requires |pin.identity| == 4
    ensures var r := ReadPage(pin, q, now, t, current, cursor);
            r.Read? && r.next.Some? ==>
              var c := r.next.value;
              && c.scope == ScopeOf(pin, q) && c.watermark == Mark(cursor, current) <= current
              && c.at.key in t && c.at.slot == t[c.at.key].slot && SoundRow(pin, t[c.at.key])
  {
    hide QueryRows, Matching, Selects, AcceptsCursor, SoundRow, InWindow, HasRole;
    var r, w := ReadPage(pin, q, now, t, current, cursor), Mark(cursor, current);
    if r.Read? && r.next.Some? {
      AcceptedBelow(pin, q, now, cursor, current);
      var rows := QueryRows(q, w, t, Place(cursor));
      QueriedRowsMatch(q, w, t, Place(cursor));
      MatchedSlot(q, w, t, rows[|r.events| - 1]);
    }
  }

  lemma {:induction false} ShortEnough(c: Cursor, identity: seq<Text>)
    requires |identity| == 4 && EventKeys.CursorKey(c.at.key, identity) && c.watermark <= MAX_I64 && c.at.slot <= MAX_I64
    ensures EncodedLength(c) <= 2048
  {
    hide EventKeys.CursorKey;
    DigitsOfI64(c.watermark);
    DigitsOfI64(c.at.slot);
    KeyLength(c.at.key, identity);
  }

  /** An issued cursor is accepted back by the same selection, with any page size
      and while the latest observation is not below its watermark, exactly when
      its row's key is one a cursor may carry. */
  lemma {:induction false} IssuedCursorIsAccepted(pin: Pin, q: Query, now: int, t: Table, current: nat,
                                                  cursor: Option<Cursor>, limit: nat, later: nat)
    requires |pin.identity| == 4 && SlotsFit(t) && current <= MAX_I64 && Mark(cursor, current) <= later
    ensures var r := ReadPage(pin, q, now, t, current, cursor);
            r.Read? && r.next.Some? ==>
              r.next.value.at.key in t
              && (AcceptsCursor(pin, q.(limit := limit), r.next.value, later) <==>
                    EventKeys.CursorKey(r.next.value.at.key, pin.identity))
  {
    hide ReadPage, EventKeys.CursorKey, EncodedLength;
    IssuedCursorHolds(pin, q, now, t, current, cursor);
    var r := ReadPage(pin, q, now, t, current, cursor);
    if r.Read? && r.next.Some? && EventKeys.CursorKey(r.next.value.at.key, pin.identity) {
      ShortEnough(r.next.value, pin.identity);
    }
  }

  lemma {:induction false} MatchedSlot(q: Query, w: nat, t: Table, p: Position)
    requires p in Matching(q, w, t)
    ensures p.key in t && p.slot == t[p.key].slot && InWindow(q, w, t[p.key]) && HasRole(q, t[p.key])
  {
  }

  lemma {:induction false} KeyLength(key: Text, identity: seq<Text>)
    requires |identity| == 4 && EventKeys.CursorKey(key, identity)
    ensures |key| <= 1024
  {
  }

  // ----- what a page holds -----

  /** From `since` to `until`, with both ends. */
  predicate InTime(q: Query, r: Row) {
    r.blockTime.Some? && r.blockTime.value <= q.until && (q.since.None? || q.since.value <= r.blockTime.value)
  }

  /** The owner is in the part of the event that names who acted. */
  predicate ActedIn(owner: Option<string>, r: Row) {
    match r.name
    case "SwapExecuted" => r.trader == owner
    case "BorrowPositionLiquidated" => r.borrower == owner
    case "FlashLiquidationSettled" => r.stateOwner == owner
    case _ => r.owner == owner
  }

  /** The owner liquidated: the first of the three fields that is there names it. */
  predicate LiquidatedIn(owner: Option<string>, r: Row) {
    && (r.name == "BorrowPositionLiquidated" || r.name == "LeveragePositionLiquidated"
        || r.name == "FlashLiquidationSettled" || r.name == "EmergencyLiquidationSettled")
    && (r.liquidator == owner
        || (r.liquidator.None? && (r.buyer == owner || (r.buyer.None? && r.caller == owner))))
  }

  /** A leverage position ended: closed, liquidated, or settled while closed. */
  predicate EndsLeverage(r: Row) {
    match r.name
    case "LeveragePositionClosed" => true
    case "LeveragePositionLiquidated" => true
    case "FlashLiquidationSettled" => r.leverage == Some(true) && r.closed == Some(true)
    case "EmergencyLiquidationSettled" => r.leverage == Some(true) && r.closed == Some(true)
    case _ => false
  }

  /** Of version 2 also the HLP's events. */
  predicate Known(q: Query, r: Row) {
    r.name in HISTORY_EVENTS || (q.version == 2 && (r.name == "HlpOpened" || r.name == "HlpClosed" || r.name == "YieldClaimed"))
  }

  /** What a selection asks for, field by field. */
  predicate Wanted(q: Query, watermark: nat, r: Row) {
    && r.settled && r.observationId <= watermark && InTime(q, r)
    && (q.market.None? || r.market == q.market)
    && (match q.category
        case None => Known(q, r)
        case Some(Activity) => Known(q, r) && (ActedIn(q.owner, r) || LiquidatedIn(q.owner, r))
        case Some(LeverageClose) => EndsLeverage(r) && ActedIn(q.owner, r))
  }

  lemma {:induction false} WantedIsMatched(q: Query, watermark: nat, r: Row)
    requires q.owner.Some? == q.category.Some? && r.blockTime.Some?
    ensures Wanted(q, watermark, r) <==> InWindow(q, watermark, r) && HasRole(q, r)
  {
  }

  /** A selection the program refuses: a version, page size, digest, window or
      address out of range, an owner without a category or the reverse, or
      activity asked of version one. */
  predicate IsRefused(pin: Pin, q: Query, now: int) {
    || (q.version != 1 && q.version != 2) || q.limit == 0 || q.limit > 500 || !pin.isDigest(q.deployment)
    || q.until < 0 || q.until > now + 1000 || (q.since.Some? && q.since.value > q.until)
    || (q.owner.Some? && q.category.None?) || (q.owner.None? && q.category.Some?)
    || (q.category == Some(Activity) && q.version == 1)
    || (q.market.Some? && !pin.isAddress(q.market.value)) || (q.owner.Some? && !pin.isAddress(q.owner.value))
  }

  /** A cursor of another selection, of another pin, from before the pinned start
      or beyond the latest observation, too long, or with a key the indexer does
      not print. 2048 characters of base64 hold 1536 bytes, and 110 of a cursor's
      are not its numbers and key. */
  ghost predicate IsForeign(pin: Pin, q: Query, c: Cursor, current: nat)
    requires |pin.identity| == 4
  {
    || c.scope.identity != pin.identity || c.scope.deployment != q.deployment || c.scope.market != q.market
    || c.scope.since != q.since || c.scope.until != q.until || c.scope.owner != q.owner || c.scope.category != q.category
    || c.scope.events != HISTORY_EVENTS + (if q.version == 2 then {"HlpOpened", "HlpClosed", "YieldClaimed"} else {})
    || c.watermark > current || c.watermark > 9_223_372_036_854_775_807
    || c.at.slot < pin.firstSlot || c.at.slot > 9_223_372_036_854_775_807
    || 110 + |Decimal.Digits(c.watermark)| + |Decimal.Digits(c.at.slot)| + |c.at.key| > 1536
    || !exists k :: EventKeys.MayCarry(k) && k.identity == pin.identity && EventKeys.StableKey(k) == c.at.key
  }

  /** A page is refused exactly for its selection or its cursor. */
  lemma {:induction false} RefusedExactly(pin: Pin, q: Query, now: int, t: Table, current: nat, cursor: Option<Cursor>)
    requires |pin.identity| == 4
    ensures ReadPage(pin, q, now, t, current, cursor) == Invalid <==>
            IsRefused(pin, q, now) || (cursor.Some? && IsForeign(pin, q, cursor.value, current))
  {
    hide QueryRows, EventKeys.CursorKey, EventKeys.MayCarry, EventKeys.StableKey;
    if cursor.Some? {
      EventKeys.AcceptsExactlyPrintedKeys(cursor.value.at.key, pin.identity);
    }
  }

  /** A page is never read beyond 500 events, of another version, or of a window
      that is turned round or still to come. */
  lemma {:induction false} PageIsBounded(pin: Pin, q: Query, now: int, t: Table, current: nat, cursor: Option<Cursor>)
    requires |pin.identity| == 4
    ensures var r := ReadPage(pin, q, now, t, current, cursor);
            r.Read? ==> |r.events| <= q.limit <= 500 && (q.version == 1 || q.version == 2) && q.until <= now + 1000
                        && (q.since.Some? ==> q.since.value <= q.until)
                        && (cursor.Some? ==> cursor.value.watermark <= current)
  {
    hide QueryRows;
  }

  /** A page that is read holds exactly the events the selection asks for between
      its cursor and the one it issues. */
  lemma {:induction false} PageHoldsExactly(pin: Pin, q: Query, now: int, t: Table, current: nat, cursor: Option<Cursor>,
                                            k: Text)
    requires |pin.identity| == 4 && k in t
    ensures var r, p := ReadPage(pin, q, now, t, current, cursor), Position(t[k].slot, k);
            r.Read? ==>
              (p in r.events <==>
                 && Wanted(q, Mark(cursor, current), t[k])
                 && (cursor.Some? ==> Less(p, cursor.value.at))
                 && (r.next.Some? ==> !Less(p, r.next.value.at)))
  {
    var r, p, w := ReadPage(pin, q, now, t, current, cursor), Position(t[k].slot, k), Mark(cursor, current);
    if r.Read? {
      hide Matching, Wanted, InWindow, HasRole, RowsToRead, Less, Page, HasMore, Selects, AcceptsCursor;
      PageIsNextRows(pin, q, now, t, current, cursor);
      SelectionBounds(pin, q, now);
      var s, at := Matching(q, w, t), Place(cursor);
      NextIsAt(ScopeOf(pin, q), w, s, at, q.limit);
      AcceptedBelow(pin, q, now, cursor, current);
      MatchingHas(q, w, t, k);
      PageMembers(s, at, q.limit, p);
      if p in r.events {
        ReadRowIsSound(pin, q, w, t, at, p);
      }
      if t[k].blockTime.Some? {
        WantedIsMatched(q, w, t[k]);
      } else {
        WantedHasTime(q, w, t[k]);
      }
    }
  }

  lemma {:induction false} WantedHasTime(q: Query, watermark: nat, r: Row)
    requires r.blockTime.None?
    ensures !Wanted(q, watermark, r)
  {
  }

  lemma {:induction false} MatchingHas(q: Query, w: nat, t: Table, k: Text)
    requires k in t
    ensures Position(t[k].slot, k) in Matching(q, w, t) <==> InWindow(q, w, t[k]) && HasRole(q, t[k])
  {
    hide InWindow, HasRole;
  }

  lemma {:induction false} PageMembers(s: set<Position>, cursor: Option<Position>, limit: nat, p: Position)
    requires limit > 0
    ensures p in Page(s, cursor, limit) <==>
              && p in s && (cursor.Some? ==> Less(p, cursor.value))
              && (HasMore(s, cursor, limit) ==> !Less(p, NextCursor(s, cursor, limit).value))
  {
    hide Descending;
    PageFacts(s, cursor, limit);
    if p in Page(s, cursor, limit) {
      assert p in Elements(Page(s, cursor, limit));
      if HasMore(s, cursor, limit) {
        PageIsNotBelow(s, cursor, limit, p, NextCursor(s, cursor, limit).value);
      }
    } else if p in Below(s, cursor) {
      PageSplits(s, cursor, limit, p);
    }
  }

  lemma {:induction false} ReadRowIsSound(pin: Pin, q: Query, w: nat, t: Table, cursor: Option<Position>, p: Position)
    requires q.limit > 0 && SoundRows(pin, t, RowsToRead(q, w, t, cursor)) && p in Page(Matching(q, w, t), cursor, q.limit)
    ensures p.key in t && SoundRow(pin, t[p.key])
  {
    hide Matching, Descending, Below;
    var rows := RowsToRead(q, w, t, cursor);
    OneExtraRowDecides(Matching(q, w, t), cursor, q.limit);
    var i :| 0 <= i < |Take(rows, q.limit)| && Take(rows, q.limit)[i] == p;
    assert rows[i] == p;
  }

  // ----- the walk -----

  /** Events written after the first page: new keys, observed above the watermark. */
  ghost predicate AppendedAbove(t: Table, later: Table, watermark: nat) {
    && (forall k :: k in t ==> k in later && later[k] == t[k])
    && (forall k :: k in later && k !in t ==> later[k].observationId > watermark)
  }

  lemma {:induction false} AppendsAreInvisible(q: Query, t: Table, later: Table, watermark: nat)
    requires AppendedAbove(t, later, watermark)
    ensures Matching(q, watermark, later) == Matching(q, watermark, t)
  {
    var a := set k | k in t && InWindow(q, watermark, t[k]) && HasRole(q, t[k]);
    var b := set k | k in later && InWindow(q, watermark, later[k]) && HasRole(q, later[k]);
    assert a == b;
    assert forall k :: k in a ==> t[k] == later[k];
    assert Positions(t, a) == Positions(later, b);
  }

  /** What a page reads: the table, its latest observation and the page size. */
  datatype Visit = Visit(table: Table, current: nat, limit: nat, now: int)

  /** Follow `nextCursor` from `cursor`, one visit a page, until it is null. */
  ghost function Follow(pin: Pin, q: Query, visits: seq<Visit>, cursor: Option<Cursor>): Outcome
    requires |pin.identity| == 4
    decreases |visits|
  {
    if visits == [] then Read([], cursor)
    else
      var v := visits[0];
      var page := ReadPage(pin, q.(limit := v.limit), v.now, v.table, v.current, cursor);
      if !page.Read? || page.next.None? then page
      else
        var rest := Follow(pin, q, visits[1..], page.next);
        if rest.Read? then Read(page.events + rest.events, rest.next) else rest
  }

  /** The visits of one client: accepted selections, and tables of any content
      whose keys and numbers fit a cursor, under a latest observation that is
      never below the walk's watermark. */
  ghost predicate Regular(pin: Pin, q: Query, watermark: nat, visits: seq<Visit>)
    requires |pin.identity| == 4
  {
    watermark <= MAX_I64 && forall i :: 0 <= i < |visits| ==>
      && KeysFit(pin, visits[i].table) && SlotsFit(visits[i].table)
      && watermark <= visits[i].current <= MAX_I64
      && Selects(pin, q.(limit := visits[i].limit), visits[i].now)
  }

  ghost predicate AllSound(pin: Pin, visits: seq<Visit>) {
    forall i :: 0 <= i < |visits| ==> SoundTable(pin, visits[i].table)
  }

  ghost function Limits(visits: seq<Visit>): (r: seq<nat>)
    ensures |r| == |visits|
  {
    seq(|visits|, i requires 0 <= i < |visits| => visits[i].limit)
  }

  /** What matches at the watermark in each visited table. */
  ghost function Snapshots(q: Query, watermark: nat, visits: seq<Visit>): (r: seq<set<Position>>)
    ensures |r| == |visits|
  {
    seq(|visits|, i requires 0 <= i < |visits| => Matching(q, watermark, visits[i].table))
  }

  lemma {:induction false} RegularParts(pin: Pin, q: Query, watermark: nat, a: seq<Visit>, b: seq<Visit>)
    requires |pin.identity| == 4 && Regular(pin, q, watermark, a + b)
    ensures Regular(pin, q, watermark, a) && Regular(pin, q, watermark, b)
    ensures Positive(Limits(a)) && Positive(Limits(b))
    ensures Limits(a + b) == Limits(a) + Limits(b)
    ensures Snapshots(q, watermark, a + b) == Snapshots(q, watermark, a) + Snapshots(q, watermark, b)
  {
    hide Matching, Selects, SlotsFit, KeysFit;
    var all := a + b;
    assert forall i :: 0 <= i < |a| ==> all[i] == a[i];
    assert forall i :: 0 <= i < |b| ==> all[|a| + i] == b[i];
    LimitsArePositive(pin, q, watermark, a);
    LimitsArePositive(pin, q, watermark, b);
  }

  lemma {:induction false} LimitsArePositive(pin: Pin, q: Query, watermark: nat, visits: seq<Visit>)
    requires |pin.identity| == 4 && Regular(pin, q, watermark, visits)
    ensures Positive(Limits(visits))
  {
  }

  /** The cursor a page may start from: none, or one it accepts. */
  ghost predicate Usable(pin: Pin, q: Query, watermark: nat, visits: seq<Visit>, cursor: Option<Cursor>)
    requires |pin.identity| == 4
  {
    if cursor.None? then visits != [] ==> visits[0].current == watermark
    else cursor.value.watermark == watermark && forall i :: 0 <= i < |visits| ==>
           AcceptsCursor(pin, q.(limit := visits[i].limit), cursor.value, visits[i].current)
  }

  lemma {:induction false} LimitDoesNotSelect(q: Query, watermark: nat, t: Table, limit: nat)
    ensures Matching(q.(limit := limit), watermark, t) == Matching(q, watermark, t)
  {
    var r := q.(limit := limit);
    assert forall k :: k in t ==> (InWindow(r, watermark, t[k]) <==> InWindow(q, watermark, t[k]))
                                  && (HasRole(r, t[k]) <==> HasRole(q, t[k]));
    assert (set k | k in t && InWindow(r, watermark, t[k]) && HasRole(r, t[k]))
        == (set k | k in t && InWindow(q, watermark, t[k]) && HasRole(q, t[k]));
  }

  /** One visit's page is a page over what its table matches, or the throw of an
      inconsistent row. */
  lemma {:induction false} VisitPage(pin: Pin, q: Query, watermark: nat, v: Visit, cursor: Option<Cursor>)
    requires |pin.identity| == 4 && v.limit > 0 && Selects(pin, q.(limit := v.limit), v.now)
    requires if cursor.None? then v.current == watermark
             else cursor.value.watermark == watermark && AcceptsCursor(pin, q.(limit := v.limit), cursor.value, v.current)
    ensures var s, page := Matching(q, watermark, v.table), ReadPage(pin, q.(limit := v.limit), v.now, v.table, v.current, cursor);
            && page != Invalid && (SoundTable(pin, v.table) ==> page.Read?)
            && (page.Read? ==> page == NextRows(ScopeOf(pin, q), watermark, s, Place(cursor), v.limit))
  {
    hide Matching, Selects, AcceptsCursor, SoundRows, SoundTable, RowsToRead, ReadPage, NextRows;
    var sized := q.(limit := v.limit);
    PageIsNextRows(pin, sized, v.now, v.table, v.current, cursor);
    LimitDoesNotSelect(q, watermark, v.table, v.limit);
    NextIsAt(ScopeOf(pin, q), watermark, Matching(q, watermark, v.table), Place(cursor), v.limit);
    assert ScopeOf(pin, sized) == ScopeOf(pin, q);
    if SoundTable(pin, v.table) {
      SoundRowsToRead(pin, sized, watermark, v.table, Place(cursor));
    }
  }

  /** ... and its cursor serves every later visit. */
  lemma {:induction false} VisitReadsPage(pin: Pin, q: Query, watermark: nat, visits: seq<Visit>, cursor: Option<Cursor>)
    requires |pin.identity| == 4 && Regular(pin, q, watermark, visits) && visits != []
    requires Usable(pin, q, watermark, visits, cursor)
    ensures var v, s := visits[0], Matching(q, watermark, visits[0].table);
            var page := ReadPage(pin, q.(limit := v.limit), v.now, v.table, v.current, cursor);
            && v.limit > 0 && page != Invalid && (SoundTable(pin, v.table) ==> page.Read?)
            && (page.Read? ==> page == NextRows(ScopeOf(pin, q), watermark, s, Place(cursor), v.limit))
            && (page.Read? && page.next.Some? ==> Usable(pin, q, watermark, visits[1..], page.next))
  {
    hide Matching, Selects, AcceptsCursor, ReadPage, NextRows, SoundTable, KeysFit, SlotsFit;
    var v := visits[0];
    SizedSelects(pin, q, watermark, visits);
    VisitPage(pin, q, watermark, v, cursor);
    var page := ReadPage(pin, q.(limit := v.limit), v.now, v.table, v.current, cursor);
    if page.Read? && page.next.Some? {
      NextIsAt(ScopeOf(pin, q), watermark, Matching(q, watermark, v.table), Place(cursor), v.limit);
      forall i | 0 <= i < |visits[1..]|
        ensures AcceptsCursor(pin, q.(limit := visits[1..][i].limit), page.next.value, visits[1..][i].current)
      {
        IssuedIsAccepted(pin, q, watermark, v, cursor, visits[i + 1]);
      }
    }
  }

  lemma {:induction false} NextIsAt(scope: Scope, w: nat, s: set<Position>, cursor: Option<Position>, limit: nat)
    requires limit > 0
    ensures var r := NextRows(scope, w, s, cursor, limit);
            && r.Read? && r.events == Page(s, cursor, limit)
            && (r.next.Some? <==> HasMore(s, cursor, limit))
            && (r.next.Some? ==> r.next.value.watermark == w && Place(r.next) == NextCursor(s, cursor, limit))
  {
  }

  lemma {:induction false} IssuedIsAccepted(pin: Pin, q: Query, watermark: nat, v: Visit, cursor: Option<Cursor>, later: Visit)
    requires |pin.identity| == 4 && KeysFit(pin, v.table) && SlotsFit(v.table) && v.current <= MAX_I64
    requires Mark(cursor, v.current) == watermark <= later.current
    requires var page := ReadPage(pin, q.(limit := v.limit), v.now, v.table, v.current, cursor); page.Read? && page.next.Some?
    ensures AcceptsCursor(pin, q.(limit := later.limit),
                          ReadPage(pin, q.(limit := v.limit), v.now, v.table, v.current, cursor).next.value, later.current)
  {
    hide ReadPage, AcceptsCursor, SlotsFit;
    var sized := q.(limit := v.limit);
    IssuedCursorIsAccepted(pin, sized, v.now, v.table, v.current, cursor, later.limit, later.current);
    assert sized.(limit := later.limit) == q.(limit := later.limit);
  }

  lemma {:induction false} SizedSelects(pin: Pin, q: Query, watermark: nat, visits: seq<Visit>)
    requires |pin.identity| == 4 && Regular(pin, q, watermark, visits) && visits != []
    ensures Selects(pin, q.(limit := visits[0].limit), visits[0].now) && visits[0].limit > 0
  {
  }

  lemma {:induction false} SoundRowsToRead(pin: Pin, q: Query, w: nat, t: Table, cursor: Option<Position>)
    requires SoundTable(pin, t)
    ensures SoundRows(pin, t, RowsToRead(q, w, t, cursor))
  {
    hide Matching, Descending, Take;
    var rows := RowsToRead(q, w, t, cursor);
    PageFacts(Matching(q, w, t), cursor, q.limit + 1);
    forall i | 0 <= i < |rows| ensures rows[i].key in t {
      assert rows[i] in Elements(rows);
      MatchedSlot(q, w, t, rows[i]);
    }
  }

  lemma {:induction false} NoPages(cursor: Option<Cursor>)
    ensures Walk([], [], Place(cursor)) == [] && !Finishes([], [], Place(cursor))
    ensures CursorAfter([], [], Place(cursor)) == Place(cursor)
  {
  }

  /** Following issued cursors is the keyset walk over the matches of the visited
      tables, whatever happens to them between pages; it stops early only at the
      throw of an inconsistent row. */
  lemma {:induction false} FollowIsWalk(pin: Pin, q: Query, watermark: nat, visits: seq<Visit>, cursor: Option<Cursor>)
    requires |pin.identity| == 4 && Regular(pin, q, watermark, visits) && Usable(pin, q, watermark, visits, cursor)
    ensures var s, limits, r := Snapshots(q, watermark, visits), Limits(visits), Follow(pin, q, visits, cursor);
            && Positive(limits) && r != Invalid && (AllSound(pin, visits) ==> r.Read?)
            && (r.Read? ==> r.events == Walk(s, limits, Place(cursor)))
            && (r.Read? && visits != [] ==> (r.next.None? <==> Finishes(s, limits, Place(cursor))))
            && (r.Read? && !Finishes(s, limits, Place(cursor)) ==> Place(r.next) == CursorAfter(s, limits, Place(cursor)))
    decreases |visits|
  {
    hide ReadPage, Matching, Usable, Page, HasMore, Selects, KeysFit, SlotsFit, SoundTable, NextRows, Walk, Finishes,
      CursorAfter, Less, Regular, ScopeOf;
    if visits == [] {
      NoPages(cursor);
    } else {
      var v, rest := visits[0], visits[1..];
      assert visits == [v] + rest;
      RegularParts(pin, q, watermark, [v], rest);
      LimitsArePositive(pin, q, watermark, visits);
      VisitReadsPage(pin, q, watermark, visits, cursor);
      var page := ReadPage(pin, q.(limit := v.limit), v.now, v.table, v.current, cursor);
      var s := Matching(q, watermark, v.table);
      NextIsAt(ScopeOf(pin, q), watermark, s, Place(cursor), v.limit);
      assert Snapshots(q, watermark, visits) == [s] + Snapshots(q, watermark, rest) && Limits(visits) == [v.limit] + Limits(rest);
      WalkStep(s, v.limit, Snapshots(q, watermark, rest), Limits(rest), Place(cursor));
      if page.Read? && page.next.Some? {
        FollowIsWalk(pin, q, watermark, rest, page.next);
        NoPages(page.next);
      }
    }
  }

  /** Whatever ingestion does between pages, a walk returns every event once at
      most and newest first, only events that matched in some visited table, and,
      once its cursor is null, every event that matched in all of them. */
  lemma {:induction false} WalkUnderAnyChange(pin: Pin, q: Query, watermark: nat, visits: seq<Visit>, p: Position)
    requires |pin.identity| == 4 && Regular(pin, q, watermark, visits)
    requires visits != [] && visits[0].current == watermark
    ensures var r := Follow(pin, q, visits, None);
            r.Read? ==>
              && Descends(r.events)
              && (p in r.events ==> exists k :: 0 <= k < |visits| && p in Matching(q, watermark, visits[k].table))
              && (r.next.None? && (forall k :: 0 <= k < |visits| ==> p in Matching(q, watermark, visits[k].table)) ==>
                    p in r.events)
  {
    hide Matching, Walk, Finishes, Follow;
    var s, limits := Snapshots(q, watermark, visits), Limits(visits);
    FollowIsWalk(pin, q, watermark, visits, None);
    WalkDescends(s, limits, None);
    if p in Walk(s, limits, None) {
      WalkReturnsHeld(s, limits, None, p);
    }
    if Finishes(s, limits, None) && forall k :: 0 <= k < |visits| ==> p in Matching(q, watermark, visits[k].table) {
      WalkReturnsLasting(s, limits, None, p);
    }
  }

  ghost predicate AppendedTo(first: Table, watermark: nat, visits: seq<Visit>) {
    forall i :: 0 <= i < |visits| ==> AppendedAbove(first, visits[i].table, watermark)
  }

  /** When the visited tables only gain rows observed above the first watermark,
      following the cursor to its end returns every event that matched at that
      watermark exactly once, newest first, for every page size; and the end is
      always reached. */
  lemma {:induction false} WalkReturnsEverything(pin: Pin, q: Query, first: Table, watermark: nat, visits: seq<Visit>)
    requires |pin.identity| == 4 && Regular(pin, q, watermark, visits) && AllSound(pin, visits)
    requires AppendedTo(first, watermark, visits) && visits != [] && visits[0].current == watermark
    ensures var r := Follow(pin, q, visits, None);
            && r.Read?
            && (r.next.None? ==> r.events == Descending(Matching(q, watermark, first)))
            && (|visits| > |Matching(q, watermark, first)| ==> r.next.None?)
  {
    hide Matching, Walk, Finishes, Follow, Regular;
    var s, snapshots := Matching(q, watermark, first), Snapshots(q, watermark, visits);
    FollowIsWalk(pin, q, watermark, visits, None);
    forall k | 0 <= k < |visits| ensures snapshots[k] == s {
      AppendsAreInvisible(q, first, visits[k].table, watermark);
    }
    if Finishes(snapshots, Limits(visits), None) {
      FrozenWalkIsWhole(snapshots, Limits(visits), s);
    }
    if |visits| > |s| {
      assert Below(s, None) == s;
      FrozenWalkFinishes(snapshots, Limits(visits), s, None);
    }
  }

  /** The ingestion upsert may repoint a confirmed event to a newer observation
      (a fork). Seen from an older watermark the event is then gone. */
  lemma {:induction false} ReplacementHides(q: Query, watermark: nat, t: Table, key: Text, observation: nat)
    requires key in t && observation > watermark
    ensures Matching(q, watermark, t[key := t[key].(observationId := observation)]) ==
            Matching(q, watermark, t) - {Position(t[key].slot, key)}
  {
    var u := t[key := t[key].(observationId := observation)];
    var a := set k | k in t && InWindow(q, watermark, t[k]) && HasRole(q, t[k]);
    var b := set k | k in u && InWindow(q, watermark, u[k]) && HasRole(q, u[k]);
    assert b == a - {key};
    assert forall k :: k in b ==> t[k] == u[k];
  }

  /** A read through more visits read through the first ones. */
  lemma {:induction false} FollowPrefix(pin: Pin, q: Query, early: seq<Visit>, late: seq<Visit>, cursor: Option<Cursor>)
    requires |pin.identity| == 4 && Follow(pin, q, early + late, cursor).Read?
    ensures Follow(pin, q, early, cursor).Read?
    decreases |early|
  {
    hide ReadPage;
    if early != [] {
      var v := early[0];
      assert (early + late)[0] == v && (early + late)[1..] == early[1..] + late;
      var page := ReadPage(pin, q.(limit := v.limit), v.now, v.table, v.current, cursor);
      if page.Read? && page.next.Some? {
        FollowPrefix(pin, q, early[1..], late, page.next);
      }
    }
  }

  /** So the walk promises less than every event. One that from some page on is
      gone, or stands on an observation above the watermark, is returned if and
      only if the pages before returned it, between whichever pages that happens
      and whatever else changes. */
  lemma {:induction false} ReplacedBetweenPages(pin: Pin, q: Query, watermark: nat, early: seq<Visit>, late: seq<Visit>,
                                                p: Position)
    requires |pin.identity| == 4 && Regular(pin, q, watermark, early + late)
    requires early != [] && early[0].current == watermark && Follow(pin, q, early + late, None).Read?
    requires forall k :: 0 <= k < |late| && p.key in late[k].table ==> late[k].table[p.key].observationId > watermark
    ensures Follow(pin, q, early, None).Read?
    ensures p in Follow(pin, q, early + late, None).events <==> p in Follow(pin, q, early, None).events
  {
    hide Matching, Walk, Finishes, Follow, Regular;
    RegularParts(pin, q, watermark, early, late);
    FollowPrefix(pin, q, early, late, None);
    FollowIsWalk(pin, q, watermark, early + late, None);
    FollowIsWalk(pin, q, watermark, early, None);
    forall k | 0 <= k < |late| ensures p !in Matching(q, watermark, late[k].table) {
      if p in Matching(q, watermark, late[k].table) {
        MatchedInWindow(q, watermark, late[k].table, p);
      }
    }
    GoneIsReturnedBefore(Snapshots(q, watermark, early), Limits(early), Snapshots(q, watermark, late), Limits(late), None, p);
  }

  lemma {:induction false} MatchedInWindow(q: Query, w: nat, t: Table, p: Position)
    requires p in Matching(q, w, t)
    ensures p.key in t && t[p.key].observationId <= w
  {
  }

  /** Whether an earlier page returned it can be told from the cursor: of an event
      that matched in every table read so far, a walk that goes on has returned
      exactly what does not lie below the cursor it holds. */
  lemma {:induction false} ReturnedIsNotBelowCursor(pin: Pin, q: Query, watermark: nat, visits: seq<Visit>, p: Position)
    requires |pin.identity| == 4 && Regular(pin, q, watermark, visits)
    requires visits != [] && visits[0].current == watermark
    requires Follow(pin, q, visits, None).Read? && Follow(pin, q, visits, None).next.Some?
    requires forall k :: 0 <= k < |visits| ==> p in Matching(q, watermark, visits[k].table)
    ensures var r := Follow(pin, q, visits, None);
            p in r.events <==> !Less(p, r.next.value.at)
  {
    hide Matching, Walk, Finishes, Follow, Regular, CursorAfter, Less;
    FollowIsWalk(pin, q, watermark, visits, None);
    LimitsArePositive(pin, q, watermark, visits);
    ReturnedIsNotBelow(Snapshots(q, watermark, visits), Limits(visits), None, p);
  }

  /** So an event that matched up to some page and is then gone, or moved above the
      watermark, is returned exactly when it does not lie below the cursor held when
      that happens. */
  lemma {:induction false} ReplacedBelowCursorIsMissed(pin: Pin, q: Query, watermark: nat, early: seq<Visit>,
                                                       late: seq<Visit>, p: Position)
    requires |pin.identity| == 4 && Regular(pin, q, watermark, early + late)
    requires early != [] && early[0].current == watermark && Follow(pin, q, early + late, None).Read?
    requires Follow(pin, q, early, None).Read? && Follow(pin, q, early, None).next.Some?
    requires forall k :: 0 <= k < |early| ==> p in Matching(q, watermark, early[k].table)
    requires forall k :: 0 <= k < |late| && p.key in late[k].table ==> late[k].table[p.key].observationId > watermark
    ensures p in Follow(pin, q, early + late, None).events <==> !Less(p, Follow(pin, q, early, None).next.value.at)
  {
    hide Matching, Follow, Regular, Less;
    RegularParts(pin, q, watermark, early, late);
    ReplacedBetweenPages(pin, q, watermark, early, late, p);
    ReturnedIsNotBelowCursor(pin, q, watermark, early, p);
  }

  /** The canonical row is committed after its observation, so one observed below
      the watermark can appear between pages. If it then stays, a walk that goes
      on and ends returns it exactly when it lies below the cursor issued last
      before it appeared. */
  lemma {:induction false} LateRowIsReturnedBelow(pin: Pin, q: Query, watermark: nat, early: seq<Visit>, late: seq<Visit>,
                                                  p: Position)
    requires |pin.identity| == 4 && Regular(pin, q, watermark, early + late)
    requires early != [] && early[0].current == watermark && late != []
    requires Follow(pin, q, early + late, None).Read? && Follow(pin, q, early + late, None).next.None?
    requires Follow(pin, q, early, None).Read? && Follow(pin, q, early, None).next.Some?
    requires forall k :: 0 <= k < |early| ==> p !in Matching(q, watermark, early[k].table)
    requires forall k :: 0 <= k < |late| ==> p in Matching(q, watermark, late[k].table)
    ensures p in Follow(pin, q, early + late, None).events <==> Less(p, Follow(pin, q, early, None).next.value.at)
  {
    hide Matching, Walk, Finishes, Follow, Regular;
    var a, b := Snapshots(q, watermark, early), Snapshots(q, watermark, late);
    RegularParts(pin, q, watermark, early, late);
    FollowIsWalk(pin, q, watermark, early + late, None);
    FollowIsWalk(pin, q, watermark, early, None);
    WalkSplits(a, Limits(early), b, Limits(late), None);
    LateIsReturnedBelow(a, Limits(early), b, Limits(late), None, p);
  }

  // ----- a walk that misses an event -----

  const ANY_EVENT := Query(1, None, None, None, None, 0, 1, "")

  function Swap(observation: nat, slot: nat): Row {
    Row(observation, true, "SwapExecuted", slot, Some(0), true, None, None, None, None, None, None, None, None, None, None)
  }

  /** Two events, the later one under `a` at slot 2. */
  function Pair(a: Text, b: Text, observation: nat): Table {
    map[a := Swap(1, 2), b := Swap(observation, 1)]
  }

  lemma {:induction false} SwapMatches(observation: nat, slot: nat)
    ensures InWindow(ANY_EVENT, 2, Swap(observation, slot)) <==> observation <= 2
    ensures HasRole(ANY_EVENT, Swap(observation, slot))
  {
    assert "SwapExecuted" in HISTORY_EVENTS;
  }

  lemma {:induction false} PairMatches(a: Text, b: Text, observation: nat)
    requires a != b
    ensures Matching(ANY_EVENT, 2, Pair(a, b, observation))
         == if observation <= 2 then {Position(2, a), Position(1, b)} else {Position(2, a)}
  {
    SwapMatches(1, 2);
    SwapMatches(observation, 1);
    hide InWindow, HasRole;
    var t := Pair(a, b, observation);
    assert t[a] == Swap(1, 2) && t[b] == Swap(observation, 1);
    var keys := set k | k in t && InWindow(ANY_EVENT, 2, t[k]) && HasRole(ANY_EVENT, t[k]);
    assert keys == if observation <= 2 then {a, b} else {a};
    assert Matching(ANY_EVENT, 2, t) == Positions(t, keys);
  }

  /** One page over the pair, one after the second event is repointed. */
  function TwoVisits(a: Text, b: Text): seq<Visit> {
    [Visit(Pair(a, b, 2), 2, 1, 0), Visit(Pair(a, b, 3), 3, 1, 0)]
  }

  lemma {:induction false} TwoVisitsAreRegular(pin: Pin, a: Text, b: Text)
    requires |pin.identity| == 4 && pin.firstSlot <= 1 && pin.isDigest("")
    requires EventKeys.CursorKey(a, pin.identity) && EventKeys.CursorKey(b, pin.identity)
    ensures Regular(pin, ANY_EVENT, 2, TwoVisits(a, b)) && AllSound(pin, TwoVisits(a, b))
  {
    hide EventKeys.CursorKey;
  }

  lemma {:induction false} TwoSnapshots(a: Text, b: Text)
    requires a != b
    ensures Snapshots(ANY_EVENT, 2, TwoVisits(a, b)) == [{Position(2, a), Position(1, b)}, {Position(2, a)}]
    ensures Limits(TwoVisits(a, b)) == [1, 1]
  {
    hide Matching, Pair;
    PairMatches(a, b, 2);
    PairMatches(a, b, 3);
  }

  /** Pages of one over two positions of which the second disappears. */
  lemma {:induction false} OneOfTwo(first: Position, missed: Position)
    requires Less(missed, first)
    ensures Finishes([{first, missed}, {first}], [1, 1], None) && missed !in Walk([{first, missed}, {first}], [1, 1], None)
  {
    var s, rest, limits := {first, missed}, [{first}], [1];
    assert [{first, missed}, {first}] == [s] + rest && [1, 1] == [1] + limits;
    WalkStep(s, 1, rest, limits, None);
    FirstOfTwo(first, missed);
    WalkStep({first}, 1, [], [], Some(first));
    assert rest == [{first}] + [] && limits == [1] + [];
    WalkDescends(rest, limits, Some(first));
    if missed in Walk(rest, limits, Some(first)) {
      WalkReturnsHeld(rest, limits, Some(first), missed);
    }
  }

  lemma {:induction false} FirstOfTwo(first: Position, missed: Position)
    requires Less(missed, first)
    ensures HasMore({first, missed}, None, 1) && Page({first, missed}, None, 1) == [first]
    ensures NextCursor({first, missed}, None, 1) == Some(first) && !HasMore({first}, Some(first), 1)
    ensures missed != first
  {
    var s := {first, missed};
    LessIsIrreflexive(first);
    assert |s| == 2;
    PageSplits(s, None, 1, first);
    PageFacts(s, None, 1);
    var page := Page(s, None, 1);
    assert page[0] in Elements(page);
    if Less(first, missed) {
      LessIsTransitive(first, missed, first);
    }
    assert |Below({first}, Some(first))| <= |{first}|;
  }

  /** The replacement is real: two events, pages of one; between the pages the
      second event is repointed to a newer observation, and a walk followed to
      its end returns without it, although it was canonical in every table read. */
  lemma {:induction false} ReplacedEventIsMissed(pin: Pin, a: Text, b: Text)
    requires |pin.identity| == 4 && pin.firstSlot <= 1 && pin.isDigest("") && a != b
    requires EventKeys.CursorKey(a, pin.identity) && EventKeys.CursorKey(b, pin.identity)
    ensures var r := Follow(pin, ANY_EVENT, TwoVisits(a, b), None);
            && Position(1, b) in Matching(ANY_EVENT, 2, Pair(a, b, 2)) && b in Pair(a, b, 3)
            && r.Read? && r.next.None? && Position(1, b) !in r.events
  {
    hide EventKeys.CursorKey, Matching, Follow, Regular, AllSound, Snapshots, Limits, Walk, Finishes, CursorAfter;
    TwoVisitsAreRegular(pin, a, b);
    TwoSnapshots(a, b);
    PairMatches(a, b, 2);
    FollowIsWalk(pin, ANY_EVENT, 2, TwoVisits(a, b), None);
    OneOfTwo(Position(2, a), Position(1, b));
  }

  /** ... with keys that the indexer prints. */
  lemma {:induction false} AWalkMissesAnEvent() returns (pin: Pin, a: Text, b: Text)
    ensures |pin.identity| == 4 && a != b
    ensures a == EventKeys.StableKey(EventKeys.SampleKey(0)) && b == EventKeys.StableKey(EventKeys.SampleKey(1))
    ensures var r := Follow(pin, ANY_EVENT, TwoVisits(a, b), None);
            && Position(1, b) in Matching(ANY_EVENT, 2, Pair(a, b, 2)) && b in Pair(a, b, 3)
            && r.Read? && r.next.None? && Position(1, b) !in r.events
  {
    pin := Pin(EventKeys.SampleKey(0).identity, 0, (_: string) => true, (_: string) => true);
    a, b := EventKeys.StableKey(EventKeys.SampleKey(0)), EventKeys.StableKey(EventKeys.SampleKey(1));
    EventKeys.SampleKeyFits(0);
    EventKeys.SampleKeyFits(1);
    if a == b {
      EventKeys.StableKeyInjective(EventKeys.SampleKey(0), EventKeys.SampleKey(1));
    }
    hide EventKeys.StableKey, EventKeys.CursorKey, Follow, Matching;
    ReplacedEventIsMissed(pin, a, b);
  }
}
