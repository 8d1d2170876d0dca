/** Draining canonical events into market activity: `coalescedDrain`
    (api/src/services/duskEventDrain.ts), the worker's loop
    (api/src/scripts/duskMarketActivityWorker.ts) and the lock-serialised batch
    (`projectMarketActivityBatch`, api/src/services/duskMarketActivity.ts). */
module ActivityProjection {
  import opened Options
  import opened TextOrder
  import opened Paging
  import opened Sequences

  const BATCH := 500

  // ----- the tables -----

  /** Supported canonical events not yet projected, in index order. */
  function Unprojected(index: seq<Position>, projected: seq<Position>): (r: seq<Position>)
    ensures forall p :: p in r <==> p in index && p !in projected
  {
    if index == [] then []
    else (if index[0] in projected then [] else [index[0]]) + Unprojected(index[1..], projected)
  }

  ghost predicate NoDuplicates(ps: seq<Position>) {
    forall i, j :: 0 <= i < j < |ps| ==> ps[i] != ps[j]
  }

  lemma {:induction false} UnprojectedIsDistinct(index: seq<Position>, projected: seq<Position>)
    requires NoDuplicates(index)
    ensures NoDuplicates(Unprojected(index, projected))
  {
    if index != [] {
      UnprojectedIsDistinct(index[1..], projected);
      var rest := Unprojected(index[1..], projected);
      forall j | 0 <= j < |rest| ensures rest[j] != index[0] {
        assert rest[j] in index[1..];
      }
    }
  }

  /** The batch query: the oldest unprojected events, at most `limit`. */
  function Batch(index: seq<Position>, projected: seq<Position>, limit: nat): seq<Position> {
    Take(Unprojected(index, projected), limit)
  }

  // ----- oldest first -----

  /** How many of the first `i` events are not yet projected. */
  function Older(index: seq<Position>, projected: seq<Position>, i: nat): nat
    requires i <= |index|
  {
    if i == 0 then 0 else Older(index, projected, i - 1) + if index[i - 1] in projected then 0 else 1
  }

  /** Unprojected, with fewer than `limit` unprojected events before it. */
  predicate IsOldest(index: seq<Position>, projected: seq<Position>, limit: int, i: int) {
    0 <= i < |index| && index[i] !in projected && Older(index, projected, i) < limit
  }

  ghost predicate OldestAreSound(index: seq<Position>, projected: seq<Position>, limit: int, sound: Position -> bool) {
    forall i :: IsOldest(index, projected, limit, i) ==> sound(index[i])
  }

  /** What was added is, in index order, exactly the unprojected events with fewer
      than `limit` unprojected ones before them. */
  ghost predicate AddsOldest(index: seq<Position>, before: seq<Position>, after: seq<Position>, limit: nat) {
    && before <= after
    && |after| - |before| == (if Older(index, before, |index|) < limit then Older(index, before, |index|) else limit)
    && forall i :: IsOldest(index, before, limit, i) ==>
         |before| + Older(index, before, i) < |after| && after[|before| + Older(index, before, i)] == index[i]
  }

  lemma {:induction false} UnprojectedSplits(a: seq<Position>, b: seq<Position>, projected: seq<Position>)
    ensures Unprojected(a + b, projected) == Unprojected(a, projected) + Unprojected(b, projected)
  {
    if a == [] {
      assert a + b == b;
    } else {
      assert (a + b)[1..] == a[1..] + b;
      UnprojectedSplits(a[1..], b, projected);
    }
  }

  lemma {:induction false} OlderCounts(index: seq<Position>, projected: seq<Position>, i: nat)
    requires i <= |index|
    ensures |Unprojected(index[..i], projected)| == Older(index, projected, i)
  {
    if i > 0 {
      OlderCounts(index, projected, i - 1);
      assert index[..i] == index[..i - 1] + [index[i - 1]];
      UnprojectedSplits(index[..i - 1], [index[i - 1]], projected);
    }
  }

  lemma {:induction false} UnprojectedAt(index: seq<Position>, projected: seq<Position>, i: nat)
    requires i < |index| && index[i] !in projected
    ensures Older(index, projected, i) < |Unprojected(index, projected)|
    ensures Unprojected(index, projected)[Older(index, projected, i)] == index[i]
  {
    var a, b := index[..i], index[i..];
    assert index == a + b && b[0] == index[i];
    OlderCounts(index, projected, i);
    UnprojectedSplits(a, b, projected);
  }

  lemma {:induction false} BatchAddsOldest(index: seq<Position>, projected: seq<Position>, limit: nat)
    ensures AddsOldest(index, projected, projected + Batch(index, projected, limit), limit)
  {
    var after := projected + Batch(index, projected, limit);
    OlderCounts(index, projected, |index|);
    assert index[..|index|] == index;
    forall i | IsOldest(index, projected, limit, i)
      ensures |projected| + Older(index, projected, i) < |after|
      ensures after[|projected| + Older(index, projected, i)] == index[i]
    {
      UnprojectedAt(index, projected, i);
    }
  }

  lemma {:induction false} OlderRises(index: seq<Position>, projected: seq<Position>, i: nat, j: nat)
    requires i < j <= |index| && index[i] !in projected
    ensures Older(index, projected, i) < Older(index, projected, j)
  {
    if i + 1 < j {
      OlderRises(index, projected, i, j - 1);
    }
  }

  lemma {:induction false} AddedHasIndex(index: seq<Position>, before: seq<Position>, after: seq<Position>, limit: nat,
                                         j: nat, at: nat)
    requires NoDuplicates(index) && AddsOldest(index, before, after, limit)
    requires j < |index| && |before| <= at < |after| && after[at] == index[j] && index[j] !in before
    ensures Older(index, before, j) == at - |before|
  {
    hide Older;
    var i := AtRank(index, before, at - |before|);
    assert IsOldest(index, before, limit, i);
    assert after[at] == index[i];
  }

  /** The event with `rank` unprojected ones before it. */
  lemma {:induction false} AtRank(index: seq<Position>, projected: seq<Position>, rank: nat) returns (i: nat)
    requires rank < Older(index, projected, |index|)
    ensures i < |index| && index[i] !in projected && Older(index, projected, i) == rank
  {
    i := |index|;
    while Older(index, projected, i) > rank
      invariant i <= |index| && rank <= Older(index, projected, i)
      invariant i == |index| || (Older(index, projected, i) == rank ==> index[i] !in projected)
      decreases i
    {
      i := i - 1;
    }
  }

  lemma {:induction false} AddedFits(index: seq<Position>, before: seq<Position>, after: seq<Position>, limit: nat)
    requires AddsOldest(index, before, after, limit)
    ensures |before| <= |after| <= |before| + limit
  {
    hide Older;
  }

  lemma {:induction false} OldestStands(index: seq<Position>, before: seq<Position>, after: seq<Position>, limit: nat, i: nat)
    requires AddsOldest(index, before, after, limit) && i < |index| && index[i] !in before
    requires Older(index, before, i) < limit
    ensures |before| + Older(index, before, i) < |after| && after[|before| + Older(index, before, i)] == index[i]
  {
    hide Older;
    assert IsOldest(index, before, limit, i);
  }

  /** Nothing is passed over: when an event is added, every older unprojected one
      was added too and stands before it. */
  lemma {:induction false} OldestFirst(index: seq<Position>, before: seq<Position>, after: seq<Position>, limit: nat,
                                       i: nat, j: nat, at: nat) returns (earlier: nat)
    requires NoDuplicates(index) && AddsOldest(index, before, after, limit)
    requires i < j < |index| && index[i] !in before && index[j] !in before
    requires |before| <= at < |after| && after[at] == index[j]
    ensures |before| <= earlier < at && after[earlier] == index[i]
  {
    hide Older, NoDuplicates, AddsOldest;
    AddedHasIndex(index, before, after, limit, j, at);
    AddedFits(index, before, after, limit);
    OlderRises(index, before, i, j);
    earlier := |before| + Older(index, before, i);
    OldestStands(index, before, after, limit, i);
  }

  /** In the index's order of slot and key, an event is added after everything that
      is unprojected and comes before it. */
  lemma {:induction false} EarlierSlotsFirst(index: seq<Position>, before: seq<Position>, after: seq<Position>, limit: nat,
                                             p: Position, q: Position, at: nat) returns (earlier: nat)
    requires (forall i, j :: 0 <= i < j < |index| ==> Less(index[i], index[j])) && AddsOldest(index, before, after, limit)
    requires p in index && q in index && p !in before && q !in before
    requires p.slot < q.slot || (p.slot == q.slot && Before(p.key, q.key))
    requires |before| <= at < |after| && after[at] == q
    ensures |before| <= earlier < at && after[earlier] == p
  {
    hide AddsOldest, Before;
    var i :| 0 <= i < |index| && index[i] == p;
    var j :| 0 <= j < |index| && index[j] == q;
    LessIsIrreflexive(p);
    if j < i {
      LessIsTransitive(p, q, p);
    }
    forall a, b | 0 <= a < b < |index| ensures index[a] != index[b] {
      LessIsIrreflexive(index[a]);
    }
    earlier := OldestFirst(index, before, after, limit, i, j, at);
  }

  ghost predicate Recorded(index: seq<Position>, projected: seq<Position>) {
    forall p :: p in index ==> p in projected
  }

  lemma {:induction false} ShortBatchExhausts(index: seq<Position>, projected: seq<Position>, limit: nat)
    requires |Batch(index, projected, limit)| < limit
    ensures Recorded(index, projected + Batch(index, projected, limit))
  {
    forall p | p in index ensures p in projected + Batch(index, projected, limit) {
      assert p !in projected ==> p in Unprojected(index, projected);
    }
  }

  lemma {:induction false} BatchIsNew(index: seq<Position>, projected: seq<Position>, limit: nat)
    requires NoDuplicates(index)
    ensures var batch := Batch(index, projected, limit);
            NoDuplicates(batch) && forall p :: p in batch ==> p in index && p !in projected
  {
    UnprojectedIsDistinct(index, projected);
    assert forall p :: p in Batch(index, projected, limit) ==> p in Unprojected(index, projected);
  }

  lemma {:induction false} AppendKeepsDistinct(a: seq<Position>, b: seq<Position>)
    requires NoDuplicates(a) && NoDuplicates(b) && forall p :: p in b ==> p !in a
    ensures NoDuplicates(a + b)
  {
    var c := a + b;
    forall i, j | 0 <= i < j < |c| ensures c[i] != c[j] {
      if i < |a| <= j {
        assert c[j] in b && c[i] in a;
      }
    }
  }

  lemma {:induction false} BatchSound(index: seq<Position>, projected: seq<Position>, limit: int, sound: Position -> bool)
    ensures limit >= 0 ==>
              ((forall p :: p in Batch(index, projected, limit) ==> sound(p)) <==> OldestAreSound(index, projected, limit, sound))
  {
    hide Older;
    if limit >= 0 {
      var batch := Batch(index, projected, limit);
      OlderCounts(index, projected, |index|);
      assert index[..|index|] == index;
      forall i | IsOldest(index, projected, limit, i) ensures index[i] in batch {
        UnprojectedAt(index, projected, i);
        assert batch[Older(index, projected, i)] == index[i];
      }
      forall k | 0 <= k < |batch|
        ensures exists i :: IsOldest(index, projected, limit, i) && index[i] == batch[k]
      {
        var i := AtRank(index, projected, k);
        UnprojectedAt(index, projected, i);
      }
    }
  }

  lemma {:induction false} UnprojectedAgrees(index: seq<Position>, a: seq<Position>, b: seq<Position>)
    requires forall p :: p in index ==> (p in a <==> p in b)
    ensures Unprojected(index, a) == Unprojected(index, b)
  {
    if index != [] {
      UnprojectedAgrees(index[1..], a, b);
    }
  }

  lemma {:induction false} FirstIsSkipped(first: Position, rest: seq<Position>, projected: seq<Position>)
    requires first in projected
    ensures Unprojected([first] + rest, projected) == Unprojected(rest, projected)
  {
    assert ([first] + rest)[1..] == rest;
  }

  lemma {:induction false} FirstIsKept(first: Position, rest: seq<Position>, projected: seq<Position>)
    requires first !in projected
    ensures Unprojected([first] + rest, projected) == [first] + Unprojected(rest, projected)
  {
    assert ([first] + rest)[1..] == rest;
  }

  /** What the first `n` leave is what comes after them. */
  lemma {:induction false} UnprojectedAfter(index: seq<Position>, projected: seq<Position>, n: nat)
    requires NoDuplicates(index) && n <= |Unprojected(index, projected)|
    ensures Unprojected(index, projected + Unprojected(index, projected)[..n]) == Unprojected(index, projected)[n..]
    decreases |index|, 0
  {
    var all := Unprojected(index, projected);
    if n == 0 {
      assert projected + all[..0] == projected;
    } else {
      var first, rest := index[0], index[1..];
      assert index == [first] + rest && first !in rest && NoDuplicates(rest);
      if first in projected {
        SkippedAfter(first, rest, projected, n);
      } else {
        KeptAfter(first, rest, projected, n);
      }
    }
  }

  lemma {:induction false} SkippedAfter(first: Position, rest: seq<Position>, projected: seq<Position>, n: nat)
    requires NoDuplicates(rest) && first in projected && n <= |Unprojected([first] + rest, projected)|
    ensures var all := Unprojected([first] + rest, projected);
            Unprojected([first] + rest, projected + all[..n]) == all[n..]
    decreases |rest|, 1
  {
    hide Unprojected, NoDuplicates;
    FirstIsSkipped(first, rest, projected);
    var all := Unprojected(rest, projected);
    FirstIsSkipped(first, rest, projected + all[..n]);
    UnprojectedAfter(rest, projected, n);
  }

  lemma {:induction false} KeptAfter(first: Position, rest: seq<Position>, projected: seq<Position>, n: nat)
    requires NoDuplicates(rest) && first !in projected && first !in rest
    requires 0 < n <= |Unprojected([first] + rest, projected)|
    ensures var all := Unprojected([first] + rest, projected);
            Unprojected([first] + rest, projected + all[..n]) == all[n..]
    decreases |rest|, 1
  {
    hide Unprojected, NoDuplicates;
    FirstIsKept(first, rest, projected);
    var all, later := [first] + Unprojected(rest, projected), Unprojected(rest, projected);
    var grown := projected + all[..n];
    assert all[..n] == [first] + later[..n - 1] && all[n..] == later[n - 1..] && first in grown;
    FirstIsSkipped(first, rest, grown);
    UnprojectedAfter(rest, projected, n - 1);
    UnprojectedAgrees(rest, grown, projected + later[..n - 1]);
  }

  lemma {:induction false} TakeGoesOn(all: seq<Position>, n: nat, limit: nat)
    requires n <= |all|
    ensures Take(all, n) == all[..n] && Take(all, n + limit) == all[..n] + Take(all[n..], limit)
    ensures |Take(all[n..], limit)| == limit ==> n + limit <= |all|
  {
  }

  /** A batch after the first `n` is the next piece. */
  lemma {:induction false} BatchGoesOn(index: seq<Position>, before: seq<Position>, n: nat, limit: nat)
    requires NoDuplicates(index) && n <= |Unprojected(index, before)|
    ensures var first, now := Batch(index, before, n), before + Batch(index, before, n);
            && |first| == n && Batch(index, before, n + limit) == first + Batch(index, now, limit)
            && now + Batch(index, now, limit) == before + Batch(index, before, n + limit)
            && (|Batch(index, now, limit)| == limit ==> n + limit <= |Unprojected(index, before)|)
  {
    hide Unprojected, NoDuplicates, Take;
    var all := Unprojected(index, before);
    UnprojectedAfter(index, before, n);
    TakeGoesOn(all, n, limit);
    assert (before + all[..n]) + Take(all[n..], limit) == before + (all[..n] + Take(all[n..], limit));
  }

  lemma {:induction false} NothingAdded(index: seq<Position>, start: seq<Position>)
    ensures Batch(index, start, 0) == [] && start + [] == start
  {
  }

  /** What the first `n` are, when they are all sound. */
  lemma {:induction false} PassAdds(index: seq<Position>, start: seq<Position>, n: nat, sound: Position -> bool)
    requires forall p :: p in Batch(index, start, n) ==> sound(p)
    ensures var added := |Batch(index, start, n)|;
            && added <= n && (added < n ==> added == |Unprojected(index, start)|)
            && AddsOldest(index, start, start + Batch(index, start, n), added)
            && OldestAreSound(index, start, added, sound)
  {
    var added := |Batch(index, start, n)|;
    assert Batch(index, start, added) == Batch(index, start, n);
    hide Batch, AddsOldest, OldestAreSound, Unprojected;
    BatchAddsOldest(index, start, added);
    BatchSound(index, start, added, sound);
  }

  /** The activity tables as one connection sees them inside its transaction. */
  class ActivityTables {
    var index: seq<Position>
    var projected: seq<Position>

    constructor (index: seq<Position>, projected: seq<Position>)
      ensures this.index == index && this.projected == projected
    {
      this.index, this.projected := index, projected;
    }

    /** `projectFinalizedMarketActivity`: one batch in one transaction. None is
        the thrown error: a bad limit, or a row that `sound` refuses. */
    method ProjectBatch(limit: int, sound: Position -> bool) returns (count: Option<nat>)
      modifies this`projected
      ensures count.None? ==> projected == old(projected)
      ensures count.Some? ==>
                && 1 <= limit <= BATCH
                && projected == old(projected) + Batch(index, old(projected), limit)
                && count.value == |projected| - |old(projected)|
                && AddsOldest(index, old(projected), projected, limit)
      ensures count.Some? <==> 1 <= limit <= BATCH && OldestAreSound(index, old(projected), limit, sound)
    {
      hide Batch, AddsOldest, OldestAreSound;
      BatchSound(index, projected, limit, sound);
      if limit < 1 || limit > BATCH {
        return None;
      }
      BatchAddsOldest(index, projected, limit);
      var before := projected;
      var rows := Batch(index, projected, limit);
      for i := 0 to |rows|
        invariant projected == before + rows[..i]
        invariant forall k :: 0 <= k < i ==> sound(rows[k])
      {
        if !sound(rows[i]) {
          projected := before;
          return None;
        }
        projected := projected + [rows[i]];
      }
      return Some(|rows|);
    }

    /** The worker's pass: batches until one is short, or a stop is requested
        after batch `n`, each committed before the next. */
    method Drain(sound: Position -> bool, stopping: nat -> bool) returns (ok: bool, complete: bool)
      requires NoDuplicates(index) && NoDuplicates(projected)
      modifies this`projected
      ensures old(projected) <= projected && NoDuplicates(projected)
      ensures AddsOldest(index, old(projected), projected, |projected| - |old(projected)|)
      ensures forall p :: p in projected ==> p in old(projected) || p in index
      ensures ok && complete ==> Recorded(index, projected)
      ensures ok && (forall n :: !stopping(n)) ==> complete
      ensures (forall p :: p in index ==> sound(p)) ==> ok
      ensures var added := |projected| - |old(projected)|;
              && (forall n: nat :: BATCH * (n + 1) < added ==> !stopping(n))
              && (complete ==> ok && forall n: nat :: BATCH * (n + 1) <= added ==> !stopping(n))
              && (ok && !complete ==> exists n: nat :: stopping(n) && added == BATCH * (n + 1))
              && OldestAreSound(index, old(projected), added, sound)
              && (!ok ==> !OldestAreSound(index, old(projected), added + BATCH, sound))
    {
      hide Batch, AddsOldest, OldestAreSound, Recorded, NoDuplicates, Unprojected;
      ghost var start := projected;
      NothingAdded(index, start);
      var n := 0;
      while true
        invariant BATCH * n <= |Unprojected(index, start)| && projected == start + Batch(index, start, BATCH * n)
        invariant |projected| == |start| + BATCH * n
        invariant NoDuplicates(projected) && forall p :: p in projected ==> p in start || p in index
        invariant forall p :: p in Batch(index, start, BATCH * n) ==> sound(p)
        invariant forall m: nat :: m < n ==> !stopping(m)
        decreases |Unprojected(index, start)| - BATCH * n
      {
        BatchIsNew(index, projected, BATCH);
        BatchGoesOn(index, start, BATCH * n, BATCH);
        ghost var before := projected;
        BatchSound(index, before, BATCH, sound);
        var count := ProjectBatch(BATCH, sound);
        if count.None? {
          PassAdds(index, start, BATCH * n, sound);
          BatchSound(index, start, BATCH * (n + 1), sound);
          return false, false;
        }
        AppendKeepsDistinct(before, Batch(index, before, BATCH));
        PassAdds(index, start, BATCH * (n + 1), sound);
        if count.value < BATCH {
          ShortBatchExhausts(index, before, BATCH);
          return true, true;
        }
        if stopping(n) {
          return true, false;
        }
        n := n + 1;
      }
    }
  }

  // ----- coalesced wakes -----

  /** `running` is whether `current` holds a promise. */
  datatype Drain = Drain(pending: bool, running: bool)

  /** A wake while idle starts a pass at once and consumes its own flag. */
  function AfterWake(d: Drain): Drain {
    if d.running then d.(pending := true) else Drain(false, true)
  }

  /** A pass that resolves runs again if woken meanwhile; one that rejects ends the run. */
  function AfterPass(d: Drain, ok: bool): Drain {
    if ok && d.pending then d.(pending := false) else d.(running := false)
  }

  class CoalescedDrain {
    var pending: bool
    var running: bool

    constructor ()
      ensures Snapshot() == Drain(false, false)
    {
      pending, running := false, false;
    }

    function Snapshot(): Drain
      reads this
    {
      Drain(pending, running)
    }

    /** `wake`, up to the await inside the pass it may start. */
    method Wake() returns (starts: bool)
      modifies this
      ensures Snapshot() == AfterWake(old(Snapshot())) && starts == !old(running)
      ensures running && pending == old(running)
    {
      pending := true;
      starts := !running;
      if starts {
        running := true;
        pending := false;
      }
    }

    /** The loop of `run` when a pass settles, with its finally block. */
    method PassSettled(ok: bool) returns (again: bool)
      requires running
      modifies this
      ensures Snapshot() == AfterPass(old(Snapshot()), ok) && again == running
      ensures running == (ok && old(pending)) && pending == (!ok && old(pending))
    {
      again := ok && pending;
      if again {
        pending := false;
      } else {
        running := false;
      }
    }
  }

  // ----- every interleaving of workers, ingestion and wakes -----

  /** Where a worker stands inside its pass. */
  datatype Phase = Idle | Waiting | Holding(rows: seq<Position>) | Committed(count: nat)

  /** `wakes` holds, for each unsettled wake, the events committed before it. */
  datatype Worker = Worker(drain: Drain, phase: Phase, wakes: seq<set<Position>>)

  const RESTING := Worker(Drain(false, false), Idle, [])

  /** `lock` is the advisory lock's holder. */
  datatype World = World(index: seq<Position>, projected: seq<Position>, lock: Option<nat>, workers: map<nat, Worker>)

  datatype Action =
    | Ingest(event: Position, at: nat)
    | Wake(id: nat)
    | LockAndSelect(id: nat)
    | Commit(id: nat)
    | Fail(id: nat)
    | Settle(id: nat, stopping: bool)

  predicate Possible(w: World, a: Action) {
    match a
    case Ingest(event, at) => event !in w.index && at <= |w.index|
    case Wake(id) => id in w.workers
    case LockAndSelect(id) => id in w.workers && w.workers[id].phase == Waiting && w.lock.None?
    case Commit(id) => id in w.workers && w.workers[id].phase.Holding?
    case Fail(id) => id in w.workers && (w.workers[id].phase.Holding? || w.workers[id].phase.Waiting?)
    case Settle(id, _) => id in w.workers && w.workers[id].phase.Committed?
  }

  ghost function Ingested(w: World): set<Position> {
    set p | p in w.index
  }

  ghost function WakeWorker(w: World, u: Worker): Worker {
    Worker(AfterWake(u.drain), if u.drain.running then u.phase else Waiting, u.wakes + [Ingested(w)])
  }

  /** The end of a batch: another one, another pass, or a settled run. */
  function SettleWorker(u: Worker, stopping: bool): Worker
    requires u.phase.Committed?
  {
    if u.phase.count == BATCH && !stopping then u.(phase := Waiting)
    else
      var d := AfterPass(u.drain, true);
      if d.running then u.(drain := d, phase := Waiting) else Worker(d, Idle, [])
  }

  ghost function Act(w: World, a: Action): World
    requires Possible(w, a)
  {
    match a
    case Ingest(event, at) => w.(index := w.index[..at] + [event] + w.index[at..])
    case Wake(id) => w.(workers := w.workers[id := WakeWorker(w, w.workers[id])])
    case LockAndSelect(id) =>
      w.(lock := Some(id), workers := w.workers[id := w.workers[id].(phase := Holding(Batch(w.index, w.projected, BATCH)))])
    case Commit(id) =>
      var rows := w.workers[id].phase.rows;
      w.(lock := None, projected := w.projected + rows,
         workers := w.workers[id := w.workers[id].(phase := Committed(|rows|))])
    case Fail(id) =>
      w.(lock := if w.workers[id].phase.Holding? then None else w.lock,
         workers := w.workers[id := Worker(AfterPass(w.workers[id].drain, false), Idle, [])])
    case Settle(id, stopping) => w.(workers := w.workers[id := SettleWorker(w.workers[id], stopping)])
  }

  /** Unless another pass is already due, a short batch covers every wake. */
  ghost predicate Covers(projected: seq<Position>, u: Worker) {
    && (u.phase.Holding? && |u.phase.rows| < BATCH && !u.drain.pending ==>
          forall k :: 0 <= k < |u.wakes| ==> forall p :: p in u.wakes[k] ==> p in projected || p in u.phase.rows)
    && (u.phase.Committed? && u.phase.count < BATCH && !u.drain.pending ==>
          forall k :: 0 <= k < |u.wakes| ==> forall p :: p in u.wakes[k] ==> p in projected)
  }

  ghost predicate WorkerInv(w: World, id: nat, u: Worker) {
    && u.drain.running == (u.phase != Idle)
    && (u.phase.Holding? <==> w.lock == Some(id))
    && (u.phase.Holding? ==>
          NoDuplicates(u.phase.rows) && forall p :: p in u.phase.rows ==> p in w.index && p !in w.projected)
    && (forall k :: 0 <= k < |u.wakes| ==> forall p :: p in u.wakes[k] ==> p in w.index)
    && (u.phase == Idle ==> u.wakes == [])
    && (u.phase.Holding? ==> |u.phase.rows| <= BATCH) && (u.phase.Committed? ==> u.phase.count <= BATCH)
    && Covers(w.projected, u)
  }

  ghost predicate WorldInv(w: World) {
    && NoDuplicates(w.index) && NoDuplicates(w.projected)
    && (forall p :: p in w.projected ==> p in w.index)
    && (w.lock.Some? ==> w.lock.value in w.workers)
    && (forall id :: id in w.workers ==> WorkerInv(w, id, w.workers[id]))
  }

  lemma {:induction false} InsertKeepsDistinct(s: seq<Position>, x: Position, at: nat)
    requires NoDuplicates(s) && x !in s && at <= |s|
    ensures NoDuplicates(s[..at] + [x] + s[at..])
    ensures forall p :: p in s[..at] + [x] + s[at..] <==> p in s || p == x
  {
    InsertMembers(s, x, at);
    var t := s[..at] + [x] + s[at..];
    forall i, j | 0 <= i < j < |t| ensures t[i] != t[j] {
      InsertedAt(s, x, at, i);
      InsertedAt(s, x, at, j);
    }
  }

  lemma {:induction false} InsertMembers(s: seq<Position>, x: Position, at: nat)
    requires at <= |s|
    ensures forall p :: p in s[..at] + [x] + s[at..] <==> p in s || p == x
  {
    assert s == s[..at] + s[at..];
  }

  lemma {:induction false} InsertedAt(s: seq<Position>, x: Position, at: nat, i: nat)
    requires at <= |s| && i <= |s|
    ensures (s[..at] + [x] + s[at..])[i] == if i < at then s[i] else if i == at then x else s[i - 1]
  {
  }

  lemma {:induction false} IngestKeeps(w: World, event: Position, at: nat)
    requires WorldInv(w) && Possible(w, Ingest(event, at))
    ensures WorldInv(Act(w, Ingest(event, at)))
  {
    hide NoDuplicates, Covers;
    InsertKeepsDistinct(w.index, event, at);
    var x := Act(w, Ingest(event, at));
    forall id | id in x.workers ensures WorkerInv(x, id, x.workers[id]) {
      assert WorkerInv(w, id, w.workers[id]);
    }
  }

  lemma {:induction false} WakeKeeps(w: World, id: nat)
    requires WorldInv(w) && Possible(w, Wake(id))
    ensures WorldInv(Act(w, Wake(id)))
  {
    var u := w.workers[id];
    assert WorkerInv(w, id, u);
    var v := WakeWorker(w, u);
    var x := Act(w, Wake(id));
    assert WorkerInv(x, id, v);
    forall other | other in x.workers ensures WorkerInv(x, other, x.workers[other]) {
      assert other != id ==> WorkerInv(w, other, w.workers[other]);
    }
  }

  lemma {:induction false} SelectKeeps(w: World, id: nat)
    requires WorldInv(w) && Possible(w, LockAndSelect(id))
    ensures WorldInv(Act(w, LockAndSelect(id)))
  {
    var u := w.workers[id];
    assert WorkerInv(w, id, u);
    var x := Act(w, LockAndSelect(id));
    BatchIsNew(w.index, w.projected, BATCH);
    if |Batch(w.index, w.projected, BATCH)| < BATCH {
      ShortBatchExhausts(w.index, w.projected, BATCH);
    }
    assert WorkerInv(x, id, x.workers[id]);
    forall other | other in x.workers ensures WorkerInv(x, other, x.workers[other]) {
      assert other != id ==> WorkerInv(w, other, w.workers[other]);
    }
  }

  lemma {:induction false} CommitKeeps(w: World, id: nat)
    requires WorldInv(w) && Possible(w, Commit(id))
    ensures WorldInv(Act(w, Commit(id)))
  {
    var u := w.workers[id];
    assert WorkerInv(w, id, u);
    var x := Act(w, Commit(id));
    AppendKeepsDistinct(w.projected, u.phase.rows);
    assert WorkerInv(x, id, x.workers[id]);
    forall other | other in x.workers ensures WorkerInv(x, other, x.workers[other]) {
      if other != id {
        assert WorkerInv(w, other, w.workers[other]);
        assert !w.workers[other].phase.Holding?;
      }
    }
  }

  /** A pass may fail while it waits for the lock or holds it. It leaves nothing
      behind, gives the lock back and ends the run. */
  lemma {:induction false} FailKeeps(w: World, id: nat)
    requires WorldInv(w) && id in w.workers && (w.workers[id].phase.Waiting? || w.workers[id].phase.Holding?)
    ensures Possible(w, Fail(id)) && WorldInv(Act(w, Fail(id)))
    ensures var x := Act(w, Fail(id));
            && x.index == w.index && x.projected == w.projected && x.lock != Some(id)
            && (w.lock != Some(id) ==> x.lock == w.lock)
            && x.workers == w.workers[id := Worker(Drain(w.workers[id].drain.pending, false), Idle, [])]
  {
    var x := Act(w, Fail(id));
    assert WorkerInv(w, id, w.workers[id]);
    forall other | other in x.workers ensures WorkerInv(x, other, x.workers[other]) {
      assert other != id ==> WorkerInv(w, other, w.workers[other]);
    }
  }

  lemma {:induction false} SettleKeeps(w: World, id: nat, stopping: bool)
    requires WorldInv(w) && Possible(w, Settle(id, stopping))
    ensures WorldInv(Act(w, Settle(id, stopping)))
  {
    var x := Act(w, Settle(id, stopping));
    assert WorkerInv(w, id, w.workers[id]);
    forall other | other in x.workers ensures WorkerInv(x, other, x.workers[other]) {
      assert other != id ==> WorkerInv(w, other, w.workers[other]);
    }
  }

  /** Every step keeps: one lock holder, rows new to the table, no event twice,
      and short batches that cover the wakes before them. */
  lemma {:induction false} ActKeeps(w: World, a: Action)
    requires WorldInv(w) && Possible(w, a)
    ensures WorldInv(Act(w, a))
  {
    match a
    case Ingest(event, at) => IngestKeeps(w, event, at);
    case Wake(id) => WakeKeeps(w, id);
    case LockAndSelect(id) => SelectKeeps(w, id);
    case Commit(id) => CommitKeeps(w, id);
    case Fail(id) => FailKeeps(w, id);
    case Settle(id, stopping) => SettleKeeps(w, id, stopping);
  }

  /** A wake is on record with all that was ingested before it, and is heard: a worker
      at rest begins a pass, and one at work has another one due. */
  lemma {:induction false} WakeIsHeard(w: World, id: nat)
    requires WorldInv(w) && id in w.workers
    ensures Possible(w, Wake(id))
    ensures var u, v := w.workers[id], Act(w, Wake(id)).workers[id];
            && Act(w, Wake(id)) == w.(workers := w.workers[id := v])
            && |v.wakes| == |u.wakes| + 1 && v.wakes[..|u.wakes|] == u.wakes
            && (forall p :: p in v.wakes[|u.wakes|] <==> p in w.index)
            && (u.phase == Idle ==> v.phase == Waiting && v.drain == Drain(false, true))
            && (u.phase != Idle ==> v.phase == u.phase && v.drain == Drain(true, true))
  {
    assert WorkerInv(w, id, w.workers[id]);
  }

  /** An event may be ingested at any place of the index, at any moment. */
  lemma {:induction false} EventIsIngested(w: World, event: Position, at: nat)
    requires event !in w.index && at <= |w.index|
    ensures Possible(w, Ingest(event, at))
    ensures var x := Act(w, Ingest(event, at));
            && x == w.(index := x.index) && |x.index| == |w.index| + 1 && x.index[at] == event
            && x.index[..at] == w.index[..at] && x.index[at + 1..] == w.index[at..]
  {
  }

  ghost predicate IsRun(w: World, actions: seq<Action>)
    decreases |actions|
  {
    actions == [] || (Possible(w, actions[0]) && IsRun(Act(w, actions[0]), actions[1..]))
  }

  ghost function After(w: World, actions: seq<Action>): World
    requires IsRun(w, actions)
    decreases |actions|
  {
    if actions == [] then w else After(Act(w, actions[0]), actions[1..])
  }

  /** In every run of any number of workers, projection is append-only and holds
      each event at most once. */
  lemma {:induction false} RunKeeps(w: World, actions: seq<Action>)
    requires WorldInv(w) && IsRun(w, actions)
    ensures WorldInv(After(w, actions)) && w.projected <= After(w, actions).projected
    decreases |actions|
  {
    if actions != [] {
      ActKeeps(w, actions[0]);
      RunKeeps(Act(w, actions[0]), actions[1..]);
    }
  }

  /** The three-file promise. When a worker's run settles without a stop request
      cutting a full batch short, every event committed before any wake of the
      run is in the activity table, exactly once. */
  lemma {:induction false} SettledWakeIsProjected(w: World, id: nat, stopping: bool, k: nat, p: Position)
    requires WorldInv(w) && Possible(w, Settle(id, stopping))
    requires !Act(w, Settle(id, stopping)).workers[id].drain.running
    requires !stopping || w.workers[id].phase.count < BATCH
    requires k < |w.workers[id].wakes| && p in w.workers[id].wakes[k]
    ensures exists i :: 0 <= i < |w.projected| && w.projected[i] == p
                        && forall j :: 0 <= j < |w.projected| && w.projected[j] == p ==> j == i
  {
    var u := w.workers[id];
    assert WorkerInv(w, id, u);
    assert u.phase.count < BATCH;
    var i :| 0 <= i < |w.projected| && w.projected[i] == p;
    assert forall j :: 0 <= j < |w.projected| && w.projected[j] == p ==> j == i;
  }

  /** Before any wake: resting workers, an empty activity table, a free lock. */
  ghost predicate IsStart(w: World) {
    && NoDuplicates(w.index) && w.projected == [] && w.lock.None?
    && forall id :: id in w.workers ==> w.workers[id] == RESTING
  }

  /** The promise over whole runs: whatever workers, ingestion, failures and wakes
      did before. */
  lemma {:induction false} EveryRunProjects(start: World, actions: seq<Action>, id: nat, stopping: bool, k: nat,
                                            p: Position)
    requires IsStart(start) && IsRun(start, actions)
    requires var w := After(start, actions);
             && Possible(w, Settle(id, stopping)) && !Act(w, Settle(id, stopping)).workers[id].drain.running
             && (stopping ==> w.workers[id].phase.count < BATCH)
             && k < |w.workers[id].wakes| && p in w.workers[id].wakes[k]
    ensures var projected := After(start, actions).projected;
            exists i :: 0 <= i < |projected| && projected[i] == p
                        && forall j :: 0 <= j < |projected| && projected[j] == p ==> j == i
  {
    assert WorldInv(start) by {
      forall other | other in start.workers ensures WorkerInv(start, other, start.workers[other]) {
      }
    }
    RunKeeps(start, actions);
    SettledWakeIsProjected(After(start, actions), id, stopping, k, p);
  }

  /** Wakes during a pass collapse into one more pass, and none is dropped: the
      run cannot settle before that pass. */
  lemma {:induction false} WakesCollapse(w: World, id: nat, stopping: bool)
    requires WorldInv(w) && Possible(w, Settle(id, stopping)) && w.workers[id].drain.pending
    ensures var u := Act(w, Settle(id, stopping)).workers[id];
            && u.drain.running && u.phase == Waiting && u.wakes == w.workers[id].wakes
            && (w.workers[id].phase.count < BATCH ==> !u.drain.pending)
  {
  }

  // ----- a stop between batches -----

  /** A batch leaves nothing unprojected exactly when no more than its limit was. */
  lemma {:induction false} BatchExhaustsExactly(index: seq<Position>, projected: seq<Position>, limit: nat)
    requires NoDuplicates(index)
    ensures Recorded(index, projected + Batch(index, projected, limit)) <==> |Unprojected(index, projected)| <= limit
  {
    var rest, batch := Unprojected(index, projected), Batch(index, projected, limit);
    UnprojectedIsDistinct(index, projected);
    if |rest| <= limit {
      forall p | p in index ensures p in projected + batch {
        assert p !in projected ==> p in rest;
      }
    } else {
      var p := rest[limit];
      assert p in rest && p !in batch && p !in projected + batch;
    }
  }

  /** The worker neither commits nor fails the batch it holds. */
  ghost predicate Undecided(actions: seq<Action>, id: nat) {
    forall i :: 0 <= i < |actions| ==> actions[i] != Commit(id) && actions[i] != Fail(id)
  }

  /** Whatever else happens, a batch in hand stays as selected and the table as it
      was: the lock keeps everyone else out. */
  lemma {:induction false} HeldBatchStays(w: World, id: nat, actions: seq<Action>)
    requires WorldInv(w) && id in w.workers && w.workers[id].phase.Holding? && IsRun(w, actions) && Undecided(actions, id)
    ensures var x := After(w, actions);
            WorldInv(x) && id in x.workers && x.workers[id].phase == w.workers[id].phase && x.projected == w.projected
    decreases |actions|
  {
    hide WorldInv;
    if actions != [] {
      HeldBatchStep(w, id, actions[0]);
      HeldBatchStays(Act(w, actions[0]), id, actions[1..]);
    }
  }

  lemma {:induction false} HeldBatchStep(w: World, id: nat, a: Action)
    requires WorldInv(w) && id in w.workers && w.workers[id].phase.Holding? && Possible(w, a)
    requires a != Commit(id) && a != Fail(id)
    ensures var x := Act(w, a);
            WorldInv(x) && id in x.workers && x.workers[id].phase == w.workers[id].phase && x.projected == w.projected
  {
    ActKeeps(w, a);
    assert WorkerInv(w, id, w.workers[id]);
  }

  /** A batch that commits adds the oldest events that were unprojected at its
      selection, whatever happens in between. */
  lemma {:induction false} CommitAddsOldest(w: World, id: nat, actions: seq<Action>)
    requires WorldInv(w) && Possible(w, LockAndSelect(id))
    requires IsRun(Act(w, LockAndSelect(id)), actions) && Undecided(actions, id)
    ensures var x := After(Act(w, LockAndSelect(id)), actions);
            Possible(x, Commit(id)) && AddsOldest(w.index, w.projected, Act(x, Commit(id)).projected, BATCH)
  {
    hide AddsOldest, Batch;
    ActKeeps(w, LockAndSelect(id));
    HeldBatchStays(Act(w, LockAndSelect(id)), id, actions);
    BatchAddsOldest(w.index, w.projected, BATCH);
  }

  /** A batch's end settles the worker's run exactly when the batch was short or a
      stop cut it, and nothing woke it meanwhile; otherwise it goes on at once. */
  lemma {:induction false} SettlesExactly(w: World, id: nat, stopping: bool)
    requires WorldInv(w) && Possible(w, Settle(id, stopping))
    ensures var u, v := w.workers[id], Act(w, Settle(id, stopping)).workers[id];
            if (u.phase.count < BATCH || stopping) && !u.drain.pending then v == RESTING
            else v.drain.running && v.phase == Waiting && v.wakes == u.wakes
                 && v.drain.pending == (u.drain.pending && u.phase.count == BATCH && !stopping)
  {
    assert WorkerInv(w, id, w.workers[id]);
  }

  /** A run that a stop request ends after this batch has projected everything the
      index held at the selection if and only if at most one batch of it was
      unprojected then, whatever happens until the commit. */
  lemma {:induction false} StopLeavesNothingExactly(w: World, id: nat, actions: seq<Action>)
    requires WorldInv(w) && Possible(w, LockAndSelect(id))
    requires IsRun(Act(w, LockAndSelect(id)), actions) && Undecided(actions, id)
    ensures var x := After(Act(w, LockAndSelect(id)), actions);
            Possible(x, Commit(id)) && Possible(Act(x, Commit(id)), Settle(id, true))
            && var settled := Act(Act(x, Commit(id)), Settle(id, true));
               && (x.workers[id].drain.pending || !settled.workers[id].drain.running)
               && (Recorded(w.index, settled.projected) <==> |Unprojected(w.index, w.projected)| <= BATCH)
  {
    ActKeeps(w, LockAndSelect(id));
    HeldBatchStays(Act(w, LockAndSelect(id)), id, actions);
    BatchExhaustsExactly(w.index, w.projected, BATCH);
  }

  /** A stop request between full batches is the one way a settled wake can leave
      an earlier event unprojected, and it is reachable: one resting worker, one
      wake, one full batch, one stop. */
  lemma {:induction false} StopLeavesRest(index: seq<Position>)
    requires NoDuplicates(index) && |index| > BATCH
    ensures var start, actions := World(index, [], None, map[0 := RESTING]), [Wake(0), LockAndSelect(0), Commit(0)];
            && IsStart(start) && IsRun(start, actions)
            && var w := After(start, actions);
               && w.workers[0].wakes == [Ingested(start)] && Possible(w, Settle(0, true))
               && !Act(w, Settle(0, true)).workers[0].drain.running
               && !Recorded(index, Act(w, Settle(0, true)).projected)
  {
    hide Act, Possible, Recorded;
    StopEnds(index);
    var start := World(index, [], None, map[0 := RESTING]);
    var woken := Act(start, Wake(0));
    var held := Act(woken, LockAndSelect(0));
    var done := Act(held, Commit(0));
    assert IsRun(done, []) && After(done, []) == done;
    RunCons(held, Commit(0), []);
    RunCons(woken, LockAndSelect(0), [Commit(0)]);
    RunCons(start, Wake(0), [LockAndSelect(0), Commit(0)]);
  }

  lemma {:induction false} StopEnds(index: seq<Position>)
    requires NoDuplicates(index) && |index| > BATCH
    ensures var start := World(index, [], None, map[0 := RESTING]);
            && Possible(start, Wake(0)) && Possible(Act(start, Wake(0)), LockAndSelect(0))
            && Possible(Act(Act(start, Wake(0)), LockAndSelect(0)), Commit(0))
            && var done := Act(Act(Act(start, Wake(0)), LockAndSelect(0)), Commit(0));
               && done.workers[0].wakes == [Ingested(start)] && Possible(done, Settle(0, true))
               && !Act(done, Settle(0, true)).workers[0].drain.running
               && !Recorded(index, Act(done, Settle(0, true)).projected)
  {
    hide Recorded, Unprojected, Ingested, Batch;
    AllUnprojected(index);
    BatchExhaustsExactly(index, [], BATCH);
    FirstBatch(index);
  }

  lemma {:induction false} FirstBatch(index: seq<Position>)
    requires |index| > BATCH
    ensures |Batch(index, [], BATCH)| == BATCH
  {
    AllUnprojected(index);
  }

  lemma {:induction false} RunCons(w: World, a: Action, rest: seq<Action>)
    requires Possible(w, a) && IsRun(Act(w, a), rest)
    ensures IsRun(w, [a] + rest) && After(w, [a] + rest) == After(Act(w, a), rest)
  {
    assert ([a] + rest)[1..] == rest;
  }

  lemma {:induction false} AllUnprojected(index: seq<Position>)
    ensures Unprojected(index, []) == index
  {
    if index != [] {
      AllUnprojected(index[1..]);
      assert index == [index[0]] + index[1..];
    }
  }
}
