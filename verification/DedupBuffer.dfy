/** The dedup buffer of `start_db_listener` (grpc/src/db_listener.rs): an
    inserted swap waits for its enriched update, or until it has waited too long. */
module DedupBuffer {
  import opened Options

  datatype Swap = Swap(txSig: string, pair: string, volumeUsd: int)

  datatype Entry = Entry(swap: Swap, insertedAt: int)

  type Buffer = map<string, Entry>

  /** The notification's `op` in upper case; anything else, or none, is `Other`. */
  datatype Op = Insert | Update | Other

  datatype Event = Notify(op: Op, swap: Swap, now: int) | Tick(now: int)

  /** `superseded` holds the waiting versions that a later notification of the
      same signature replaced or dropped. */
  datatype State = State(buffer: Buffer, emitted: seq<Swap>, superseded: multiset<Swap>)

  const START := State(map[], [], multiset{})

  /** `now.duration_since(at)`, which saturates at zero. */
  function Elapsed(now: int, at: int): nat { if now > at then now - at else 0 }

  predicate IsOverdue(e: Entry, timeout: nat, now: int) { Elapsed(now, e.insertedAt) >= timeout }

  function Overdue(m: Buffer, timeout: nat, now: int): Buffer {
    map k | k in m && IsOverdue(m[k], timeout, now) :: m[k]
  }

  function Waiting(m: Buffer, timeout: nat, now: int): Buffer {
    map k | k in m && !IsOverdue(m[k], timeout, now) :: m[k]
  }

  /** The version of one signature that waits, if any. */
  function HeldFor(m: Buffer, sig: string): multiset<Swap> {
    if sig in m then multiset{m[sig].swap} else multiset{}
  }

  /** All swaps that wait. */
  ghost function Held(m: Buffer): multiset<Swap>
    decreases |m|
  {
    if m == map[] then multiset{}
    else
      var k :| k in m;
      multiset{m[k].swap} + Held(m - {k})
  }

  // ----- steps -----

  /** One turn of the listener's loop. The order in which a tick emits is the hash
      map's and so is left open. */
  ghost predicate Next(timeout: nat, s: State, e: Event, t: State) {
    match e
    case Notify(op, swap, now) =>
      var superseded := s.superseded + HeldFor(s.buffer, swap.txSig);
      t == (if op == Insert
            then State(s.buffer[swap.txSig := Entry(swap, now)], s.emitted, superseded)
            else State(s.buffer - {swap.txSig}, s.emitted + [swap], superseded))
    case Tick(now) =>
      && t.buffer == Waiting(s.buffer, timeout, now)
      && t.superseded == s.superseded
      && s.emitted <= t.emitted
      && multiset(t.emitted[|s.emitted|..]) == Held(Overdue(s.buffer, timeout, now))
  }

  class Listener {
    const timeout: nat
    var buffer: Buffer
    var emitted: seq<Swap>
    ghost var superseded: multiset<Swap>

    ghost function Snapshot(): State
      reads this
    {
      State(buffer, emitted, superseded)
    }

    constructor (timeout: nat)
      ensures this.timeout == timeout && Snapshot() == START
    {
      this.timeout := timeout;
      buffer, emitted, superseded := map[], [], multiset{};
    }

    method OnNotification(op: Op, swap: Swap, now: int)
      modifies this
      ensures Next(timeout, old(Snapshot()), Notify(op, swap, now), Snapshot())
    {
      superseded := superseded + HeldFor(buffer, swap.txSig);
      if op == Insert {
        buffer := buffer[swap.txSig := Entry(swap, now)];
      } else {
        if op == Update {
          if swap.txSig in buffer {
            buffer := buffer - {swap.txSig};
          }
        } else {
          buffer := buffer - {swap.txSig};
        }
        emitted := emitted + [swap];
      }
    }

    method OnTick(now: int)
      modifies this
      ensures Next(timeout, old(Snapshot()), Tick(now), Snapshot())
    {
      hide Held, HeldFor, IsOverdue, Overdue, Waiting, Next;
      ghost var overdue, tail := Overdue(buffer, timeout, now), [];
      var timedOut := set k | k in buffer && IsOverdue(buffer[k], timeout, now);
      OverdueKeys(buffer, timeout, now);
      while timedOut != {}
        invariant timedOut == Overdue(buffer, timeout, now).Keys
        invariant Waiting(buffer, timeout, now) == Waiting(old(buffer), timeout, now)
        invariant emitted == old(emitted) + tail
        invariant multiset(tail) + Held(Overdue(buffer, timeout, now)) == Held(overdue)
        invariant superseded == old(superseded)
        decreases |timedOut|
      {
        var txSig :| txSig in timedOut;
        OneFlushed(buffer, timeout, now, txSig, tail);
        var swap := buffer[txSig].swap;
        buffer, timedOut := buffer - {txSig}, timedOut - {txSig};
        emitted := emitted + [swap];
        tail := tail + [swap];
      }
      AllFlushed(buffer, timeout, now);
      TickIs(old(Snapshot()), timeout, now, tail);
    }
  }

  lemma {:induction false} TickIs(s: State, timeout: nat, now: int, tail: seq<Swap>)
    requires multiset(tail) == Held(Overdue(s.buffer, timeout, now))
    ensures Next(timeout, s, Tick(now), State(Waiting(s.buffer, timeout, now), s.emitted + tail, s.superseded))
  {
    assert (s.emitted + tail)[|s.emitted|..] == tail;
  }

  lemma {:induction false} OverdueKeys(m: Buffer, timeout: nat, now: int)
    ensures Overdue(m, timeout, now).Keys == set k | k in m && IsOverdue(m[k], timeout, now)
  {
  }

  lemma {:induction false} OneFlushed(m: Buffer, timeout: nat, now: int, k: string, tail: seq<Swap>)
    requires k in Overdue(m, timeout, now)
    ensures k in m
    ensures Waiting(m - {k}, timeout, now) == Waiting(m, timeout, now)
    ensures Overdue(m - {k}, timeout, now).Keys == Overdue(m, timeout, now).Keys - {k}
    ensures multiset(tail + [m[k].swap]) + Held(Overdue(m - {k}, timeout, now)) == multiset(tail) + Held(Overdue(m, timeout, now))
  {
    hide Held;
    HeldTakes(Overdue(m, timeout, now), k);
    SidesWithout(m, timeout, now, k);
    assert Waiting(m, timeout, now) - {k} == Waiting(m, timeout, now);
  }

  lemma {:induction false} AllFlushed(m: Buffer, timeout: nat, now: int)
    requires Overdue(m, timeout, now).Keys == {}
    ensures Waiting(m, timeout, now) == m && Held(Overdue(m, timeout, now)) == multiset{}
  {
    forall k | k in m ensures !IsOverdue(m[k], timeout, now) {
      assert k !in Overdue(m, timeout, now);
    }
    assert Overdue(m, timeout, now) == map[];
  }

  lemma {:induction false} TakeEither(x: multiset<Swap>, y: multiset<Swap>, rest: multiset<Swap>)
    ensures x + (y + rest) == y + (x + rest)
  {
  }

  lemma {:induction false} Exchange(a: multiset<Swap>, b: multiset<Swap>, c: multiset<Swap>, d: multiset<Swap>)
    ensures (a + b) + (c + d) == (a + c) + (b + d)
  {
  }

  lemma {:induction false} HeldChoice(m: Buffer) returns (k: string)
    requires m != map[]
    ensures k in m && Held(m) == multiset{m[k].swap} + Held(m - {k})
  {
    k :| k in m && Held(m) == multiset{m[k].swap} + Held(m - {k});
  }

  lemma {:induction false} HeldTakes(m: Buffer, k: string)
    requires k in m
    ensures Held(m) == multiset{m[k].swap} + Held(m - {k})
    decreases |m|
  {
    hide Held;
    var first := HeldChoice(m);
    if first != k {
      HeldTakes(m - {first}, k);
      HeldTakes(m - {k}, first);
      assert m - {first} - {k} == m - {k} - {first};
      TakeEither(multiset{m[first].swap}, multiset{m[k].swap}, Held(m - {k} - {first}));
    }
  }

  lemma {:induction false} HeldDrops(m: Buffer, sig: string)
    ensures Held(m) == HeldFor(m, sig) + Held(m - {sig})
  {
    hide Held;
    if sig in m {
      HeldTakes(m, sig);
    } else {
      assert m - {sig} == m;
    }
  }

  lemma {:induction false} HeldInserts(m: Buffer, sig: string, e: Entry)
    ensures Held(m[sig := e]) + HeldFor(m, sig) == Held(m) + multiset{e.swap}
  {
    hide Held;
    HeldTakes(m[sig := e], sig);
    assert m[sig := e] - {sig} == m - {sig};
    HeldDrops(m, sig);
  }

  /** Each entry is on one side, and removing one removes it from its side. */
  lemma {:induction false} SidesWithout(m: Buffer, timeout: nat, now: int, k: string)
    requires k in m
    ensures Overdue(m - {k}, timeout, now) == Overdue(m, timeout, now) - {k}
    ensures Waiting(m - {k}, timeout, now) == Waiting(m, timeout, now) - {k}
    ensures HeldFor(Overdue(m, timeout, now), k) + HeldFor(Waiting(m, timeout, now), k) == multiset{m[k].swap}
  {
  }

  lemma {:induction false} HeldSplits(m: Buffer, timeout: nat, now: int)
    ensures Held(m) == Held(Overdue(m, timeout, now)) + Held(Waiting(m, timeout, now))
    decreases |m|
  {
    if m == map[] {
      assert Overdue(m, timeout, now) == map[] && Waiting(m, timeout, now) == map[];
    } else {
      hide Held, Overdue, Waiting, HeldFor;
      var k :| k in m;
      var late, early := Overdue(m, timeout, now), Waiting(m, timeout, now);
      SidesWithout(m, timeout, now, k);
      HeldSplits(m - {k}, timeout, now);
      HeldTakes(m, k);
      HeldDrops(late, k);
      HeldDrops(early, k);
      Exchange(HeldFor(late, k), HeldFor(early, k), Held(late - {k}), Held(early - {k}));
    }
  }

  // ----- runs -----

  ghost predicate IsRun(timeout: nat, events: seq<Event>, states: seq<State>) {
    && |states| == |events| + 1
    && states[0] == START
    && forall i :: 0 <= i < |events| ==> Next(timeout, states[i], events[i], states[i + 1])
  }

  function Received(events: seq<Event>): multiset<Swap> {
    if events == [] then multiset{}
    else
      var last := events[|events| - 1];
      Received(events[..|events| - 1]) + if last.Notify? then multiset{last.swap} else multiset{}
  }

  /** What the state accounts for. */
  ghost function Accounted(s: State): multiset<Swap> {
    multiset(s.emitted) + Held(s.buffer) + s.superseded
  }

  lemma {:induction false} NotifyAccounts(s: State, op: Op, swap: Swap, now: int, timeout: nat, t: State)
    requires Next(timeout, s, Notify(op, swap, now), t)
    ensures Accounted(t) == Accounted(s) + multiset{swap}
  {
    hide Held, HeldFor;
    if op == Insert {
      HeldInserts(s.buffer, swap.txSig, Entry(swap, now));
      Rearrange(multiset(s.emitted), Held(t.buffer), s.superseded, HeldFor(s.buffer, swap.txSig), Held(s.buffer), multiset{swap});
    } else {
      HeldDrops(s.buffer, swap.txSig);
    }
  }

  lemma {:induction false} Rearrange(e: multiset<Swap>, after: multiset<Swap>, gone: multiset<Swap>,
                                     replaced: multiset<Swap>,
                  held: multiset<Swap>, x: multiset<Swap>)
    requires after + replaced == held + x
    ensures (e + after) + (gone + replaced) == (e + held) + gone + x
  {
    Exchange(e, after, gone, replaced);
  }

  lemma {:induction false} TickAccounts(s: State, now: int, timeout: nat, t: State)
    requires Next(timeout, s, Tick(now), t)
    ensures Accounted(t) == Accounted(s)
  {
    hide Held, Overdue, Waiting;
    HeldSplits(s.buffer, timeout, now);
    var tail := t.emitted[|s.emitted|..];
    assert t.emitted == s.emitted + tail;
    assert multiset(t.emitted) == multiset(s.emitted) + multiset(tail);
  }

  lemma {:induction false} PrefixRun(timeout: nat, events: seq<Event>, states: seq<State>)
    requires IsRun(timeout, events, states) && events != []
    ensures IsRun(timeout, events[..|events| - 1], states[..|events|])
  {
  }

  /** Every received swap is emitted, waits, or was superseded, exactly as often
      as it was received. A superseded one reaches nobody. */
  lemma {:induction false} SwapsAreConserved(timeout: nat, events: seq<Event>, states: seq<State>)
    requires IsRun(timeout, events, states)
    ensures Received(events) == Accounted(states[|events|])
    decreases |events|
  {
    if events != [] {
      var n := |events| - 1;
      PrefixRun(timeout, events, states);
      SwapsAreConserved(timeout, events[..n], states[..n + 1]);
      match events[n]
      case Notify(op, swap, now) => NotifyAccounts(states[n], op, swap, now, timeout, states[n + 1]);
      case Tick(now) => TickAccounts(states[n], now, timeout, states[n + 1]);
    }
  }

  /** The version of a signature that waits, read off the events alone: its last
      notification, if that was an insert no tick has found overdue since. */
  function Pending(timeout: nat, events: seq<Event>, sig: string): Option<Entry> {
    if events == [] then None
    else
      var earlier := Pending(timeout, events[..|events| - 1], sig);
      match events[|events| - 1]
      case Notify(op, swap, now) =>
        if swap.txSig != sig then earlier else if op == Insert then Some(Entry(swap, now)) else None
      case Tick(now) =>
        if earlier.Some? && IsOverdue(earlier.value, timeout, now) then None else earlier
  }

  function Lookup(m: Buffer, sig: string): Option<Entry> {
    if sig in m then Some(m[sig]) else None
  }

  lemma {:induction false} BufferIsPending(timeout: nat, events: seq<Event>, states: seq<State>, sig: string)
    requires IsRun(timeout, events, states)
    ensures Lookup(states[|events|].buffer, sig) == Pending(timeout, events, sig)
    decreases |events|
  {
    if events != [] {
      var n := |events| - 1;
      PrefixRun(timeout, events, states);
      BufferIsPending(timeout, events[..n], states[..n + 1], sig);
      assert Next(timeout, states[n], events[n], states[n + 1]);
    }
  }

  /** The event settles an insert that waits: another notification of its
      signature, or a tick that finds it overdue. */
  predicate Settles(timeout: nat, insert: Event, e: Event)
    requires insert.Notify?
  {
    match e
    case Notify(_, swap, _) => swap.txSig == insert.swap.txSig
    case Tick(now) => IsOverdue(Entry(insert.swap, insert.now), timeout, now)
  }

  /** A waiting version is its signature's last notification, an insert that no
      tick has found overdue. */
  lemma {:induction false} PendingIsLast(timeout: nat, events: seq<Event>, sig: string) returns (k: nat)
    requires Pending(timeout, events, sig).Some?
    ensures var e := Pending(timeout, events, sig).value;
            && k < |events| && events[k] == Notify(Insert, e.swap, e.insertedAt) && e.swap.txSig == sig
            && (forall m :: k < m < |events| && events[m].Notify? ==> events[m].swap.txSig != sig)
            && (forall m :: k < m < |events| ==> !Settles(timeout, events[k], events[m]))
    decreases |events|
  {
    var n := |events| - 1;
    if events[n].Notify? && events[n].swap.txSig == sig {
      k := n;
    } else {
      k := PendingIsLast(timeout, events[..n], sig);
    }
  }

  /** After a tick no waiting version is as old as the timeout. */
  lemma {:induction false} TickLeavesNothingOverdue(timeout: nat, s: State, now: int, t: State, sig: string)
    requires Next(timeout, s, Tick(now), t)
    ensures sig in t.buffer ==> t.buffer[sig].insertedAt + timeout > now
    ensures sig in t.buffer <==> sig in s.buffer && timeout > 0 && now < s.buffer[sig].insertedAt + timeout
    ensures sig in t.buffer ==> t.buffer[sig] == s.buffer[sig]
  {
  }

  /** Once an update of a signature is handled, what a later tick emits for it
      was inserted after that update: the unenriched version it replaced is
      never emitted. */
  lemma {:induction false} RawNeverFollowsEnriched(timeout: nat, events: seq<Event>, states: seq<State>, sig: string,
                                                   i: nat, j: nat)
    requires IsRun(timeout, events, states) && i < j < |events|
    requires events[i].Notify? && events[i].op == Update && events[i].swap.txSig == sig
    requires events[j].Tick? && sig in states[j].buffer && IsOverdue(states[j].buffer[sig], timeout, events[j].now)
    ensures exists k :: i < k < j && events[k] == Notify(Insert, states[j].buffer[sig].swap, states[j].buffer[sig].insertedAt)
  {
    RunUpTo(timeout, events, states, j);
    BufferIsPending(timeout, events[..j], states[..j + 1], sig);
    var k := PendingIsLast(timeout, events[..j], sig);
    assert events[..j][i] == events[i] && events[..j][k] == events[k];
  }

  lemma {:induction false} RunUpTo(timeout: nat, events: seq<Event>, states: seq<State>, j: nat)
    requires IsRun(timeout, events, states) && j <= |events|
    ensures IsRun(timeout, events[..j], states[..j + 1])
  {
  }

  // ----- the fate of one insert -----

  function FirstSettled(timeout: nat, events: seq<Event>, k: nat, from: nat): (r: Option<nat>)
    requires k < |events| && events[k].Notify? && from <= |events|
    ensures r.Some? ==> from <= r.value < |events| && Settles(timeout, events[k], events[r.value])
    ensures forall m :: from <= m < (if r.Some? then r.value else |events|) ==> !Settles(timeout, events[k], events[m])
    decreases |events| - from
  {
    if from == |events| then None
    else if Settles(timeout, events[k], events[from]) then Some(from)
    else FirstSettled(timeout, events, k, from + 1)
  }

  lemma {:induction false} WaitsUntil(timeout: nat, events: seq<Event>, states: seq<State>, k: nat, i: nat)
    requires IsRun(timeout, events, states) && k < i <= |events| && events[k].Notify? && events[k].op == Insert
    requires forall m :: k < m < i ==> !Settles(timeout, events[k], events[m])
    ensures Lookup(states[i].buffer, events[k].swap.txSig) == Some(Entry(events[k].swap, events[k].now))
    decreases i
  {
    assert Next(timeout, states[i - 1], events[i - 1], states[i]);
    if i > k + 1 {
      WaitsUntil(timeout, events, states, k, i - 1);
      assert !Settles(timeout, events[k], events[i - 1]);
    }
  }

  lemma {:induction false} OverdueIsHeld(m: Buffer, timeout: nat, now: int, sig: string)
    requires sig in m && IsOverdue(m[sig], timeout, now)
    ensures m[sig].swap in Held(Overdue(m, timeout, now))
  {
    HeldTakes(Overdue(m, timeout, now), sig);
  }

  lemma {:induction false} TickFlushes(timeout: nat, events: seq<Event>, states: seq<State>, k: nat, j: nat)
    requires IsRun(timeout, events, states) && k < j < |events| && events[k].Notify? && events[k].op == Insert
    requires events[j].Tick? && Settles(timeout, events[k], events[j])
    requires forall m :: k < m < j ==> !Settles(timeout, events[k], events[m])
    ensures events[k].swap in states[j + 1].emitted[|states[j].emitted|..]
  {
    WaitsUntil(timeout, events, states, k, j);
    assert Next(timeout, states[j], events[j], states[j + 1]);
    OverdueIsHeld(states[j].buffer, timeout, events[j].now, events[k].swap.txSig);
    assert events[k].swap in multiset(states[j + 1].emitted[|states[j].emitted|..]);
  }

  lemma {:induction false} NotificationSupersedes(timeout: nat, events: seq<Event>, states: seq<State>, k: nat, j: nat)
    requires IsRun(timeout, events, states) && k < j < |events| && events[k].Notify? && events[k].op == Insert
    requires events[j].Notify? && Settles(timeout, events[k], events[j])
    requires forall m :: k < m < j ==> !Settles(timeout, events[k], events[m])
    ensures states[j + 1].superseded == states[j].superseded + multiset{events[k].swap}
  {
    WaitsUntil(timeout, events, states, k, j);
    assert Next(timeout, states[j], events[j], states[j + 1]);
  }

  /** What becomes of a notification: anything but an insert is emitted at once; an
      insert waits until something settles it, a tick that emits it or another
      notification that supersedes it. */
  datatype Fate = Emitted | Waits | Superseded

  function FateOf(timeout: nat, events: seq<Event>, k: nat): Fate
    requires k < |events| && events[k].Notify?
  {
    if events[k].op != Insert then Emitted
    else
      match FirstSettled(timeout, events, k, k + 1)
      case None => Waits
      case Some(j) => if events[j].Tick? then Emitted else Superseded
  }

  /** How many of the first `n` events brought this swap and had this fate. */
  function Fated(timeout: nat, events: seq<Event>, x: Swap, fate: Fate, n: nat): nat
    requires n <= |events|
  {
    if n == 0 then 0
    else
      Fated(timeout, events, x, fate, n - 1)
      + if events[n - 1].Notify? && events[n - 1].swap == x && FateOf(timeout, events, n - 1) == fate then 1 else 0
  }

  lemma {:induction false} SettledGrows(timeout: nat, events: seq<Event>, e: Event, k: nat, from: nat)
    requires k < |events| && events[k].Notify? && from <= |events|
    ensures FirstSettled(timeout, events + [e], k, from)
         == (var r := FirstSettled(timeout, events, k, from);
             if r.Some? then r else if Settles(timeout, events[k], e) then Some(|events|) else None)
    decreases |events| - from
  {
    if from < |events| {
      SettledGrows(timeout, events, e, k, from + 1);
    } else {
      assert (events + [e])[from] == e;
    }
  }

  /** A later event changes only the fate of what waits, if it settles that. */
  lemma {:induction false} FateGrows(timeout: nat, events: seq<Event>, e: Event, k: nat)
    requires k < |events| && events[k].Notify?
    ensures FateOf(timeout, events + [e], k)
         == (var fate := FateOf(timeout, events, k);
             if fate != Waits || !Settles(timeout, events[k], e) then fate else if e.Tick? then Emitted else Superseded)
  {
    hide Settles, FirstSettled;
    SettledGrows(timeout, events, e, k, k + 1);
    assert (events + [e])[|events|] == e && (events + [e])[k] == events[k];
  }

  /** The k-th event's swap waits and the next event settles it. */
  predicate Leaves(timeout: nat, events: seq<Event>, e: Event, x: Swap, k: nat)
    requires k < |events|
  {
    events[k].Notify? && events[k].swap == x && FateOf(timeout, events, k) == Waits && Settles(timeout, events[k], e)
  }

  function Left(timeout: nat, events: seq<Event>, e: Event, x: Swap, n: nat): nat
    requires n <= |events|
  {
    if n == 0 then 0 else Left(timeout, events, e, x, n - 1) + if Leaves(timeout, events, e, x, n - 1) then 1 else 0
  }

  lemma {:induction false} FatedGrows(timeout: nat, events: seq<Event>, e: Event, x: Swap, n: nat)
    requires n <= |events|
    ensures var left := Left(timeout, events, e, x, n);
            && Fated(timeout, events + [e], x, Waits, n) + left == Fated(timeout, events, x, Waits, n)
            && Fated(timeout, events + [e], x, Emitted, n)
               == Fated(timeout, events, x, Emitted, n) + (if e.Tick? then left else 0)
            && Fated(timeout, events + [e], x, Superseded, n)
               == Fated(timeout, events, x, Superseded, n) + (if e.Tick? then 0 else left)
  {
    hide FateOf, Settles;
    if n > 0 {
      FatedGrows(timeout, events, e, x, n - 1);
      assert (events + [e])[n - 1] == events[n - 1];
      if events[n - 1].Notify? {
        FateGrows(timeout, events, e, n - 1);
      }
    }
  }

  lemma {:induction false} LeftNone(timeout: nat, events: seq<Event>, e: Event, x: Swap, n: nat)
    requires n <= |events| && forall k :: 0 <= k < n ==> !Leaves(timeout, events, e, x, k)
    ensures Left(timeout, events, e, x, n) == 0
  {
    hide Leaves;
    if n > 0 {
      LeftNone(timeout, events, e, x, n - 1);
    }
  }

  lemma {:induction false} LeftOne(timeout: nat, events: seq<Event>, e: Event, x: Swap, n: nat, at: nat)
    requires at < n <= |events| && Leaves(timeout, events, e, x, at)
    requires forall k :: 0 <= k < n && k != at ==> !Leaves(timeout, events, e, x, k)
    ensures Left(timeout, events, e, x, n) == 1
  {
    hide Leaves;
    if at == n - 1 {
      LeftNone(timeout, events, e, x, n - 1);
    } else {
      LeftOne(timeout, events, e, x, n - 1, at);
    }
  }

  /** Entries are kept under their own signature. */
  ghost predicate Keyed(m: Buffer) {
    forall k :: k in m ==> m[k].swap.txSig == k
  }

  lemma {:induction false} NotHeld(m: Buffer, x: Swap)
    requires forall k :: k in m ==> m[k].swap != x
    ensures Held(m)[x] == 0
    decreases |m|
  {
    if m != map[] {
      hide Held;
      var k := HeldChoice(m);
      NotHeld(m - {k}, x);
    } else {
      assert Held(m) == multiset{};
    }
  }

  lemma {:induction false} HeldCounts(m: Buffer, x: Swap)
    requires Keyed(m)
    ensures Held(m)[x] == HeldFor(m, x.txSig)[x]
  {
    hide Held;
    HeldDrops(m, x.txSig);
    NotHeld(m - {x.txSig}, x);
  }

  /** What waits in the buffer under this signature is the one event that waits. */
  lemma {:induction false} WaitingEvent(timeout: nat, events: seq<Event>, states: seq<State>, k: nat)
    requires IsRun(timeout, events, states) && k < |events| && events[k].Notify?
    requires FateOf(timeout, events, k) == Waits
    ensures Lookup(states[|events|].buffer, events[k].swap.txSig) == Some(Entry(events[k].swap, events[k].now))
    ensures forall m :: k < m < |events| ==> !Settles(timeout, events[k], events[m])
  {
    hide IsRun, Settles;
    WaitsUntil(timeout, events, states, k, |events|);
  }

  lemma {:induction false} BufferIsKeyed(timeout: nat, events: seq<Event>, states: seq<State>)
    requires IsRun(timeout, events, states)
    ensures Keyed(states[|events|].buffer)
  {
    var m := states[|events|].buffer;
    hide IsRun, Settles;
    forall sig | sig in m ensures m[sig].swap.txSig == sig {
      BufferIsPending(timeout, events, states, sig);
      var k := PendingIsLast(timeout, events, sig);
    }
  }

  /** What the next event takes out of the buffer: the overdue versions, or the
      version under its own signature. */
  ghost function Taken(timeout: nat, m: Buffer, e: Event): multiset<Swap> {
    match e
    case Tick(now) => Held(Overdue(m, timeout, now))
    case Notify(_, swap, _) => HeldFor(m, swap.txSig)
  }

  lemma {:induction false} TakenCounts(timeout: nat, m: Buffer, e: Event, x: Swap)
    requires Keyed(m)
    ensures Taken(timeout, m, e)[x]
         == (var entry := Lookup(m, x.txSig);
             if entry.Some? && entry.value.swap == x && Settles(timeout, Notify(Insert, x, entry.value.insertedAt), e)
             then 1 else 0)
  {
    match e
    case Tick(now) =>
      var late := Overdue(m, timeout, now);
      assert Keyed(late);
      hide Held;
      HeldCounts(late, x);
    case Notify(_, swap, _) =>
  }

  /** The events whose swap leaves are as many as what is taken. */
  lemma {:induction false} LeftIsTaken(timeout: nat, events: seq<Event>, states: seq<State>, e: Event, x: Swap)
    requires IsRun(timeout, events, states)
    ensures Left(timeout, events, e, x, |events|) == Taken(timeout, states[|events|].buffer, e)[x]
  {
    var m := states[|events|].buffer;
    hide IsRun, Settles, Taken, FateOf;
    BufferIsKeyed(timeout, events, states);
    TakenCounts(timeout, m, e, x);
    BufferIsPending(timeout, events, states, x.txSig);
    forall k | 0 <= k < |events| && Leaves(timeout, events, e, x, k)
      ensures Lookup(m, x.txSig) == Some(Entry(x, events[k].now))
      ensures forall i :: k < i < |events| ==> !Settles(timeout, events[k], events[i])
    {
      WaitingEvent(timeout, events, states, k);
    }
    var entry := Lookup(m, x.txSig);
    if entry.Some? && entry.value.swap == x && Settles(timeout, Notify(Insert, x, entry.value.insertedAt), e) {
      var k := PendingIsLast(timeout, events, x.txSig);
      UnsettledWaits(timeout, events, k);
      forall i | 0 <= i < |events| && i != k ensures !Leaves(timeout, events, e, x, i) {
        if Leaves(timeout, events, e, x, i) {
          SameSignatureSettles(timeout, events[i], events[k]);
        }
      }
      LeftOne(timeout, events, e, x, |events|, k);
    } else {
      forall i | 0 <= i < |events| ensures !Leaves(timeout, events, e, x, i) {
        if Leaves(timeout, events, e, x, i) {
          InsertSettles(timeout, events, i, e);
        }
      }
      LeftNone(timeout, events, e, x, |events|);
    }
  }

  lemma {:induction false} UnsettledWaits(timeout: nat, events: seq<Event>, k: nat)
    requires k < |events| && events[k].Notify? && events[k].op == Insert
    requires forall m :: k < m < |events| ==> !Settles(timeout, events[k], events[m])
    ensures FateOf(timeout, events, k) == Waits
  {
    hide Settles;
  }

  lemma {:induction false} SameSignatureSettles(timeout: nat, a: Event, b: Event)
    requires a.Notify? && b.Notify? && a.swap.txSig == b.swap.txSig
    ensures Settles(timeout, a, b)
  {
  }

  /** What settles a waiting event settles an insert of its swap at its time. */
  lemma {:induction false} InsertSettles(timeout: nat, events: seq<Event>, k: nat, e: Event)
    requires k < |events| && events[k].Notify?
    ensures Settles(timeout, events[k], e) <==> Settles(timeout, Notify(Insert, events[k].swap, events[k].now), e)
  {
  }

  /** One step adds to each part what the fates say. */
  lemma {:induction false} StepCounts(timeout: nat, s: State, e: Event, t: State, x: Swap)
    requires Next(timeout, s, e, t)
    ensures multiset(t.emitted)[x]
         == multiset(s.emitted)[x]
            + (if e.Tick? then Taken(timeout, s.buffer, e)[x] else if e.op != Insert && e.swap == x then 1 else 0)
    ensures t.superseded[x] == s.superseded[x] + (if e.Tick? then 0 else Taken(timeout, s.buffer, e)[x])
    ensures Held(t.buffer)[x] + Taken(timeout, s.buffer, e)[x]
         == Held(s.buffer)[x] + (if e.Notify? && e.op == Insert && e.swap == x then 1 else 0)
  {
    hide Held, HeldFor, Overdue, Waiting;
    match e
    case Notify(op, swap, now) =>
      if op == Insert {
        HeldInserts(s.buffer, swap.txSig, Entry(swap, now));
        assert (Held(t.buffer) + HeldFor(s.buffer, swap.txSig))[x] == (Held(s.buffer) + multiset{swap})[x];
      } else {
        HeldDrops(s.buffer, swap.txSig);
        assert multiset(t.emitted) == multiset(s.emitted) + multiset{swap};
      }
    case Tick(now) =>
      HeldSplits(s.buffer, timeout, now);
      var tail := t.emitted[|s.emitted|..];
      assert t.emitted == s.emitted + tail;
      assert multiset(t.emitted) == multiset(s.emitted) + multiset(tail);
  }

  lemma {:induction false} LastFate(timeout: nat, events: seq<Event>)
    requires events != [] && events[|events| - 1].Notify?
    ensures FateOf(timeout, events, |events| - 1) == if events[|events| - 1].op == Insert then Waits else Emitted
  {
  }

  /** One more event adds its own swap to one count, and moves what leaves. */
  lemma {:induction false} FatedNext(timeout: nat, events: seq<Event>, e: Event, x: Swap)
    ensures var n, all, left := |events|, events + [e], Left(timeout, events, e, x, |events|);
            && Fated(timeout, all, x, Waits, n + 1) + left
               == Fated(timeout, events, x, Waits, n) + (if e.Notify? && e.op == Insert && e.swap == x then 1 else 0)
            && Fated(timeout, all, x, Emitted, n + 1)
               == Fated(timeout, events, x, Emitted, n)
                  + (if e.Tick? then left else if e.op != Insert && e.swap == x then 1 else 0)
            && Fated(timeout, all, x, Superseded, n + 1)
               == Fated(timeout, events, x, Superseded, n) + (if e.Tick? then 0 else left)
  {
    hide FateOf, Left;
    FatedGrows(timeout, events, e, x, |events|);
    assert (events + [e])[|events|] == e;
    if e.Notify? {
      LastFate(timeout, events + [e]);
    }
  }

  /** In every run, what was emitted, what waits and what was superseded are, for
      each swap and with multiplicity, the notifications with that fate. */
  lemma {:induction false} FatesDecide(timeout: nat, events: seq<Event>, states: seq<State>, x: Swap)
    requires IsRun(timeout, events, states)
    ensures multiset(states[|events|].emitted)[x] == Fated(timeout, events, x, Emitted, |events|)
    ensures Held(states[|events|].buffer)[x] == Fated(timeout, events, x, Waits, |events|)
    ensures states[|events|].superseded[x] == Fated(timeout, events, x, Superseded, |events|)
    decreases |events|
  {
    if events == [] {
      assert Held(map[]) == multiset{};
    } else {
      var n := |events| - 1;
      var earlier, e := events[..n], events[n];
      assert events == earlier + [e];
      assert Next(timeout, states[n], e, states[n + 1]);
      PrefixRun(timeout, events, states);
      hide *;
      FatesDecide(timeout, earlier, states[..n + 1], x);
      StepCounts(timeout, states[n], e, states[n + 1], x);
      LeftIsTaken(timeout, earlier, states[..n + 1], e, x);
      FatedNext(timeout, earlier, e, x);
    }
  }

  lemma {:induction false} FatedAtLeastOnce(timeout: nat, events: seq<Event>, k: nat, n: nat)
    requires k < n <= |events| && events[k].Notify?
    ensures Fated(timeout, events, events[k].swap, FateOf(timeout, events, k), n) >= 1
  {
    hide FateOf;
    if k < n - 1 {
      FatedAtLeastOnce(timeout, events, k, n - 1);
    }
  }

  /** An insert of a swap received once is emitted exactly when a tick finds it
      overdue before its signature is notified again, and superseded exactly when
      the notification comes first; with neither it still waits. */
  lemma {:induction false} NeverEmittedExactly(timeout: nat, events: seq<Event>, states: seq<State>, k: nat)
    requires IsRun(timeout, events, states) && k < |events| && events[k].Notify? && events[k].op == Insert
    ensures var first, swap, end := FirstSettled(timeout, events, k, k + 1), events[k].swap, states[|events|];
            && (Received(events)[swap] == 1 ==>
                  && (swap in multiset(end.emitted) <==> first.Some? && events[first.value].Tick?)
                  && (swap in end.superseded <==> first.Some? && events[first.value].Notify?))
            && (first.None? ==> Lookup(end.buffer, swap.txSig) == Some(Entry(swap, events[k].now)))
            && (first.Some? && events[first.value].Tick? ==>
                  swap in states[first.value + 1].emitted[|states[first.value].emitted|..])
            && (first.Some? && events[first.value].Notify? ==>
                  states[first.value + 1].superseded == states[first.value].superseded + multiset{swap})
  {
    hide IsRun, Settles, Received, Fated, Held, FirstSettled;
    var first := FirstSettled(timeout, events, k, k + 1);
    FatesDecide(timeout, events, states, events[k].swap);
    FatedAtLeastOnce(timeout, events, k, |events|);
    SwapsAreConserved(timeout, events, states);
    if first.None? {
      WaitsUntil(timeout, events, states, k, |events|);
    } else if events[first.value].Tick? {
      TickFlushes(timeout, events, states, k, first.value);
    } else {
      NotificationSupersedes(timeout, events, states, k, first.value);
    }
  }

  /** Two swaps of one transaction, both inserted: the first is superseded at once
      and only the second is emitted. */
  lemma {:induction false} SecondInsertHidesFirst(timeout: nat, a: Swap, b: Swap, states: seq<State>)
    requires a.txSig == b.txSig
    requires IsRun(timeout, [Notify(Insert, a, 0), Notify(Insert, b, 0), Tick(timeout)], states)
    ensures states[3].emitted == [b] && states[3].superseded == multiset{a} && states[3].buffer == map[]
  {
    var events := [Notify(Insert, a, 0), Notify(Insert, b, 0), Tick(timeout)];
    assert Next(timeout, states[0], events[0], states[1]);
    assert Next(timeout, states[1], events[1], states[2]);
    assert Next(timeout, states[2], events[2], states[3]);
    hide IsRun, Held;
    assert states[2].buffer == map[a.txSig := Entry(b, 0)];
    assert states[1].superseded == multiset{} && states[2].superseded == multiset{a};
    TickEmitsOne(timeout, states[2], states[3], b);
    assert states[3].emitted[|states[2].emitted|..] == states[3].emitted;
  }

  /** A tick that finds one overdue version emits it. */
  lemma {:induction false} TickEmitsOne(timeout: nat, s: State, t: State, b: Swap)
    requires s.buffer == map[b.txSig := Entry(b, 0)] && Next(timeout, s, Tick(timeout), t)
    ensures t.emitted[|s.emitted|..] == [b] && t.buffer == map[] && t.superseded == s.superseded
  {
    var m := map[b.txSig := Entry(b, 0)];
    assert Overdue(m, timeout, timeout) == m && Waiting(m, timeout, timeout) == map[];
    HeldAlone(m, b.txSig);
    SingleElement(t.emitted[|s.emitted|..], b);
  }

  lemma {:induction false} HeldAlone(m: Buffer, k: string)
    requires k in m && m - {k} == map[]
    ensures Held(m) == multiset{m[k].swap}
  {
    HeldTakes(m, k);
  }

  lemma {:induction false} SingleElement(tail: seq<Swap>, b: Swap)
    requires multiset(tail) == multiset{b}
    ensures tail == [b]
  {
    assert |tail| == |multiset(tail)| == 1;
    assert tail[0] in multiset(tail);
  }
}
