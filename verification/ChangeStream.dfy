/** The native change stream (grpc/src/dusk_stream.rs): one database listener
    with generations, a watch channel that keeps only its latest notice, and any
    number of subscribers, interleaved at every channel access and await. */
module ChangeStream {
  import opened Options

  const BATCH_MS := 250

  datatype Notice = Notice(ready: bool, generation: nat, slot: nat)

  // ----- the listener and its channel -----

  datatype Phase = Sleeping | Connecting | Up

  /** `log` is every value sent on the channel; its last entry is what a
      receiver borrows, and an entry's index is its version. */
  datatype Listener = Listener(phase: Phase, generation: nat, slot: nat, log: seq<Notice>)

  const QUIET := Listener(Sleeping, 0, 0, [Notice(false, 0, 0)])

  datatype ListenerEvent = Begin | Listening | Notified(next: nat) | Lost

  predicate ListenerEnabled(l: Listener, e: ListenerEvent) {
    match e
    case Begin => l.phase == Sleeping
    case Listening => l.phase == Connecting
    case Notified(_) => l.phase == Up
    case Lost => l.phase != Sleeping
  }

  function Max(a: nat, b: nat): nat { if a > b then a else b }

  /** `listen`: each event ends in one `send_replace`. */
  function Listen(l: Listener, e: ListenerEvent): Listener
    requires ListenerEnabled(l, e)
  {
    match e
    case Begin =>
      Listener(Connecting, l.generation + 1, l.slot, l.log + [Notice(false, l.generation + 1, 0)])
    case Listening => Listener(Up, l.generation, 0, l.log + [Notice(true, l.generation, 0)])
    case Notified(next) =>
      var slot := Max(l.slot, next);
      Listener(Up, l.generation, slot, l.log + [Notice(true, l.generation, slot)])
    case Lost => Listener(Sleeping, l.generation, l.slot, l.log + [Notice(false, l.generation, 0)])
  }

  predicate ReadyIn(n: Notice, generation: nat) {
    n.ready && n.generation == generation
  }

  /** A generation is ready over one stretch of the log, with slots rising. */
  ghost predicate OneStretch(log: seq<Notice>) {
    forall i, k, j :: 0 <= i <= k <= j < |log| && log[i].ready && ReadyIn(log[j], log[i].generation) ==>
      ReadyIn(log[k], log[i].generation) && log[i].slot <= log[k].slot
  }

  ghost predicate ListenerInv(l: Listener) {
    && |l.log| > 0
    && OneStretch(l.log)
    && (forall i :: 0 <= i < |l.log| ==> l.log[i].generation <= l.generation)
    && (l.phase == Connecting ==> forall i :: 0 <= i < |l.log| ==> !ReadyIn(l.log[i], l.generation))
    && (l.phase == Up ==> l.log[|l.log| - 1] == Notice(true, l.generation, l.slot))
  }

  /** A notice of the generation in force, or of a new one, keeps one stretch. */
  lemma {:induction false} StretchGrows(log: seq<Notice>, n: Notice)
    requires OneStretch(log) && log != []
    requires n.ready ==>
               || (ReadyIn(log[|log| - 1], n.generation) && log[|log| - 1].slot <= n.slot)
               || forall i :: 0 <= i < |log| ==> !ReadyIn(log[i], n.generation)
    ensures OneStretch(log + [n])
  {
    var next, last := log + [n], |log|;
    forall i, k, j | 0 <= i <= k <= j < |next| && next[i].ready && ReadyIn(next[j], next[i].generation)
      ensures ReadyIn(next[k], next[i].generation) && next[i].slot <= next[k].slot
    {
      if j == last && i < last {
        assert ReadyIn(log[i], n.generation);
        assert log[i].slot <= log[last - 1].slot;
        assert k < last ==> ReadyIn(log[k], log[i].generation);
      }
    }
  }

  lemma {:induction false} ListenKeeps(l: Listener, e: ListenerEvent)
    requires ListenerInv(l) && ListenerEnabled(l, e)
    ensures ListenerInv(Listen(l, e))
  {
    hide OneStretch;
    StretchGrows(l.log, Listen(l, e).log[|l.log|]);
  }

  /** Whatever may go wrong, may: a connection is lost while it is made or while it
      is up, at any moment, and only one that is up notifies. */
  lemma {:induction false} ListenerHearsExactly(l: Listener, next: nat)
    ensures ListenerEnabled(l, Begin) <==> l.phase.Sleeping?
    ensures ListenerEnabled(l, Listening) <==> l.phase.Connecting?
    ensures ListenerEnabled(l, Notified(next)) <==> l.phase.Up?
    ensures ListenerEnabled(l, Lost) <==> l.phase.Connecting? || l.phase.Up?
  {
  }

  ghost predicate IsListening(l: Listener, events: seq<ListenerEvent>)
    decreases |events|
  {
    events == [] || (ListenerEnabled(l, events[0]) && IsListening(Listen(l, events[0]), events[1..]))
  }

  ghost function Listened(l: Listener, events: seq<ListenerEvent>): Listener
    requires IsListening(l, events)
    decreases |events|
  {
    if events == [] then l else Listened(Listen(l, events[0]), events[1..])
  }

  /** The slot is the highest notified since `from`, or where it stood then. */
  ghost predicate IsHighest(events: seq<ListenerEvent>, from: nat, start: nat, slot: nat) {
    && start <= slot
    && (forall k :: from <= k < |events| && events[k].Notified? ==> events[k].next <= slot)
    && (slot == start || exists k :: from <= k < |events| && events[k].Notified? && events[k].next == slot)
  }

  /** While it is up, a listener's notice is ready, of its generation, at the highest
      slot notified since. */
  lemma {:induction false} NotifiedSlots(l: Listener, events: seq<ListenerEvent>)
    requires ListenerInv(l) && l.phase == Up && IsListening(l, events)
    requires forall k :: 0 <= k < |events| ==> events[k].Notified?
    ensures var m := Listened(l, events);
            && m.phase == Up && |m.log| == |l.log| + |events|
            && m.log[|m.log| - 1] == Notice(true, l.generation, m.slot) && IsHighest(events, 0, l.slot, m.slot)
    decreases |events|
  {
    if events != [] {
      var next, rest := Listen(l, events[0]), events[1..];
      ListenKeeps(l, events[0]);
      NotifiedSlots(next, rest);
      var m := Listened(l, events);
      assert forall k :: 0 < k < |events| ==> events[k] == rest[k - 1];
      if m.slot != next.slot {
        var k :| 0 <= k < |rest| && rest[k].Notified? && rest[k].next == m.slot;
        assert events[k + 1].next == m.slot;
      }
    }
  }

  /** What the channel says: a new generation on every start, not ready until the
      connection listens nor after it is lost, and then at slot 0. */
  lemma {:induction false} ListenerReports(l: Listener, e: ListenerEvent)
    requires ListenerInv(l) && ListenerEnabled(l, e)
    ensures var m := Listen(l, e);
            && |m.log| == |l.log| + 1 && m.log[..|l.log|] == l.log
            && var n := m.log[|l.log|];
               && (n.ready <==> e.Listening? || e.Notified?)
               && n.generation == (if e.Begin? then l.generation + 1 else l.generation) == m.generation
               && (!e.Notified? ==> n.slot == 0)
               && (e.Listening? ==> m.slot == 0)
               && m.phase == (if e.Begin? then Connecting else if e.Lost? then Sleeping else Up)
  {
  }

  // ----- the shared observation -----

  datatype Deployment = Deployment(identity: string, sourceSlot: nat)

  datatype Cached = Cached(at: int, result: Option<Deployment>)

  /** Failures are shared too; a success only when it covers the floor. */
  predicate Serves(c: Option<Cached>, slot: nat, now: int) {
    && c.Some?
    && now - c.value.at < BATCH_MS
    && (c.value.result.Some? ==> c.value.result.value.sourceSlot >= slot)
  }

  class Observation {
    var shared: Option<Cached>
    ghost var observed: nat

    constructor ()
      ensures shared == None && observed == 0
    {
      shared, observed := None, 0;
    }

    /** `envelope`, under the mutex: `read` is what `read_envelope` would answer
        (validated against the floor), counted in `observed`, and `done` the clock
        when it has. */
    method Envelope(slot: nat, now: int, read: Option<Deployment>, done: int) returns (result: Option<Deployment>)
      requires read.Some? ==> read.value.sourceSlot >= slot
      modifies this
      ensures result.Some? ==> result.value.sourceSlot >= slot
      ensures if Serves(old(shared), slot, now)
              then result == old(shared).value.result && shared == old(shared) && observed == old(observed)
              else result == read && shared == Some(Cached(done, read)) && observed == old(observed) + 1
    {
      if shared.Some? && now - shared.value.at < BATCH_MS {
        if shared.value.result.None? || shared.value.result.value.sourceSlot >= slot {
          return shared.value.result;
        }
      }
      result, observed := read, observed + 1;
      shared := Some(Cached(done, result));
    }
  }

  // ----- one subscriber -----

  datatype Kind = Resync | Change | Heartbeat

  /** `read` is the version the frame's iteration took as seen, `at` the one
      borrowed by the check just before the frame. */
  datatype Frame = Frame(sequence: nat, kind: Kind, sourceSlot: nat, deployment: Deployment, read: nat, at: nat)

  /** Where the stream stands: before its first poll, before line 292, between
      lines 292 and 293, awaiting its observation, about to check and yield, in
      the select, asleep for a batch, or over. */
  datatype Pc = Opening | Checking | Reading | Observing | Yielding(deployment: Deployment) | Waiting | Batching | Over

  /** `absorbed` is the version the opening resync read. */
  datatype Sub = Sub(
    pc: Pc,
    generation: nat,
    seen: nat,
    kind: Kind,
    slot: nat,
    sequence: nat,
    identity: string,
    frames: seq<Frame>,
    absorbed: Option<nat>)

  const SUBSCRIBED := Sub(Opening, 0, 0, Resync, 0, 0, "", [], None)

  datatype SubEvent = Open | Check | Read | Observe(result: Option<Deployment>) | Yield | Changed | Tick | Slept | Drop

  predicate SubEnabled(log: seq<Notice>, u: Sub, e: SubEvent) {
    |log| > 0 && match e
                 case Open => u.pc == Opening
                 case Check => u.pc == Checking
                 case Read => u.pc == Reading
                 case Observe(result) => u.pc == Observing && (result.Some? ==> result.value.sourceSlot >= u.slot)
                 case Yield => u.pc.Yielding?
                 case Changed => u.pc == Waiting && u.seen < |log| - 1
                 case Tick => u.pc == Waiting
                 case Slept => u.pc == Batching
                 case Drop => true
  }

  function SubStep(log: seq<Notice>, u: Sub, e: SubEvent): Sub
    requires SubEnabled(log, u, e)
  {
    var latest, version := log[|log| - 1], |log| - 1;
    match e
    case Open => u.(pc := Checking, generation := latest.generation)
    case Check => u.(pc := Reading, kind := if u.kind == Heartbeat && u.seen < version then Change else u.kind)
    case Read =>
      var v := u.(seen := version);
      if !ReadyIn(latest, u.generation) then v.(pc := Over)
      else v.(pc := Observing, slot := if u.kind == Change then latest.slot else 0,
              absorbed := if u.absorbed.None? then Some(version) else u.absorbed)
    case Observe(result) => if result.None? then u.(pc := Over) else u.(pc := Yielding(result.value))
    case Yield =>
      var identity := if u.sequence == 0 then u.pc.deployment.identity else u.identity;
      if !ReadyIn(latest, u.generation) || u.pc.deployment.identity != identity then u.(pc := Over)
      else u.(pc := Waiting, identity := identity, sequence := u.sequence + 1,
              frames := u.frames + [Frame(u.sequence + 1, u.kind, u.slot, u.pc.deployment, u.seen, version)])
    case Changed => u.(pc := Batching, seen := version, kind := Change)
    case Tick => u.(pc := Checking, kind := Heartbeat)
    case Slept => u.(pc := Checking)
    case Drop => u.(pc := Over)
  }

  /** A client may go at any moment; a change is heard exactly while something is
      unseen; everything else has its own place in the loop. */
  lemma {:induction false} TakesExactly(log: seq<Notice>, u: Sub, d: Deployment)
    requires |log| > 0 && u.seen < |log|
    ensures SubEnabled(log, u, Drop)
    ensures SubEnabled(log, u, Changed) <==> u.pc.Waiting? && u.seen != |log| - 1
    ensures SubEnabled(log, u, Tick) <==> u.pc.Waiting?
    ensures SubEnabled(log, u, Observe(None)) <==> u.pc.Observing?
    ensures SubEnabled(log, u, Observe(Some(d))) <==> u.pc.Observing? && u.slot <= d.sourceSlot
    ensures (SubEnabled(log, u, Open) <==> u.pc.Opening?) && (SubEnabled(log, u, Check) <==> u.pc.Checking?)
    ensures (SubEnabled(log, u, Read) <==> u.pc.Reading?) && (SubEnabled(log, u, Yield) <==> u.pc.Yielding?)
    ensures SubEnabled(log, u, Slept) <==> u.pc.Batching?
  {
  }

  // ----- continuity -----

  /** Sequence 1..n of one identity, opened by a resync, each envelope at or
      above its floor, and every check inside the stream's generation. */
  ghost predicate GoodFrames(log: seq<Notice>, u: Sub) {
    && (u.frames != [] ==> u.absorbed.Some?)
    && (forall i :: 0 <= i < |u.frames| ==> GoodFrame(log, u, i))
    && (forall i :: 0 < i < |u.frames| ==> u.frames[i - 1].at <= u.frames[i].at)
  }

  ghost predicate GoodFrame(log: seq<Notice>, u: Sub, i: nat)
    requires i < |u.frames| && u.absorbed.Some?
  {
    var f := u.frames[i];
    && f.sequence == i + 1
    && f.deployment.identity == u.identity
    && f.sourceSlot <= f.deployment.sourceSlot
    && (f.kind != Change ==> f.sourceSlot == 0)
    && (f.kind == Resync <==> i == 0)
    && u.absorbed.value <= f.read <= f.at < |log|
    && f.read <= u.seen
    && (f.kind == Change ==> f.sourceSlot == log[f.read].slot)
    && ReadyIn(log[f.at], u.generation)
  }

  ghost predicate SubInv(log: seq<Notice>, u: Sub) {
    && GoodFrames(log, u)
    && u.sequence == |u.frames|
    && u.seen < |log|
    && (u.absorbed.Some? ==> u.absorbed.value <= u.seen)
    && (u.absorbed.Some? ==> ReadyIn(log[u.absorbed.value], u.generation))
    && (u.pc == Opening ==> u.absorbed.None?)
    && (u.absorbed.None? ==> u.kind == Resync && u.frames == [] && !(u.pc.Observing? || u.pc.Yielding? || u.pc.Waiting? || u.pc.Batching?))
    && (u.absorbed.Some? && (u.pc.Checking? || u.pc.Reading? || u.pc.Batching? || u.pc.Waiting?) ==>
          u.frames != [])
    && (u.absorbed.Some? && (u.pc.Checking? || u.pc.Reading? || u.pc.Batching?) ==> u.kind != Resync)
    && (u.pc.Observing? || u.pc.Yielding? ==> (u.kind == Resync <==> u.frames == []))
    && (u.pc.Observing? || u.pc.Yielding? ==> (u.kind != Change ==> u.slot == 0))
    && (u.kind == Change && (u.pc.Observing? || u.pc.Yielding?) ==> u.slot == log[u.seen].slot)
    && (u.pc.Yielding? ==> u.slot <= u.pc.deployment.sourceSlot)
  }

  lemma {:induction false} FramesStayGood(log: seq<Notice>, u: Sub, e: SubEvent)
    requires SubInv(log, u) && SubEnabled(log, u, e)
    ensures GoodFrames(log, SubStep(log, u, e))
  {
    var v := SubStep(log, u, e);
    forall i | 0 <= i < |v.frames| ensures v.absorbed.Some? && GoodFrame(log, v, i) {
      assert i < |u.frames| ==> GoodFrame(log, u, i);
    }
    assert u.frames != [] ==> GoodFrame(log, u, |u.frames| - 1);
  }

  lemma {:induction false} SubStepKeeps(log: seq<Notice>, u: Sub, e: SubEvent)
    requires SubInv(log, u) && SubEnabled(log, u, e)
    ensures SubInv(log, SubStep(log, u, e))
  {
    FramesStayGood(log, u, e);
    hide GoodFrames;
  }

  lemma {:induction false} LogGrows(log: seq<Notice>, n: Notice, u: Sub)
    requires SubInv(log, u)
    ensures SubInv(log + [n], u)
  {
    forall i | 0 <= i < |u.frames| ensures GoodFrame(log + [n], u, i) {
      assert GoodFrame(log, u, i);
    }
  }

  /** Between the opening read and any frame, the listener never left the
      stream's generation: its frames lie in one contiguous ready interval. */
  lemma {:induction false} FramesLieInOneInterval(log: seq<Notice>, u: Sub, i: nat, k: nat)
    requires OneStretch(log) && SubInv(log, u) && i < |u.frames|
    requires u.absorbed.value <= k <= u.frames[i].at && k < |log|
    ensures ReadyIn(log[k], u.generation)
  {
    assert GoodFrame(log, u, i);
    assert ReadyIn(log[u.absorbed.value], u.generation);
  }

  // ----- no lost change -----

  /** Told by a change frame whose iteration read the notice or a later one. */
  predicate Told(frames: seq<Frame>, n: nat) {
    exists i :: 0 <= i < |frames| && frames[i].kind == Change && n <= frames[i].read
  }

  /** A seen notice is owed by the current iteration, a change frame in the
      making, or a change frame told it. */
  predicate Accounted(u: Sub, n: nat) {
    || (u.kind == Change && !u.pc.Opening? && !u.pc.Waiting? && !u.pc.Over?)
    || Told(u.frames, n)
  }

  /** Every notice of the stream's generation is absorbed by the opening resync,
      unseen, held by the current iteration, or told by a change frame. A stream
      that is over has failed its client, who opens another and resyncs. */
  ghost predicate NothingLost(log: seq<Notice>, u: Sub) {
    u.pc != Over && u.absorbed.Some? ==>
      forall n :: u.absorbed.value < n <= u.seen && n < |log| && ReadyIn(log[n], u.generation) ==> Accounted(u, n)
  }

  /** A notice sent between lines 292 and 293 of a heartbeat iteration is read
      as seen while the frame goes out as a heartbeat at slot 0. */
  predicate Swallows(log: seq<Notice>, u: Sub, e: SubEvent)
    requires SubEnabled(log, u, e)
  {
    e == Read && u.kind == Heartbeat && u.seen < |log| - 1 && ReadyIn(log[|log| - 1], u.generation)
  }

  /** The frame that told a notice is at or above its slot. */
  lemma {:induction false} ToldAtItsSlot(log: seq<Notice>, u: Sub, n: nat)
    requires OneStretch(log) && SubInv(log, u) && u.absorbed.Some? && u.absorbed.value < n < |log|
    requires ReadyIn(log[n], u.generation) && Told(u.frames, n)
    ensures exists i :: 0 <= i < |u.frames| && u.frames[i].kind == Change && log[n].slot <= u.frames[i].sourceSlot
  {
    var i :| 0 <= i < |u.frames| && u.frames[i].kind == Change && n <= u.frames[i].read;
    assert GoodFrame(log, u, i);
    assert ReadyIn(log[u.absorbed.value], u.generation);
  }

  lemma {:induction false} ReadLosesExactly(log: seq<Notice>, u: Sub)
    requires SubInv(log, u) && NothingLost(log, u) && SubEnabled(log, u, Read)
    ensures NothingLost(log, SubStep(log, u, Read)) <==> !Swallows(log, u, Read)
  {
    var v, version := SubStep(log, u, Read), |log| - 1;
    if Swallows(log, u, Read) {
      forall i | 0 <= i < |u.frames| ensures u.frames[i].read < version {
        assert GoodFrame(log, u, i);
      }
      assert !Accounted(v, version);
    }
  }

  lemma {:induction false} ToldGrows(frames: seq<Frame>, f: Frame, n: nat)
    requires Told(frames, n) || (f.kind == Change && n <= f.read)
    ensures Told(frames + [f], n)
  {
    var all := frames + [f];
    if Told(frames, n) {
      var i :| 0 <= i < |frames| && frames[i].kind == Change && n <= frames[i].read;
      assert all[i] == frames[i];
    } else {
      assert all[|frames|] == f;
    }
  }

  lemma {:induction false} YieldTells(log: seq<Notice>, u: Sub)
    requires SubInv(log, u) && NothingLost(log, u) && SubEnabled(log, u, Yield)
    ensures NothingLost(log, SubStep(log, u, Yield))
  {
    var v := SubStep(log, u, Yield);
    if v.pc != Over {
      var f := v.frames[|u.frames|];
      forall n | u.absorbed.value < n <= u.seen && n < |log| && ReadyIn(log[n], u.generation)
        ensures Told(v.frames, n)
      {
        ToldGrows(u.frames, f, n);
      }
    }
  }

  /** The exact condition: a step loses a change if and only if it is a
      heartbeat's read of a notice that landed after its check. */
  lemma {:induction false} StepLosesExactly(log: seq<Notice>, u: Sub, e: SubEvent)
    requires SubInv(log, u) && NothingLost(log, u) && SubEnabled(log, u, e)
    ensures NothingLost(log, SubStep(log, u, e)) <==> !Swallows(log, u, e)
  {
    match e
    case Read => ReadLosesExactly(log, u);
    case Yield => YieldTells(log, u);
    case _ =>
  }

  /** A new notice is unseen, so the channel alone never loses one. */
  lemma {:induction false} SendLosesNothing(log: seq<Notice>, n: Notice, u: Sub)
    requires SubInv(log, u) && NothingLost(log, u)
    ensures NothingLost(log + [n], u)
  {
  }

  /** Taken as one atomic step, lines 292 and 293 never lose a change. */
  lemma {:induction false} AtomicCheckLosesNothing(log: seq<Notice>, u: Sub)
    requires OneStretch(log) && SubInv(log, u) && NothingLost(log, u) && SubEnabled(log, u, Check)
    ensures var v := SubStep(log, u, Check);
            SubEnabled(log, v, Read) && NothingLost(log, SubStep(log, v, Read))
  {
    SubStepKeeps(log, u, Check);
    StepLosesExactly(log, u, Check);
    ReadLosesExactly(log, SubStep(log, u, Check));
  }

  // ----- a stream goes on -----

  /** A stream ends exactly when it is dropped, its observation fails, it reads or
      yields outside its ready generation, or a later deployment has another
      identity than the first. */
  lemma {:induction false} EndsExactly(log: seq<Notice>, u: Sub, e: SubEvent)
    requires SubInv(log, u) && SubEnabled(log, u, e) && u.pc != Over
    ensures SubStep(log, u, e).pc == Over <==>
              || e == Drop
              || e == Observe(None)
              || ((e == Read || e == Yield) && !ReadyIn(log[|log| - 1], u.generation))
              || (e == Yield && u.frames != [] && u.pc.deployment.identity != u.frames[0].deployment.identity)
  {
    if u.frames != [] {
      assert GoodFrame(log, u, 0);
    }
  }

  /** One step and the channel's log at that moment. */
  datatype Moment = Moment(log: seq<Notice>, event: SubEvent)

  ghost predicate CanTake(u: Sub, steps: seq<Moment>)
    decreases |steps|
  {
    steps == [] || (SubEnabled(steps[0].log, u, steps[0].event)
                    && CanTake(SubStep(steps[0].log, u, steps[0].event), steps[1..]))
  }

  ghost function Taken(u: Sub, steps: seq<Moment>): Sub
    requires CanTake(u, steps)
    decreases |steps|
  {
    if steps == [] then u else Taken(SubStep(steps[0].log, u, steps[0].event), steps[1..])
  }

  lemma {:induction false} TakeStep(u: Sub, m: Moment, rest: seq<Moment>)
    requires SubEnabled(m.log, u, m.event) && CanTake(SubStep(m.log, u, m.event), rest)
    ensures CanTake(u, [m] + rest) && Taken(u, [m] + rest) == Taken(SubStep(m.log, u, m.event), rest)
  {
    assert ([m] + rest)[1..] == rest;
  }

  /** One turn of the loop: the check, the read, the observation and the yield, while
      the log may grow from `a` over `b` to `c`. */
  function Turn(a: seq<Notice>, b: seq<Notice>, c: seq<Notice>, d: Deployment): seq<Moment> {
    [Moment(a, Check)] + ([Moment(b, Read)] + ([Moment(b, Observe(Some(d)))] + ([Moment(c, Yield)] + [])))
  }

  ghost predicate HealthyTurn(u: Sub, a: seq<Notice>, b: seq<Notice>, c: seq<Notice>) {
    && |a| > 0 && a <= b <= c
    && ReadyIn(b[|b| - 1], u.generation) && ReadyIn(c[|c| - 1], u.generation)
  }

  /** In a healthy generation each turn adds one frame: a change at the latest slot
      read when something was unseen at the check, and otherwise what was due. */
  lemma {:induction false} TurnTells(u: Sub, a: seq<Notice>, b: seq<Notice>, c: seq<Notice>, d: Deployment)
    requires HealthyTurn(u, a, b, c) && SubInv(a, u) && u.pc == Checking
    requires u.frames != [] ==> d.identity == u.frames[0].deployment.identity
    requires b[|b| - 1].slot <= d.sourceSlot
    ensures var kind := if u.kind == Heartbeat && u.seen < |a| - 1 then Change else u.kind;
            var frame := Frame(|u.frames| + 1, kind, if kind == Change then b[|b| - 1].slot else 0, d, |b| - 1, |c| - 1);
            && CanTake(u, Turn(a, b, c, d))
            && var v := Taken(u, Turn(a, b, c, d));
               v.pc == Waiting && v.seen == |b| - 1 && v.generation == u.generation && v.frames == u.frames + [frame]
  {
    if u.frames != [] {
      assert GoodFrame(a, u, 0);
    }
    var checked := SubStep(a, u, Check);
    var read := SubStep(b, checked, Read);
    var observed := SubStep(b, read, Observe(Some(d)));
    var told := SubStep(c, observed, Yield);
    assert CanTake(told, []);
    TakeStep(observed, Moment(c, Yield), []);
    TakeStep(read, Moment(b, Observe(Some(d))), [Moment(c, Yield)] + []);
    TakeStep(checked, Moment(b, Read), [Moment(b, Observe(Some(d)))] + ([Moment(c, Yield)] + []));
    TakeStep(u, Moment(a, Check), [Moment(b, Read)] + ([Moment(b, Observe(Some(d)))] + ([Moment(c, Yield)] + [])));
  }

  /** A waiting stream that has something unseen sleeps one batch and tells it, and
      with it everything it has seen, at the latest slot. */
  lemma {:induction false} ChangeIsDelivered(log: seq<Notice>, u: Sub, a: seq<Notice>, b: seq<Notice>, c: seq<Notice>,
                                             d: Deployment)
    requires SubInv(log, u) && u.pc == Waiting && u.seen < |log| - 1
    requires log <= a && SubInv(a, u) && HealthyTurn(u, a, b, c)
    requires d.identity == u.frames[0].deployment.identity && b[|b| - 1].slot <= d.sourceSlot
    ensures var steps := [Moment(log, Changed)] + ([Moment(a, Slept)] + Turn(a, b, c, d));
            && CanTake(u, steps)
            && var v := Taken(u, steps);
               && v.pc == Waiting
               && v.frames == u.frames + [Frame(|u.frames| + 1, Change, b[|b| - 1].slot, d, |b| - 1, |c| - 1)]
               && forall n: nat :: n < |b| ==> Told(v.frames, n)
  {
    var changed := SubStep(log, u, Changed);
    var slept := SubStep(a, changed, Slept);
    GrownKeeps(log, a, changed, u);
    SubStepKeeps(a, changed, Slept);
    TurnTells(slept, a, b, c, d);
    TakeStep(changed, Moment(a, Slept), Turn(a, b, c, d));
    TakeStep(u, Moment(log, Changed), [Moment(a, Slept)] + Turn(a, b, c, d));
    var v := Taken(slept, Turn(a, b, c, d));
    assert v.frames[|u.frames|].read == |b| - 1;
  }

  lemma {:induction false} GrownKeeps(log: seq<Notice>, a: seq<Notice>, changed: Sub, u: Sub)
    requires SubInv(log, u) && SubInv(a, u) && log <= a && u.pc == Waiting && u.seen < |log| - 1
    requires changed == SubStep(log, u, Changed)
    ensures SubInv(a, changed)
  {
    forall i | 0 <= i < |changed.frames| ensures GoodFrame(a, changed, i) {
      assert GoodFrame(a, u, i);
    }
  }

  /** A tick of a stream that has seen everything yields a heartbeat at slot 0; one
      that has not yields the change. */
  lemma {:induction false} TickIsDelivered(u: Sub, a: seq<Notice>, b: seq<Notice>, c: seq<Notice>, d: Deployment)
    requires SubInv(a, u) && u.pc == Waiting && HealthyTurn(u, a, b, c)
    requires d.identity == u.frames[0].deployment.identity && b[|b| - 1].slot <= d.sourceSlot
    ensures var steps, due := [Moment(a, Tick)] + Turn(a, b, c, d), u.seen < |a| - 1;
            && CanTake(u, steps)
            && var v := Taken(u, steps);
               && v.pc == Waiting
               && v.frames == u.frames + [Frame(|u.frames| + 1, if due then Change else Heartbeat,
                                                if due then b[|b| - 1].slot else 0, d, |b| - 1, |c| - 1)]
  {
    var ticked := SubStep(a, u, Tick);
    SubStepKeeps(a, u, Tick);
    TurnTells(ticked, a, b, c, d);
    TakeStep(u, Moment(a, Tick), Turn(a, b, c, d));
  }

  // ----- all interleavings -----

  datatype World = World(listener: Listener, subs: map<nat, Sub>)

  datatype Action = Database(event: ListenerEvent) | Subscribe(id: nat) | Stream(id: nat, step: SubEvent)

  /** `subscribe` refuses while the listener is not ready. */
  predicate Possible(w: World, a: Action)
    requires |w.listener.log| > 0
  {
    match a
    case Database(event) => ListenerEnabled(w.listener, event)
    case Subscribe(id) => id !in w.subs && w.listener.log[|w.listener.log| - 1].ready
    case Stream(id, step) => id in w.subs && SubEnabled(w.listener.log, w.subs[id], step)
  }

  function Act(w: World, a: Action): World
    requires |w.listener.log| > 0 && Possible(w, a)
  {
    match a
    case Database(event) => w.(listener := Listen(w.listener, event))
    case Subscribe(id) => w.(subs := w.subs[id := SUBSCRIBED])
    case Stream(id, step) => w.(subs := w.subs[id := SubStep(w.listener.log, w.subs[id], step)])
  }

  ghost predicate WorldInv(w: World) {
    ListenerInv(w.listener) && forall id :: id in w.subs ==> SubInv(w.listener.log, w.subs[id])
  }

  ghost predicate NothingLostAnywhere(w: World) {
    forall id :: id in w.subs ==> NothingLost(w.listener.log, w.subs[id])
  }

  predicate Swallowing(w: World, a: Action)
    requires |w.listener.log| > 0 && Possible(w, a)
  {
    a.Stream? && Swallows(w.listener.log, w.subs[a.id], a.step)
  }

  lemma {:induction false} StreamKeeps(w: World, id: nat, step: SubEvent)
    requires WorldInv(w) && Possible(w, Stream(id, step))
    ensures WorldInv(Act(w, Stream(id, step)))
    ensures NothingLostAnywhere(w) ==>
              (NothingLostAnywhere(Act(w, Stream(id, step))) <==> !Swallowing(w, Stream(id, step)))
  {
    hide SubInv, SubStep, SubEnabled, Swallows, NothingLost;
    var log := w.listener.log;
    SubStepKeeps(log, w.subs[id], step);
    if NothingLostAnywhere(w) {
      StepLosesExactly(log, w.subs[id], step);
      var subs := Act(w, Stream(id, step)).subs;
      assert forall other :: other in subs && other != id ==> subs[other] == w.subs[other];
      assert id in subs && subs[id] == SubStep(log, w.subs[id], step);
    }
  }

  /** Continuity in every interleaving; and changes are lost exactly by swallowing. */
  lemma {:induction false} ActKeeps(w: World, a: Action)
    requires WorldInv(w) && Possible(w, a)
    ensures WorldInv(Act(w, a))
    ensures NothingLostAnywhere(w) ==> (NothingLostAnywhere(Act(w, a)) <==> !Swallowing(w, a))
  {
    var log := w.listener.log;
    match a
    case Database(event) =>
      ListenKeeps(w.listener, event);
      var n := Listen(w.listener, event).log[|log|];
      forall id | id in w.subs
        ensures SubInv(log + [n], w.subs[id])
        ensures NothingLost(log, w.subs[id]) ==> NothingLost(log + [n], w.subs[id])
      {
        LogGrows(log, n, w.subs[id]);
        if NothingLost(log, w.subs[id]) {
          SendLosesNothing(log, n, w.subs[id]);
        }
      }
    case Subscribe(_) =>
    case Stream(id, step) =>
      StreamKeeps(w, id, step);
  }

  /** A stream that may subscribe is opened by a resync numbered 1 at slot 0. */
  lemma {:induction false} SubscriberIsOpened(w: World, id: nat, b: seq<Notice>, c: seq<Notice>, d: Deployment)
    requires WorldInv(w) && Possible(w, Subscribe(id))
    requires var a, u := w.listener.log, Act(w, Subscribe(id)).subs[id];
             HealthyTurn(u.(generation := a[|a| - 1].generation), a, b, c)
    requires b[|b| - 1].slot <= d.sourceSlot
    ensures var a, u := w.listener.log, Act(w, Subscribe(id)).subs[id];
            var steps := [Moment(a, Open)] + Turn(a, b, c, d);
            && CanTake(u, steps) && ReadyIn(a[|a| - 1], a[|a| - 1].generation)
            && Taken(u, steps).pc == Waiting
            && Taken(u, steps).frames == [Frame(1, Resync, 0, d, |b| - 1, |c| - 1)]
  {
    var a, u := w.listener.log, Act(w, Subscribe(id)).subs[id];
    var begun := SubStep(a, u, Open);
    SubStepKeeps(a, u, Open);
    TurnTells(begun, a, b, c, d);
    TakeStep(u, Moment(a, Open), Turn(a, b, c, d));
  }

  ghost predicate IsRun(w: World, actions: seq<Action>)
    requires WorldInv(w)
    decreases |actions|
  {
    actions == [] || (Possible(w, actions[0]) && (ActKeeps(w, actions[0]); IsRun(Act(w, actions[0]), actions[1..])))
  }

  ghost function After(w: World, actions: seq<Action>): World
    requires WorldInv(w) && IsRun(w, actions)
    decreases |actions|
  {
    if actions == [] then w else ActKeeps(w, actions[0]); After(Act(w, actions[0]), actions[1..])
  }

  ghost predicate NeverSwallows(w: World, actions: seq<Action>)
    requires WorldInv(w) && IsRun(w, actions)
    decreases |actions|
  {
    actions == []
    || (!Swallowing(w, actions[0]) && (ActKeeps(w, actions[0]); NeverSwallows(Act(w, actions[0]), actions[1..])))
  }

  /** Over whole runs of the listener and any number of streams. */
  lemma {:induction false} RunKeeps(w: World, actions: seq<Action>)
    requires WorldInv(w) && IsRun(w, actions)
    ensures WorldInv(After(w, actions))
    ensures NothingLostAnywhere(w) && NeverSwallows(w, actions) ==> NothingLostAnywhere(After(w, actions))
    decreases |actions|
  {
    if actions != [] {
      ActKeeps(w, actions[0]);
      RunKeeps(Act(w, actions[0]), actions[1..]);
    }
  }

  const EMPTY := World(QUIET, map[])

  ghost predicate Reachable(w: World) {
    WorldInv(EMPTY) && exists actions :: IsRun(EMPTY, actions) && After(EMPTY, actions) == w
  }

  lemma {:induction false} RunExtends(w: World, actions: seq<Action>, a: Action)
    requires WorldInv(w) && IsRun(w, actions)
    requires WorldInv(After(w, actions)) && Possible(After(w, actions), a)
    ensures IsRun(w, actions + [a]) && After(w, actions + [a]) == Act(After(w, actions), a)
    decreases |actions|
  {
    hide Act, Possible, OneStretch, SubInv;
    if actions == [] {
      assert actions + [a] == [a] && [a][1..] == [];
      ActKeeps(w, a);
    } else {
      ActKeeps(w, actions[0]);
      assert (actions + [a])[0] == actions[0] && (actions + [a])[1..] == actions[1..] + [a];
      RunExtends(Act(w, actions[0]), actions[1..], a);
    }
  }

  lemma {:induction false} ReachNext(w: World, a: Action)
    requires Reachable(w) && |w.listener.log| > 0 && Possible(w, a)
    ensures Reachable(Act(w, a))
  {
    var actions :| IsRun(EMPTY, actions) && After(EMPTY, actions) == w;
    RunKeeps(EMPTY, actions);
    RunExtends(EMPTY, actions, a);
  }

  lemma {:induction false} ReachStream(l: Listener, u: Sub, e: SubEvent) returns (v: Sub)
    requires Reachable(World(l, map[0 := u])) && |l.log| > 0 && SubEnabled(l.log, u, e)
    ensures v == SubStep(l.log, u, e) && Reachable(World(l, map[0 := v]))
  {
    v := SubStep(l.log, u, e);
    ReachNext(World(l, map[0 := u]), Stream(0, e));
    assert Act(World(l, map[0 := u]), Stream(0, e)) == World(l, map[0 := v]);
  }

  lemma {:induction false} ReachUp() returns (l: Listener)
    ensures l == Listener(Up, 1, 0, [Notice(false, 0, 0), Notice(false, 1, 0), Notice(true, 1, 0)])
    ensures Reachable(World(l, map[]))
  {
    hide Reachable;
    ReachStart();
    ReachNext(EMPTY, Database(Begin));
    ReachNext(Act(EMPTY, Database(Begin)), Database(Listening));
    l := Listener(Up, 1, 0, [Notice(false, 0, 0), Notice(false, 1, 0), Notice(true, 1, 0)]);
    assert Act(Act(EMPTY, Database(Begin)), Database(Listening)) == World(l, map[]);
  }

  lemma {:induction false} ReachStart()
    ensures Reachable(EMPTY)
  {
    hide ListenerInv, SubInv;
    EmptyInv();
    assert IsRun(EMPTY, []) && After(EMPTY, []) == EMPTY;
  }

  lemma {:induction false} EmptyInv()
    ensures WorldInv(EMPTY)
  {
  }

  lemma {:induction false} ReachSubscribed() returns (l: Listener)
    ensures l == Listener(Up, 1, 0, [Notice(false, 0, 0), Notice(false, 1, 0), Notice(true, 1, 0)])
    ensures Reachable(World(l, map[0 := SUBSCRIBED]))
  {
    hide Reachable;
    l := ReachUp();
    ReachNext(World(l, map[]), Subscribe(0));
    assert Act(World(l, map[]), Subscribe(0)) == World(l, map[0 := SUBSCRIBED]);
  }

  /** The window is real: with one stream in a healthy generation, a notice at
      slot 7 landing between the two lines is taken as seen and told to nobody,
      and the stream then waits for the next one. */
  lemma {:induction false} SplitCheckSwallows()
    ensures exists w :: Reachable(w) && !NothingLostAnywhere(w)
  {
    var l := ReachSubscribed();
    var d := Deployment("id", 1);
    var u := ReachStream(l, SUBSCRIBED, Open);
    u := ReachStream(l, u, Check);
    u := ReachStream(l, u, Read);
    u := ReachStream(l, u, Observe(Some(d)));
    u := ReachStream(l, u, Yield);
    u := ReachStream(l, u, Tick);
    u := ReachStream(l, u, Check);
    assert u == Sub(Reading, 1, 2, Heartbeat, 0, 1, "id", [Frame(1, Resync, 0, d, 2, 2)], Some(2));
    var m := Listen(l, Notified(7));
    ReachNext(World(l, map[0 := u]), Database(Notified(7)));
    assert Act(World(l, map[0 := u]), Database(Notified(7))) == World(m, map[0 := u]);
    var v := ReachStream(m, u, Read);
    assert m.log[3] == Notice(true, 1, 7) && !Accounted(v, 3);
    assert !NothingLost(m.log, v);
    assert World(m, map[0 := v]).subs[0] == v;
  }
}
