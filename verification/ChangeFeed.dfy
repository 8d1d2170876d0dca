/** `openDuskChangeFeed` (api/src/services/duskChangeStream.ts): a single-flight,
    coalescing, rate-limited feed. Each synchronous stretch of the program
    between two awaits, timers or callbacks is one step. */
module ChangeFeed {
  import opened Options

  const BATCH_MS := 250
  const CAPACITY := 128

  datatype Kind = Change | Resync | Heartbeat

  /** What the feed reads of a deployment envelope. */
  datatype Deployment = Deployment(identity: string, sourceSlot: nat)

  /** `at` is the value of Date.now() when the frame was handed to the sink. */
  datatype Frame = Frame(sequence: nat, kind: Kind, sourceSlot: nat, deployment: Deployment, at: int)

  /** The kind and slot captured by a send whose observation is awaited. */
  datatype Send = Send(kind: Kind, slot: nat)

  /** An accepted hint. `after` numbers the last frame begun before it, which
      may have been observed too early to tell it. */
  datatype Hint = Hint(kind: Kind, slot: nat, after: nat)

  /** Where the opening function stands: at its first await, its second, or done. */
  datatype Phase = Starting | Observing | Settled

  datatype Ready = Waiting | Resolved | Failed503

  /** `clock` is the latest time seen and `published` the accepted change and
      resync hints; the rest are the closure's variables, with
      `sending` holding the values the send captured. */
  datatype State = State(
    phase: Phase,
    ready: Ready,
    closed: bool,
    initialized: bool,
    subscribed: bool,
    sending: Option<Send>,
    sequence: nat,
    identity: string,
    pendingKind: Option<Kind>,
    pendingSlot: nat,
    timer: Option<int>,
    heartbeat: bool,
    lastSentAt: int,
    frames: seq<Frame>,
    sinkCloses: nat,
    clock: int,
    published: set<Hint>)

  function Opened(now: int): State {
    State(Starting, Waiting, false, false, true, None, 0, "", None, 0, None, false, 0, [], 0, now, {})
  }

  /** An awaited observation: an envelope, or a rejection, a timeout or a cancel. */
  datatype Observation = Observed(deployment: Deployment) | Rejected

  /** `listening` is `deps.ready()`, `accepted` what `sink.write` answers,
      `starts` whether `sink.start` returns; `now` is Date.now(). */
  datatype Event =
    | Publish(kind: Kind, slot: nat, now: int)
    | Unavailable(now: int)
    | HeartbeatTick(now: int)
    | TimerFires(now: int)
    | SendSettles(result: Observation, listening: bool, accepted: bool, now: int)
    | StartSettles(ok: bool, now: int)
    | OpeningSettles(result: Observation, listening: bool, starts: bool, accepted: bool, now: int)
    | Disconnect(now: int)

  // ----- the closure's functions -----

  function Max(a: int, b: int): int { if a > b then a else b }

  function AfterClose(s: State): State {
    if s.closed then s
    else s.(closed := true, timer := None, heartbeat := false, subscribed := false, sinkCloses := s.sinkCloses + 1)
  }

  function AfterWrite(s: State, kind: Kind, slot: nat, d: Deployment, listening: bool, accepted: bool,
                      now: int): State {
    if s.closed then s
    else if !listening || d.identity != s.identity || d.sourceSlot < slot then AfterClose(s)
    else
      var sent := s.(sequence := s.sequence + 1, lastSentAt := now,
                     frames := s.frames + [Frame(s.sequence + 1, kind, slot, d, now)]);
      if accepted then sent else AfterClose(sent)
  }

  function AfterSchedule(s: State, kind: Kind, slot: nat, now: int): State {
    if s.closed then s
    else
      var replace := kind == Resync || s.pendingKind == None || s.pendingKind == Some(Heartbeat);
      var p := s.(pendingKind := if replace then Some(kind) else s.pendingKind, pendingSlot := Max(s.pendingSlot, slot));
      if !s.initialized || s.sending.Some? || s.timer.Some? then p
      else p.(timer := Some(now + Max(0, s.lastSentAt + BATCH_MS - now)))
  }

  /** The number of the last frame begun: written, in flight, or the opening one. */
  function Begun(s: State): nat {
    if s.sending.Some? || !s.initialized then |s.frames| + 1 else |s.frames|
  }

  function AfterReschedule(s: State, now: int): State {
    if s.pendingKind.Some? then AfterSchedule(s, s.pendingKind.value, s.pendingSlot, now) else s
  }

  /** The synchronous part of `send`. */
  function BeginSend(s: State): State {
    if s.closed || s.sending.Some? || s.pendingKind.None? then s
    else s.(sending := Some(Send(s.pendingKind.value, s.pendingSlot)), pendingKind := None, pendingSlot := 0)
  }

  /** The rest of `send`: write or close, then the finally block. */
  function FinishSend(s: State, result: Observation, listening: bool, accepted: bool, now: int): State
    requires s.sending.Some?
  {
    Finally(TrySend(s, s.sending.value, result, listening, accepted, now), now)
  }

  function TrySend(s: State, x: Send, result: Observation, listening: bool, accepted: bool, now: int): State {
    match result
    case Observed(d) => AfterWrite(s, x.kind, x.slot, d, listening, accepted, now)
    case Rejected => AfterClose(s)
  }

  function Finally(s: State, now: int): State {
    AfterReschedule(s.(sending := None), now)
  }

  /** The catch block of the opening function. */
  function FailOpening(s: State): State {
    AfterClose(s).(phase := Settled, ready := if !s.initialized && !s.closed then Failed503 else Resolved)
  }

  function AfterStart(s: State, ok: bool): State {
    if !ok then FailOpening(s)
    else if s.closed then s.(phase := Settled, ready := Resolved)
    else s.(phase := Observing)
  }

  function AfterOpening(s: State, result: Observation, listening: bool, starts: bool, accepted: bool, now: int): State {
    if result.Rejected? then FailOpening(s)
    else if s.closed then s.(phase := Settled, ready := Resolved)
    else if !listening || !starts then FailOpening(s.(identity := if listening then result.deployment.identity else s.identity))
    else Begin(s, result.deployment, accepted, now)
  }

  /** The opening resync, then the carry-over of hints that came before it. */
  function Begin(s: State, d: Deployment, accepted: bool, now: int): State {
    var begun := s.(identity := d.identity, initialized := true, phase := Settled, ready := Resolved);
    var wrote := AfterWrite(begun, Resync, 0, d, true, accepted, now);
    if wrote.closed then wrote else AfterReschedule(wrote, now).(heartbeat := true)
  }

  // ----- steps -----

  /** An event can happen only when its source exists, and clocks do not go back. */
  predicate Enabled(s: State, e: Event) {
    && s.clock <= e.now
    && match e
       case Publish(kind, _, _) => kind != Heartbeat && s.subscribed
       case Unavailable(_) => s.subscribed
       case HeartbeatTick(_) => s.heartbeat
       case TimerFires(now) => s.timer.Some? && s.timer.value <= now
       case SendSettles(_, _, _, _) => s.sending.Some?
       case StartSettles(_, _) => s.phase == Starting
       case OpeningSettles(_, _, _, _, _) => s.phase == Observing
       case Disconnect(_) => true
  }

  function Step(s: State, e: Event): State
    requires Enabled(s, e)
  {
    var t := s.(clock := e.now);
    match e
    case Publish(kind, slot, now) => AfterSchedule(t, kind, slot, now).(published := s.published + {Hint(kind, slot, Begun(s))})
    case Unavailable(_) => if t.initialized then AfterClose(t) else t
    case HeartbeatTick(now) => AfterSchedule(t, Heartbeat, 0, now)
    case TimerFires(_) => BeginSend(t.(timer := None))
    case SendSettles(result, listening, accepted, now) => FinishSend(t, result, listening, accepted, now)
    case StartSettles(ok, _) => AfterStart(t, ok)
    case OpeningSettles(result, listening, starts, accepted, now) => AfterOpening(t, result, listening, starts, accepted, now)
    case Disconnect(_) => AfterClose(t)
  }

  ghost predicate IsRun(s: State, events: seq<Event>)
    decreases |events|
  {
    events == [] || (Enabled(s, events[0]) && IsRun(Step(s, events[0]), events[1..]))
  }

  ghost function After(s: State, events: seq<Event>): State
    requires IsRun(s, events)
    decreases |events|
  {
    if events == [] then s else After(Step(s, events[0]), events[1..])
  }

  // ----- the closure itself -----

  /** The module-level `active` set. */
  class Registry {
    var active: set<Feed>

    constructor ()
      ensures active == {}
    {
      active := {};
    }

    /** Throws (None) at capacity, otherwise a fresh feed at its first await. */
    method Open(now: int) returns (feed: Feed?)
      modifies this
      ensures feed == null <==> |old(active)| >= CAPACITY
      ensures feed == null ==> active == old(active)
      ensures feed != null ==> fresh(feed) && feed.registry == this && active == old(active) + {feed}
                               && feed.Snapshot() == Opened(now)
    {
      if |active| >= CAPACITY {
        return null;
      }
      feed := new Feed(this, now);
      active := active + {feed};
    }
  }

  class Feed {
    const registry: Registry
    var phase: Phase
    var ready: Ready
    var closed: bool
    var initialized: bool
    var subscribed: bool
    var sending: Option<Send>
    var sequence: nat
    var identity: string
    var pendingKind: Option<Kind>
    var pendingSlot: nat
    var timer: Option<int>
    var heartbeat: bool
    var lastSentAt: int
    var frames: seq<Frame>
    var sinkCloses: nat
    ghost var clock: int
    ghost var published: set<Hint>

    ghost function Snapshot(): State
      reads this
    {
      State.State(phase, ready, closed, initialized, subscribed, sending, sequence, identity, pendingKind,
                       pendingSlot, timer, heartbeat, lastSentAt, frames, sinkCloses, clock, published)
    }

    constructor (registry: Registry, now: int)
      ensures this.registry == registry && Snapshot() == Opened(now)
    {
      this.registry := registry;
      phase, ready, closed, initialized, subscribed := Starting, Waiting, false, false, true;
      sending, sequence, identity, pendingKind, pendingSlot := None, 0, "", None, 0;
      timer, heartbeat, lastSentAt, frames, sinkCloses := None, false, 0, [], 0;
      clock, published := now, {};
    }

    method Close()
      modifies this, registry
      ensures Snapshot() == AfterClose(old(Snapshot()))
      ensures registry.active == if old(closed) then old(registry.active) else old(registry.active) - {this}
    {
      if closed {
        return;
      }
      closed := true;
      timer, heartbeat, subscribed := None, false, false;
      registry.active := registry.active - {this};
      sinkCloses := sinkCloses + 1;
    }

    method Write(kind: Kind, slot: nat, d: Deployment, listening: bool, accepted: bool, now: int)
      modifies this, registry
      ensures Snapshot() == AfterWrite(old(Snapshot()), kind, slot, d, listening, accepted, now)
      ensures registry.active == if closed && !old(closed) then old(registry.active) - {this} else old(registry.active)
    {
      if closed {
        return;
      }
      if !listening || d.identity != identity || d.sourceSlot < slot {
        Close();
        return;
      }
      sequence := sequence + 1;
      var frame := Frame(sequence, kind, slot, d, now);
      lastSentAt := now;
      frames := frames + [frame];
      if !accepted {
        Close();
      }
    }

    method Schedule(kind: Kind, slot: nat, now: int)
      modifies `pendingKind, `pendingSlot, `timer
      ensures Snapshot() == AfterSchedule(old(Snapshot()), kind, slot, now)
    {
      if closed {
        return;
      }
      if kind == Resync || pendingKind == None || pendingKind == Some(Heartbeat) {
        pendingKind := Some(kind);
      }
      pendingSlot := Max(pendingSlot, slot);
      if !initialized || sending.Some? || timer.Some? {
        return;
      }
      timer := Some(now + Max(0, lastSentAt + BATCH_MS - now));
    }

    method Reschedule(now: int)
      modifies `pendingKind, `pendingSlot, `timer
      ensures Snapshot() == AfterReschedule(old(Snapshot()), now)
    {
      if pendingKind.Some? {
        Schedule(pendingKind.value, pendingSlot, now);
      }
    }

    /** The bus callback. */
    method OnPublish(kind: Kind, slot: nat, now: int)
      requires Enabled(Snapshot(), Publish(kind, slot, now))
      modifies this
      ensures Snapshot() == Step(old(Snapshot()), Publish(kind, slot, now))
    {
      hide AfterSchedule;
      ghost var hint := Hint(kind, slot, Begun(Snapshot()));
      clock := now;
      Schedule(kind, slot, now);
      published := published + {hint};
    }

    method OnUnavailable(now: int)
      requires Enabled(Snapshot(), Unavailable(now))
      modifies this, registry
      ensures Snapshot() == Step(old(Snapshot()), Unavailable(now))
      ensures registry.active == if closed && !old(closed) then old(registry.active) - {this} else old(registry.active)
    {
      clock := now;
      if initialized {
        Close();
      }
    }

    method OnHeartbeat(now: int)
      requires Enabled(Snapshot(), HeartbeatTick(now))
      modifies this
      ensures Snapshot() == Step(old(Snapshot()), HeartbeatTick(now))
    {
      clock := now;
      Schedule(Heartbeat, 0, now);
    }

    /** The timer callback, up to the send's await. */
    method OnTimer(now: int)
      requires Enabled(Snapshot(), TimerFires(now))
      modifies this
      ensures Snapshot() == Step(old(Snapshot()), TimerFires(now))
    {
      clock := now;
      timer := None;
      if closed || sending.Some? || pendingKind.None? {
        return;
      }
      sending := Some(Send(pendingKind.value, pendingSlot));
      pendingKind := None;
      pendingSlot := 0;
    }

    /** The send's continuation and its finally block. */
    method OnSendSettled(result: Observation, listening: bool, accepted: bool, now: int)
      requires sending.Some?
      modifies this, registry
      ensures Snapshot() == FinishSend(old(Snapshot()).(clock := now), result, listening, accepted, now)
      ensures registry.active == if closed && !old(closed) then old(registry.active) - {this} else old(registry.active)
    {
      hide TrySend, AfterReschedule;
      clock := now;
      Conclude(sending.value, result, listening, accepted, now);
      sending := None;
      Reschedule(now);
    }

    /** The try and catch blocks of the send. */
    method Conclude(x: Send, result: Observation, listening: bool, accepted: bool, now: int)
      modifies this, registry
      ensures Snapshot() == TrySend(old(Snapshot()), x, result, listening, accepted, now)
      ensures registry.active == if closed && !old(closed) then old(registry.active) - {this} else old(registry.active)
    {
      match result {
        case Observed(d) => Write(x.kind, x.slot, d, listening, accepted, now);
        case Rejected => Close();
      }
    }

    method OnStartSettled(ok: bool, now: int)
      requires Enabled(Snapshot(), StartSettles(ok, now))
      modifies this, registry
      ensures Snapshot() == Step(old(Snapshot()), StartSettles(ok, now))
      ensures registry.active == if closed && !old(closed) then old(registry.active) - {this} else old(registry.active)
    {
      clock := now;
      if !ok {
        Fail();
      } else if closed {
        phase, ready := Settled, Resolved;
      } else {
        phase := Observing;
      }
    }

    /** The opening function's catch block. */
    method Fail()
      modifies this, registry
      ensures Snapshot() == FailOpening(old(Snapshot()))
      ensures registry.active == if closed && !old(closed) then old(registry.active) - {this} else old(registry.active)
    {
      var disconnected := closed;
      Close();
      phase := Settled;
      ready := if !initialized && !disconnected then Failed503 else Resolved;
    }

    method OnOpeningSettled(result: Observation, listening: bool, starts: bool, accepted: bool, now: int)
      requires phase == Observing
      modifies this, registry
      ensures Snapshot() == AfterOpening(old(Snapshot()).(clock := now), result, listening, starts, accepted, now)
      ensures registry.active == if closed && !old(closed) then old(registry.active) - {this} else old(registry.active)
    {
      hide AfterWrite, AfterReschedule, AfterClose;
      clock := now;
      if result.Rejected? {
        Fail();
        return;
      }
      if closed {
        phase, ready := Settled, Resolved;
        return;
      }
      if !listening {
        Fail();
        return;
      }
      identity := result.deployment.identity;
      if !starts {
        Fail();
        return;
      }
      Start(result.deployment, accepted, now);
    }

    method Start(d: Deployment, accepted: bool, now: int)
      modifies this, registry
      ensures Snapshot() == Begin(old(Snapshot()), d, accepted, now)
      ensures registry.active == if closed && !old(closed) then old(registry.active) - {this} else old(registry.active)
    {
      hide AfterWrite, AfterReschedule;
      identity, initialized, phase, ready := d.identity, true, Settled, Resolved;
      Write(Resync, 0, d, true, accepted, now);
      if !closed {
        Resume(now);
      }
    }

    /** The carry-over of hints that came before the opening, and the heartbeat. */
    method Resume(now: int)
      modifies `pendingKind, `pendingSlot, `timer, `heartbeat
      ensures Snapshot() == AfterReschedule(old(Snapshot()), now).(heartbeat := true)
    {
      hide AfterReschedule;
      Reschedule(now);
      heartbeat := true;
    }
  }

  // ----- what every run keeps -----

  /** Frames numbered 1, 2, 3, ... of one identity, opened by a resync at slot 0,
      no envelope behind its frame, heartbeats at slot 0, 250 ms apart. */
  ghost predicate WellFormedFrames(frames: seq<Frame>, identity: string) {
    && (|frames| > 0 ==> frames[0].kind == Resync && frames[0].sourceSlot == 0)
    && (forall i :: 0 <= i < |frames| ==>
          && frames[i].sequence == i + 1
          && frames[i].deployment.identity == identity
          && frames[i].sourceSlot <= frames[i].deployment.sourceSlot
          && (frames[i].kind == Heartbeat ==> frames[i].sourceSlot == 0))
    && (forall i :: 0 < i < |frames| ==> frames[i - 1].at + BATCH_MS <= frames[i].at)
  }

  /** A frame of this kind at this slot tells the hint: a resync is told by a
      resync, a change by either, at or above its slot. */
  predicate Tells(kind: Kind, slot: nat, hint: Hint) {
    kind != Heartbeat && hint.slot <= slot && (hint.kind == Resync ==> kind == Resync)
  }

  predicate Pending(s: State, hint: Hint) {
    s.pendingKind.Some? && Tells(s.pendingKind.value, s.pendingSlot, hint)
  }

  /** The send in flight was begun after the hint. */
  predicate InFlight(s: State, hint: Hint) {
    s.sending.Some? && |s.frames| >= hint.after && Tells(s.sending.value.kind, s.sending.value.slot, hint)
  }

  /** A frame begun after the hint tells it. */
  predicate Told(frames: seq<Frame>, hint: Hint) {
    exists i :: hint.after <= i < |frames| && Tells(frames[i].kind, frames[i].sourceSlot, hint)
  }

  /** No hint is lost: each is pending, in flight, or told to the client by a
      frame begun after it. */
  ghost predicate NothingLost(s: State) {
    forall hint :: hint in s.published ==>
      hint.after <= Begun(s) && (Pending(s, hint) || InFlight(s, hint) || Told(s.frames, hint))
  }

  /** Nothing is stuck: pending work has a timer or a send, never both. */
  ghost predicate NothingStuck(s: State) {
    && !(s.timer.Some? && s.sending.Some?)
    && (s.initialized && s.pendingKind.Some? ==> s.timer.Some? || s.sending.Some?)
  }

  ghost predicate Quiet(s: State) {
    s.timer.None? && !s.heartbeat && !s.subscribed
  }

  ghost predicate Inv(s: State) {
    && WellFormedFrames(s.frames, s.identity)
    && s.sequence == |s.frames|
    && s.sinkCloses == (if s.closed then 1 else 0)
    && (if s.closed then Quiet(s) else s.subscribed && s.heartbeat == s.initialized)
    && (s.ready == Waiting <==> s.phase != Settled)
    && (s.initialized <==> |s.frames| > 0)
    && (s.initialized ==> s.phase == Settled && s.lastSentAt == s.frames[|s.frames| - 1].at <= s.clock)
    && (!s.initialized ==> s.timer.None? && s.sending.None? && !s.heartbeat)
    && (s.phase == Settled ==> s.initialized || s.closed)
    && (s.ready == Failed503 ==> s.closed && s.frames == [])
    && (s.pendingKind.None? || s.pendingKind.value == Heartbeat ==> s.pendingSlot == 0)
    && (s.timer.Some? ==> s.pendingKind.Some? && s.lastSentAt + BATCH_MS <= s.timer.value)
    && (s.sending.Some? && s.sending.value.kind == Heartbeat ==> s.sending.value.slot == 0)
    && (s.sending.Some? ==> s.lastSentAt + BATCH_MS <= s.clock)
    && (!s.closed ==> NothingLost(s) && NothingStuck(s))
  }

  lemma {:induction false} OpenedInv(now: int)
    ensures Inv(Opened(now))
  {
  }

  lemma {:induction false} ScheduleKeeps(s: State, kind: Kind, slot: nat, now: int)
    requires Inv(s) && (kind == Heartbeat ==> slot == 0)
    ensures Inv(AfterSchedule(s, kind, slot, now))
  {
  }

  lemma {:induction false} AppendFrame(frames: seq<Frame>, identity: string, f: Frame)
    requires WellFormedFrames(frames, identity)
    requires f.sequence == |frames| + 1 && f.deployment.identity == identity
    requires f.sourceSlot <= f.deployment.sourceSlot && (f.kind == Heartbeat ==> f.sourceSlot == 0)
    requires if frames == [] then f.kind == Resync && f.sourceSlot == 0
             else frames[|frames| - 1].at + BATCH_MS <= f.at
    ensures WellFormedFrames(frames + [f], identity)
    ensures forall hint :: Told(frames, hint) ==> Told(frames + [f], hint)
    ensures forall hint: Hint :: hint.after <= |frames| && Tells(f.kind, f.sourceSlot, hint) ==> Told(frames + [f], hint)
  {
    var all := frames + [f];
    forall hint | Told(frames, hint) ensures Told(all, hint) {
      var i :| hint.after <= i < |frames| && Tells(frames[i].kind, frames[i].sourceSlot, hint);
      assert all[i] == frames[i];
    }
    assert all[|frames|] == f;
  }

  lemma {:induction false} BeginSendKeeps(s: State)
    requires Inv(s) && s.timer.Some? && s.timer.value <= s.clock
    ensures Inv(BeginSend(s.(timer := None)))
  {
  }

  lemma {:induction false} FinishSendKeeps(s: State, result: Observation, listening: bool, accepted: bool)
    requires Inv(s) && s.sending.Some?
    ensures Inv(FinishSend(s, result, listening, accepted, s.clock))
  {
    hide WellFormedFrames, Told;
    var sent := FinishSend(s, result, listening, accepted, s.clock);
    if !s.closed && result.Observed? {
      var d, x := result.deployment, s.sending.value;
      if listening && d.identity == s.identity && x.slot <= d.sourceSlot {
        AppendFrame(s.frames, s.identity, Frame(s.sequence + 1, x.kind, x.slot, d, s.clock));
        assert forall hint :: InFlight(s, hint) ==> Told(sent.frames, hint);
      }
    }
  }

  lemma {:induction false} AfterOpeningKeeps(s: State, result: Observation, listening: bool, starts: bool,
                                             accepted: bool)
    requires Inv(s) && s.phase == Observing
    ensures Inv(AfterOpening(s, result, listening, starts, accepted, s.clock))
  {
    if !s.closed && result.Observed? && listening && starts {
      var d := result.deployment;
      AppendFrame([], d.identity, Frame(1, Resync, 0, d, s.clock));
      assert s.frames + [Frame(1, Resync, 0, d, s.clock)] == [] + [Frame(1, Resync, 0, d, s.clock)];
    }
  }

  /** Every step keeps the invariant. */
  lemma {:induction false} StepKeeps(s: State, e: Event)
    requires Inv(s) && Enabled(s, e)
    ensures Inv(Step(s, e))
  {
    hide WellFormedFrames;
    var t := s.(clock := e.now);
    match e
    case Publish(kind, slot, now) =>
      ScheduleKeeps(t, kind, slot, now);
    case HeartbeatTick(now) => ScheduleKeeps(t, Heartbeat, 0, now);
    case TimerFires(_) => BeginSendKeeps(t);
    case SendSettles(result, listening, accepted, _) => FinishSendKeeps(t, result, listening, accepted);
    case OpeningSettles(result, listening, starts, accepted, _) => AfterOpeningKeeps(t, result, listening, starts, accepted);
    case _ =>
  }

  /** A feed's whole life: numbered, paced frames of one identity, nothing lost
      and nothing stuck while it is open, and one close of the sink. */
  lemma {:induction false} RunKeeps(s: State, events: seq<Event>)
    requires Inv(s) && IsRun(s, events)
    ensures Inv(After(s, events))
    decreases |events|
  {
    if events != [] {
      StepKeeps(s, events[0]);
      RunKeeps(Step(s, events[0]), events[1..]);
    }
  }

  lemma {:induction false} StepGrows(s: State, e: Event)
    requires Inv(s) && Enabled(s, e)
    ensures s.frames <= Step(s, e).frames
    ensures s.closed ==> Step(s, e).closed && Step(s, e).frames == s.frames && Step(s, e).sinkCloses == s.sinkCloses
  {
    hide WellFormedFrames, NothingLost, NothingStuck;
    var t := s.(clock := e.now);
    match e
    case SendSettles(result, listening, accepted, now) =>
      assert t.frames <= FinishSend(t, result, listening, accepted, now).frames;
    case OpeningSettles(result, listening, starts, accepted, now) =>
      assert t.frames <= AfterOpening(t, result, listening, starts, accepted, now).frames;
    case _ =>
  }

  /** Frames are only ever added, and none after the feed closes. */
  lemma {:induction false} FramesOnlyGrow(s: State, events: seq<Event>)
    requires Inv(s) && IsRun(s, events)
    ensures s.frames <= After(s, events).frames
    ensures s.closed ==> After(s, events).closed && After(s, events).frames == s.frames
    decreases |events|
  {
    if events != [] {
      StepKeeps(s, events[0]);
      StepGrows(s, events[0]);
      FramesOnlyGrow(Step(s, events[0]), events[1..]);
    }
  }

  /** Losing the database listener after the opening ends the feed at once. */
  lemma {:induction false} UnavailableEnds(s: State, now: int, later: seq<Event>)
    requires Inv(s) && s.initialized && s.subscribed && s.clock <= now
    requires IsRun(Step(s, Unavailable(now)), later)
    ensures After(Step(s, Unavailable(now)), later).frames == s.frames
  {
    StepKeeps(s, Unavailable(now));
    FramesOnlyGrow(Step(s, Unavailable(now)), later);
  }

  /** Every accepted hint reaches the client: from any open, initialised state
      with a healthy upstream, the armed timer and its send leave every hint
      told by a frame begun after it. */
  lemma {:induction false} PendingIsDelivered(s: State, now: int, d: Deployment)
    requires Inv(s) && !s.closed && s.pendingKind.Some? && s.timer.Some? && s.clock <= now && s.timer.value <= now
    requires d.identity == s.identity && s.pendingSlot <= d.sourceSlot
    ensures var fired := Step(s, TimerFires(now));
            Enabled(s, TimerFires(now)) && Enabled(fired, SendSettles(Observed(d), true, true, now))
            && var done := Step(fired, SendSettles(Observed(d), true, true, now));
               !done.closed && done.pendingKind.None? && done.timer.None? && done.sending.None?
               && done.frames == s.frames + [Frame(|s.frames| + 1, s.pendingKind.value, s.pendingSlot, d, now)]
               && forall hint :: hint in s.published ==> Told(done.frames, hint)
  {
    var fired := Step(s, TimerFires(now));
    StepKeeps(s, TimerFires(now));
    StepKeeps(fired, SendSettles(Observed(d), true, true, now));
  }

  /** Settling an awaited send well tells every hint it was begun after, and arms
      the timer for what arrived meanwhile. */
  lemma {:induction false} AwaitedIsDelivered(s: State, now: int, d: Deployment)
    requires Inv(s) && !s.closed && s.sending.Some? && s.clock <= now
    requires d.identity == s.identity && s.sending.value.slot <= d.sourceSlot
    ensures var done := Step(s, SendSettles(Observed(d), true, true, now));
            !done.closed && done.sending.None?
            && done.frames == s.frames + [Frame(|s.frames| + 1, s.sending.value.kind, s.sending.value.slot, d, now)]
            && (done.pendingKind.Some? ==> done.timer.Some?)
            && forall hint :: hint in s.published ==> Told(done.frames, hint) || Pending(done, hint)
  {
    StepKeeps(s, SendSettles(Observed(d), true, true, now));
  }

  // ----- an opening opens, and what closes -----

  /** Waiting for the listener to start keeps the feed open, and asks for the first
      observation. */
  lemma {:induction false} StartGoesOn(s: State, now: int)
    requires Inv(s) && !s.closed && s.phase == Starting && s.clock <= now
    ensures Enabled(s, StartSettles(true, now)) && Step(s, StartSettles(true, now)) == s.(phase := Observing, clock := now)
  {
  }

  /** A good first observation opens the feed: one resync numbered 1 at slot 0, the
      heartbeat on, and the timer armed for what was hinted before. */
  lemma {:induction false} OpeningOpens(s: State, d: Deployment, now: int)
    requires Inv(s) && !s.closed && s.phase == Observing && s.clock <= now
    ensures var e := OpeningSettles(Observed(d), true, true, true, now);
            && Enabled(s, e)
            && var t := Step(s, e);
               && !t.closed && t.ready == Resolved && t.initialized && t.identity == d.identity
               && t.frames == [Frame(1, Resync, 0, d, now)]
               && t.heartbeat && t.subscribed && t.sinkCloses == 0
               && t.pendingKind == s.pendingKind && t.pendingSlot == s.pendingSlot && t.published == s.published
               && t.timer == if s.pendingKind.Some? then Some(now + BATCH_MS) else None
  {
  }

  /** An observation that this feed's write takes. */
  predicate Good(s: State, slot: nat, result: Observation, listening: bool) {
    result.Observed? && listening && result.deployment.identity == s.identity && slot <= result.deployment.sourceSlot
  }

  /** Exactly these events close an open feed. */
  lemma {:induction false} ClosesExactly(s: State, e: Event)
    requires Inv(s) && Enabled(s, e) && !s.closed
    ensures Step(s, e).closed <==>
              match e
              case Unavailable(_) => s.frames != []
              case SendSettles(result, listening, accepted, _) =>
                !accepted || !Good(s, s.sending.value.slot, result, listening)
              case StartSettles(ok, _) => !ok
              case OpeningSettles(result, listening, starts, accepted, _) =>
                result.Rejected? || !listening || !starts || !accepted
              case Disconnect(_) => true
              case _ => false
  {
  }

  /** The opening answers once, when its awaits are over: 503 exactly when it failed
      before the client left, and otherwise it resolves. */
  lemma {:induction false} AnswersExactly(s: State, e: Event)
    requires Inv(s) && Enabled(s, e)
    ensures var t := Step(s, e);
            var failed := match e
                          case StartSettles(ok, _) => !ok
                          case OpeningSettles(result, listening, starts, _, _) => result.Rejected? || !listening || !starts
                          case _ => false;
            && (s.ready != Waiting ==> t.ready == s.ready)
            && (s.ready == Waiting ==>
                  && (t.ready == Failed503 <==> failed && !s.closed)
                  && (t.ready == Resolved <==> (e.OpeningSettles? && !failed) || (s.closed && (e.StartSettles? || e.OpeningSettles?))))
  {
  }

  /** An open feed hears hints, the listener's loss and its client, and once it is
      opened its heartbeat; a closed one hears nothing more. */
  lemma {:induction false} HearsExactly(s: State, kind: Kind, slot: nat, now: int)
    requires Inv(s) && s.clock <= now
    ensures Enabled(s, Publish(kind, slot, now)) <==> !s.closed && kind != Heartbeat
    ensures Enabled(s, Unavailable(now)) <==> !s.closed
    ensures Enabled(s, HeartbeatTick(now)) <==> !s.closed && s.initialized
    ensures Enabled(s, Disconnect(now))
    ensures s.closed ==> !Enabled(s, TimerFires(now))
  {
  }

  /** A hint given to an open feed is held: it is on record as given after the last
      frame begun, it is pending, and a timer or a send is there to take it. */
  lemma {:induction false} HintIsHeld(s: State, kind: Kind, slot: nat, now: int)
    requires Inv(s) && !s.closed && kind != Heartbeat && s.clock <= now
    ensures var t := Step(s, Publish(kind, slot, now));
            var hint := Hint(kind, slot, |s.frames| + if s.sending.Some? || s.frames == [] then 1 else 0);
            && t.published == s.published + {hint} && Pending(t, hint)
            && (s.frames != [] ==> t.timer.Some? || t.sending.Some?)
            && t == s.(pendingKind := t.pendingKind, pendingSlot := t.pendingSlot, timer := t.timer, clock := now,
                       published := t.published)
  {
  }

  function Rank(kind: Option<Kind>): nat {
    match kind
    case None => 0
    case Some(Heartbeat) => 1
    case Some(Change) => 2
    case Some(Resync) => 3
  }

  /** Hints coalesce to the strongest kind and the highest slot; a free feed arms its
      timer for now, or for the end of the batch after its last frame. */
  lemma {:induction false} ScheduleCoalesces(s: State, kind: Kind, slot: nat, now: int)
    requires !s.closed
    ensures var t := AfterSchedule(s, kind, slot, now);
            && t.pendingKind in {s.pendingKind, Some(kind)}
            && Rank(s.pendingKind) <= Rank(t.pendingKind) && Rank(Some(kind)) <= Rank(t.pendingKind)
            && t.pendingSlot in {s.pendingSlot, slot} && s.pendingSlot <= t.pendingSlot && slot <= t.pendingSlot
            && (if !s.initialized || s.sending.Some? || s.timer.Some? then t.timer == s.timer
                else t.timer in {Some(now), Some(s.lastSentAt + BATCH_MS)}
                     && now <= t.timer.value && s.lastSentAt + BATCH_MS <= t.timer.value)
            && t == s.(pendingKind := t.pendingKind, pendingSlot := t.pendingSlot, timer := t.timer)
  {
  }

  /** An idle feed answers a heartbeat tick with a heartbeat frame. */
  lemma {:induction false} HeartbeatIsDelivered(s: State, tick: int, now: int, d: Deployment)
    requires Inv(s) && !s.closed && s.initialized && s.pendingKind.None? && s.sending.None?
    requires s.clock <= tick <= now && s.lastSentAt + BATCH_MS <= now && d.identity == s.identity
    ensures Enabled(s, HeartbeatTick(tick))
            && var due := Step(s, HeartbeatTick(tick));
               && Enabled(due, TimerFires(now))
               && var fired := Step(due, TimerFires(now));
                  && Enabled(fired, SendSettles(Observed(d), true, true, now))
                  && var done := Step(fired, SendSettles(Observed(d), true, true, now));
                     && !done.closed && done.pendingKind.None?
                     && done.frames == s.frames + [Frame(|s.frames| + 1, Heartbeat, 0, d, now)]
  {
    hide NothingLost, WellFormedFrames;
  }

  // ----- many feeds -----

  /** The module's `active` set beside every feed ever opened. */
  datatype World = World(feeds: map<nat, State>, active: set<nat>)

  datatype Action = Open(id: nat, now: int) | Deliver(id: nat, event: Event)

  predicate Possible(w: World, a: Action) {
    match a
    case Open(id, _) => id !in w.feeds
    case Deliver(id, event) => id in w.feeds && Enabled(w.feeds[id], event)
  }

  /** Opening throws at capacity; a feed that closes leaves the set. */
  function Act(w: World, a: Action): World
    requires Possible(w, a)
  {
    match a
    case Open(id, now) =>
      if |w.active| >= CAPACITY then w else World(w.feeds[id := Opened(now)], w.active + {id})
    case Deliver(id, event) =>
      var next := Step(w.feeds[id], event);
      World(w.feeds[id := next], if next.closed && !w.feeds[id].closed then w.active - {id} else w.active)
  }

  ghost predicate WorldInv(w: World) {
    && (forall id :: id in w.feeds ==> Inv(w.feeds[id]))
    && (forall id :: id in w.active <==> id in w.feeds && !w.feeds[id].closed)
    && |w.active| <= CAPACITY
  }

  lemma {:induction false} OpenKeeps(w: World, id: nat, now: int)
    requires WorldInv(w) && id !in w.feeds
    ensures WorldInv(Act(w, Open(id, now)))
  {
    hide Inv;
    OpenedInv(now);
    var x := Act(w, Open(id, now));
    if |w.active| < CAPACITY {
      assert |w.active + {id}| == |w.active| + 1;
    }
    forall other | other in x.feeds ensures Inv(x.feeds[other]) {
      assert other in w.feeds || x.feeds[other] == Opened(now);
    }
  }

  lemma {:induction false} DeliverKeeps(w: World, id: nat, event: Event)
    requires WorldInv(w) && id in w.feeds && Enabled(w.feeds[id], event)
    ensures WorldInv(Act(w, Deliver(id, event)))
  {
    hide Inv, Step, Enabled;
    StepKeeps(w.feeds[id], event);
    StepGrows(w.feeds[id], event);
    var x := Act(w, Deliver(id, event));
    assert x.active <= w.active;
    forall other | other in x.feeds ensures Inv(x.feeds[other]) {
      assert other == id || x.feeds[other] == w.feeds[other];
    }
  }

  /** At most 128 feeds are open at any moment, and `active` is exactly those. */
  lemma {:induction false} ActKeeps(w: World, a: Action)
    requires WorldInv(w) && Possible(w, a)
    ensures WorldInv(Act(w, a))
  {
    hide WorldInv, Act, Enabled;
    match a
    case Open(id, now) => OpenKeeps(w, id, now);
    case Deliver(id, event) => DeliverKeeps(w, id, event);
  }
}
