/**
 * What the daemon does next, from what its run has shown so far: the events it has
 * emitted and the polls it has made, with no look at the state it keeps.
 */
module DaemonHistory {
  import opened Events
  import opened Daemon
  import opened DaemonLaws

  /**
   * A run so far: whether its last boundary is an active, that boundary's timestamp,
   * the last poll that saw input within twenty seconds, the last poll that emitted an
   * active or a heartbeat, the last poll, and the start of the return under way.
   */
  datatype Past = Past(
    active: bool,
    boundary: Option<int>,
    input: Option<int>,
    beat: Option<int>,
    poll: Option<int>,
    claim: Option<int>)

  /** Input within the last twenty seconds, by a user whose session is not locked. */
  predicate HadInput(tick: Tick) { !tick.locked && tick.idleMs < 20_000 }

  /** The later of two moments, either of which may not have been. */
  function Later2(a: Option<int>, b: Option<int>): Option<int> {
    if a.None? then b else if b.None? then a else Some(if a.value < b.value then b.value else a.value)
  }

  /** The latest moment the run vouches for. */
  function Evidence(past: Past): Option<int> { Later2(past.input, past.beat) }

  /** The wall clock ran ahead of the monotonic clock by min_inactivity, and something vouches for a moment before. */
  predicate Slept(past: Past, tick: Tick, th: Thresholds) {
    && tick.monoElapsedMs.Some? && Evidence(past).Some?
    && var wall := if past.poll.Some? then tick.now - past.poll.value else 0;
    && wall - tick.monoElapsedMs.value > 0
    && wall - tick.monoElapsedMs.value >= th.minInactivityMs
  }

  /** No boundary goes below the last one. */
  function Raised(past: Past, ts: int): int {
    if past.boundary.Some? && past.boundary.value > ts then past.boundary.value else ts
  }

  /** Locked, or idle for min_inactivity. */
  predicate Ends(tick: Tick, th: Thresholds) { tick.locked || tick.idleMs >= th.minInactivityMs }

  /** When an ended span ended: at the last poll with input if it was locked, when input stopped otherwise. */
  function EndOf(past: Past, tick: Tick): int {
    if !tick.locked then tick.now - tick.idleMs
    else if past.input.Some? then past.input.value
    else tick.now
  }

  predicate BeatDue(past: Past, now: int, th: Thresholds) {
    past.beat.Some? ==> now >= past.beat.value + th.heartbeatMs
  }

  /** The return a poll continues or starts. */
  function ReturnAt(past: Past, tick: Tick, th: Thresholds): Option<int> {
    if tick.locked || tick.idleMs >= th.minActivityMs then None
    else if past.claim.Some? then past.claim
    else if HadInput(tick) then Some(tick.now - tick.idleMs)
    else None
  }

  /** The one event, if any, that the next operation emits. */
  function Expected(past: Past, op: Op): seq<Event> {
    match op
    case Restart(th, now) =>
      if past.active && Evidence(past).Some? && now - Evidence(past).value >= th.minInactivityMs then
        [Event(Raised(past, Evidence(past).value), Idle)]
      else []
    case Poll(th, tick) =>
      if past.active then
        if Slept(past, tick, th) then [Event(Raised(past, Evidence(past).value), Idle)]
        else if Ends(tick, th) then [Event(Raised(past, EndOf(past, tick)), Idle)]
        else if BeatDue(past, tick.now, th) then [Event(tick.now, Heartbeat)]
        else []
      else
        var r := ReturnAt(past, tick, th);
        if r.Some? && tick.now - r.value >= th.minActivityMs then [Event(Raised(past, r.value), Active)] else []
  }

  /** The run one operation later, given what that emitted. */
  function Grown(past: Past, op: Op, emitted: seq<Event>): Past {
    var boundary := emitted != [] && emitted[0].kind != Heartbeat;
    var active := if boundary then emitted[0].kind == Active else past.active;
    Past(
      active,
      if boundary then Some(emitted[0].ts) else past.boundary,
      if op.Poll? && HadInput(op.tick) then Some(op.tick.now) else past.input,
      if op.Poll? && emitted != [] && emitted[0].kind != Idle then Some(op.tick.now) else past.beat,
      if op.Poll? then Some(op.tick.now) else past.poll,
      if active then None
      else if op.Restart? then past.claim
      else if past.active && !Slept(past, op.tick, op.th) then None
      else ReturnAt(past, op.tick, op.th))
  }

  /** What a run has shown. */
  function PastOf(ops: seq<Op>): Past {
    if ops == [] then Past(false, None, None, None, None, None)
    else
      var front, op := ops[..|ops| - 1], ops[|ops| - 1];
      Grown(PastOf(front), op, Apply(Run(FRESH_STATE, front).p, op).events)
  }

  /** The state keeps exactly what the run has shown. */
  predicate Keeps(p: Persisted, past: Past) {
    && (p.reported == ReportedActive <==> past.active)
    && p.lastEmittedTs == past.boundary && p.lastActiveTime == past.input && p.lastHeartbeat == past.beat
    && p.lastSeenWall == past.poll && p.pendingActiveSince == past.claim
    && (past.active ==> past.claim == None)
  }

  lemma GapKeeps(p: Persisted, past: Past, tick: Tick, th: Thresholds)
    requires Keeps(p, past)
    ensures var s := SuspendPhase(p, tick, th);
            if past.active && Slept(past, tick, th) then
              s.events == [Event(Raised(past, Evidence(past).value), Idle)]
              && s.p == p.(reported := ReportedIdle, lastEmittedTs := Some(s.events[0].ts), pendingActiveSince := None)
            else s == Outcome(p, [])
  {
  }

  lemma OpenPollKeeps(p: Persisted, past: Past, tick: Tick, th: Thresholds)
    requires Keeps(p, past) && past.active && !Slept(past, tick, th)
    ensures var o := Step(p, tick, th);
            o.events == Expected(past, Poll(th, tick)) && Keeps(o.p, Grown(past, Poll(th, tick), o.events))
  {
    GapKeeps(p, past, tick, th);
    hide SuspendPhase; hide Evidence; hide IdlePhase; hide Slept;
  }

  lemma IdlePollKeeps(p: Persisted, past: Past, tick: Tick, th: Thresholds)
    requires Keeps(p, past) && !(past.active && !Slept(past, tick, th))
    ensures var o := Step(p, tick, th);
            o.events == Expected(past, Poll(th, tick)) && Keeps(o.p, Grown(past, Poll(th, tick), o.events))
  {
    GapKeeps(p, past, tick, th);
    hide SuspendPhase; hide Evidence; hide ActivePhase; hide Slept;
  }

  lemma PollKeeps(p: Persisted, past: Past, tick: Tick, th: Thresholds)
    requires Keeps(p, past)
    ensures var o := Step(p, tick, th);
            o.events == Expected(past, Poll(th, tick)) && Keeps(o.p, Grown(past, Poll(th, tick), o.events))
  {
    hide *;
    if past.active && !Slept(past, tick, th) {
      OpenPollKeeps(p, past, tick, th);
    } else {
      IdlePollKeeps(p, past, tick, th);
    }
  }

  lemma OpKeeps(p: Persisted, past: Past, op: Op)
    requires Keeps(p, past)
    ensures var o := Apply(p, op); o.events == Expected(past, op) && Keeps(o.p, Grown(past, op, o.events))
  {
    if op.Poll? {
      PollKeeps(p, past, op.tick, op.th);
      hide Step; hide Expected; hide Grown; hide Keeps;
    }
  }

  lemma {:induction false} RunKeeps(ops: seq<Op>)
    ensures Keeps(Run(FRESH_STATE, ops).p, PastOf(ops))
  {
    hide Keeps; hide Apply; hide Grown;
    if ops == [] {
      NothingKept();
    } else {
      var front, op := ops[..|ops| - 1], ops[|ops| - 1];
      RunKeeps(front);
      OpKeeps(Run(FRESH_STATE, front).p, PastOf(front), op);
    }
  }

  lemma NothingKept()
    ensures Keeps(FRESH_STATE, Past(false, None, None, None, None, None))
  {
  }

  /**
   * What the next poll or restart emits, exactly, over every run from a fresh state.
   */
  lemma {:induction false} EventsExactly(ops: seq<Op>, op: Op)
    ensures Run(FRESH_STATE, ops + [op]).events == Run(FRESH_STATE, ops).events + Expected(PastOf(ops), op)
  {
    hide Apply; hide Expected; hide Keeps; hide Grown;
    RunKeeps(ops);
    OpKeeps(Run(FRESH_STATE, ops).p, PastOf(ops), op);
    RunSnoc(FRESH_STATE, ops, op);
    hide Run; hide PastOf;
  }

  /** The run's own trace says whether it is active and where its last boundary is. */
  lemma {:induction false} PastIsTrace(ops: seq<Op>)
    ensures var b := Boundaries(Run(FRESH_STATE, ops).events);
            && (PastOf(ops).active <==> |b| % 2 == 1)
            && PastOf(ops).boundary == if b == [] then None else Some(b[|b| - 1].ts)
  {
    TraceShape(ops);
    RunKeeps(ops);
    hide Run; hide PastOf; hide Boundaries;
  }

  lemma PastSnoc(ops: seq<Op>, op: Op)
    ensures PastOf(ops + [op]) == Grown(PastOf(ops), op, Expected(PastOf(ops), op))
  {
    hide Apply; hide Expected; hide Keeps; hide Grown; hide Run;
    RunKeeps(ops);
    OpKeeps(Run(FRESH_STATE, ops).p, PastOf(ops), op);
    assert (ops + [op])[..|ops + [op]| - 1] == ops;
  }

  /**
   * Ending a span: after a poll that is locked, or idle for min_inactivity (with
   * min_activity not above it), the machine is idle. If it was active, and no suspend
   * was closed, the one event is an idle: at the last poll with input when locked, at
   * the moment input stopped otherwise, and never below the last boundary. A poll that
   * is neither leaves the span open.
   */
  lemma {:induction false} EndingExactly(ops: seq<Op>, th: Thresholds, tick: Tick)
    ensures var past, now := PastOf(ops), PastOf(ops + [Poll(th, tick)]);
            var added := Expected(past, Poll(th, tick));
            && (tick.locked ==> !now.active)
            && (th.minActivityMs <= th.minInactivityMs <= tick.idleMs ==> !now.active)
            && (past.active && !Slept(past, tick, th) ==>
                  && (tick.locked ==> added == [Event(Raised(past, EndOf(past, tick)), Idle)])
                  && (!tick.locked && th.minInactivityMs <= tick.idleMs ==>
                        added == [Event(Raised(past, tick.now - tick.idleMs), Idle)])
                  && (!tick.locked && tick.idleMs < th.minInactivityMs ==>
                        now.active && forall e :: e in added ==> e == Event(tick.now, Heartbeat)))
  {
    PastSnoc(ops, Poll(th, tick));
    hide PastOf; hide Evidence;
  }

  /**
   * Heartbeats keep their distance: a poll that sends one comes at least the heartbeat
   * interval after the last poll that sent one or an active.
   */
  lemma {:induction false} HeartbeatsKeepDistance(ops: seq<Op>, th: Thresholds, tick: Tick)
    requires PastOf(ops).beat.Some? && Event(tick.now, Heartbeat) in Expected(PastOf(ops), Poll(th, tick))
    ensures tick.now - PastOf(ops).beat.value >= th.heartbeatMs
  {
    hide PastOf;
  }
}
