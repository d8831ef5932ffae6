/**
 * The daemon's debounced hysteresis machine (state_machine.py).
 *
 * `Step` and `Recover` are the transitions as functions on the persisted state;
 * the class updates its fields in place, branch by branch, and is proved to make
 * exactly these transitions.
 */
module Daemon {
  import opened Events

  const FRESH_INPUT_MS := 20_000

  datatype Thresholds = Thresholds(minInactivityMs: int, minActivityMs: int, heartbeatMs: int)

  datatype Reported = ReportedActive | ReportedIdle

  datatype Persisted = Persisted(
    reported: Reported,
    lastActiveTime: Option<int>,
    lastHeartbeat: Option<int>,
    pendingActiveSince: Option<int>,
    lastEmittedTs: Option<int>,
    lastSeenWall: Option<int>)

  const FRESH_STATE := Persisted(ReportedIdle, None, None, None, None, None)

  datatype Tick = Tick(now: int, idleMs: int, locked: bool, monoElapsedMs: Option<int>)

  datatype Outcome = Outcome(p: Persisted, events: seq<Event>)

  // ---- transitions ---------------------------------------------------------

  predicate InputFresh(tick: Tick) { !tick.locked && tick.idleMs < FRESH_INPUT_MS }

  /** A span boundary never goes below the one before it. */
  function Watermarked(p: Persisted, ts: int): int {
    if p.lastEmittedTs.Some? && ts < p.lastEmittedTs.value then p.lastEmittedTs.value else ts
  }

  function EmitBoundary(p: Persisted, ts: int, kind: Kind): Outcome {
    Outcome(p.(lastEmittedTs := Some(Watermarked(p, ts))), [Event(Watermarked(p, ts), kind)])
  }

  function LastEvidence(p: Persisted): Option<int> {
    if p.lastHeartbeat.Some? && p.lastActiveTime.Some? then
      Some(if p.lastHeartbeat.value > p.lastActiveTime.value then p.lastHeartbeat.value else p.lastActiveTime.value)
    else if p.lastHeartbeat.Some? then p.lastHeartbeat
    else p.lastActiveTime
  }

  function ReconcileGap(p: Persisted, gapMs: int, th: Thresholds): Outcome {
    if p.reported != ReportedActive || gapMs < th.minInactivityMs || LastEvidence(p).None? then Outcome(p, [])
    else EmitBoundary(p.(reported := ReportedIdle, pendingActiveSince := None), LastEvidence(p).value, Idle)
  }

  function Recover(p: Persisted, now: int, th: Thresholds): Outcome {
    if LastEvidence(p).None? then Outcome(p, []) else ReconcileGap(p, now - LastEvidence(p).value, th)
  }

  predicate DueHeartbeat(p: Persisted, now: int, th: Thresholds) {
    p.lastHeartbeat.Some? ==> now - p.lastHeartbeat.value >= th.heartbeatMs
  }

  /** How much the wall clock ran ahead of the monotonic clock since the last tick. */
  function Divergence(p: Persisted, tick: Tick): int
    requires tick.monoElapsedMs.Some?
  {
    tick.now - (if p.lastSeenWall.Some? then p.lastSeenWall.value else tick.now) - tick.monoElapsedMs.value
  }

  /** First phase of a tick: close the span over a suspend. */
  function SuspendPhase(p: Persisted, tick: Tick, th: Thresholds): Outcome {
    if tick.monoElapsedMs.Some? && Divergence(p, tick) > 0 then ReconcileGap(p, Divergence(p, tick), th)
    else Outcome(p, [])
  }

  /** Second phase: note the observation. */
  function Observe(p: Persisted, tick: Tick): Persisted {
    p.(lastSeenWall := Some(tick.now),
       lastActiveTime := if InputFresh(tick) then Some(tick.now) else p.lastActiveTime)
  }

  function ActivePhase(p: Persisted, tick: Tick, th: Thresholds): Outcome {
    if tick.locked || tick.idleMs >= th.minInactivityMs then
      var ts := if !tick.locked then tick.now - tick.idleMs
                else if p.lastActiveTime.Some? then p.lastActiveTime.value else tick.now;
      var o := EmitBoundary(p, ts, Idle);
      Outcome(o.p.(reported := ReportedIdle, pendingActiveSince := None), o.events)
    else if DueHeartbeat(p, tick.now, th) then
      Outcome(p.(lastHeartbeat := Some(tick.now)), [Event(tick.now, Heartbeat)])
    else Outcome(p, [])
  }

  /** The claim under way after this tick, if any. */
  function Pending(p: Persisted, tick: Tick): Option<int> {
    if InputFresh(tick) && p.pendingActiveSince.None? then Some(tick.now - tick.idleMs) else p.pendingActiveSince
  }

  function IdlePhase(p: Persisted, tick: Tick, th: Thresholds): Outcome {
    if tick.locked || tick.idleMs >= th.minActivityMs then Outcome(p.(pendingActiveSince := None), [])
    else
      var q := p.(pendingActiveSince := Pending(p, tick));
      if q.pendingActiveSince.Some? && tick.now - q.pendingActiveSince.value >= th.minActivityMs then
        var o := EmitBoundary(q, q.pendingActiveSince.value, Active);
        Outcome(o.p.(reported := ReportedActive, pendingActiveSince := None, lastHeartbeat := Some(tick.now)), o.events)
      else Outcome(q, [])
  }

  function Step(p: Persisted, tick: Tick, th: Thresholds): Outcome {
    var s := SuspendPhase(p, tick, th);
    var q := Observe(s.p, tick);
    var o := if q.reported == ReportedActive then ActivePhase(q, tick, th) else IdlePhase(q, tick, th);
    Outcome(o.p, s.events + o.events)
  }

  // ---- the object ----------------------------------------------------------

  class StateMachine {
    const t: Thresholds
    var reported: Reported
    var lastActiveTime: Option<int>
    var lastHeartbeat: Option<int>
    var pendingActiveSince: Option<int>
    var lastEmittedTs: Option<int>
    var lastSeenWall: Option<int>

    function Snapshot(): Persisted
      reads this
    {
      Persisted(reported, lastActiveTime, lastHeartbeat, pendingActiveSince, lastEmittedTs, lastSeenWall)
    }

    constructor (thresholds: Thresholds, persisted: Persisted)
      ensures t == thresholds && Snapshot() == persisted
    {
      t := thresholds;
      reported := persisted.reported;
      lastActiveTime := persisted.lastActiveTime;
      lastHeartbeat := persisted.lastHeartbeat;
      pendingActiveSince := persisted.pendingActiveSince;
      lastEmittedTs := persisted.lastEmittedTs;
      lastSeenWall := persisted.lastSeenWall;
    }

    method Emit(at: int, kind: Kind) returns (e: Event)
      modifies `lastEmittedTs
      ensures Outcome(Snapshot(), [e]) == EmitBoundary(old(Snapshot()), at, kind)
    {
      var ts := at;
      if lastEmittedTs.Some? && ts < lastEmittedTs.value { ts := lastEmittedTs.value; }
      lastEmittedTs := Some(ts);
      e := Event(ts, kind);
    }

    method Reconcile(gapMs: int) returns (out: seq<Event>)
      modifies this
      ensures Outcome(Snapshot(), out) == ReconcileGap(old(Snapshot()), gapMs, t)
    {
      if reported != ReportedActive || gapMs < t.minInactivityMs { return []; }
      var anchor := LastEvidence(Snapshot());
      if anchor.None? { return []; }
      reported := ReportedIdle;
      pendingActiveSince := None;
      var e := Emit(anchor.value, Idle);
      out := [e];
    }

    method RecoverAt(now: int) returns (out: seq<Event>)
      modifies this
      ensures Outcome(Snapshot(), out) == Recover(old(Snapshot()), now, t)
    {
      var a := LastEvidence(Snapshot());
      if a.None? { return []; }
      out := Reconcile(now - a.value);
    }

    method TakeStep(tick: Tick) returns (out: seq<Event>)
      modifies this
      ensures Outcome(Snapshot(), out) == Step(old(Snapshot()), tick, t)
    {
      out := [];
      if tick.monoElapsedMs.Some? {
        var seen := if lastSeenWall.Some? then lastSeenWall.value else tick.now;
        var divergence := tick.now - seen - tick.monoElapsedMs.value;
        if divergence > 0 { out := Reconcile(divergence); }
      }
      ghost var s := SuspendPhase(old(Snapshot()), tick, t);
      assert Outcome(Snapshot(), out) == s;
      hide SuspendPhase; hide ReconcileGap; hide Divergence;
      lastSeenWall := Some(tick.now);
      var inputFresh := InputFresh(tick);
      if inputFresh { lastActiveTime := Some(tick.now); }
      ghost var q := Snapshot();
      assert q == Observe(s.p, tick);
      hide Observe;

      if reported == ReportedActive {
        if tick.locked || tick.idleMs >= t.minInactivityMs {
          var ts;
          if tick.locked {
            ts := if lastActiveTime.Some? then lastActiveTime.value else tick.now;
          } else {
            ts := tick.now - tick.idleMs;
          }
          var e := Emit(ts, Idle);
          out := out + [e];
          reported := ReportedIdle;
          pendingActiveSince := None;
        } else if lastHeartbeat.None? || tick.now - lastHeartbeat.value >= t.heartbeatMs {
          out := out + [Event(tick.now, Heartbeat)];
          lastHeartbeat := Some(tick.now);
        }
      } else {
        if tick.locked || tick.idleMs >= t.minActivityMs {
          pendingActiveSince := None;
        } else {
          if inputFresh && pendingActiveSince.None? { pendingActiveSince := Some(tick.now - tick.idleMs); }
          if pendingActiveSince.Some? {
            if tick.now - pendingActiveSince.value >= t.minActivityMs {
              var e := Emit(pendingActiveSince.value, Active);
              out := out + [e];
              reported := ReportedActive;
              pendingActiveSince := None;
              lastHeartbeat := Some(tick.now);
            }
          }
        }
      }
    }
  }

  // ---- runs ----------------------------------------------------------------

  /** A poll, or the recovery at the start of a process; thresholds may change at any time. */
  datatype Op = Poll(th: Thresholds, tick: Tick) | Restart(th: Thresholds, now: int)

  function Apply(p: Persisted, op: Op): Outcome {
    match op
    case Poll(th, tick) => Step(p, tick, th)
    case Restart(th, now) => Recover(p, now, th)
  }

  function Run(p: Persisted, ops: seq<Op>): Outcome {
    if ops == [] then Outcome(p, [])
    else
      var before := Run(p, ops[..|ops| - 1]);
      var o := Apply(before.p, ops[|ops| - 1]);
      Outcome(o.p, before.events + o.events)
  }

  lemma RunSnoc(p: Persisted, ops: seq<Op>, op: Op)
    ensures var before := Run(p, ops); var o := Apply(before.p, op);
            Run(p, ops + [op]) == Outcome(o.p, before.events + o.events)
  {
    assert (ops + [op])[..|ops + [op]| - 1] == ops;
  }

  lemma {:induction false} RunConcat(p: Persisted, a: seq<Op>, b: seq<Op>)
    ensures var x := Run(p, a); var y := Run(x.p, b); Run(p, a + b) == Outcome(y.p, x.events + y.events)
  {
    if b == [] {
      assert a + b == a && Run(Run(p, a).p, b).events == [];
      hide Apply;
    } else {
      hide Run; hide Apply;
      var front, op := b[..|b| - 1], b[|b| - 1];
      assert a + b == (a + front) + [op] && b == front + [op];
      RunConcat(p, a, front);
      RunSnoc(p, a + front, op);
      RunSnoc(Run(p, a).p, front, op);
    }
  }
}
