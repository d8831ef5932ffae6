/** What every run of the daemon keeps, whatever ticks and restarts it sees. */
module DaemonLaws {
  import opened Sorting
  import opened Events
  import opened Daemon

  // ---- trace shape ---------------------------------------------------------

  /** The span boundaries of a trace: everything but heartbeats. */
  function Boundaries(trace: seq<Event>): seq<Event> {
    if trace == [] then []
    else
      var front, e := Boundaries(trace[..|trace| - 1]), trace[|trace| - 1];
      if e.kind == Heartbeat then front else front + [e]
  }

  /** active, idle, active, idle, … */
  predicate Alternating(b: seq<Event>) {
    b == [] ||
    (Alternating(b[..|b| - 1]) && b[|b| - 1].kind == if |b| % 2 == 1 then Active else Idle)
  }

  lemma BoundariesSnoc(trace: seq<Event>, e: Event)
    ensures Boundaries(trace + [e]) == if e.kind == Heartbeat then Boundaries(trace) else Boundaries(trace) + [e]
  {
    assert (trace + [e])[..|trace + [e]| - 1] == trace;
  }

  lemma AlternatingSnoc(b: seq<Event>, e: Event)
    ensures Alternating(b + [e]) <==> Alternating(b) && e.kind == if |b| % 2 == 0 then Active else Idle
    ensures SortedBy(b + [e], TsOf) <==> SortedBy(b, TsOf) && (b == [] || b[|b| - 1].ts <= e.ts)
  {
    assert (b + [e])[..|b + [e]| - 1] == b;
  }

  /** The four things one transition can do. */
  predicate Transition(p: Persisted, o: Outcome) {
    || (o.events == [] && o.p.reported == p.reported && o.p.lastEmittedTs == p.lastEmittedTs)
    || (|o.events| == 1 && var e := o.events[0];
        || (e.kind == Heartbeat && p.reported == o.p.reported == ReportedActive
            && o.p.lastEmittedTs == p.lastEmittedTs)
        || (e.kind == Idle && p.reported == ReportedActive && o.p.reported == ReportedIdle
            && o.p.lastEmittedTs == Some(e.ts) && (p.lastEmittedTs.Some? ==> p.lastEmittedTs.value <= e.ts))
        || (e.kind == Active && p.reported == ReportedIdle && o.p.reported == ReportedActive
            && o.p.lastEmittedTs == Some(e.ts) && (p.lastEmittedTs.Some? ==> p.lastEmittedTs.value <= e.ts)))
  }

  /** Each step or recovery emits at most one event, and only the one its state allows. */
  lemma {:induction false} OneEventPerOp(p: Persisted, op: Op)
    ensures Transition(p, Apply(p, op))
    ensures Apply(p, op).p.reported == ReportedActive && p.reported == ReportedIdle ==>
              Apply(p, op).p.pendingActiveSince == None
    ensures Apply(p, op).p.reported == ReportedActive == p.reported ==>
              Apply(p, op).p.pendingActiveSince == p.pendingActiveSince
  {
  }

  ghost predicate Shaped(p: Persisted, trace: seq<Event>) {
    var b := Boundaries(trace);
    && Alternating(b) && SortedBy(b, TsOf)
    && (p.reported == ReportedActive <==> |b| % 2 == 1)
    && p.lastEmittedTs == (if b == [] then None else Some(b[|b| - 1].ts))
    && (p.reported == ReportedActive ==> p.pendingActiveSince == None)
  }

  lemma ShapeStep(p: Persisted, trace: seq<Event>, op: Op)
    requires Shaped(p, trace)
    ensures var o := Apply(p, op); Shaped(o.p, trace + o.events)
  {
    OneEventPerOp(p, op);
    hide Apply; hide Boundaries; hide Alternating; hide SortedBy;
    var o, b := Apply(p, op), Boundaries(trace);
    if o.events == [] {
      assert trace + o.events == trace;
    } else {
      var e := o.events[0];
      assert o.events == [e];
      BoundariesSnoc(trace, e);
      AlternatingSnoc(b, e);
    }
  }

  /**
   * Trace shape: over any run from a fresh state, active and idle strictly
   * alternate starting with active, and their timestamps never decrease.
   */
  lemma {:induction false} TraceShape(ops: seq<Op>)
    ensures var r := Run(FRESH_STATE, ops); Shaped(r.p, r.events)
  {
    if ops != [] {
      TraceShape(ops[..|ops| - 1]);
      var before := Run(FRESH_STATE, ops[..|ops| - 1]);
      ShapeStep(before.p, before.events, ops[|ops| - 1]);
    }
  }

  // ---- a return must be sustained ------------------------------------------

  predicate Quiet(op: Op) {
    op.Poll? ==> !op.tick.locked && op.tick.idleMs < op.th.minActivityMs
  }

  /** From poll `j` on, which saw fresh input, nothing interrupted the claim anchored at `a`. */
  ghost predicate Sustained(ops: seq<Op>, j: nat, a: int) {
    && j < |ops| && ops[j].Poll? && InputFresh(ops[j].tick)
    && a == ops[j].tick.now - ops[j].tick.idleMs
    && forall k :: j <= k < |ops| ==> Quiet(ops[k])
  }

  lemma PendingAfter(p: Persisted, op: Op)
    requires p.reported == ReportedActive ==> p.pendingActiveSince == None
    ensures var q := Apply(p, op).p.pendingActiveSince;
            q.Some? ==>
              && Quiet(op)
              && (q == p.pendingActiveSince ||
                  (op.Poll? && InputFresh(op.tick) && q.value == op.tick.now - op.tick.idleMs))
    ensures var o := Apply(p, op);
            o.events != [] && o.events[0].kind == Active ==>
              && op.Poll? && Quiet(op) && p.pendingActiveSince.Some?
              && o.events[0].ts == Watermarked(p, p.pendingActiveSince.value)
  {
  }

  lemma {:induction false} PendingIsSustained(ops: seq<Op>)
    ensures var p := Run(FRESH_STATE, ops).p;
            p.pendingActiveSince.Some? ==> exists j: nat :: Sustained(ops, j, p.pendingActiveSince.value)
  {
    if ops != [] {
      var front, op := ops[..|ops| - 1], ops[|ops| - 1];
      assert ops == front + [op];
      hide Run; hide Apply; hide Sustained;
      PendingIsSustained(front);
      TraceShape(front);
      RunSnoc(FRESH_STATE, front, op);
      var p, q := Run(FRESH_STATE, front).p, Run(FRESH_STATE, ops).p;
      IdleWhilePending(Run(FRESH_STATE, front));
      PendingAfter(p, op);
      if q.pendingActiveSince.Some? {
        if q.pendingActiveSince == p.pendingActiveSince {
          var j: nat :| Sustained(front, j, p.pendingActiveSince.value);
          StillSustained(front, op, j, p.pendingActiveSince.value);
        } else {
          NewlySustained(front, op, q.pendingActiveSince.value);
        }
      }
    }
  }

  lemma IdleWhilePending(r: Outcome)
    requires Shaped(r.p, r.events)
    ensures r.p.reported == ReportedActive ==> r.p.pendingActiveSince == None
  {
  }

  lemma StillSustained(front: seq<Op>, op: Op, j: nat, a: int)
    requires Sustained(front, j, a) && Quiet(op)
    ensures Sustained(front + [op], j, a)
  {
  }

  lemma NewlySustained(front: seq<Op>, op: Op, a: int)
    requires op.Poll? && InputFresh(op.tick) && a == op.tick.now - op.tick.idleMs && Quiet(op)
    ensures Sustained(front + [op], |front|, a)
  {
  }

  /**
   * Every active is preceded by an unbroken run of at least two polls, all unlocked
   * and with idle time below min_activity, of which the first saw fresh input. It
   * carries the moment of that input, or the watermark if the clock went back.
   */
  lemma {:induction false} ActiveIsSustained(ops: seq<Op>, op: Op, ts: int)
    requires Apply(Run(FRESH_STATE, ops).p, op).events == [Event(ts, Active)]
    ensures op.Poll?
    ensures exists j: nat, a: int ::
              j < |ops| && Sustained(ops + [op], j, a) && ts == Watermarked(Run(FRESH_STATE, ops).p, a)
  {
    hide Apply; hide Run;
    TraceShape(ops);
    PendingIsSustained(ops);
    var p := Run(FRESH_STATE, ops).p;
    PendingAfter(p, op);
    var a := p.pendingActiveSince.value;
    var j: nat :| Sustained(ops, j, a);
    assert Sustained(ops + [op], j, a);
  }

  // ---- no over-claim -------------------------------------------------------

  function LaterInput(r: Option<int>, op: Op): Option<int> {
    if op.Restart? then r
    else
      var input := op.tick.now - op.tick.idleMs;
      if r.Some? && r.value > input then r else Some(input)
  }

  /** The latest moment of input the daemon has been told of: the largest now - idle_ms. */
  function LatestInput(ops: seq<Op>): Option<int> {
    if ops == [] then None else LaterInput(LatestInput(ops[..|ops| - 1]), ops[|ops| - 1])
  }

  predicate Under(o: Option<int>, bound: int) { o.Some? ==> o.value <= bound }

  predicate Bounded(p: Persisted, bound: int) {
    Under(p.lastActiveTime, bound) && Under(p.lastHeartbeat, bound)
    && Under(p.pendingActiveSince, bound) && Under(p.lastEmittedTs, bound)
  }

  /** Whoever is active, or about to be, has been seen. */
  predicate Evidenced(p: Persisted) {
    p.reported == ReportedActive || p.pendingActiveSince.Some? ==> p.lastActiveTime.Some?
  }

  predicate Slack(op: Op, slack: int) {
    slack >= FRESH_INPUT_MS && slack >= op.th.minInactivityMs && slack >= op.th.minActivityMs
  }

  lemma BoundStep(p: Persisted, op: Op, slack: int, bound: int)
    requires Bounded(p, bound) && Evidenced(p) && Slack(op, slack)
    requires op.Poll? ==> op.tick.now - op.tick.idleMs + slack <= bound
    ensures Safe(Apply(p, op), bound)
  {
    match op
    case Restart(th, now) => if LastEvidence(p).Some? { GapBound(p, now - LastEvidence(p).value, th, bound); }
    case Poll(th, tick) =>
      if tick.monoElapsedMs.Some? { GapBound(p, Divergence(p, tick), th, bound); }
      var s := SuspendPhase(p, tick, th);
      assert Safe(s, bound);
      hide ReconcileGap; hide SuspendPhase;
      var q := Observe(s.p, tick);
      PhaseBound(q, tick, th, slack, bound);
      hide ActivePhase; hide IdlePhase;
  }

  predicate Safe(o: Outcome, bound: int) {
    Bounded(o.p, bound) && Evidenced(o.p) && forall e :: e in o.events ==> e.ts <= bound
  }

  lemma GapBound(p: Persisted, gapMs: int, th: Thresholds, bound: int)
    requires Bounded(p, bound) && Evidenced(p)
    ensures Safe(ReconcileGap(p, gapMs, th), bound)
  {
  }

  lemma PhaseBound(q: Persisted, tick: Tick, th: Thresholds, slack: int, bound: int)
    requires Bounded(q, bound)
    requires q.reported == ReportedActive || q.pendingActiveSince.Some? ==> q.lastActiveTime.Some?
    requires InputFresh(tick) ==> q.lastActiveTime.Some?
    requires Slack(Poll(th, tick), slack) && tick.now - tick.idleMs + slack <= bound
    ensures q.reported == ReportedActive ==> Safe(ActivePhase(q, tick, th), bound)
    ensures q.reported == ReportedIdle ==> Safe(IdlePhase(q, tick, th), bound)
  {
  }

  /** A state that knows nothing yet. */
  predicate Blank(p: Persisted) {
    p.reported == ReportedIdle && p.lastActiveTime == None && p.lastHeartbeat == None
    && p.pendingActiveSince == None && p.lastEmittedTs == None
  }

  /** No input yet and nothing known, or everything within the slack of the latest input. */
  predicate Honest(r: Outcome, latest: Option<int>, slack: int) {
    if latest.None? then Blank(r.p) && r.events == []
    else
      && Bounded(r.p, latest.value + slack) && Evidenced(r.p)
      && forall e :: e in r.events ==> e.ts <= latest.value + slack
  }

  lemma HonestStep(before: Outcome, latest: Option<int>, op: Op, slack: int)
    requires Honest(before, latest, slack) && Slack(op, slack)
    ensures var o := Apply(before.p, op);
            Honest(Outcome(o.p, before.events + o.events), LaterInput(latest, op), slack)
  {
    var bound := LaterInput(latest, op);
    if bound.Some? {
      BoundStep(before.p, op, slack, bound.value + slack);
      hide Apply;
    }
  }

  lemma {:induction false} OverClaimInvariant(ops: seq<Op>, slack: int)
    requires forall op :: op in ops ==> Slack(op, slack)
    ensures Honest(Run(FRESH_STATE, ops), LatestInput(ops), slack)
  {
    if ops != [] {
      var front, op := ops[..|ops| - 1], ops[|ops| - 1];
      hide Apply; hide Slack; hide Honest; hide LaterInput;
      OverClaimInvariant(front, slack);
      HonestStep(Run(FRESH_STATE, front), LatestInput(front), op, slack);
    }
  }

  /**
   * Over-claim bound: whatever the clock does, no event of any run claims a moment
   * later than the latest input seen so far plus the largest of the three
   * thresholds.
   */
  lemma NoOverClaim(ops: seq<Op>, slack: int)
    requires forall op :: op in ops ==> Slack(op, slack)
    ensures forall e :: e in Run(FRESH_STATE, ops).events ==>
              LatestInput(ops).Some? && e.ts <= LatestInput(ops).value + slack
  {
    OverClaimInvariant(ops, slack);
  }

  // ---- suspends ------------------------------------------------------------

  function WallAfter(wall: Option<int>, ops: seq<Op>): Option<int> {
    if ops == [] then wall
    else if ops[|ops| - 1].Poll? then Some(ops[|ops| - 1].tick.now)
    else WallAfter(wall, ops[..|ops| - 1])
  }

  /** The wall clock never goes back between polls, and idle times are not negative. */
  predicate Forward(wall: Option<int>, ops: seq<Op>) {
    ops == [] ||
    var front, op := ops[..|ops| - 1], ops[|ops| - 1];
    Forward(wall, front) && (op.Poll? ==> 0 <= op.tick.idleMs && Under(WallAfter(wall, front), op.tick.now))
  }

  /** Nothing remembered lies after the previous poll. */
  predicate Behind(p: Persisted) {
    if p.lastSeenWall.Some? then Bounded(p, p.lastSeenWall.value) else Blank(p)
  }

  lemma BehindStep(p: Persisted, op: Op)
    requires Behind(p) && Evidenced(p)
    requires op.Poll? ==> 0 <= op.tick.idleMs && Under(p.lastSeenWall, op.tick.now)
    ensures var q := Apply(p, op).p;
            && Behind(q) && Evidenced(q)
            && q.lastSeenWall == (if op.Poll? then Some(op.tick.now) else p.lastSeenWall)
  {
  }

  lemma {:induction false} BehindAlways(ops: seq<Op>)
    requires Forward(None, ops)
    ensures var p := Run(FRESH_STATE, ops).p;
            Behind(p) && Evidenced(p) && p.lastSeenWall == WallAfter(None, ops)
  {
    if ops != [] {
      BehindAlways(ops[..|ops| - 1]);
      BehindStep(Run(FRESH_STATE, ops[..|ops| - 1]).p, ops[|ops| - 1]);
      hide Apply;
    }
  }

  /** The wall clock ran ahead of the monotonic clock by at least min_inactivity. */
  predicate Suspended(p: Persisted, tick: Tick, th: Thresholds) {
    tick.monoElapsedMs.Some? && Divergence(p, tick) > 0 && Divergence(p, tick) >= th.minInactivityMs
  }

  /** Waking from a suspend while active closes the span, no later than the poll before it. */
  lemma SuspendCloses(ops: seq<Op>, tick: Tick, th: Thresholds)
    requires var p := Run(FRESH_STATE, ops).p;
             Forward(None, ops + [Poll(th, tick)]) && p.reported == ReportedActive && Suspended(p, tick, th)
    ensures var p := Run(FRESH_STATE, ops).p;
            var o := Step(p, tick, th);
            && p.lastSeenWall.Some?
            && o.p.reported == ReportedIdle
            && |o.events| == 1 && o.events[0].kind == Idle && o.events[0].ts <= p.lastSeenWall.value
  {
    assert (ops + [Poll(th, tick)])[..|ops|] == ops;
    BehindAlways(ops);
    OneEventPerOp(Run(FRESH_STATE, ops).p, Poll(th, tick));
  }

  /** A claim at or after `w` less the freshness, or none. */
  predicate Recent(p: Persisted, w: int) {
    p.pendingActiveSince.Some? ==> Watermarked(p, p.pendingActiveSince.value) > w - FRESH_INPUT_MS
  }

  lemma RecentStep(p: Persisted, op: Op, w: int)
    requires Recent(p, w) && (p.reported == ReportedActive ==> p.pendingActiveSince == None)
    requires op.Poll? ==> w <= op.tick.now
    ensures var o := Apply(p, op);
            && Recent(o.p, w) && (o.p.reported == ReportedActive ==> o.p.pendingActiveSince == None)
            && forall e :: e in o.events && e.kind == Active ==> e.ts > w - FRESH_INPUT_MS
  {
  }

  lemma WallGrows(wall: Option<int>, ops: seq<Op>, w: int)
    requires Forward(wall, ops) && wall.Some? && w <= wall.value
    ensures WallAfter(wall, ops).Some? && w <= WallAfter(wall, ops).value
  {
  }

  lemma {:induction false} ActivesStayRecent(p: Persisted, later: seq<Op>, w: int)
    requires Recent(p, w) && (p.reported == ReportedActive ==> p.pendingActiveSince == None)
    requires Forward(Some(w), later)
    ensures var r := Run(p, later);
            && Recent(r.p, w) && (r.p.reported == ReportedActive ==> r.p.pendingActiveSince == None)
            && forall e :: e in r.events && e.kind == Active ==> e.ts > w - FRESH_INPUT_MS
  {
    if later != [] {
      var front, op := later[..|later| - 1], later[|later| - 1];
      ActivesStayRecent(p, front, w);
      WallGrows(Some(w), front, w);
      RecentStep(Run(p, front).p, op, w);
      hide Apply;
    }
  }

  /** A return claim from before the suspend that this tick does not drop. */
  predicate StaleClaim(p: Persisted, tick: Tick, th: Thresholds) {
    && p.pendingActiveSince.Some?
    && Watermarked(p, p.pendingActiveSince.value) <= tick.now - FRESH_INPUT_MS
    && !tick.locked && tick.idleMs < th.minActivityMs
  }

  /** No continuation claims presence from before the wake-up. */
  ghost predicate NotBilled(p: Persisted, tick: Tick, th: Thresholds) {
    forall later: seq<Op>, e: Event ::
      Forward(Some(tick.now), later) && e in Run(p, [Poll(th, tick)] + later).events && e.kind == Active ==>
        e.ts > tick.now - FRESH_INPUT_MS
  }

  lemma WakeForgets(p: Persisted, tick: Tick, th: Thresholds)
    requires Evidenced(p) && (p.reported == ReportedActive ==> p.pendingActiveSince == None)
    requires !StaleClaim(p, tick, th)
    ensures var o := Step(p, tick, th);
            && Recent(o.p, tick.now) && (o.p.reported == ReportedActive ==> o.p.pendingActiveSince == None)
            && forall e :: e in o.events && e.kind == Active ==> e.ts > tick.now - FRESH_INPUT_MS
  {
  }

  lemma RunOne(p: Persisted, op: Op, later: seq<Op>)
    ensures Run(p, [op] + later).events == Apply(p, op).events + Run(Apply(p, op).p, later).events
  {
    assert Run(p, []) == Outcome(p, []);
    hide Run; hide Apply;
    RunConcat(p, [op], later);
    RunSnoc(p, [], op);
    assert [] + [op] == [op] && [] + Apply(p, op).events == Apply(p, op).events;
  }

  /**
   * What a poll leaves to be billed, exactly: on a wall clock that never went back,
   * every later active is younger than the freshness at the poll if and only if no
   * return claim was under way that the poll lets live.
   */
  lemma BillingExact(ops: seq<Op>, tick: Tick, th: Thresholds)
    requires Forward(None, ops + [Poll(th, tick)])
    ensures var p := Run(FRESH_STATE, ops).p;
            NotBilled(p, tick, th) <==> !StaleClaim(p, tick, th)
  {
    var p := Run(FRESH_STATE, ops).p;
    assert (ops + [Poll(th, tick)])[..|ops|] == ops;
    BehindAlways(ops);
    TraceShape(ops);
    if !StaleClaim(p, tick, th) {
      WakeForgets(p, tick, th);
      forall later: seq<Op>, e: Event |
        Forward(Some(tick.now), later) && e in Run(p, [Poll(th, tick)] + later).events && e.kind == Active
        ensures e.ts > tick.now - FRESH_INPUT_MS
      {
        RunOne(p, Poll(th, tick), later);
        ActivesStayRecent(Step(p, tick, th).p, later, tick.now);
      }
    } else {
      StaleClaimIsBilled(p, tick, th);
    }
  }

  /** Suspends are not billed, exactly: the poll that wakes up after one is such a poll. */
  lemma {:induction false} SuspendBilling(ops: seq<Op>, tick: Tick, th: Thresholds)
    requires Forward(None, ops + [Poll(th, tick)]) && Suspended(Run(FRESH_STATE, ops).p, tick, th)
    ensures var p := Run(FRESH_STATE, ops).p;
            NotBilled(p, tick, th) <==> !StaleClaim(p, tick, th)
  {
    hide *;
    BillingExact(ops, tick, th);
  }

  /**
   * Nor is the downtime of a restart, exactly: the first poll after it bills nothing
   * from before if and only if the state saved held no return claim that this poll
   * lets live. Recovery looks at active spans alone.
   */
  lemma {:induction false} RestartBilling(ops: seq<Op>, started: int, tick: Tick, th: Thresholds)
    requires Forward(None, ops + [Restart(th, started)] + [Poll(th, tick)])
    ensures var saved := Run(FRESH_STATE, ops).p;
            NotBilled(Recover(saved, started, th).p, tick, th) <==> !StaleClaim(saved, tick, th)
  {
    var saved := Run(FRESH_STATE, ops).p;
    TraceShape(ops);
    IdleWhilePending(Run(FRESH_STATE, ops));
    RestartKeepsClaim(saved, started, tick, th);
    RunSnoc(FRESH_STATE, ops, Restart(th, started));
    assert Apply(saved, Restart(th, started)) == Recover(saved, started, th);
    hide Run; hide Recover; hide StaleClaim; hide NotBilled; hide Forward; hide Shaped; hide Apply;
    BillingExact(ops + [Restart(th, started)], tick, th);
  }

  lemma RestartKeepsClaim(p: Persisted, started: int, tick: Tick, th: Thresholds)
    requires p.reported == ReportedActive ==> p.pendingActiveSince == None
    ensures StaleClaim(Recover(p, started, th).p, tick, th) <==> StaleClaim(p, tick, th)
  {
  }

  /** Eight hours switched off with a claim saved: the first input after it claims them all. */
  lemma {:induction false} RestartDuringReturnIsBilled()
    ensures var th := Thresholds(600_000, 30_000, 300_000);
            var ops := [Poll(th, Tick(0, 0, false, None))] + [Restart(th, 28_800_000)];
            var first := Tick(28_800_000, 0, false, None);
            Step(Run(FRESH_STATE, ops).p, first, th).events == [Event(0, Active)]
  {
    var th := Thresholds(600_000, 30_000, 300_000);
    var op := Poll(th, Tick(0, 0, false, None));
    assert [] + [op] == [op] && Run(FRESH_STATE, []) == Outcome(FRESH_STATE, []);
    hide Run;
    RunSnoc(FRESH_STATE, [], op);
    RunSnoc(FRESH_STATE, [op], Restart(th, 28_800_000));
  }

  lemma StaleClaimIsBilled(p: Persisted, tick: Tick, th: Thresholds)
    requires p.reported == ReportedActive ==> p.pendingActiveSince == None
    requires StaleClaim(p, tick, th) && 0 <= tick.idleMs
    ensures !NotBilled(p, tick, th)
  {
    var ts := Watermarked(p, p.pendingActiveSince.value);
    var next := Poll(th, Tick(tick.now + th.minActivityMs, 0, false, None));
    var later := [next];
    assert later[..0] == [];
    assert Forward(Some(tick.now), later);
    RunOne(p, Poll(th, tick), later);
    RunOne(Step(p, tick, th).p, next, []);
    assert [next] + [] == later;
    StaleClaimEmits(p, tick, th, next);
    var o := Step(p, tick, th);
    var e, all := Event(ts, Active), Run(p, [Poll(th, tick)] + later).events;
    assert Run(o.p, later).events == Apply(o.p, next).events + Run(Apply(o.p, next).p, []).events;
    assert all == o.events + Run(o.p, later).events;
    hide Run; hide Step; hide Apply;
    if e !in o.events {
      assert e in Run(o.p, later).events;
    }
    assert e in all;
  }

  lemma StaleClaimEmits(p: Persisted, tick: Tick, th: Thresholds, next: Op)
    requires p.reported == ReportedActive ==> p.pendingActiveSince == None
    requires StaleClaim(p, tick, th) && 0 <= tick.idleMs
    requires next.Poll? && next.th == th
    requires next.tick.monoElapsedMs == None && !next.tick.locked && next.tick.idleMs == 0
    requires next.tick.now - p.pendingActiveSince.value >= th.minActivityMs
    ensures var e := Event(Watermarked(p, p.pendingActiveSince.value), Active);
            var o := Step(p, tick, th);
            e in o.events || e in Apply(o.p, next).events
  {
  }

  /** The failing family has members: three hours asleep, claimed in full. */
  lemma {:induction false} SuspendDuringReturnIsBilled()
    ensures var th := Thresholds(600_000, 30_000, 300_000);
            var ops := [Poll(th, Tick(0, 0, false, None))];
            var wake := Tick(10_800_000, 0, false, Some(15_000));
            && Suspended(Run(FRESH_STATE, ops).p, wake, th)
            && Step(Run(FRESH_STATE, ops).p, wake, th).events == [Event(0, Active)]
  {
    var th := Thresholds(600_000, 30_000, 300_000);
    var op := Poll(th, Tick(0, 0, false, None));
    RunSnoc(FRESH_STATE, [], op);
    assert [] + [op] == [op];
  }
}
