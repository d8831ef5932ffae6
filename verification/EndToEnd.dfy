/**
 * From the keyboard to the rollup: a daemon's run, delivered by the outbox protocol to
 * the tenant store, is recomputed into a day that claims exactly what the daemon has
 * confirmed.
 */
module EndToEnd {
  import opened Sorting
  import opened Events
  import opened Intervals
  import opened LocalTime
  import opened Pairing
  import opened Day
  import DayLocality
  import opened Week
  import opened Daemon
  import opened DaemonLaws
  import opened RoundTrip
  import opened Outbox
  import opened Delivery
  import opened Store
  import opened StoreLaws
  import Totals

  const NEW_OUTBOX := Saved(0, [], None)

  /** The protocol from a new outbox and a store without events of this machine. */
  function Protocol(acts: seq<Act>): World { RunActs(Start(NEW_OUTBOX, Server({}, [])), acts) }

  /** The store after the batches that have arrived, starting empty. */
  function Stored(acts: seq<Act>, m: string, z: Zone): State {
    if acts == [] then EMPTY
    else
      var front, act := acts[..|acts| - 1], acts[|acts| - 1];
      var sent := Protocol(front).sent;
      if act.Arrive? && act.i < |sent| then Ingested(Stored(front, m, z), m, sent[act.i], z) else Stored(front, m, z)
  }

  /** The store is the protocol's server. */
  lemma {:induction false} StoreIsServer(acts: seq<Act>, m: string, z: Zone)
    ensures ServerOf(Stored(acts, m, z), m) == Protocol(acts).server
    ensures forall x: string :: x != m ==> EventsOf(Stored(acts, m, z).events, x) == []
  {
    hide Ingested;
    if acts != [] {
      var front, act := acts[..|acts| - 1], acts[|acts| - 1];
      StoreIsServer(front, m, z);
      var sent := Protocol(front).sent;
      if act.Arrive? && act.i < |sent| {
        IngestIsAccept(Stored(front, m, z), m, sent[act.i], z);
        forall x: string | x != m ensures EventsOf(Stored(acts, m, z).events, x) == [] {
          assert ServerOf(Stored(acts, m, z), x) == ServerOf(Stored(front, m, z), x);
        }
      }
    }
  }

  /** When nothing is lost and nothing is left to send, the store holds the machine's whole trace. */
  lemma StoredTrace(acts: seq<Act>, m: string, z: Zone)
    requires Faithful(Start(NEW_OUTBOX, Server({}, [])), acts) && Undelivered(Protocol(acts)) == []
    ensures EventsOf(Stored(acts, m, z).events, m) == Protocol(acts).appended
  {
    StoreIsServer(acts, m, z);
    NothingLost(NEW_OUTBOX, Server({}, []), acts);
    hide RunActs; hide Faithful; hide Stored; hide Undelivered; hide EventsOf;
    var w := Protocol(acts);
    assert w.server.log + [] == w.server.log;
  }

  // ---- what the trace confirms ---------------------------------------------

  /** The confirmed spans, the open one up to the check time or the grace after the last sign of life. */
  function Confirmed(c: Claims, lastAlive: int, checkTime: int, grace: int): seq<Interval> {
    c.closed + if c.open.Some? then [Interval(c.open.value, Min(checkTime, lastAlive + grace))] else []
  }

  lemma ConfirmedPoints(c: Claims, lastAlive: int, checkTime: int, grace: int, t: int)
    ensures t in Points(Confirmed(c, lastAlive, checkTime, grace)) <==>
            || t in Points(c.closed)
            || (c.open.Some? && c.open.value <= t < Min(checkTime, lastAlive + grace))
  {
    if c.open.Some? {
      PointsOfSnoc(c.closed, Interval(c.open.value, Min(checkTime, lastAlive + grace)));
    } else {
      assert c.closed + [] == c.closed;
    }
    hide Points;
  }

  /** Where a trace of nested heartbeats is open: from the last active on. */
  lemma OpenInTrace(ops: seq<Op>, t: int)
    requires Inside(Run(FRESH_STATE, ops).events)
    ensures var trace, c := Run(FRESH_STATE, ops).events, ClaimsOf(ops);
            PresentAt(trace, t) && !AbsenceAfter(trace, t) <==> c.open.Some? && c.open.value <= t
  {
    var trace := Run(FRESH_STATE, ops).events;
    var b := Boundaries(trace);
    TraceShape(ops);
    ClaimsArePaired(ops);
    OpenIsLastActive(b);
    AlternatingEnd(b);
    NestedClosed(ops, t);
    EmptyBoundaries(t);
    hide Run; hide ClaimsOf; hide Inside; hide PairFold; hide Alternating; hide SortedBy; hide ClosedAt; hide LastAt;
    if b != [] && b[|b| - 1].kind == Idle && !AbsenceAfter(trace, t) { LastIdleIsAbsence(trace, t); }
    hide Boundaries;
  }

  lemma ConfirmedActive(ops: seq<Op>, t: int, checkTime: int, grace: int)
    requires Inside(Run(FRESH_STATE, ops).events)
    ensures var trace := Run(FRESH_STATE, ops).events;
            ActiveAt(trace, t, checkTime, grace) <==>
            t in Points(Merge(Confirmed(ClaimsOf(ops), LastAlive(trace), checkTime, grace)))
  {
    var trace := Run(FRESH_STATE, ops).events;
    hide Run; hide ClaimsOf; hide Inside; hide LastAt; hide LastAlive; hide Points; hide Canonical; hide AbsenceAfter;
    hide Confirmed; hide Nested;
    NestedClosed(ops, t);
    OpenInTrace(ops, t);
    ConfirmedPoints(ClaimsOf(ops), LastAlive(trace), checkTime, grace, t);
  }

  // ---- the theorem ---------------------------------------------------------

  /**
   * End to end: a daemon's run with nested heartbeats, appended to the outbox and
   * delivered without a grown retry, whatever was lost, repeated or reordered on the
   * way, makes each day of the machine's ledger claim what the confirmed spans claim.
   */
  lemma {:induction false} DayClaimsWhatWasConfirmed(
    ops: seq<Op>, acts: seq<Act>, m: string, cfg: Config, d: int, ledger: Ledger)
    requires Inside(Run(FRESH_STATE, ops).events) && Protocol(acts).appended == Run(FRESH_STATE, ops).events
    requires Faithful(Start(NEW_OUTBOX, Server({}, [])), acts) && Undelivered(Protocol(acts)) == []
    requires RoleOf(cfg.roles, m) == ledger
    ensures var trace, win := Run(FRESH_STATE, ops).events, Window(d, cfg.settings);
            var confirmed := Merge(Confirmed(ClaimsOf(ops), LastAlive(trace), win.end, GRACE_MS));
            Totals.Claims(Stored(acts, m, cfg.settings.zone).events, cfg, d, ledger)
            == Totals.MeasuredOf(LayersOf(confirmed, [], win, cfg.settings, ledger))
  {
    var trace, win := Run(FRESH_STATE, ops).events, Window(d, cfg.settings);
    var log := Stored(acts, m, cfg.settings.zone).events;
    var mine := ForLedger(log, cfg.roles, ledger);
    var confirmed := Merge(Confirmed(ClaimsOf(ops), LastAlive(trace), win.end, GRACE_MS));
    var active := Pair(mine, win.end, GRACE_MS).active;
    hide Run; hide ClaimsOf; hide Inside; hide Stored; hide Protocol; hide Faithful; hide Undelivered; hide Window;
    hide Pair; hide Points; hide Canonical; hide EventsOf; hide ForLedger; hide ActiveAt; hide LayersOf; hide Confirmed;
    hide LastAlive; hide Range; hide RunActs;
    StoreIsServer(acts, m, cfg.settings.zone);
    StoredTrace(acts, m, cfg.settings.zone);
    forall t ensures t in Points(active) <==> t in Points(confirmed) {
      PairMeaning(mine, t, win.end, GRACE_MS);
      OnlyOne(log, cfg, m, ledger, t, win.end);
      ConfirmedActive(ops, t, win.end, GRACE_MS);
    }
    PairMeaning(mine, 0, win.end, GRACE_MS);
    DayLocality.DaySeesItsWindow(active, confirmed, [], d, cfg.settings, 0, [], [], ledger);
  }

  lemma OnlyOne(log: seq<RawEvent>, cfg: Config, m: string, ledger: Ledger, t: int, checkTime: int)
    requires RoleOf(cfg.roles, m) == ledger && forall x: string :: x != m ==> EventsOf(log, x) == []
    ensures AnyActiveAt(ForLedger(log, cfg.roles, ledger), t, checkTime, GRACE_MS) <==>
            ActiveAt(EventsOf(log, m), t, checkTime, GRACE_MS)
  {
    hide EventsOf; hide ForLedger; hide ActiveAt;
    NoEventsNoActivity(t, checkTime, GRACE_MS);
    forall x: string
      ensures ActiveAt(EventsOf(ForLedger(log, cfg.roles, ledger), x), t, checkTime, GRACE_MS) <==>
              x == m && ActiveAt(EventsOf(log, m), t, checkTime, GRACE_MS)
    {
      EventsOfLedger(log, cfg.roles, ledger, x);
    }
    assert ActiveAt(EventsOf(ForLedger(log, cfg.roles, ledger), m), t, checkTime, GRACE_MS) <==>
           ActiveAt(EventsOf(log, m), t, checkTime, GRACE_MS);
  }
}
