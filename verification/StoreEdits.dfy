/**
 * The store's own calls, and the plans carried out by them (tenant-do.ts,
 * ui/render.ts): what each call writes, and that a plan's calls leave exactly the
 * table the plan is proved about.
 */
module StoreEdits {
  import opened Sorting
  import opened Events
  import opened Intervals
  import opened LocalTime
  import opened Pairing
  import opened Day
  import opened DayLaws
  import opened Outbox
  import opened Week
  import opened Marking
  import opened Corrections
  import opened Edits
  import opened Fill
  import opened Store
  import opened StoreLaws
  import opened Sealing

  // ---- what a call writes --------------------------------------------------

  /** The ledger and the span that a request for a correction is about. */
  function AskedLedger(kind: CorrectionKind, ledger: Ledger): Ledger { if kind == Holiday then Work else ledger }

  function AskedSpan(kind: CorrectionKind, start: int, end: int, z: Zone): Interval {
    if kind == Holiday then Interval(LocalDayStart(start, z), AddLocalDays(LocalDayStart(start, z), 1, z))
    else Interval(start, end)
  }

  /**
   * Adding a correction, exactly: it is refused for a holiday on a day that is not a
   * working weekday and for a span that does not end after it starts; otherwise one
   * row is added, under a new number, that covers the span asked for, or the local day
   * of a holiday, in the ledger asked for, or the work ledger for a holiday; nothing
   * else of the table changes, nor the log, the rollups or the sessions.
   */
  lemma {:induction false} AddedExactly(
    st: State, kind: CorrectionKind, start: int, end: int, ledger: Ledger, s: Settings)
    ensures var r := WithCorrection(st, kind, start, end, ledger, s);
            var span, l := AskedSpan(kind, start, end, s.zone), AskedLedger(kind, ledger);
            var offDay := kind == Holiday && WeekdayMon0(LocalDayStart(start, s.zone), s.zone) !in s.workingWeekdays;
            && (r.Rejected? <==> offDay || span.end <= span.start)
            && (r.Rejected? ==> r.error == if offDay then NonWorkingHoliday else EndNotAfterStart)
            && (r.Added? ==>
                  && r.state.events == st.events && r.state.batchSeen == st.batchSeen
                  && r.state.rollups == st.rollups && r.state.sessions == st.sessions
                  && (forall c :: c in r.state.table.rows <==>
                        c in st.table.rows || c == Correction(kind, span.start, span.end, Some(r.id), l))
                  && (forall m, k, x :: Has(r.state.table.rows, m, k, x) <==>
                        Has(st.table.rows, m, k, x) || (k == kind && m == l && span.start <= x < span.end))
                  && (WellFormed(st.table) ==> forall c :: c in st.table.rows ==> c.id != Some(r.id)))
  {
    var r := WithCorrection(st, kind, start, end, ledger, s);
    var span, l := AskedSpan(kind, start, end, s.zone), AskedLedger(kind, ledger);
    AddedTable(st, kind, start, end, ledger, s);
    hide WithCorrection; hide AskedSpan; hide AskedLedger; hide LocalDayStart; hide WeekdayMon0; hide AddLocalDays;
    hide Has;
    if r.Added? {
      forall m, k, x
        ensures Has(r.state.table.rows, m, k, x) <==>
                Has(st.table.rows, m, k, x) || (k == kind && m == l && span.start <= x < span.end)
      {
        HasAfterInsert(st.table, kind, span.start, span.end, l, m, k, x);
      }
    }
  }

  lemma AddedTable(st: State, kind: CorrectionKind, start: int, end: int, ledger: Ledger, s: Settings)
    ensures var r := WithCorrection(st, kind, start, end, ledger, s);
            var span, l := AskedSpan(kind, start, end, s.zone), AskedLedger(kind, ledger);
            var offDay := kind == Holiday && WeekdayMon0(LocalDayStart(start, s.zone), s.zone) !in s.workingWeekdays;
            && (r.Rejected? <==> offDay || span.end <= span.start)
            && (r.Rejected? ==> r.error == if offDay then NonWorkingHoliday else EndNotAfterStart)
            && (r.Added? ==>
                  && r.state.events == st.events && r.state.batchSeen == st.batchSeen
                  && r.state.rollups == st.rollups && r.state.sessions == st.sessions
                  && r.id == st.table.nextId
                  && r.state.table == InsertRow(st.table, kind, span.start, span.end, l))
  {
    hide LocalDayStart; hide WeekdayMon0; hide AddLocalDays; hide DaysFrom; hide InsertRow;
  }

  /** And the days it marks, with one offset: those whose window the span overlaps. */
  lemma {:induction false} AddedMarks(
    st: State, kind: CorrectionKind, start: int, end: int, ledger: Ledger, s: Settings, off: int, d: int)
    requires Fixed(s.zone, off)
    ensures var r := WithCorrection(st, kind, start, end, ledger, s);
            var span := AskedSpan(kind, start, end, s.zone);
            r.Added? ==>
              (d in r.state.dirty <==>
               d in st.dirty || (IsMidnight(d, s.zone) && span.start < d + DAY && d < span.end))
  {
    var r := WithCorrection(st, kind, start, end, ledger, s);
    var span := AskedSpan(kind, start, end, s.zone);
    hide LocalDayStart; hide WeekdayMon0; hide AddLocalDays; hide DaysFrom; hide InsertRow; hide IsMidnight;
    if r.Added? {
      assert r.state.dirty == st.dirty + DaysFrom(LocalDayStart(span.start, s.zone), span.end, s.zone);
      MarkedForSpan(span, d, s.zone, off);
    }
  }

  lemma MarkedForSpan(span: Interval, d: int, z: Zone, off: int)
    requires Fixed(z, off) && span.start < span.end
    ensures d in DaysFrom(LocalDayStart(span.start, z), span.end, z) <==>
            IsMidnight(d, z) && span.start < d + DAY && d < span.end
  {
    DayContains(span.start, z, off);
    DaysFromFixed(LocalDayStart(span.start, z), span.end, z, off);
    MidnightsMeaning(LocalDayStart(span.start, z), span.end, d);
    WholeDaysApart(LocalDayStart(span.start, z), d, z, off);
    hide LocalDayStart; hide Midnights; hide IsMidnight; hide DaysFrom;
    if IsMidnight(d, z) { TouchedDays(span.start, span.end, d, z, off); }
  }

  /**
   * Deleting a correction, exactly: an unknown number changes nothing; otherwise its row
   * goes, no other does, and the days it covered are marked, with one offset.
   */
  lemma {:induction false} DeletedExactly(st: State, id: int, z: Zone, off: int, c: Correction, d: int)
    requires WellFormed(st.table) && Fixed(z, off)
    ensures var done := WithoutCorrection(st, id, z);
            && (c in done.table.rows <==> c in st.table.rows && c.id != Some(id))
            && (c in st.table.rows && c.id == Some(id) ==>
                  (d in done.dirty <==>
                   d in st.dirty || (IsMidnight(d, z) && c.start < d + DAY && d < c.end)))
            && ((forall x :: x in st.table.rows ==> x.id != Some(id)) ==> done == st)
            && done.events == st.events && done.batchSeen == st.batchSeen && done.table.nextId == st.table.nextId
            && done.rollups == st.rollups && done.sessions == st.sessions
  {
    FindRowMeaning(st.table.rows, id);
    WithoutMeaning(st.table.rows, id, c);
    hide LocalDayStart; hide DaysFrom; hide IsMidnight; hide FindRow; hide Without;
    if c in st.table.rows && c.id == Some(id) { MarkedForSpan(Interval(c.start, c.end), d, z, off); }
  }

  /**
   * Accepting a batch, exactly: a number seen before changes nothing; otherwise its
   * events join its machine's log, no other log changes, the number is seen, and, with
   * one offset and a grace of a quarter of an hour, the days marked are those its
   * events fall on and those from the first of them to the later assumed end.
   */
  lemma {:induction false} IngestedExactly(
    st: State, m: string, batch: Batch, z: Zone, off: int, n: string, q: nat, d: int)
    requires Fixed(z, off)
    ensures var done := Ingested(st, m, batch, z);
            if (m, batch.batchSeq) in st.batchSeen then done == st
            else
              var list := EventsOf(st.events, m);
              var end := Max(OrZero(AssumedOpenEnd(list, 900_000)),
                             OrZero(AssumedOpenEnd(list + batch.events, 900_000)));
              && EventsOf(done.events, n) == EventsOf(st.events, n) + (if n == m then batch.events else [])
              && ((n, q) in done.batchSeen <==> (n, q) in st.batchSeen || (n == m && q == batch.batchSeq))
              && done.table == st.table && done.rollups == st.rollups && done.sessions == st.sessions
              && (d in done.dirty <==>
                  || d in st.dirty
                  || (&& IsMidnight(d, z)
                      && (|| (exists e :: e in batch.events && d <= e.ts < d + DAY)
                          || (0 < end && d <= end && exists e :: e in batch.events && e.ts < d + DAY))))
  {
    hide MarkedDays; hide IsMidnight; hide EventsOf; hide ToLog; hide AssumedOpenEnd;
    EventsOfConcat(st.events, ToLog(m, batch.events), n);
    EventsOfLog(m, batch.events, n);
    MarkedDaysMeaning(EventsOf(st.events, m), batch.events, z, off, GRACE_MS, d);
  }

  lemma TwoLedgers(m: Ledger, from: Ledger)
    ensures m == Other(from) <==> m != from
  {
  }

  /**
   * Moving a span to the other ledger, exactly: refused when it does not end after it
   * starts; otherwise it is removed here and added there, and nothing else changes.
   */
  lemma {:induction false} MovedExactly(st: State, start: int, end: int, from: Ledger, s: Settings)
    ensures var first := WithCorrection(st, RemoveWork, start, end, from, s);
            && (first.Rejected? <==> end <= start)
            && (first.Added? ==>
                  var second := WithCorrection(first.state, AddWork, start, end, Other(from), s);
                  && second.Added? && second.state.events == st.events
                  && forall m, k, x :: Has(second.state.table.rows, m, k, x) <==>
                       || Has(st.table.rows, m, k, x)
                       || (start <= x < end
                           && ((m == from && k == RemoveWork) || (m != from && k == AddWork))))
  {
    var first := WithCorrection(st, RemoveWork, start, end, from, s);
    hide WithCorrection; hide Has;
    AddedExactly(st, RemoveWork, start, end, from, s);
    if first.Added? {
      AddedExactly(first.state, AddWork, start, end, Other(from), s);
      var second := WithCorrection(first.state, AddWork, start, end, Other(from), s);
      forall m, k, x
        ensures Has(second.state.table.rows, m, k, x) <==>
                || Has(st.table.rows, m, k, x)
                || (start <= x < end && ((m == from && k == RemoveWork) || (m != from && k == AddWork)))
      {
        TwoLedgers(m, from);
      }
    }
  }

  // ---- plans as calls ------------------------------------------------------

  function DeleteCalls(ids: seq<int>): seq<Call> {
    if ids == [] then [] else DeleteCalls(ids[..|ids| - 1]) + [DoDelete(ids[|ids| - 1])]
  }

  /** The requests the page sends for one operation of a plan. */
  function OpCalls(p: Period, op: Edits.Op): seq<Call> {
    match op
    case Del => if p.correctionIds.Some? then DeleteCalls(p.correctionIds.value) else []
    case Add(l) => [DoAdd(AddWork, p.start, p.end, l)]
    case Remove(l) => [DoAdd(RemoveWork, p.start, p.end, l)]
    case Move(from) => [DoAdd(RemoveWork, p.start, p.end, from), DoAdd(AddWork, p.start, p.end, Other(from))]
  }

  function PlanCalls(p: Period, ops: seq<Edits.Op>): seq<Call>
    decreases |ops|
  {
    if ops == [] then [] else OpCalls(p, ops[0]) + PlanCalls(p, ops[1..])
  }

  lemma {:induction false} EditedConcat(st: State, a: seq<Call>, b: seq<Call>, cfg: Config)
    ensures Edited(st, a + b, cfg) == Edited(Edited(st, a, cfg), b, cfg)
  {
    hide Called;
    if b == [] {
      assert a + b == a;
    } else {
      var front, last := b[..|b| - 1], b[|b| - 1];
      assert a + b == (a + front) + [last] && b == front + [last];
      EditedConcat(st, a, front, cfg);
      EditSnoc(st, a + front, last, cfg);
      EditSnoc(Edited(st, a, cfg), front, last, cfg);
      hide Edited;
    }
  }

  lemma EditedOne(st: State, c: Call, cfg: Config)
    ensures Edited(st, [c], cfg) == Called(st, c, cfg)
  {
    hide Called;
    EditSnoc(st, [], c, cfg);
    assert [] + [c] == [c];
  }

  lemma AddCallTable(st: State, kind: CorrectionKind, start: int, end: int, ledger: Ledger, cfg: Config)
    requires kind != Holiday && start < end
    ensures Called(st, DoAdd(kind, start, end, ledger), cfg).table == InsertRow(st.table, kind, start, end, ledger)
  {
    AddedTable(st, kind, start, end, ledger, cfg.settings);
    hide WithCorrection; hide InsertRow;
  }

  lemma {:induction false} WithoutNone(rows: seq<Correction>, id: int)
    requires forall c :: c in rows ==> c.id != Some(id)
    ensures Without(rows, id) == rows
  {
    if rows != [] { WithoutNone(rows[1..], id); }
  }

  lemma DeleteCallTable(st: State, id: int, cfg: Config)
    ensures Called(st, DoDelete(id), cfg).table == DeleteRow(st.table, id)
  {
    hide Without; hide DaysFrom; hide LocalDayStart;
    FindRowMeaning(st.table.rows, id);
    hide FindRow;
    if FindRow(st.table.rows, id).None? { WithoutNone(st.table.rows, id); }
  }

  lemma {:induction false} DeleteCallsTable(st: State, ids: seq<int>, cfg: Config)
    ensures Edited(st, DeleteCalls(ids), cfg).table == DeleteRows(st.table, ids)
  {
    hide Called; hide DeleteRow;
    if ids != [] {
      var front, id := ids[..|ids| - 1], ids[|ids| - 1];
      DeleteCallsTable(st, front, cfg);
      EditSnoc(st, DeleteCalls(front), DoDelete(id), cfg);
      DeleteCallTable(Edited(st, DeleteCalls(front), cfg), id, cfg);
    }
  }

  lemma OpIsCalls(st: State, p: Period, op: Edits.Op, cfg: Config)
    requires p.start < p.end
    ensures Edited(st, OpCalls(p, op), cfg).table == ApplyOp(st.table, p, op)
  {
    hide Called; hide InsertRow; hide DeleteRows; hide DeleteCalls;
    match op
    case Del =>
      if p.correctionIds.Some? { DeleteCallsTable(st, p.correctionIds.value, cfg); }
      NoDeletes(st, cfg);
      hide Edited;
    case Add(l) =>
      hide Edited;
      EditedOne(st, DoAdd(AddWork, p.start, p.end, l), cfg);
      AddCallTable(st, AddWork, p.start, p.end, l, cfg);
    case Remove(l) =>
      hide Edited;
      EditedOne(st, DoAdd(RemoveWork, p.start, p.end, l), cfg);
      AddCallTable(st, RemoveWork, p.start, p.end, l, cfg);
    case Move(from) =>
      hide Edited;
      var first, second := DoAdd(RemoveWork, p.start, p.end, from), DoAdd(AddWork, p.start, p.end, Other(from));
      assert [first, second] == [first] + [second];
      EditedOne(st, first, cfg);
      EditSnoc(st, [first], second, cfg);
      AddCallTable(st, RemoveWork, p.start, p.end, from, cfg);
      AddCallTable(Called(st, first, cfg), AddWork, p.start, p.end, Other(from), cfg);
  }

  lemma NoDeletes(st: State, cfg: Config)
    ensures Edited(st, [], cfg).table == DeleteRows(st.table, [])
  {
  }

  /** The calls of a plan leave exactly the table the plan is about. */
  lemma {:induction false} PlanIsCalls(st: State, p: Period, ops: seq<Edits.Op>, cfg: Config)
    requires p.start < p.end
    ensures Edited(st, PlanCalls(p, ops), cfg).table == ApplyOps(st.table, p, ops)
    decreases |ops|
  {
    hide Called; hide OpCalls; hide ApplyOp;
    if ops != [] {
      EditedConcat(st, OpCalls(p, ops[0]), PlanCalls(p, ops[1..]), cfg);
      OpIsCalls(st, p, ops[0], cfg);
      PlanIsCalls(Edited(st, OpCalls(p, ops[0]), cfg), p, ops[1..], cfg);
      hide Edited;
    }
  }

  /**
   * An edit as the store carries it out: the calls of the plan for a shown period make
   * its instants count in the ledgers as chosen, with the one exception that
   * measured time leaving its ledger under an overlapping add keeps counting there.
   */
  lemma {:induction false} StoredEdit(
    st: State, cfg: Config, active: seq<Interval>, otherActive: seq<Interval>, dayStart: int, weekday: int,
    v: seq<ProvisionalSpan>, ledger: Ledger, p: Period, target: Target)
    requires WellFormed(st.table) && !(p.provisional.Some? && p.provisional.value.growing)
    requires p in DayOf(active, OfLedger(st.table.rows, ledger), dayStart, cfg.settings, weekday, v, ledger).periods
    ensures var rows := Edited(st, PlanCalls(p, ClassifyPlan(p, target, ledger)), cfg).table.rows;
            var win, s, other := Window(dayStart, cfg.settings), cfg.settings, Other(ledger);
            var here := LayersOf(active, OfLedger(rows, ledger), win, s, ledger);
            var there := LayersOf(otherActive, OfLedger(rows, other), win, s, other);
            && (target == In(other) ==> forall x :: Holds(p, x) ==> Counts(there, x))
            && (target == In(ledger) ==> forall x :: Holds(p, x) ==> Counts(here, x))
            && (target != In(ledger) ==>
                  ((forall x :: Holds(p, x) ==> !Counts(here, x)) <==>
                   !(Leaving(p, target, ledger) && AddOverlaps(st.table.rows, ledger, p))))
  {
    hide *;
    ShownIsNonEmpty(active, st.table.rows, dayStart, cfg.settings, weekday, v, ledger, p);
    PlanIsCalls(st, p, ClassifyPlan(p, target, ledger), cfg);
    EditIsPlan(st.table, p, target, ledger);
    EditDoesWhatItSays(st.table, active, otherActive, dayStart, cfg.settings, weekday, v, ledger, p, target);
  }

  lemma ShownIsNonEmpty(
    active: seq<Interval>, rows: seq<Correction>, dayStart: int, s: Settings, weekday: int,
    v: seq<ProvisionalSpan>, ledger: Ledger, p: Period)
    requires p in DayOf(active, OfLedger(rows, ledger), dayStart, s, weekday, v, ledger).periods
    ensures p.start < p.end
  {
    PeriodIsShown(active, rows, dayStart, s, weekday, v, ledger, p);
    hide DayOf; hide OfLedger; hide LayersOf; hide Window; hide Classify; hide IdsFor; hide Range;
  }

  // ---- the whole-day fill as calls -----------------------------------------

  function FillCalls(spans: seq<Interval>): seq<Call> {
    if spans == [] then []
    else FillCalls(spans[..|spans| - 1])
         + [DoAdd(AddWork, spans[|spans| - 1].start, spans[|spans| - 1].end, Work)]
  }

  /** The calls of a fill leave exactly the table the fill is about. */
  lemma {:induction false} FillIsCalls(st: State, spans: seq<Interval>, cfg: Config)
    requires forall i :: 0 <= i < |spans| ==> !spans[i].IsEmpty()
    ensures Edited(st, FillCalls(spans), cfg).table == FillDay(st.table, spans)
  {
    hide Called; hide InsertRow;
    if spans != [] {
      var front, i := spans[..|spans| - 1], spans[|spans| - 1];
      FillIsCalls(st, front, cfg);
      EditSnoc(st, FillCalls(front), DoAdd(AddWork, i.start, i.end, Work), cfg);
      AddCallTable(Edited(st, FillCalls(front), cfg), AddWork, i.start, i.end, Work, cfg);
    }
  }

  // ---- what maintenance does -----------------------------------------------

  /** Rows of the log a sealing loads: its day and 24 hours on either side, in order. */
  lemma {:induction false} LoadedExactly(log: seq<RawEvent>, cfg: Config, d: int, e: RawEvent)
    ensures e in LoadDay(log, cfg, d) <==>
            e in log && d - 86_400_000 <= e.ts < Window(d, cfg.settings).end + 86_400_000
    ensures SortedBy(LoadDay(log, cfg, d), RawTs)
  {
    hide Window; hide InRange; hide SortBy;
    var from, to := d - DAY, Window(d, cfg.settings).end + DAY;
    InRangeExactly(log, from, to, e);
    SortByElements(InRange(log, from, to), RawTs, e);
  }

  lemma {:induction false} InRangeExactly(log: seq<RawEvent>, from: int, to: int, e: RawEvent)
    ensures e in InRange(log, from, to) <==> e in log && from <= e.ts < to
  {
    if log != [] {
      InRangeExactly(log[..|log| - 1], from, to, e);
      assert log == log[..|log| - 1] + [log[|log| - 1]];
    }
  }

  /** A machine's events go to the ledger of its role, and to work when it has none. */
  lemma {:induction false} LedgerExactly(log: seq<RawEvent>, roles: map<string, Ledger>, ledger: Ledger, e: RawEvent)
    ensures e in ForLedger(log, roles, ledger) <==>
            e in log && (if e.machine in roles then roles[e.machine] == ledger else ledger == Work)
  {
    if log != [] {
      LedgerExactly(log[..|log| - 1], roles, ledger, e);
      assert log == log[..|log| - 1] + [log[|log| - 1]];
    }
  }

  lemma {:induction false} KeptExactly(log: seq<RawEvent>, cutoff: int, e: RawEvent)
    ensures e in Kept(log, cutoff) <==> e in log && cutoff <= e.ts
  {
    if log != [] {
      KeptExactly(log[..|log| - 1], cutoff, e);
      assert log == log[..|log| - 1] + [log[|log| - 1]];
    }
  }

  /**
   * Maintenance, exactly: a dirty day that has ended by `now` is sealed and clean, any
   * other keeps its mark and its rollup; of the log only what is older than 120 days
   * goes; corrections and batch numbers stay.
   */
  lemma {:induction false} MaintenanceExactly(st: State, cfg: Config, now: int, d: int, e: RawEvent)
    ensures var done := Maintained(st, cfg, now);
            var sealed := d in st.dirty && Window(d, cfg.settings).end <= now;
            && (d in done.dirty <==> d in st.dirty && now < Window(d, cfg.settings).end)
            && (d in done.rollups <==> d in st.rollups || sealed)
            && (sealed ==>
                  && done.rollups[d] == SealedFrom(LoadDay(st.events, cfg, d), st.table, cfg, d, now)
                  && d in done.sessions
                  && done.sessions[d] == SpansFrom(LoadDay(st.events, cfg, d), st.table, cfg, d, now))
            && (!sealed && d in st.rollups ==> done.rollups[d] == st.rollups[d])
            && (e in done.events <==> e in st.events && now - 10_368_000_000 <= e.ts)
            && done.table == st.table && done.batchSeen == st.batchSeen
  {
    KeptExactly(st.events, Cutoff(now), e);
    hide SealedFrom; hide SpansFrom; hide LoadDay; hide Window; hide Kept;
  }
}
