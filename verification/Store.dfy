/**
 * The tenant store (tenant-do.ts): an event log, the correction table, sealed daily
 * rollups and the set of dirty days. The functions are the operations on the tables
 * as values; the class runs the loops over its own fields and is proved to do the
 * same.
 */
module Store {
  import opened Sorting
  import opened Events
  import opened Intervals
  import opened LocalTime
  import opened Pairing
  import opened Day
  import opened DayLocality
  import opened Week
  import opened Corrections
  import opened Outbox
  import opened Marking

  const EDIT_WINDOW_DAYS := 120

  datatype Rollup = Rollup(
    workedMs: int,
    grossMs: int,
    lunchMs: int,
    normMs: int,
    balanceMs: int,
    isWorkingDay: bool,
    personalWorkedMs: int,
    personalGrossMs: int)

  datatype State = State(
    events: seq<RawEvent>,
    batchSeen: set<(string, nat)>,
    table: Table,
    rollups: map<int, Rollup>,
    sessions: map<int, seq<Span>>,
    dirty: set<int>)

  const EMPTY := State([], {}, Table([], 1), map[], map[], {})

  /** Settings and machine roles, which stay as they are. */
  datatype Config = Config(settings: Settings, roles: map<string, Ledger>)

  datatype AddError = NonWorkingHoliday | EndNotAfterStart

  datatype AddResult = Added(state: State, id: int) | Rejected(error: AddError)

  function RawTs(e: RawEvent): int { e.ts }

  // ---- reading -------------------------------------------------------------

  function InRange(log: seq<RawEvent>, from: int, to: int): seq<RawEvent> {
    if log == [] then []
    else
      var e := log[|log| - 1];
      InRange(log[..|log| - 1], from, to) + if from <= e.ts < to then [e] else []
  }

  /** Rows of a range in timestamp order, ties in insertion order. */
  function LoadEvents(log: seq<RawEvent>, from: int, to: int): seq<RawEvent> {
    SortBy(InRange(log, from, to), RawTs)
  }

  function RoleOf(roles: map<string, Ledger>, m: string): Ledger { if m in roles then roles[m] else Work }

  function ForLedger(log: seq<RawEvent>, roles: map<string, Ledger>, ledger: Ledger): seq<RawEvent> {
    if log == [] then []
    else
      var e := log[|log| - 1];
      ForLedger(log[..|log| - 1], roles, ledger) + if RoleOf(roles, e.machine) == ledger then [e] else []
  }

  /** The corrections of a ledger that overlap a window. */
  function LoadCorrections(table: Table, win: Interval, ledger: Ledger): seq<Correction> {
    Overlapping(OfLedger(table.rows, ledger), win)
  }

  // ---- writing -------------------------------------------------------------

  function Ingested(st: State, m: string, batch: Batch, z: Zone): State {
    if (m, batch.batchSeq) in st.batchSeen then st
    else
      st.(events := st.events + ToLog(m, batch.events),
          batchSeen := st.batchSeen + {(m, batch.batchSeq)},
          dirty := st.dirty + MarkedDays(EventsOf(st.events, m), batch.events, z, GRACE_MS))
  }

  function WithCorrection(
    st: State, kind: CorrectionKind, start: int, end: int, ledger: Ledger, s: Settings): AddResult
  {
    var day := LocalDayStart(start, s.zone);
    if kind == Holiday && WeekdayMon0(day, s.zone) !in s.workingWeekdays then Rejected(NonWorkingHoliday)
    else
      var from := if kind == Holiday then day else start;
      var to := if kind == Holiday then AddLocalDays(day, 1, s.zone) else end;
      if to <= from then Rejected(EndNotAfterStart)
      else
        Added(st.(table := InsertRow(st.table, kind, from, to, if kind == Holiday then Work else ledger),
                  dirty := st.dirty + DaysFrom(LocalDayStart(from, s.zone), to, s.zone)),
              st.table.nextId)
  }

  function FindRow(rows: seq<Correction>, id: int): Option<Correction> {
    if rows == [] then None else if rows[0].id == Some(id) then Some(rows[0]) else FindRow(rows[1..], id)
  }

  function WithoutCorrection(st: State, id: int, z: Zone): State {
    var row := FindRow(st.table.rows, id);
    if row.None? then st
    else
      st.(table := DeleteRow(st.table, id),
          dirty := st.dirty + DaysFrom(LocalDayStart(row.value.start, z), row.value.end, z))
  }

  function RollupOf(work: DayResult, personal: DayResult): Rollup {
    Rollup(work.workedMs, work.grossMs, work.lunchMs, work.normMs, work.balanceMs, work.isWorkingDay,
           personal.workedMs, personal.grossMs)
  }

  /** What sealing loads of the log: the day and a day of margin on either side. */
  function LoadDay(log: seq<RawEvent>, cfg: Config, d: int): seq<RawEvent> {
    LoadEvents(log, d - DAY, Window(d, cfg.settings).end + DAY)
  }

  /** One ledger of a day, from the rows a sealing has loaded. */
  function SealedDay(loaded: seq<RawEvent>, table: Table, cfg: Config, d: int, ledger: Ledger, now: int): DayResult {
    DayAt(ForLedger(loaded, cfg.roles, ledger), LoadCorrections(table, Window(d, cfg.settings), ledger), d,
          cfg.settings, WeekdayMon0(d, cfg.settings.zone), ledger, now, GRACE_MS)
  }

  function SealedFrom(loaded: seq<RawEvent>, table: Table, cfg: Config, d: int, now: int): Rollup {
    RollupOf(SealedDay(loaded, table, cfg, d, Work, now), SealedDay(loaded, table, cfg, d, Personal, now))
  }

  /** The work ledger's spans, kept as the day's sessions. */
  function SpansFrom(loaded: seq<RawEvent>, table: Table, cfg: Config, d: int, now: int): seq<Span> {
    SealedDay(loaded, table, cfg, d, Work, now).spans
  }

  /** A sealing under way: its day, the clock it was started with, the rows it has loaded. */
  datatype Flight = Flight(day: int, now: int, loaded: seq<RawEvent>)

  /** The roles are known: write the rollup and the sessions, and take the day off the dirty list. */
  function Finished(st: State, f: Flight, cfg: Config): State {
    st.(rollups := st.rollups[f.day := SealedFrom(f.loaded, st.table, cfg, f.day, f.now)],
        sessions := st.sessions[f.day := SpansFrom(f.loaded, st.table, cfg, f.day, f.now)],
        dirty := st.dirty - {f.day})
  }

  predicate Elapsed(d: int, cfg: Config, now: int) { Window(d, cfg.settings).end <= now }

  function ElapsedOf(days: set<int>, cfg: Config, now: int): set<int> {
    set d | d in days && Elapsed(d, cfg, now)
  }

  function SealedMap(st: State, cfg: Config, days: set<int>, now: int): map<int, Rollup> {
    map d | d in days :: SealedFrom(LoadDay(st.events, cfg, d), st.table, cfg, d, now)
  }

  function SpansMap(st: State, cfg: Config, days: set<int>, now: int): map<int, seq<Span>> {
    map d | d in days :: SpansFrom(LoadDay(st.events, cfg, d), st.table, cfg, d, now)
  }

  function Cutoff(now: int): int { now - EDIT_WINDOW_DAYS * DAY }

  function Kept(log: seq<RawEvent>, cutoff: int): seq<RawEvent> {
    if log == [] then []
    else
      var e := log[|log| - 1];
      Kept(log[..|log| - 1], cutoff) + if e.ts < cutoff then [] else [e]
  }

  /** The store after the days `days` have been sealed, each from the log as it was. */
  function WithSealed(st: State, cfg: Config, days: set<int>, now: int): State {
    st.(rollups := st.rollups + SealedMap(st, cfg, days, now),
        sessions := st.sessions + SpansMap(st, cfg, days, now),
        dirty := st.dirty - days)
  }

  lemma OneMoreSealed(st: State, cfg: Config, days: set<int>, d: int, now: int)
    ensures WithSealed(st, cfg, days + {d}, now)
            == Finished(WithSealed(st, cfg, days, now), Flight(d, now, LoadDay(st.events, cfg, d)), cfg)
  {
    OneMoreMapped(st, cfg, days, d, now);
    hide SealedFrom; hide SpansFrom; hide LoadDay; hide SealedMap; hide SpansMap;
    var loaded := LoadDay(st.events, cfg, d);
    PutAfter(st.rollups, SealedMap(st, cfg, days, now), d, SealedFrom(loaded, st.table, cfg, d, now));
    PutAfter(st.sessions, SpansMap(st, cfg, days, now), d, SpansFrom(loaded, st.table, cfg, d, now));
    assert st.dirty - (days + {d}) == (st.dirty - days) - {d};
  }

  lemma OneMoreMapped(st: State, cfg: Config, days: set<int>, d: int, now: int)
    ensures var loaded := LoadDay(st.events, cfg, d);
            && SealedMap(st, cfg, days + {d}, now)
               == SealedMap(st, cfg, days, now)[d := SealedFrom(loaded, st.table, cfg, d, now)]
            && SpansMap(st, cfg, days + {d}, now)
               == SpansMap(st, cfg, days, now)[d := SpansFrom(loaded, st.table, cfg, d, now)]
  {
    hide SealedFrom; hide SpansFrom; hide LoadDay;
  }

  lemma PutAfter<V>(a: map<int, V>, m: map<int, V>, d: int, v: V)
    ensures a + m[d := v] == (a + m)[d := v]
  {
  }

  function Maintained(st: State, cfg: Config, now: int): State {
    WithSealed(st, cfg, ElapsedOf(st.dirty, cfg, now), now).(events := Kept(st.events, Cutoff(now)))
  }

  // ---- the object ----------------------------------------------------------

  class TenantStore {
    const cfg: Config
    var events: seq<RawEvent>
    var batchSeen: set<(string, nat)>
    var table: Table
    var rollups: map<int, Rollup>
    var sessions: map<int, seq<Span>>
    var dirty: set<int>

    function Snapshot(): State
      reads this
    {
      State(events, batchSeen, table, rollups, sessions, dirty)
    }

    /** A step to the next day gets ahead; then every loop over days ends. */
    ghost predicate Valid() {
      Advances(cfg.settings.zone)
    }

    constructor (config: Config)
      requires Advances(config.settings.zone)
      ensures Valid() && cfg == config && Snapshot() == EMPTY
    {
      cfg := config;
      events, batchSeen, table, rollups, sessions, dirty := [], {}, Table([], 1), map[], map[], {};
    }

    method AssumedEnd(m: string) returns (end: Option<int>)
      ensures end == AssumedOpenEnd(EventsOf(events, m), GRACE_MS)
    {
      var last := Latest(EventsOf(events, m));
      if last.None? || !Presence(last.value.kind) { return None; }
      end := Some(last.value.ts + GRACE_MS);
    }

    /** Collect the days from the day of `first` through `last`, a local day at a time. */
    method DaysThrough(from: int, ghost first: int, last: int) returns (days: set<int>)
      requires Valid() && from == LocalDayStart(first, cfg.settings.zone)
      ensures days == DaysFrom(from, last + 1, cfg.settings.zone)
    {
      var d := from;
      ghost var at := first;
      days := {};
      hide LocalDayStart; hide AddLocalDays; hide DaysFrom; hide Probe; hide Advances;
      DaysFromDone(last + 1, cfg.settings.zone);
      while d <= last
        invariant d == LocalDayStart(at, cfg.settings.zone)
        invariant days + DaysFrom(d, last + 1, cfg.settings.zone) == DaysFrom(from, last + 1, cfg.settings.zone)
        decreases last - d
      {
        DaysFromStep(at, last + 1, cfg.settings.zone);
        days := days + {d};
        at := Probe(d, cfg.settings.zone);
        d := AddLocalDays(d, 1, cfg.settings.zone);
      }
    }

    method Widen(batch: seq<Event>, spanEnd: int) returns (days: set<int>)
      requires Valid()
      ensures days == WideDays(batch, spanEnd, cfg.settings.zone)
    {
      days := {};
      hide LocalDayStart; hide DaysFrom; hide FirstDay; hide Advances;
      if spanEnd > 0 && batch != [] {
        ghost var first := FirstDayIsADay(batch, cfg.settings.zone);
        days := DaysThrough(FirstDay(batch, cfg.settings.zone), first, LocalDayStart(spanEnd, cfg.settings.zone));
      }
    }

    method InsertEvents(m: string, batch: seq<Event>) returns (days: set<int>)
      modifies `events
      ensures events == old(events) + ToLog(m, batch)
      ensures days == EventDays(batch, cfg.settings.zone)
    {
      days := {};
      hide LocalDayStart;
      for k := 0 to |batch|
        invariant events == old(events) + ToLog(m, batch[..k])
        invariant days == EventDays(batch[..k], cfg.settings.zone)
      {
        var e := batch[k];
        assert batch[..k + 1][..k] == batch[..k];
        assert batch[..k + 1] == batch[..k] + [e];
        events := events + [RawEvent(m, e.ts, e.kind)];
        days := days + {LocalDayStart(e.ts, cfg.settings.zone)};
        EventDaysSnoc(batch[..k], e, cfg.settings.zone);
      }
      assert batch[..|batch|] == batch;
    }

    method Ingest(m: string, batch: Batch) returns (duplicate: bool)
      requires Valid()
      modifies this
      ensures duplicate == ((m, batch.batchSeq) in old(batchSeen))
      ensures Snapshot() == Ingested(old(Snapshot()), m, batch, cfg.settings.zone)
    {
      if (m, batch.batchSeq) in batchSeen { return true; }
      hide LocalDayStart; hide AssumedOpenEnd; hide DaysFrom; hide EventsOf; hide ToLog; hide FirstDay; hide EventDays;
      hide WideDays; hide Advances; hide OrZero;
      ghost var list := EventsOf(events, m);
      var priorEnd := AssumedEnd(m);
      var days := InsertEvents(m, batch.events);
      EventsOfConcat(old(events), ToLog(m, batch.events), m);
      EventsOfLog(m, batch.events, m);
      assert EventsOf(events, m) == list + batch.events;
      var newEnd := AssumedEnd(m);
      var wider := Widen(batch.events, Max(OrZero(priorEnd), OrZero(newEnd)));
      days := days + wider;
      assert days == MarkedDays(list, batch.events, cfg.settings.zone, GRACE_MS);
      dirty := dirty + days;
      batchSeen := batchSeen + {(m, batch.batchSeq)};
      duplicate := false;
    }

    method MarkDaysInRangeDirty(from: int, to: int)
      requires Valid()
      modifies `dirty
      ensures dirty == old(dirty) + DaysFrom(LocalDayStart(from, cfg.settings.zone), to, cfg.settings.zone)
    {
      var first := LocalDayStart(from, cfg.settings.zone);
      hide LocalDayStart; hide AddLocalDays; hide DaysFrom; hide Probe; hide Advances;
      DaysFromDone(to, cfg.settings.zone);
      var d := first;
      ghost var at := from;
      while d < to
        invariant d == LocalDayStart(at, cfg.settings.zone)
        invariant dirty + DaysFrom(d, to, cfg.settings.zone) == old(dirty) + DaysFrom(first, to, cfg.settings.zone)
      {
        DaysFromStep(at, to, cfg.settings.zone);
        dirty := dirty + {d};
        at := Probe(d, cfg.settings.zone);
        d := AddLocalDays(d, 1, cfg.settings.zone);
      }
    }

    method AddCorrection(kind: CorrectionKind, start: int, end: int, ledger: Ledger) returns (r: AddResult)
      requires Valid()
      modifies this
      ensures r == WithCorrection(old(Snapshot()), kind, start, end, ledger, cfg.settings)
      ensures Snapshot() == if r.Added? then r.state else old(Snapshot())
    {
      hide LocalDayStart; hide AddLocalDays; hide DaysFrom; hide WeekdayMon0; hide Advances; hide InsertRow;
      var from, to, l := start, end, ledger;
      if kind == Holiday {
        l := Work;
        var day := LocalDayStart(start, cfg.settings.zone);
        if WeekdayMon0(day, cfg.settings.zone) !in cfg.settings.workingWeekdays { return Rejected(NonWorkingHoliday); }
        from := day;
        to := AddLocalDays(day, 1, cfg.settings.zone);
      }
      if to <= from { return Rejected(EndNotAfterStart); }
      var id := table.nextId;
      table := InsertRow(table, kind, from, to, l);
      MarkDaysInRangeDirty(from, to);
      r := Added(Snapshot(), id);
    }

    /** Exclude a span here and include it in the other ledger. */
    method MoveToOtherLedger(start: int, end: int, fromLedger: Ledger) returns (r: AddResult)
      requires Valid()
      modifies this
      ensures var first := WithCorrection(old(Snapshot()), RemoveWork, start, end, fromLedger, cfg.settings);
              if first.Rejected? then r == first && Snapshot() == old(Snapshot())
              else
                r == WithCorrection(first.state, AddWork, start, end, Other(fromLedger), cfg.settings)
                && r.Added? && Snapshot() == r.state
    {
      r := AddCorrection(RemoveWork, start, end, fromLedger);
      if r.Rejected? { return; }
      r := AddCorrection(AddWork, start, end, Other(fromLedger));
    }

    method DeleteCorrection(id: int)
      requires Valid()
      modifies this
      ensures Snapshot() == WithoutCorrection(old(Snapshot()), id, cfg.settings.zone)
    {
      hide LocalDayStart; hide DaysFrom; hide Advances; hide FindRow; hide DeleteRow;
      var row := FindRow(table.rows, id);
      if row.None? { return; }
      table := DeleteRow(table, id);
      MarkDaysInRangeDirty(row.value.start, row.value.end);
    }

    method ComputeSealedDay(loaded: seq<RawEvent>, d: int, ledger: Ledger, now: int) returns (r: DayResult)
      ensures r == SealedDay(loaded, table, cfg, d, ledger, now)
    {
      hide DayOf; hide Pair; hide ForLedger; hide Overlapping; hide OfLedger; hide WeekdayMon0; hide Window;
      var paired := PairSpans(ForLedger(loaded, cfg.roles, ledger), now, GRACE_MS);
      r := ComputeDay(paired.active, LoadCorrections(table, Window(d, cfg.settings), ledger), d, cfg.settings,
                      WeekdayMon0(d, cfg.settings.zone), paired.provisional, ledger);
    }

    /** The first half of sealing, up to the wait for the machines' roles. */
    method BeginSeal(d: int, now: int) returns (f: Flight)
      ensures f == Flight(d, now, LoadDay(events, cfg, d))
    {
      hide LoadDay; hide Window;
      f := Flight(d, now, LoadDay(events, cfg, d));
    }

    /** The second half, after the wait. */
    method FinishSeal(f: Flight)
      modifies `rollups, `sessions
      ensures rollups == old(rollups)[f.day := SealedFrom(f.loaded, table, cfg, f.day, f.now)]
      ensures sessions == old(sessions)[f.day := SpansFrom(f.loaded, table, cfg, f.day, f.now)]
    {
      hide SealedDay;
      var work := ComputeSealedDay(f.loaded, f.day, Work, f.now);
      var personal := ComputeSealedDay(f.loaded, f.day, Personal, f.now);
      rollups := rollups[f.day := RollupOf(work, personal)];
      sessions := sessions[f.day := work.spans];
    }

    /** What a maintenance run does of a day once its roles are known. */
    method ClearDay(f: Flight)
      modifies this
      ensures Snapshot() == Finished(old(Snapshot()), f, cfg)
    {
      hide SealedFrom; hide SpansFrom;
      FinishSeal(f);
      dirty := dirty - {f.day};
    }

    /**
     * Seal the elapsed dirty days, then prune. `rows` is what the query of dirty_day
     * returns, in no particular order; the outcome does not depend on it.
     */
    method RunMaintenance(now: int, rows: seq<int>)
      requires forall d :: d in rows <==> d in dirty
      modifies this
      ensures Snapshot() == Maintained(old(Snapshot()), cfg, now)
    {
      hide WithSealed; hide Finished; hide LoadDay; hide Window; hide Elapsed; hide Kept;
      ghost var was := Snapshot();
      ghost var done: set<int> := {};
      assert WithSealed(was, cfg, {}, now) == was by { NoneSealed(was, cfg, now); }
      assert ElapsedOf(done, cfg, now) == {};
      for k := 0 to |rows|
        invariant done == set i | 0 <= i < k :: rows[i]
        invariant Snapshot() == WithSealed(was, cfg, ElapsedOf(done, cfg, now), now) && events == was.events
      {
        var d := rows[k];
        if Elapsed(d, cfg, now) {
          OneMoreSealed(was, cfg, ElapsedOf(done, cfg, now), d, now);
          var f := BeginSeal(d, now);
          ClearDay(f);
          FinishedEvents(WithSealed(was, cfg, ElapsedOf(done, cfg, now), now), f, cfg);
          assert ElapsedOf(done + {d}, cfg, now) == ElapsedOf(done, cfg, now) + {d};
        } else {
          assert ElapsedOf(done + {d}, cfg, now) == ElapsedOf(done, cfg, now);
        }
        done := done + {d};
      }
      forall d ensures d in done <==> d in was.dirty {
        assert d in rows <==> exists i :: 0 <= i < |rows| && rows[i] == d;
      }
      assert done == was.dirty;
      events := Kept(events, Cutoff(now));
    }
  }

  lemma NoneSealed(st: State, cfg: Config, now: int)
    ensures WithSealed(st, cfg, {}, now) == st
  {
    hide SealedFrom; hide SpansFrom; hide LoadDay;
    assert SealedMap(st, cfg, {}, now) == map[] && SpansMap(st, cfg, {}, now) == map[];
  }

  lemma FinishedEvents(st: State, f: Flight, cfg: Config)
    ensures Finished(st, f, cfg).events == st.events
  {
  }

  lemma EventDaysSnoc(batch: seq<Event>, e: Event, z: Zone)
    ensures EventDays(batch + [e], z) == EventDays(batch, z) + {LocalDayStart(e.ts, z)}
  {
    hide LocalDayStart;
    var all := batch + [e];
    forall d ensures d in EventDays(all, z) <==> d in EventDays(batch, z) + {LocalDayStart(e.ts, z)} {
      if i :| 0 <= i < |batch| && d == LocalDayStart(batch[i].ts, z) { assert all[i] == batch[i]; }
      if d == LocalDayStart(e.ts, z) { assert all[|batch|] == e; }
    }
  }

  /** The first day is the day of some event of the batch. */
  lemma {:induction false} FirstDayIsADay(batch: seq<Event>, z: Zone) returns (first: int)
    requires batch != []
    ensures FirstDay(batch, z) == LocalDayStart(first, z)
  {
    first := batch[|batch| - 1].ts;
    if |batch| > 1 {
      var rest := FirstDayIsADay(batch[..|batch| - 1], z);
      if LocalDayStart(rest, z) < LocalDayStart(first, z) { first := rest; }
    }
    hide LocalDayStart;
  }
}
