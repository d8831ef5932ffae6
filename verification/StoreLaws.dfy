/**
 * The rollups are a cache: whatever sequence of ingests, corrections and maintenance
 * runs, a rollup whose day is not dirty is what recomputing the day from the whole
 * log and all corrections would give.
 */
module StoreLaws {
  import opened Sorting
  import opened Events
  import opened Intervals
  import opened LocalTime
  import opened Pairing
  import opened PairingLaws
  import opened Day
  import opened DayLocality
  import opened Week
  import opened Corrections
  import opened Outbox
  import opened Marking
  import opened Store
  import opened Totals

  // ---- machine by machine --------------------------------------------------

  function InSpan(list: seq<Event>, from: int, to: int): seq<Event> {
    if list == [] then []
    else
      var e := list[|list| - 1];
      InSpan(list[..|list| - 1], from, to) + if from <= e.ts < to then [e] else []
  }

  lemma EventsOfSnoc(log: seq<RawEvent>, e: RawEvent, m: string)
    ensures EventsOf(log + [e], m) ==
            if e.machine == m then EventsOf(log, m) + [Event(e.ts, e.kind)] else EventsOf(log, m)
  {
    assert (log + [e])[..|log + [e]| - 1] == log;
  }

  lemma {:induction false} EventsOfRange(log: seq<RawEvent>, from: int, to: int, m: string)
    ensures EventsOf(InRange(log, from, to), m) == InSpan(EventsOf(log, m), from, to)
  {
    if log != [] {
      var front, e := log[..|log| - 1], log[|log| - 1];
      EventsOfRange(front, from, to, m);
      if from <= e.ts < to {
        EventsOfSnoc(InRange(front, from, to), e, m);
      } else {
        assert InRange(front, from, to) + [] == InRange(front, from, to);
      }
      var list, x := EventsOf(front, m), Event(e.ts, e.kind);
      assert (list + [x])[..|list + [x]| - 1] == list;
      assert InSpan(list, from, to) + [] == InSpan(list, from, to);
    }
  }

  lemma {:induction false} EventsOfLedger(log: seq<RawEvent>, roles: map<string, Ledger>, ledger: Ledger, m: string)
    ensures EventsOf(ForLedger(log, roles, ledger), m) == if RoleOf(roles, m) == ledger then EventsOf(log, m) else []
  {
    if log != [] {
      var front, e := log[..|log| - 1], log[|log| - 1];
      EventsOfLedger(front, roles, ledger, m);
      var f := ForLedger(front, roles, ledger);
      if RoleOf(roles, e.machine) == ledger {
        EventsOfSnoc(f, e, m);
      } else {
        assert f + [] == f;
      }
    }
  }

  /** A machine's events of a sorted log are sorted, and no later than its end. */
  lemma {:induction false} EventsOfSorted(c: seq<RawEvent>, m: string)
    requires SortedBy(c, RawTs)
    ensures SortedBy(EventsOf(c, m), TsOf)
    ensures forall e :: e in EventsOf(c, m) ==> c != [] && e.ts <= c[|c| - 1].ts
  {
    if c != [] {
      var front, l := c[..|c| - 1], c[|c| - 1];
      EventsOfSorted(front, m);
      assert front != [] ==> front[|front| - 1] == c[|c| - 2];
      assert EventsOf(c, m) ==
             if l.machine == m then EventsOf(front, m) + [Event(l.ts, l.kind)] else EventsOf(front, m);
      hide EventsOf; hide SortedBy;
      SortedSnoc(EventsOf(front, m), Event(l.ts, l.kind));
    }
  }

  lemma {:induction false} EventsOfInsert(c: seq<RawEvent>, x: RawEvent, m: string)
    requires SortedBy(c, RawTs)
    ensures EventsOf(InsertBy(c, x, RawTs), m)
            == if x.machine == m then InsertBy(EventsOf(c, m), Event(x.ts, x.kind), TsOf) else EventsOf(c, m)
  {
    if c == [] || RawTs(c[|c| - 1]) <= RawTs(x) {
      EventsOfSorted(c, m);
      assert InsertBy(c, x, RawTs) == c + [x];
      hide EventsOf; hide InsertBy; hide SortedBy;
      EventsOfSnoc(c, x, m);
      InsertLast(EventsOf(c, m), Event(x.ts, x.kind));
    } else {
      var front, l := c[..|c| - 1], c[|c| - 1];
      assert c == front + [l];
      assert SortedBy(front, RawTs);
      assert InsertBy(c, x, RawTs) == InsertBy(front, x, RawTs) + [l];
      hide EventsOf; hide InsertBy; hide SortedBy;
      EventsOfInsert(front, x, m);
      EventsOfSnoc(front, l, m);
      EventsOfSnoc(InsertBy(front, x, RawTs), l, m);
      InsertBefore(EventsOf(front, m), Event(l.ts, l.kind), Event(x.ts, x.kind));
    }
  }

  lemma SortedSnoc(list: seq<Event>, y: Event)
    requires SortedBy(list, TsOf) && forall e :: e in list ==> e.ts <= y.ts
    ensures SortedBy(list + [y], TsOf)
  {
    assert (list + [y])[..|list + [y]| - 1] == list;
  }

  lemma InsertLast(list: seq<Event>, x: Event)
    requires forall e :: e in list ==> e.ts <= x.ts
    ensures InsertBy(list, x, TsOf) == list + [x]
  {
  }

  lemma InsertBefore(list: seq<Event>, y: Event, x: Event)
    requires x.ts < y.ts
    ensures InsertBy(list + [y], x, TsOf) == InsertBy(list, x, TsOf) + [y]
  {
    assert (list + [y])[..|list + [y]| - 1] == list;
  }

  /** Sorting the whole log sorts each machine's events, stably. */
  lemma {:induction false} EventsOfSort(log: seq<RawEvent>, m: string)
    ensures EventsOf(SortBy(log, RawTs), m) == SortBy(EventsOf(log, m), TsOf)
  {
    if log != [] {
      var front, x := log[..|log| - 1], log[|log| - 1];
      var list, y := EventsOf(front, m), Event(x.ts, x.kind);
      assert log == front + [x];
      SortOfSnoc(list, y);
      hide EventsOf; hide InsertBy; hide SortedBy;
      EventsOfSort(front, m);
      EventsOfInsert(SortBy(front, RawTs), x, m);
      EventsOfSnoc(front, x, m);
    }
  }

  lemma SortOfSnoc(list: seq<Event>, y: Event)
    ensures SortBy(list + [y], TsOf) == InsertBy(SortBy(list, TsOf), y, TsOf)
  {
    assert (list + [y])[..|list + [y]| - 1] == list;
  }

  // ---- the margin around a sealed day --------------------------------------

  /** Events before the span do not matter once something in it is as late. */
  lemma {:induction false} LastAtInSpan(list: seq<Event>, from: int, to: int, t: int)
    requires t < to
    ensures var r := LastAt(list, t);
            LastAt(InSpan(list, from, to), t) == if r.Some? && from <= r.value.ts then r else None
  {
    if list != [] {
      var front, e := list[..|list| - 1], list[|list| - 1];
      assert list == front + [e];
      hide InSpan; hide LastAt;
      LastAtInSpan(front, from, to, t);
      InSpanSnoc(front, e, from, to);
      LastAtOfSnoc(front, e, t);
      LastAtOfSnoc(InSpan(front, from, to), e, t);
    }
  }

  lemma InSpanSnoc(front: seq<Event>, e: Event, from: int, to: int)
    ensures InSpan(front + [e], from, to) ==
            if from <= e.ts < to then InSpan(front, from, to) + [e] else InSpan(front, from, to)
  {
    assert (front + [e])[..|front + [e]| - 1] == front;
  }

  lemma {:induction false} NothingInSpan(list: seq<Event>, from: int, to: int, grace: int)
    requires Spaced(list, grace) && (list != [] ==> list[|list| - 1].ts < from)
    ensures InSpan(list, from, to) == []
  {
    if list != [] { NothingInSpan(list[..|list| - 1], from, to, grace); }
  }

  lemma SpacedSnoc(s: seq<Event>, e: Event, grace: int)
    ensures Spaced(s + [e], grace) <==>
            && Spaced(s, grace) && 0 <= e.ts
            && (s != [] ==> s[|s| - 1].ts <= e.ts && (Presence(s[|s| - 1].kind) ==> e.ts <= s[|s| - 1].ts + grace))
  {
    assert (s + [e])[..|s + [e]| - 1] == s;
  }

  lemma {:induction false} SpanIsSpaced(list: seq<Event>, from: int, to: int, grace: int)
    requires Spaced(list, grace)
    ensures Spaced(InSpan(list, from, to), grace)
    ensures list != [] && from <= list[|list| - 1].ts < to ==>
              InSpan(list, from, to) != [] && InSpan(list, from, to)[|InSpan(list, from, to)| - 1] == list[|list| - 1]
  {
    if list != [] {
      var front, e := list[..|list| - 1], list[|list| - 1];
      SpanIsSpaced(front, from, to, grace);
      var s := InSpan(front, from, to);
      assert Spaced(front, grace) && 0 <= e.ts;
      assert front != [] ==> var p := front[|front| - 1]; p.ts <= e.ts && (Presence(p.kind) ==> e.ts <= p.ts + grace);
      hide Spaced;
      assert list == front + [e];
      hide InSpan;
      InSpanSnoc(front, e, from, to);
      if from <= e.ts < to {
        SpacedSnoc(s, e, grace);
        if front != [] && front[|front| - 1].ts < from { NothingInSpan(front, from, to, grace); }
      }
    }
  }

  /** With a margin of at least a grace, the span decides activity as the whole log does. */
  lemma MarginDecides(list: seq<Event>, from: int, to: int, t: int, checkTime: int, grace: int)
    requires Spaced(list, grace) && from + grace <= t < to && t < checkTime
    ensures ActiveAt(InSpan(list, from, to), t, checkTime, grace) <==> ActiveAt(list, t, checkTime, grace)
  {
    SpanIsSpaced(list, from, to, grace);
    ActiveIsLocal(list, t, checkTime, grace);
    ActiveIsLocal(InSpan(list, from, to), t, checkTime, grace);
    LastAtInSpan(list, from, to, t);
    hide InSpan; hide LastAt; hide Spaced; hide ActiveAt;
  }

  // ---- recomputation -------------------------------------------------------

  ghost predicate AllSpaced(log: seq<RawEvent>) {
    forall m: string :: Spaced(EventsOf(log, m), GRACE_MS)
  }

  lemma MidnightWindow(d: int, s: Settings, off: int)
    requires Fixed(s.zone, off) && IsMidnight(d, s.zone)
    ensures Window(d, s) == Interval(d, d + DAY)
  {
    AddDaysFixed(d, 1, s.zone, off);
  }

  lemma SealLogOf(log: seq<RawEvent>, cfg: Config, d: int, ledger: Ledger, m: string)
    requires Spaced(EventsOf(log, m), GRACE_MS)
    ensures EventsOf(ForLedger(LoadDay(log, cfg, d), cfg.roles, ledger), m) ==
            if RoleOf(cfg.roles, m) == ledger then InSpan(EventsOf(log, m), d - DAY, Window(d, cfg.settings).end + DAY)
            else []
  {
    var from, to := d - DAY, Window(d, cfg.settings).end + DAY;
    hide Window; hide InSpan; hide EventsOf; hide ForLedger; hide InRange; hide SortBy; hide Spaced;
    EventsOfLedger(LoadEvents(log, from, to), cfg.roles, ledger, m);
    EventsOfSort(InRange(log, from, to), m);
    EventsOfRange(log, from, to, m);
    SpanIsSpaced(EventsOf(log, m), from, to, GRACE_MS);
    SpacedIsSorted(InSpan(EventsOf(log, m), from, to), GRACE_MS);
    SortByIdentity(InSpan(EventsOf(log, m), from, to), TsOf);
  }

  lemma NoEventsNoActivity(t: int, checkTime: int, grace: int)
    ensures !ActiveAt([], t, checkTime, grace)
  {
  }

  lemma SealSeesDay(log: seq<RawEvent>, cfg: Config, off: int, d: int, ledger: Ledger, now: int, t: int)
    requires Fixed(cfg.settings.zone, off) && IsMidnight(d, cfg.settings.zone) && AllSpaced(log)
    requires t in Range(Window(d, cfg.settings)) && Window(d, cfg.settings).end <= now
    ensures AnyActiveAt(ForLedger(LoadDay(log, cfg, d), cfg.roles, ledger), t, now, GRACE_MS) <==>
            AnyActiveAt(ForLedger(log, cfg.roles, ledger), t, Window(d, cfg.settings).end, GRACE_MS)
  {
    var end := Window(d, cfg.settings).end;
    MidnightWindow(d, cfg.settings, off);
    assert d <= t < d + DAY;
    hide Window; hide LoadDay; hide ForLedger; hide ActiveAt; hide EventsOf; hide Spaced; hide InSpan;
    forall m: string
      ensures ActiveAt(EventsOf(ForLedger(LoadDay(log, cfg, d), cfg.roles, ledger), m), t, now, GRACE_MS) <==>
              ActiveAt(EventsOf(ForLedger(log, cfg.roles, ledger), m), t, end, GRACE_MS)
    {
      SealLogOf(log, cfg, d, ledger, m);
      EventsOfLedger(log, cfg.roles, ledger, m);
      NoEventsNoActivity(t, now, GRACE_MS);
      NoEventsNoActivity(t, end, GRACE_MS);
      MarginDecides(EventsOf(log, m), d - DAY, end + DAY, t, now, GRACE_MS);
      SettledMachine(EventsOf(log, m), t, now, end, GRACE_MS);
    }
  }

  /** In spaced logs a day of margin is enough: what a sealing reads of the log gives the day. */
  lemma {:induction false} SpacedGives(log: seq<RawEvent>, cfg: Config, off: int, d: int, now: int)
    requires Fixed(cfg.settings.zone, off) && IsMidnight(d, cfg.settings.zone) && AllSpaced(log)
    requires Window(d, cfg.settings).end <= now
    ensures Gives(LoadDay(log, cfg, d), now, log, cfg, d)
  {
    var s, end := cfg.settings, Window(d, cfg.settings).end;
    hide AllSpaced; hide AnyActiveAt; hide LoadDay; hide ForLedger; hide Window; hide IsMidnight; hide Measured;
    hide Range;
    forall l: Ledger ensures SealClaims(LoadDay(log, cfg, d), cfg, d, l, now) == Claims(log, cfg, d, l) {
      forall t | t in Range(Window(d, s))
        ensures AnyActiveAt(ForLedger(LoadDay(log, cfg, d), cfg.roles, l), t, now, GRACE_MS) <==>
                AnyActiveAt(ForLedger(log, cfg.roles, l), t, end, GRACE_MS)
      {
        SealSeesDay(log, cfg, off, d, l, now, t);
      }
      SameActivitySameMeasured(ForLedger(LoadDay(log, cfg, d), cfg.roles, l), now, ForLedger(log, cfg.roles, l), end,
                               d, s, l);
    }
  }

  /** A sealing is recomputation, under the table there is, when what it has loaded gives the day. */
  lemma {:induction false} SealIsRecomputation(loaded: seq<RawEvent>, now: int, st: State, cfg: Config, d: int)
    requires WellFormed(st.table) && Gives(loaded, now, st.events, cfg, d)
    ensures SealedFrom(loaded, st.table, cfg, d, now) == Recomputed(st, cfg, d)
  {
    SealExact(loaded, now, st, cfg, d);
    hide SealedFrom; hide Recomputed; hide WellFormed; hide Gives;
    assert st.(table := st.table) == st;
  }

  // ---- coherence -----------------------------------------------------------

  ghost predicate Coherent(st: State, cfg: Config) {
    && WellFormed(st.table)
    && (forall d :: d in st.dirty ==> IsMidnight(d, cfg.settings.zone))
    && (forall d :: d in st.rollups ==> IsMidnight(d, cfg.settings.zone))
    && (forall d :: d in st.rollups && d !in st.dirty ==> st.rollups[d] == Recomputed(st, cfg, d))
  }

  /** The rows of the log after a batch, machine by machine. */
  lemma LogAfterIngest(st: State, m: string, batch: Batch, z: Zone, x: string)
    requires (m, batch.batchSeq) !in st.batchSeen
    ensures EventsOf(Ingested(st, m, batch, z).events, x) ==
            if x == m then EventsOf(st.events, m) + batch.events else EventsOf(st.events, x)
  {
    hide MarkedDays; hide EventsOf; hide ToLog;
    EventsOfConcat(st.events, ToLog(m, batch.events), x);
    EventsOfLog(m, batch.events, x);
    assert EventsOf(st.events, x) + [] == EventsOf(st.events, x);
  }

  /** The batch marks every day it changes. A test on the machine's stored and new events. */
  predicate IngestMarks(st: State, m: string, batch: Batch, z: Zone) {
    (m, batch.batchSeq) !in st.batchSeen ==>
      var list := EventsOf(st.events, m);
      Timely(list + batch.events) && SwitchesMarked(list, batch.events, z, GRACE_MS)
  }

  /** On a day the batch does not mark, no machine's activity changes. */
  lemma UnmarkedUnchanged(
    st: State, m: string, batch: Batch, cfg: Config, off: int, ledger: Ledger, t: int, end: int, x: string)
    requires Fixed(cfg.settings.zone, off) && (m, batch.batchSeq) !in st.batchSeen && t < end
    requires IngestMarks(st, m, batch, cfg.settings.zone)
    requires LocalDayStart(t, cfg.settings.zone)
             !in MarkedDays(EventsOf(st.events, m), batch.events, cfg.settings.zone, GRACE_MS)
    ensures ActiveAt(EventsOf(ForLedger(Ingested(st, m, batch, cfg.settings.zone).events, cfg.roles, ledger), x),
                     t, end, GRACE_MS)
            <==> ActiveAt(EventsOf(ForLedger(st.events, cfg.roles, ledger), x), t, end, GRACE_MS)
  {
    var z := cfg.settings.zone;
    var list := EventsOf(st.events, m);
    hide MarkedDays; hide EventsOf; hide ForLedger; hide ActiveAt; hide Ingested; hide LocalDayStart;
    hide SwitchesMarked; hide Timely;
    LogAfterIngest(st, m, batch, z, x);
    LogAfterIngest(st, m, batch, z, m);
    EventsOfLedger(Ingested(st, m, batch, z).events, cfg.roles, ledger, x);
    EventsOfLedger(st.events, cfg.roles, ledger, x);
    MarkingExact(list, batch.events, z, off, GRACE_MS);
    assert !ChangesAt(list, batch.events, t, end, GRACE_MS);
  }

  lemma NoMachineChanges(st: State, m: string, batch: Batch, cfg: Config, off: int, d: int, ledger: Ledger, t: int)
    requires Fixed(cfg.settings.zone, off) && IsMidnight(d, cfg.settings.zone)
    requires (m, batch.batchSeq) !in st.batchSeen && t in Range(Window(d, cfg.settings))
    requires IngestMarks(st, m, batch, cfg.settings.zone)
    requires d !in MarkedDays(EventsOf(st.events, m), batch.events, cfg.settings.zone, GRACE_MS)
    ensures var st' := Ingested(st, m, batch, cfg.settings.zone);
            var end := Window(d, cfg.settings).end;
            AnyActiveAt(ForLedger(st'.events, cfg.roles, ledger), t, end, GRACE_MS) <==>
            AnyActiveAt(ForLedger(st.events, cfg.roles, ledger), t, end, GRACE_MS)
  {
    var end := Window(d, cfg.settings).end;
    MidnightWindow(d, cfg.settings, off);
    assert d <= t < d + DAY && t < end;
    hide Window; hide LocalDayStart; hide MarkedDays; hide EventsOf; hide ForLedger; hide ActiveAt; hide Ingested;
    hide IngestMarks; hide IsMidnight;
    DayIsUnique(t, d, cfg.settings.zone, off);
    forall x: string
      ensures ActiveAt(EventsOf(ForLedger(Ingested(st, m, batch, cfg.settings.zone).events, cfg.roles, ledger), x),
                       t, end, GRACE_MS)
              <==> ActiveAt(EventsOf(ForLedger(st.events, cfg.roles, ledger), x), t, end, GRACE_MS)
    {
      UnmarkedUnchanged(st, m, batch, cfg, off, ledger, t, end, x);
    }
  }

  /** A day the batch does not mark keeps its claims. */
  lemma UnmarkedSameClaims(st: State, m: string, batch: Batch, cfg: Config, off: int, d: int)
    requires Fixed(cfg.settings.zone, off) && IsMidnight(d, cfg.settings.zone)
    requires (m, batch.batchSeq) !in st.batchSeen && IngestMarks(st, m, batch, cfg.settings.zone)
    requires d !in MarkedDays(EventsOf(st.events, m), batch.events, cfg.settings.zone, GRACE_MS)
    ensures SameClaims(Ingested(st, m, batch, cfg.settings.zone).events, st.events, cfg, d)
  {
    var s, end := cfg.settings, Window(d, cfg.settings).end;
    var after := Ingested(st, m, batch, s.zone).events;
    hide IngestMarks; hide AnyActiveAt; hide ForLedger; hide Window; hide IsMidnight; hide Measured; hide MarkedDays;
    hide Ingested; hide EventsOf; hide Range;
    forall l: Ledger ensures Claims(after, cfg, d, l) == Claims(st.events, cfg, d, l) {
      forall t | t in Range(Window(d, s))
        ensures AnyActiveAt(ForLedger(after, cfg.roles, l), t, end, GRACE_MS) <==>
                AnyActiveAt(ForLedger(st.events, cfg.roles, l), t, end, GRACE_MS)
      {
        NoMachineChanges(st, m, batch, cfg, off, d, l, t);
      }
      SameActivitySameMeasured(ForLedger(after, cfg.roles, l), end, ForLedger(st.events, cfg.roles, l), end, d, s, l);
    }
  }

  lemma SameClaimsSameRollup(st: State, log: seq<RawEvent>, cfg: Config, d: int)
    requires WellFormed(st.table) && SameClaims(log, st.events, cfg, d)
    ensures Recomputed(st.(events := log), cfg, d) == Recomputed(st, cfg, d)
  {
    LogChangeExact(st, log, cfg, d);
    hide Recomputed; hide WellFormed; hide SameClaims;
    assert st.(events := log, table := st.table) == st.(events := log) && st.(table := st.table) == st;
  }

  lemma MarkedAreMidnights(list: seq<Event>, batch: seq<Event>, z: Zone, off: int, grace: int, d: int)
    requires Fixed(z, off) && d in MarkedDays(list, batch, z, grace)
    ensures IsMidnight(d, z)
  {
    if i :| 0 <= i < |batch| && d == LocalDayStart(batch[i].ts, z) {
      DayContains(batch[i].ts, z, off);
    } else {
      var spanEnd := Max(OrZero(AssumedOpenEnd(list, grace)), OrZero(AssumedOpenEnd(list + batch, grace)));
      FirstDayIsMidnight(batch, z, off);
      WideDaysFixed(batch, spanEnd, z, off);
      MidnightsAreMidnights(FirstDay(batch, z), LocalDayStart(spanEnd, z) + 1, z, off, d);
    }
  }

  lemma MidnightsAreMidnights(from: int, to: int, z: Zone, off: int, d: int)
    requires Fixed(z, off) && IsMidnight(from, z) && d in Midnights(from, to)
    ensures IsMidnight(d, z)
  {
    var k :| 0 <= k < (to - from + DAY - 1) / DAY && d == from + k * DAY;
    AddDaysFixed(from, k, z, off);
  }

  lemma {:induction false} IngestKeeps(st: State, m: string, batch: Batch, cfg: Config, off: int)
    requires Fixed(cfg.settings.zone, off) && Coherent(st, cfg) && IngestMarks(st, m, batch, cfg.settings.zone)
    ensures Coherent(Ingested(st, m, batch, cfg.settings.zone), cfg)
  {
    if (m, batch.batchSeq) !in st.batchSeen {
      var st' := Ingested(st, m, batch, cfg.settings.zone);
      var marked := MarkedDays(EventsOf(st.events, m), batch.events, cfg.settings.zone, GRACE_MS);
      assert st'.dirty == st.dirty + marked && st'.rollups == st.rollups && st'.table == st.table;
      hide Ingested; hide Recomputed; hide MarkedDays; hide IngestMarks; hide IsMidnight; hide EventsOf;
      hide WellFormed; hide SameClaims;
      forall d | d in marked ensures IsMidnight(d, cfg.settings.zone) {
        MarkedAreMidnights(EventsOf(st.events, m), batch.events, cfg.settings.zone, off, GRACE_MS, d);
      }
      forall d | d in st'.rollups && d !in st'.dirty ensures Recomputed(st', cfg, d) == Recomputed(st, cfg, d) {
        UnmarkedSameClaims(st, m, batch, cfg, off, d);
        SameClaimsSameRollup(st, st'.events, cfg, d);
        SameLogSameDay(st.(events := st'.events), st', cfg, d);
      }
    }
  }

  // ---- corrections ---------------------------------------------------------

  /** The days whose window a span overlaps are exactly those marked for it. */
  lemma TouchedDays(from: int, to: int, d: int, z: Zone, off: int)
    requires Fixed(z, off) && from < to && IsMidnight(d, z)
    ensures d in DaysFrom(LocalDayStart(from, z), to, z) <==> from < d + DAY && d < to
  {
    DayContains(from, z, off);
    DaysFromFixed(LocalDayStart(from, z), to, z, off);
    MidnightsMeaning(LocalDayStart(from, z), to, d);
    DayIsUnique(d, d, z, off);
    if from < d + DAY && d < to {
      if d <= from {
        DayIsUnique(from, d, z, off);
      } else {
        DayOrder(from, d, z, off);
      }
    }
    hide LocalDayStart; hide Midnights; hide IsMidnight; hide DaysFrom;
  }

  lemma {:induction false} OverlappingConcat(a: seq<Correction>, b: seq<Correction>, win: Interval)
    ensures Overlapping(a + b, win) == Overlapping(a, win) + Overlapping(b, win)
  {
    if a == [] {
      assert a + b == b;
    } else {
      assert (a + b)[1..] == a[1..] + b;
      OverlappingConcat(a[1..], b, win);
    }
  }

  lemma {:induction false} OfLedgerConcat(a: seq<Correction>, b: seq<Correction>, ledger: Ledger)
    ensures OfLedger(a + b, ledger) == OfLedger(a, ledger) + OfLedger(b, ledger)
  {
    if a == [] {
      assert a + b == b;
    } else {
      assert (a + b)[1..] == a[1..] + b && (a + b)[0] == a[0];
      OfLedgerConcat(a[1..], b, ledger);
      var kept := if a[0].ledger == ledger then [a[0]] else [];
      assert OfLedger(a, ledger) == kept + OfLedger(a[1..], ledger);
      assert OfLedger(a + b, ledger) == kept + OfLedger(a[1..] + b, ledger);
    }
    hide OfLedger;
  }

  lemma InsertElsewhere(rows: seq<Correction>, c: Correction, ledger: Ledger, win: Interval)
    requires !Overlaps(c, win)
    ensures Overlapping(OfLedger(rows + [c], ledger), win) == Overlapping(OfLedger(rows, ledger), win)
  {
    OfLedgerConcat(rows, [c], ledger);
    OverlappingConcat(OfLedger(rows, ledger), OfLedger([c], ledger), win);
    assert [c][1..] == [];
    var one := OfLedger([c], ledger);
    assert one == [] || one == [c];
    assert Overlapping([c], win) == [];
  }

  lemma {:induction false} DeleteElsewhere(rows: seq<Correction>, id: int, ledger: Ledger, win: Interval)
    requires forall c :: c in rows && c.id == Some(id) ==> !Overlaps(c, win)
    ensures Overlapping(OfLedger(Without(rows, id), ledger), win) == Overlapping(OfLedger(rows, ledger), win)
  {
    if rows != [] {
      DeleteElsewhere(rows[1..], id, ledger, win);
      assert rows[0] in rows;
      assert rows == [rows[0]] + rows[1..];
      OfLedgerConcat([rows[0]], rows[1..], ledger);
      OverlappingConcat(OfLedger([rows[0]], ledger), OfLedger(rows[1..], ledger), win);
      if rows[0].id == Some(id) {
        InsertElsewhere([], rows[0], ledger, win);
        assert [] + [rows[0]] == [rows[0]];
        assert Overlapping(OfLedger([rows[0]], ledger), win) == [];
        assert [] + Without(rows[1..], id) == Without(rows[1..], id);
      } else {
        OfLedgerConcat([rows[0]], Without(rows[1..], id), ledger);
        OverlappingConcat(OfLedger([rows[0]], ledger), OfLedger(Without(rows[1..], id), ledger), win);
      }
    }
  }

  /** A day sees only the corrections that overlap it. */
  lemma SameCorrectionsSameDay(st: State, st': State, cfg: Config, d: int, ledger: Ledger)
    requires st'.events == st.events
    requires var win := Window(d, cfg.settings);
             Overlapping(OfLedger(st'.table.rows, ledger), win) == Overlapping(OfLedger(st.table.rows, ledger), win)
    ensures FullDay(st', cfg, d, ledger) == FullDay(st, cfg, d, ledger)
  {
    var s, win := cfg.settings, Window(d, cfg.settings);
    var p := Pair(ForLedger(st.events, cfg.roles, ledger), win.end, GRACE_MS);
    var weekday := WeekdayMon0(d, s.zone);
    hide Pair; hide ForLedger; hide Overlapping; hide OfLedger; hide DayOf; hide Window; hide WeekdayMon0;
    LoadingLosesNothing(p.active, OfLedger(st.table.rows, ledger), win, d, s, weekday, p.provisional, ledger);
    LoadingLosesNothing(p.active, OfLedger(st'.table.rows, ledger), win, d, s, weekday, p.provisional, ledger);
  }

  lemma TableEditKeeps(st: State, st': State, cfg: Config, off: int, from: int, to: int)
    requires Fixed(cfg.settings.zone, off) && Coherent(st, cfg) && from < to
    requires st'.events == st.events && st'.rollups == st.rollups && WellFormed(st'.table)
    requires st'.dirty == st.dirty + DaysFrom(LocalDayStart(from, cfg.settings.zone), to, cfg.settings.zone)
    requires forall win: Interval, l: Ledger :: !(to > win.start && from < win.end) ==>
               Overlapping(OfLedger(st'.table.rows, l), win) == Overlapping(OfLedger(st.table.rows, l), win)
    ensures Coherent(st', cfg)
  {
    var z := cfg.settings.zone;
    DayContains(from, z, off);
    DaysFromFixed(LocalDayStart(from, z), to, z, off);
    forall d | d in DaysFrom(LocalDayStart(from, z), to, z) ensures IsMidnight(d, z) {
      MidnightsAreMidnights(LocalDayStart(from, z), to, z, off, d);
    }
    hide FullDay; hide Midnights; hide DaysFrom; hide LocalDayStart; hide IsMidnight; hide WellFormed;
    hide Overlapping; hide OfLedger;
    forall d | d in st'.rollups && d !in st'.dirty ensures Recomputed(st', cfg, d) == Recomputed(st, cfg, d) {
      TouchedDays(from, to, d, z, off);
      MidnightWindow(d, cfg.settings, off);
      SameCorrectionsSameDay(st, st', cfg, d, Work);
      SameCorrectionsSameDay(st, st', cfg, d, Personal);
    }
  }

  lemma {:induction false} AddKeeps(
    st: State, kind: CorrectionKind, start: int, end: int, ledger: Ledger, cfg: Config, off: int)
    requires Fixed(cfg.settings.zone, off) && Coherent(st, cfg)
    ensures var r := WithCorrection(st, kind, start, end, ledger, cfg.settings);
            r.Added? ==> Coherent(r.state, cfg)
  {
    var r := WithCorrection(st, kind, start, end, ledger, cfg.settings);
    if r.Added? {
      var day := LocalDayStart(start, cfg.settings.zone);
      var from := if kind == Holiday then day else start;
      var to := if kind == Holiday then AddLocalDays(day, 1, cfg.settings.zone) else end;
      var l := if kind == Holiday then Work else ledger;
      var c := Correction(kind, from, to, Some(st.table.nextId), l);
      assert r.state.table.rows == st.table.rows + [c] && from < to;
      InsertKeeps(st.table, kind, from, to, l);
      hide Coherent; hide Overlapping; hide OfLedger; hide WellFormed; hide LocalDayStart; hide DaysFrom;
      forall win: Interval, k: Ledger | !(to > win.start && from < win.end)
        ensures Overlapping(OfLedger(r.state.table.rows, k), win) == Overlapping(OfLedger(st.table.rows, k), win)
      {
        InsertElsewhere(st.table.rows, c, k, win);
      }
      CoherentTable(st, cfg);
      TableEditKeeps(st, r.state, cfg, off, from, to);
    }
  }

  lemma CoherentTable(st: State, cfg: Config)
    requires Coherent(st, cfg)
    ensures WellFormed(st.table)
  {
  }

  lemma {:induction false} FindRowMeaning(rows: seq<Correction>, id: int)
    ensures var r := FindRow(rows, id);
            if r.Some? then r.value in rows && r.value.id == Some(id)
            else forall c :: c in rows ==> c.id != Some(id)
  {
    if rows != [] && rows[0].id != Some(id) {
      FindRowMeaning(rows[1..], id);
      assert forall c :: c in rows <==> c == rows[0] || c in rows[1..];
    }
  }

  lemma DeleteKeepsCoherent(st: State, id: int, cfg: Config, off: int)
    requires Fixed(cfg.settings.zone, off) && Coherent(st, cfg)
    ensures Coherent(WithoutCorrection(st, id, cfg.settings.zone), cfg)
  {
    var row := FindRow(st.table.rows, id);
    FindRowMeaning(st.table.rows, id);
    if row.Some? {
      var st' := WithoutCorrection(st, id, cfg.settings.zone);
      var from, to := row.value.start, row.value.end;
      assert [id][..0] == [];
      assert DeleteRows(st.table, [id]) == DeleteRow(st.table, id);
      DeleteKeeps(st.table, [id]);
      hide Overlapping; hide OfLedger; hide Recomputed; hide LocalDayStart; hide DaysFrom; hide Without; hide FindRow;
      hide DeleteRows; hide IsMidnight;
      forall win: Interval, k: Ledger | !(to > win.start && from < win.end)
        ensures Overlapping(OfLedger(st'.table.rows, k), win) == Overlapping(OfLedger(st.table.rows, k), win)
      {
        DeleteElsewhere(st.table.rows, id, k, win);
      }
      TableEditKeeps(st, st', cfg, off, from, to);
    }
  }

  // ---- maintenance ---------------------------------------------------------

  /** Whatever a maintenance run seals, a day of margin gives. */
  ghost predicate MarginsHold(st: State, cfg: Config, now: int) {
    forall d :: d in st.dirty && Elapsed(d, cfg, now) ==> Gives(LoadDay(st.events, cfg, d), now, st.events, cfg, d)
  }

  lemma {:induction false} NothingPruned(log: seq<RawEvent>, cutoff: int)
    requires forall e :: e in log ==> cutoff <= e.ts
    ensures Kept(log, cutoff) == log
  {
    if log != [] {
      var front := log[..|log| - 1];
      assert log == front + [log[|log| - 1]];
      assert log[|log| - 1] in log;
      NothingPruned(front, cutoff);
    }
  }

  lemma MaintainKeeps(st: State, cfg: Config, off: int, now: int)
    requires Fixed(cfg.settings.zone, off) && Coherent(st, cfg) && MarginsHold(st, cfg, now)
    requires forall e :: e in st.events ==> Cutoff(now) <= e.ts
    ensures Coherent(Maintained(st, cfg, now), cfg) && Maintained(st, cfg, now).events == st.events
  {
    var st' := Maintained(st, cfg, now);
    NothingPruned(st.events, Cutoff(now));
    hide *;
    MaintainedFields(st, cfg, now);
    MaintainedRollups(st, cfg, off, now);
    CoherentByParts(st, st', cfg);
  }

  lemma MaintainedFields(st: State, cfg: Config, now: int)
    ensures var st' := Maintained(st, cfg, now);
            && st'.events == Kept(st.events, Cutoff(now)) && st'.table == st.table && st'.dirty <= st.dirty
  {
    hide SealedMap; hide SpansMap; hide Kept; hide Window;
  }

  lemma MaintainedRollups(st: State, cfg: Config, off: int, now: int)
    requires Fixed(cfg.settings.zone, off) && Coherent(st, cfg) && MarginsHold(st, cfg, now)
    ensures var st' := Maintained(st, cfg, now);
            forall d :: d in st'.rollups ==>
              && IsMidnight(d, cfg.settings.zone)
              && (d !in st'.dirty ==> st'.rollups[d] == Recomputed(st, cfg, d))
  {
    var st' := Maintained(st, cfg, now);
    hide Recomputed; hide Gives; hide IsMidnight; hide WellFormed; hide Window; hide Kept; hide SealedFrom;
    hide LoadDay;
    forall d | d in st'.rollups
      ensures IsMidnight(d, cfg.settings.zone) && (d !in st'.dirty ==> st'.rollups[d] == Recomputed(st, cfg, d))
    {
      if d in ElapsedOf(st.dirty, cfg, now) {
        SealIsRecomputation(LoadDay(st.events, cfg, d), now, st, cfg, d);
      }
    }
  }

  lemma CoherentByParts(st: State, st': State, cfg: Config)
    requires Coherent(st, cfg) && st'.events == st.events && st'.table == st.table && st'.dirty <= st.dirty
    requires forall d :: d in st'.rollups ==>
               && IsMidnight(d, cfg.settings.zone)
               && (d !in st'.dirty ==> st'.rollups[d] == Recomputed(st, cfg, d))
    ensures Coherent(st', cfg)
  {
    hide Recomputed; hide IsMidnight; hide WellFormed;
    forall d | d in st'.rollups ensures Recomputed(st', cfg, d) == Recomputed(st, cfg, d) {
      SameLogSameDay(st, st', cfg, d);
    }
  }

  lemma SameLogSameDay(st: State, st': State, cfg: Config, d: int)
    requires st'.events == st.events && st'.table == st.table
    ensures Recomputed(st', cfg, d) == Recomputed(st, cfg, d)
  {
    hide LedgerDay; hide ForLedger; hide Window;
  }

  // ---- runs ----------------------------------------------------------------

  datatype Call =
    | DoIngest(machine: string, batch: Batch)
    | DoAdd(kind: CorrectionKind, start: int, end: int, ledger: Ledger)
    | DoDelete(id: int)
    | DoMaintain(now: int)

  function Called(st: State, call: Call, cfg: Config): State {
    match call
    case DoIngest(m, batch) => Ingested(st, m, batch, cfg.settings.zone)
    case DoAdd(kind, start, end, ledger) =>
      var r := WithCorrection(st, kind, start, end, ledger, cfg.settings);
      if r.Added? then r.state else st
    case DoDelete(id) => WithoutCorrection(st, id, cfg.settings.zone)
    case DoMaintain(now) => Maintained(st, cfg, now)
  }

  /**
   * What a call asks of the store: that the batch marks what it changes; that a day of
   * margin gives the days to seal and nothing is old enough to prune.
   */
  ghost predicate Allowed(st: State, call: Call, cfg: Config) {
    match call
    case DoIngest(m, batch) => IngestMarks(st, m, batch, cfg.settings.zone)
    case DoMaintain(now) => MarginsHold(st, cfg, now) && forall e :: e in st.events ==> Cutoff(now) <= e.ts
    case _ => true
  }

  function RunCalls(calls: seq<Call>, cfg: Config): State {
    if calls == [] then EMPTY else Called(RunCalls(calls[..|calls| - 1], cfg), calls[|calls| - 1], cfg)
  }

  ghost predicate AllAllowed(calls: seq<Call>, cfg: Config) {
    calls == [] ||
    (AllAllowed(calls[..|calls| - 1], cfg)
     && Allowed(RunCalls(calls[..|calls| - 1], cfg), calls[|calls| - 1], cfg))
  }

  lemma CallKeeps(st: State, call: Call, cfg: Config, off: int)
    requires Fixed(cfg.settings.zone, off) && Coherent(st, cfg) && Allowed(st, call, cfg)
    ensures Coherent(Called(st, call, cfg), cfg)
  {
    hide Coherent; hide Ingested; hide IngestMarks; hide MarginsHold;
    match call
    case DoIngest(m, batch) => IngestKeeps(st, m, batch, cfg, off);
    case DoAdd(kind, start, end, ledger) => AddKeeps(st, kind, start, end, ledger, cfg, off);
    case DoDelete(id) => DeleteKeepsCoherent(st, id, cfg, off);
    case DoMaintain(now) => MaintainKeeps(st, cfg, off, now);
  }

  lemma EmptyIsCoherent(cfg: Config)
    ensures Coherent(EMPTY, cfg) && AllSpaced(EMPTY.events)
  {
  }

  /**
   * Rollup cache coherence over whole runs: from an empty store, with settings and
   * roles fixed, every sequence of ingests, added and deleted corrections and
   * maintenance runs keeps every clean rollup equal to recomputation from the full
   * log and all corrections, as long as each batch marks what it changes and each
   * sealing's margin gives its day.
   */
  lemma {:induction false} RollupsStayCoherent(calls: seq<Call>, cfg: Config, off: int)
    requires Fixed(cfg.settings.zone, off) && AllAllowed(calls, cfg)
    ensures var st := RunCalls(calls, cfg);
            forall d :: d in st.rollups && d !in st.dirty ==> st.rollups[d] == Recomputed(st, cfg, d)
  {
    RunIsCoherent(calls, cfg, off);
    hide Recomputed; hide AllAllowed; hide IsMidnight; hide WellFormed;
  }

  lemma {:induction false} RunIsCoherent(calls: seq<Call>, cfg: Config, off: int)
    requires Fixed(cfg.settings.zone, off) && AllAllowed(calls, cfg)
    ensures Coherent(RunCalls(calls, cfg), cfg)
  {
    hide Coherent; hide Called; hide Allowed;
    if calls == [] {
      EmptyIsCoherent(cfg);
    } else {
      RunIsCoherent(calls[..|calls| - 1], cfg, off);
      CallKeeps(RunCalls(calls[..|calls| - 1], cfg), calls[|calls| - 1], cfg, off);
    }
  }

  // ---- spaced runs ---------------------------------------------------------

  /** Every machine's log stays spaced, and nothing is old enough to prune. */
  ghost predicate SpacedCall(st: State, call: Call, cfg: Config) {
    match call
    case DoIngest(m, batch) => AllSpaced(Ingested(st, m, batch, cfg.settings.zone).events)
    case DoMaintain(now) => forall e :: e in st.events ==> Cutoff(now) <= e.ts
    case _ => true
  }

  ghost predicate SpacedRun(calls: seq<Call>, cfg: Config) {
    calls == [] ||
    (SpacedRun(calls[..|calls| - 1], cfg)
     && SpacedCall(RunCalls(calls[..|calls| - 1], cfg), calls[|calls| - 1], cfg))
  }

  lemma SpacedIngestMarks(st: State, m: string, batch: Batch, cfg: Config, off: int)
    requires Fixed(cfg.settings.zone, off) && AllSpaced(Ingested(st, m, batch, cfg.settings.zone).events)
    ensures IngestMarks(st, m, batch, cfg.settings.zone)
  {
    if (m, batch.batchSeq) !in st.batchSeen {
      var z, list := cfg.settings.zone, EventsOf(st.events, m);
      LogAfterIngest(st, m, batch, z, m);
      hide Ingested; hide EventsOf; hide SwitchesMarked; hide Spaced;
      assert Spaced(EventsOf(Ingested(st, m, batch, z).events, m), GRACE_MS);
      SpacedIsTimely(list + batch.events, GRACE_MS);
      SpacedMarkingSuffices(list, batch.events, z, off, GRACE_MS);
      MarkingExact(list, batch.events, z, off, GRACE_MS);
    }
  }

  lemma {:induction false} SpacedIsTimely(list: seq<Event>, grace: int)
    requires Spaced(list, grace)
    ensures Timely(list)
  {
    if list != [] {
      var front := list[..|list| - 1];
      SpacedIsTimely(front, grace);
      assert forall i :: 0 <= i < |front| ==> front[i] == list[i];
    }
  }

  lemma SpacedCallIsAllowed(st: State, call: Call, cfg: Config, off: int)
    requires Fixed(cfg.settings.zone, off) && Coherent(st, cfg) && AllSpaced(st.events) && SpacedCall(st, call, cfg)
    ensures Allowed(st, call, cfg) && AllSpaced(Called(st, call, cfg).events)
  {
    hide AllSpaced; hide Ingested; hide IngestMarks; hide Gives; hide Recomputed; hide WellFormed; hide IsMidnight;
    match call
    case DoIngest(m, batch) => SpacedIngestMarks(st, m, batch, cfg, off);
    case DoAdd(_, _, _, _) =>
    case DoDelete(_) =>
    case DoMaintain(now) =>
      NothingPruned(st.events, Cutoff(now));
      forall d | d in st.dirty && Elapsed(d, cfg, now)
        ensures Gives(LoadDay(st.events, cfg, d), now, st.events, cfg, d)
      {
        SpacedGives(st.events, cfg, off, d, now);
      }
  }

  /** Spaced logs meet every condition of the law. */
  lemma {:induction false} SpacedRunsAreAllowed(calls: seq<Call>, cfg: Config, off: int)
    requires Fixed(cfg.settings.zone, off) && SpacedRun(calls, cfg)
    ensures AllAllowed(calls, cfg) && AllSpaced(RunCalls(calls, cfg).events)
  {
    hide AllSpaced; hide Called; hide Allowed; hide SpacedCall; hide Coherent;
    if calls == [] {
      EmptyIsCoherent(cfg);
    } else {
      var front := calls[..|calls| - 1];
      SpacedRunsAreAllowed(front, cfg, off);
      RunIsCoherent(front, cfg, off);
      SpacedCallIsAllowed(RunCalls(front, cfg), calls[|calls| - 1], cfg, off);
    }
  }

  // ---- the delivery protocol's server --------------------------------------

  /** What the store holds of one machine. */
  function ServerOf(st: State, m: string): Server {
    Server(set p | p in st.batchSeen && p.0 == m :: p.1, EventsOf(st.events, m))
  }

  /** Ingest is the protocol's server for its machine and leaves every other machine alone. */
  lemma IngestIsAccept(st: State, m: string, batch: Batch, z: Zone)
    ensures ServerOf(Ingested(st, m, batch, z), m) == Accept(ServerOf(st, m), batch)
    ensures forall x :: x != m ==> ServerOf(Ingested(st, m, batch, z), x) == ServerOf(st, x)
  {
    hide MarkedDays;
    var st' := Ingested(st, m, batch, z);
    if (m, batch.batchSeq) !in st.batchSeen {
      forall x: string
        ensures EventsOf(st'.events, x) ==
                if x == m then EventsOf(st.events, x) + batch.events else EventsOf(st.events, x)
      {
        EventsOfConcat(st.events, ToLog(m, batch.events), x);
        EventsOfLog(m, batch.events, x);
        assert EventsOf(st.events, x) + [] == EventsOf(st.events, x);
      }
    }
  }
}
