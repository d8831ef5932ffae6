/**
 * Two runs that go wrong at the settings an account starts with: a batch that arrives
 * while its day is being sealed, and three days away after the daemon has dated an idle
 * back past a heartbeat. Each leaves a rollup that is wrong and clean.
 */
module Incidents {
  import opened Sorting
  import opened Events
  import opened Intervals
  import opened LocalTime
  import opened Pairing
  import opened Day
  import opened DayLaws
  import opened DayMeaning
  import opened Week
  import opened Corrections
  import opened Outbox
  import opened Marking
  import opened Store
  import opened Totals
  import opened StoreLaws
  import opened Sealing
  import opened Daemon
  import opened RoundTrip

  function Utc(): Zone { (t: int) => 0 }

  /** The settings an account starts with, and no machine with a role of its own. */
  function Defaults(): Config {
    Config(Settings(Utc(), 480, 960, [0, 1, 2, 3, 4], 450, 2250, 60, 7200, 30, 360), map[])
  }

  lemma DayZero()
    ensures Window(0, Defaults().settings) == Interval(0, DAY) && IsMidnight(0, Utc()) && Fixed(Utc(), 0)
  {
    AddDaysFixed(0, 1, Utc(), 0);
  }

  // ---- what a log claims ---------------------------------------------------

  /** Nothing is claimed from an instant on that no activity follows. */
  lemma Unclaimed(log: seq<RawEvent>, d: int, s: Settings, ledger: Ledger, checkTime: int, x: int)
    requires forall t :: t in Range(Window(d, s)) && x <= t ==> !AnyActiveAt(log, t, checkTime, GRACE_MS)
    ensures x !in Measured(log, d, s, ledger, checkTime)
  {
    var p, win := Pair(log, checkTime, GRACE_MS), Window(d, s);
    hide Pair; hide AnyActiveAt; hide Window; hide Points; hide Canonical; hide LayersOf; hide Range;
    PairMeaning(log, x, checkTime, GRACE_MS);
    forall t | t in Range(win) && x <= t ensures t !in Points(p.active) { PairMeaning(log, t, checkTime, GRACE_MS); }
    SensorIsActive(p.active, win, s, ledger);
    BridgedIsInside(p.active, win, s, ledger, x);
  }

  lemma SensorIsActive(active: seq<Interval>, win: Interval, s: Settings, mode: Ledger)
    ensures Points(LayersOf(active, [], win, s, mode).sensor) <= Points(active) * Range(win)
  {
    AtLeastPoints(ClampEach(active, win), s.minActiveSec * 1000);
  }

  lemma BridgedIsInside(active: seq<Interval>, win: Interval, s: Settings, mode: Ledger, x: int)
    ensures var l := LayersOf(active, [], win, s, mode);
            x in Points(l.bridged) ==> exists b :: b in Points(l.sensor) && x < b
  {
    var l := LayersOf(active, [], win, s, mode);
    GapSplitPoints(if mode == Work then Gaps(l.sensor) else [], s);
  }

  /** A run of activity that is long enough is claimed. */
  lemma RunIsClaimed(log: seq<RawEvent>, d: int, s: Settings, ledger: Ledger, checkTime: int, i: Interval)
    requires var win := Window(d, s);
             && win.start <= i.start < i.end <= win.end && i.end - i.start >= s.minActiveSec * 1000
             && (forall t :: i.start <= t < i.end ==> AnyActiveAt(log, t, checkTime, GRACE_MS))
             && (win.start < i.start ==> !AnyActiveAt(log, i.start - 1, checkTime, GRACE_MS))
             && (i.end < win.end ==> !AnyActiveAt(log, i.end, checkTime, GRACE_MS))
    ensures Range(i) <= Measured(log, d, s, ledger, checkTime)
  {
    var p, win := Pair(log, checkTime, GRACE_MS), Window(d, s);
    var q := Points(p.active) * Range(win);
    hide Pair; hide AnyActiveAt; hide Window; hide Points; hide Canonical; hide LayersOf;
    PairMeaning(log, i.start - 1, checkTime, GRACE_MS);
    PairMeaning(log, i.end, checkTime, GRACE_MS);
    forall t | i.start <= t < i.end ensures t in q { PairMeaning(log, t, checkTime, GRACE_MS); }
    assert MaximalRun(i, q);
    LayersMeaning(p.active, [], win, s, ledger, i);
    ElementPoints(LayersOf(p.active, [], win, s, ledger).sensor, i);
  }

  lemma {:induction false} ElementPoints(s: seq<Interval>, i: Interval)
    requires i in s
    ensures Range(i) <= Points(s)
  {
    if i != s[0] { ElementPoints(s[1..], i); }
  }

  /** Without corrections the gross time is the number of instants claimed. */
  lemma PlainGross(log: seq<RawEvent>, table: Table, d: int, s: Settings, ledger: Ledger, checkTime: int)
    requires table.rows == []
    ensures LedgerDay(log, table, d, s, ledger, checkTime).grossMs == |Measured(log, d, s, ledger, checkTime)|
  {
    GrossOfMeasured(log, table, d, s, ledger, checkTime);
    MeasuredInside(log, d, s, ledger, checkTime);
    hide Measured; hide LedgerDay; hide Window; hide Range;
    var m := Measured(log, d, s, ledger, checkTime);
    assert CountedOf(m, [], ledger, Window(d, s)) == m;
  }

  lemma {:induction false} Smaller(a: set<int>, b: set<int>)
    requires a <= b
    ensures |a| <= |b|
  {
    assert b == a + (b - a) && a !! (b - a);
  }

  // ---- the log of one machine ----------------------------------------------

  lemma OneMachine(log: seq<RawEvent>, list: seq<Event>, t: int, checkTime: int)
    requires forall x: string :: EventsOf(log, x) == if x == "m" then list else []
    ensures AnyActiveAt(ForLedger(log, map[], Work), t, checkTime, GRACE_MS) <==> ActiveAt(list, t, checkTime, GRACE_MS)
  {
    hide EventsOf; hide ForLedger; hide ActiveAt;
    NoEventsNoActivity(t, checkTime, GRACE_MS);
    forall x: string
      ensures ActiveAt(EventsOf(ForLedger(log, map[], Work), x), t, checkTime, GRACE_MS) <==>
              x == "m" && ActiveAt(list, t, checkTime, GRACE_MS)
    {
      EventsOfLedger(log, map[], Work, x);
    }
    assert ActiveAt(EventsOf(ForLedger(log, map[], Work), "m"), t, checkTime, GRACE_MS) <==>
           ActiveAt(list, t, checkTime, GRACE_MS);
  }

  lemma SortedActive(list: seq<Event>, t: int, checkTime: int)
    ensures ActiveAt(SortBy(list, TsOf), t, checkTime, GRACE_MS) <==> ActiveAt(list, t, checkTime, GRACE_MS)
  {
    var sorted := SortBy(list, TsOf);
    LastAtOfSorted(list, t);
    SortedSameEvents(list);
    LastAliveOfSame(list, sorted);
    assert AbsenceAfter(list, t) <==> AbsenceAfter(sorted, t);
    hide LastAt; hide LastAlive; hide SortBy; hide AbsenceAfter;
  }

  lemma {:induction false} AllInSpan(list: seq<Event>, from: int, to: int)
    requires forall e :: e in list ==> from <= e.ts < to
    ensures InSpan(list, from, to) == list
  {
    if list != [] {
      var front, e := list[..|list| - 1], list[|list| - 1];
      assert list == front + [e] && e in list;
      AllInSpan(front, from, to);
      InSpanSnoc(front, e, from, to);
      hide InSpan;
    }
  }

  /** What a sealing of the first day loads of a log that lies within its margins. */
  lemma LoadedMachine(log: seq<RawEvent>, list: seq<Event>, t: int, checkTime: int)
    requires forall x: string :: EventsOf(log, x) == if x == "m" then list else []
    requires forall e :: e in list ==> -DAY <= e.ts < 2 * DAY
    ensures AnyActiveAt(ForLedger(LoadDay(log, Defaults(), 0), map[], Work), t, checkTime, GRACE_MS) <==>
            ActiveAt(list, t, checkTime, GRACE_MS)
  {
    DayZero();
    hide EventsOf; hide ForLedger; hide ActiveAt; hide InRange; hide SortBy; hide Window; hide InSpan;
    assert InSpan([], -DAY, 2 * DAY) == [] by { AllInSpan([], -DAY, 2 * DAY); }
    assert SortBy([], TsOf) == [] by { SortByIdentity([], TsOf); }
    AllInSpan(list, -DAY, 2 * DAY);
    forall x: string
      ensures EventsOf(LoadDay(log, Defaults(), 0), x) == if x == "m" then SortBy(list, TsOf) else []
    {
      EventsOfSort(InRange(log, -DAY, 2 * DAY), x);
      EventsOfRange(log, -DAY, 2 * DAY, x);
    }
    OneMachine(LoadDay(log, Defaults(), 0), SortBy(list, TsOf), t, checkTime);
    SortedActive(list, t, checkTime);
  }

  lemma LogOf(a: seq<Event>, b: seq<Event>, x: string)
    ensures EventsOf(ToLog("m", a), x) == if x == "m" then a else []
    ensures EventsOf(ToLog("m", a) + ToLog("m", b), x) == if x == "m" then a + b else []
  {
    hide EventsOf; hide ToLog;
    EventsOfLog("m", a, x);
    EventsOfLog("m", b, x);
    EventsOfConcat(ToLog("m", a), ToLog("m", b), x);
  }

  lemma IngestFields(st: State, m: string, batch: Batch, z: Zone)
    requires (m, batch.batchSeq) !in st.batchSeen && batch.events != []
    ensures var done := Ingested(st, m, batch, z);
            && done.events == st.events + ToLog(m, batch.events) && done.table == st.table
            && done.batchSeen == st.batchSeen + {(m, batch.batchSeq)} && done.rollups == st.rollups
            && done.dirty == st.dirty + MarkedDays(EventsOf(st.events, m), batch.events, z, GRACE_MS)
            && LocalDayStart(batch.events[0].ts, z) in done.dirty
  {
    OwnDayMarked(EventsOf(st.events, m), batch.events, 0, z, GRACE_MS);
    hide MarkedDays; hide LocalDayStart;
  }

  // ---- a batch that overtakes a sealing ------------------------------------

  const IDLE := Event(0, Idle)
  const START := Event(3_600_000, Active)
  const STOP := Event(4_200_000, Idle)
  const EARLY := Batch(0, [IDLE], None)
  const LATE := Batch(1, [START, STOP], None)

  lemma RaceActivity(t: int, checkTime: int)
    requires t < checkTime
    ensures ActiveAt([IDLE] + [START, STOP], t, checkTime, GRACE_MS) <==> START.ts <= t < STOP.ts
    ensures !ActiveAt([IDLE], t, checkTime, GRACE_MS)
  {
    var a := [IDLE];
    var b := a + [START];
    assert a + [START, STOP] == b + [STOP] && a == [] + [IDLE];
    assert LastAt([], t) == None && !AbsenceAfter([], t);
    hide LastAt; hide AbsenceAfter; hide LastAlive;
    LastAtOfSnoc([], IDLE, t);
    LastAtOfSnoc(a, START, t);
    LastAtOfSnoc(b, STOP, t);
    AbsenceAfterSnoc([], IDLE, t);
    AbsenceAfterSnoc(a, START, t);
    AbsenceAfterSnoc(b, STOP, t);
  }

  /** What the sealing has loaded claims nothing; what the log holds by then, something. */
  lemma RaceTotals(table: Table, st: State)
    requires table.rows == [] && st.table == table && st.events == ToLog("m", [IDLE]) + ToLog("m", [START, STOP])
    ensures SealedFrom(LoadDay(ToLog("m", [IDLE]), Defaults(), 0), table, Defaults(), 0, 2 * DAY).grossMs == 0
    ensures Recomputed(st, Defaults(), 0).grossMs > 0
  {
    var cfg := Defaults();
    var loaded, s := LoadDay(ToLog("m", [IDLE]), cfg, 0), cfg.settings;
    var a, b := ForLedger(loaded, map[], Work), ForLedger(st.events, map[], Work);
    hide *;
    DefaultGross(loaded, st, table, 2 * DAY);
    EarlyInMargin();
    forall x: string
      ensures EventsOf(ToLog("m", [IDLE]), x) == (if x == "m" then [IDLE] else [])
      ensures EventsOf(st.events, x) == if x == "m" then [IDLE] + [START, STOP] else []
    {
      LogOf([IDLE], [START, STOP], x);
    }
    forall t | t < DAY
      ensures !AnyActiveAt(a, t, 2 * DAY, GRACE_MS)
      ensures AnyActiveAt(b, t, DAY, GRACE_MS) <==> START.ts <= t < STOP.ts
    {
      LoadedMachine(ToLog("m", [IDLE]), [IDLE], t, 2 * DAY);
      OneMachine(st.events, [IDLE] + [START, STOP], t, DAY);
      RaceActivity(t, 2 * DAY);
      RaceActivity(t, DAY);
    }
    RaceClaims(a, b, s);
    PlainGross(a, table, 0, s, Work, 2 * DAY);
    PlainGross(b, table, 0, s, Work, DAY);
  }

  lemma EarlyInMargin()
    ensures 0 < DAY && forall e :: e in [IDLE] ==> -DAY <= e.ts < 2 * DAY
  {
  }

  lemma DefaultGross(loaded: seq<RawEvent>, st: State, table: Table, now: int)
    requires st.table == table
    ensures SealedFrom(loaded, table, Defaults(), 0, now).grossMs ==
            LedgerDay(ForLedger(loaded, map[], Work), table, 0, Defaults().settings, Work, now).grossMs
    ensures Recomputed(st, Defaults(), 0).grossMs ==
            LedgerDay(ForLedger(st.events, map[], Work), table, 0, Defaults().settings, Work, DAY).grossMs
  {
    DayZero();
    hide SealedDay; hide LedgerDay; hide ForLedger; hide Window;
    SealedAsLedgerDay(loaded, table, Defaults(), 0, Work, now);
  }

  lemma RaceClaims(a: seq<RawEvent>, b: seq<RawEvent>, s: Settings)
    requires s == Defaults().settings
    requires forall t :: t < DAY ==> !AnyActiveAt(a, t, 2 * DAY, GRACE_MS)
    requires forall t :: t < DAY ==> (AnyActiveAt(b, t, DAY, GRACE_MS) <==> START.ts <= t < STOP.ts)
    ensures |Measured(a, 0, s, Work, 2 * DAY)| == 0
    ensures |Measured(b, 0, s, Work, DAY)| > 0
  {
    DayZero();
    hide Measured; hide AnyActiveAt; hide Window;
    forall x ensures x !in Measured(a, 0, s, Work, 2 * DAY) { Unclaimed(a, 0, s, Work, 2 * DAY, x); }
    assert Measured(a, 0, s, Work, 2 * DAY) == {};
    RunIsClaimed(b, 0, s, Work, DAY, Interval(START.ts, STOP.ts));
    assert START.ts in Range(Interval(START.ts, STOP.ts));
  }

  /** A run of the nightly job that a late batch overtakes, up to the registry's answer. */
  function Waiting(): seq<Move> {
    [Do(DoIngest("m", EARLY))] + [ListDirty] + [Load(0, 2 * DAY)] + [Do(DoIngest("m", LATE))]
  }

  lemma RaceWaits()
    ensures var w := RunMoves(IDLE_STORE, Waiting(), Defaults());
            && w.st.events == ToLog("m", [IDLE]) + ToLog("m", [START, STOP]) && w.st.table.rows == []
            && w.flights == [Flight(0, 2 * DAY, LoadDay(ToLog("m", [IDLE]), Defaults(), 0))]
  {
    var cfg := Defaults();
    var m1 := [Do(DoIngest("m", EARLY))];
    var m2 := m1 + [ListDirty];
    var m3 := m2 + [Load(0, 2 * DAY)];
    assert m1 == [] + [Do(DoIngest("m", EARLY))];
    assert RunMoves(IDLE_STORE, [], cfg) == Live(EMPTY, {}, []);
    assert [] + ToLog("m", [IDLE]) == ToLog("m", [IDLE]);
    DayZero();
    DayExactly(0, 0, Utc());
    assert Elapsed(0, cfg, 2 * DAY);
    hide RunMoves; hide Ingested; hide Elapsed; hide ToLog; hide LocalDayStart; hide Window; hide LoadDay;
    hide MarkedDays;
    IngestFields(EMPTY, "m", EARLY, Utc());
    RunMove(IDLE_STORE, [], Do(DoIngest("m", EARLY)), cfg);
    RunMove(IDLE_STORE, m1, ListDirty, cfg);
    RunMove(IDLE_STORE, m2, Load(0, 2 * DAY), cfg);
    RunMove(IDLE_STORE, m3, Do(DoIngest("m", LATE)), cfg);
    IngestFields(RunMoves(IDLE_STORE, m3, cfg).st, "m", LATE, Utc());
  }

  /**
   * A batch that arrives while its day is being sealed is lost to the rollup: its
   * mark is deleted with the one being served, and the day stays clean and wrong.
   */
  lemma {:induction false} SealLosesMark()
    ensures var st := RunMoves(IDLE_STORE, Waiting() + [Finish(0)], Defaults()).st;
            && 0 in st.rollups && 0 !in st.dirty
            && st.rollups[0].grossMs == 0 && Recomputed(st, Defaults(), 0).grossMs > 0
  {
    var cfg := Defaults();
    var w := RunMoves(IDLE_STORE, Waiting(), cfg);
    hide RunMoves; hide Waiting; hide Recomputed; hide SealedFrom; hide SpansFrom; hide LoadDay; hide ToLog;
    hide Defaults;
    RaceWaits();
    RaceTotals(w.st.table, w.st);
    SameLogSameDay(w.st, Finished(w.st, w.flights[0], cfg), cfg, 0);
    RunMove(IDLE_STORE, Waiting(), Finish(0), cfg);
  }

  // ---- three days away -----------------------------------------------------

  /** The daemon's morning, three days away, and back. */
  function DaysAway(): seq<Op> {
    Morning() + [After(3 * DAY - 630_000, 3 * DAY, 0)] + [After(30_000, 3 * DAY + 30_000, 0)]
  }

  const OPENED := Event(0, Active)
  const BEAT := Event(330_000, Heartbeat)
  const CLOSED := Event(30_000, Idle)
  const BACK := Event(3 * DAY, Active)
  const MORNING := Batch(0, [OPENED, BEAT, CLOSED], None)
  const RETURN := Batch(1, [BACK], None)

  lemma AwayTrace()
    ensures Run(FRESH_STATE, Morning()).events == MORNING.events
    ensures Run(FRESH_STATE, DaysAway()).events == MORNING.events + RETURN.events
  {
    var o5 := Morning() + [After(3 * DAY - 630_000, 3 * DAY, 0)];
    hide Run; hide Apply; hide Morning;
    MorningTrace();
    ReturnPolls(AWAY, 3 * DAY - 630_000, 3 * DAY);
    RunSnoc(FRESH_STATE, Morning(), After(3 * DAY - 630_000, 3 * DAY, 0));
    RunSnoc(FRESH_STATE, o5, After(30_000, 3 * DAY + 30_000, 0));
  }

  lemma AwayActivity(t: int, checkTime: int)
    requires 0 <= t < 3 * DAY && t < checkTime
    ensures 1_230_000 <= t ==> !ActiveAt(MORNING.events, t, checkTime, GRACE_MS)
    ensures 30_000 <= t ==>
              (ActiveAt(MORNING.events + RETURN.events, t, checkTime, GRACE_MS) <==> 330_000 <= t)
  {
    var a, b, c := [OPENED], [OPENED] + [BEAT], [OPENED] + [BEAT] + [CLOSED];
    assert MORNING.events == c && a == [] + [OPENED] && RETURN.events == [BACK];
    assert LastAt([], t) == None && !AbsenceAfter([], t) && LastAlive([]) == 0;
    hide LastAt; hide AbsenceAfter; hide LastAlive;
    LastAtOfSnoc([], OPENED, t);
    LastAtOfSnoc(a, BEAT, t);
    LastAtOfSnoc(b, CLOSED, t);
    LastAtOfSnoc(c, BACK, t);
    AbsenceAfterSnoc([], OPENED, t);
    AbsenceAfterSnoc(a, BEAT, t);
    AbsenceAfterSnoc(b, CLOSED, t);
    AbsenceAfterSnoc(c, BACK, t);
    LastAliveSnoc([], OPENED);
    LastAliveSnoc(a, BEAT);
    LastAliveSnoc(b, CLOSED);
    LastAliveSnoc(c, BACK);
  }

  lemma AwayClaims(a: seq<RawEvent>, b: seq<RawEvent>, s: Settings)
    requires s == Defaults().settings
    requires forall t :: 1_230_000 <= t < DAY ==> !AnyActiveAt(a, t, 2 * DAY, GRACE_MS)
    requires forall t :: 30_000 <= t < DAY ==> (AnyActiveAt(b, t, DAY, GRACE_MS) <==> 330_000 <= t)
    ensures |Measured(a, 0, s, Work, 2 * DAY)| <= 1_230_000
    ensures |Measured(b, 0, s, Work, DAY)| >= DAY - 330_000
  {
    DayZero();
    hide Measured; hide AnyActiveAt; hide Window;
    var early, late := Interval(0, 1_230_000), Interval(330_000, DAY);
    MeasuredInside(a, 0, s, Work, 2 * DAY);
    forall x | x in Measured(a, 0, s, Work, 2 * DAY) ensures x in Range(early) {
      if 1_230_000 <= x { Unclaimed(a, 0, s, Work, 2 * DAY, x); }
    }
    Smaller(Measured(a, 0, s, Work, 2 * DAY), Range(early));
    RangeSize(early);
    RunIsClaimed(b, 0, s, Work, DAY, late);
    Smaller(Range(late), Measured(b, 0, s, Work, DAY));
    RangeSize(late);
  }

  lemma AwayTotals(table: Table, st: State)
    requires table.rows == [] && st.table == table
    requires st.events == ToLog("m", MORNING.events) + ToLog("m", RETURN.events)
    ensures var loaded := LoadDay(ToLog("m", MORNING.events), Defaults(), 0);
            SealedFrom(loaded, table, Defaults(), 0, 2 * DAY).grossMs <= 1_230_000
    ensures Recomputed(st, Defaults(), 0).grossMs >= DAY - 330_000
  {
    var cfg := Defaults();
    var loaded, s := LoadDay(ToLog("m", MORNING.events), cfg, 0), cfg.settings;
    var a, b := ForLedger(loaded, map[], Work), ForLedger(st.events, map[], Work);
    hide *;
    DefaultGross(loaded, st, table, 2 * DAY);
    MorningInMargin();
    forall x: string
      ensures EventsOf(ToLog("m", MORNING.events), x) == (if x == "m" then MORNING.events else [])
      ensures EventsOf(st.events, x) == if x == "m" then MORNING.events + RETURN.events else []
    {
      LogOf(MORNING.events, RETURN.events, x);
    }
    forall t | 0 <= t < DAY
      ensures 1_230_000 <= t ==> !AnyActiveAt(a, t, 2 * DAY, GRACE_MS)
      ensures 30_000 <= t ==> (AnyActiveAt(b, t, DAY, GRACE_MS) <==> 330_000 <= t)
    {
      LoadedMachine(ToLog("m", MORNING.events), MORNING.events, t, 2 * DAY);
      OneMachine(st.events, MORNING.events + RETURN.events, t, DAY);
      AwayActivity(t, 2 * DAY);
      AwayActivity(t, DAY);
    }
    AwayClaims(a, b, s);
    PlainGross(a, table, 0, s, Work, 2 * DAY);
    PlainGross(b, table, 0, s, Work, DAY);
  }

  lemma MorningInMargin()
    ensures forall e :: e in MORNING.events ==> -DAY <= e.ts < 2 * DAY
  {
  }

  /** The batch of the return marks its own day and nothing before it. */
  lemma ReturnMarks(d: int)
    requires d in MarkedDays(MORNING.events, RETURN.events, Utc(), GRACE_MS)
    ensures 3 * DAY <= d
  {
    var spanEnd := Max(OrZero(AssumedOpenEnd(MORNING.events, GRACE_MS)),
                       OrZero(AssumedOpenEnd(MORNING.events + RETURN.events, GRACE_MS)));
    DayZero();
    DayExactly(3 * DAY, 3 * DAY, Utc());
    WideDaysFixed(RETURN.events, spanEnd, Utc(), 0);
    MidnightsMeaning(3 * DAY, LocalDayStart(spanEnd, Utc()) + 1, d);
    hide AssumedOpenEnd; hide WideDays; hide LocalDayStart; hide Midnights;
  }

  function AwayCalls(): seq<Call> {
    [DoIngest("m", MORNING)] + [DoMaintain(2 * DAY)] + [DoIngest("m", RETURN)]
  }

  lemma RunCall(calls: seq<Call>, call: Call, cfg: Config)
    ensures RunCalls(calls + [call], cfg) == Called(RunCalls(calls, cfg), call, cfg)
  {
    assert (calls + [call])[..|calls + [call]| - 1] == calls;
  }

  lemma AfterMorning()
    ensures var st := RunCalls([DoIngest("m", MORNING)], Defaults());
            && st.events == ToLog("m", MORNING.events) && st.table.rows == [] && 0 in st.dirty
            && st.batchSeen == {("m", 0)}
  {
    var cfg := Defaults();
    assert [DoIngest("m", MORNING)] == [] + [DoIngest("m", MORNING)] && RunCalls([], cfg) == EMPTY;
    assert [] + ToLog("m", MORNING.events) == ToLog("m", MORNING.events);
    DayZero();
    DayExactly(0, 0, Utc());
    hide RunCalls; hide Ingested; hide MarkedDays; hide LocalDayStart; hide ToLog;
    RunCall([], DoIngest("m", MORNING), cfg);
    IngestFields(EMPTY, "m", MORNING, Utc());
  }

  lemma AfterSealing()
    ensures var st := RunCalls([DoIngest("m", MORNING)] + [DoMaintain(2 * DAY)], Defaults());
            && st.events == ToLog("m", MORNING.events) && st.table.rows == [] && st.batchSeen == {("m", 0)}
            && 0 !in st.dirty && 0 in st.rollups
            && st.rollups[0] == SealedFrom(LoadDay(st.events, Defaults(), 0), st.table, Defaults(), 0, 2 * DAY)
  {
    var cfg := Defaults();
    var st := RunCalls([DoIngest("m", MORNING)], cfg);
    AfterMorning();
    DayZero();
    assert Elapsed(0, cfg, 2 * DAY);
    MorningRows();
    hide RunCalls; hide SealedFrom; hide SpansFrom; hide LoadDay; hide Window; hide Kept; hide ToLog; hide Elapsed;
    NothingPruned(st.events, Cutoff(2 * DAY));
    RunCall([DoIngest("m", MORNING)], DoMaintain(2 * DAY), cfg);
    assert 0 in ElapsedOf(st.dirty, cfg, 2 * DAY);
  }

  lemma MorningRows()
    ensures forall e :: e in ToLog("m", MORNING.events) ==> Cutoff(2 * DAY) <= e.ts
  {
    forall e | e in ToLog("m", MORNING.events) ensures 0 <= e.ts { RowsOfLog("m", MORNING.events, e); }
  }

  lemma {:induction false} RowsOfLog(m: string, events: seq<Event>, e: RawEvent)
    requires e in ToLog(m, events)
    ensures Event(e.ts, e.kind) in events
  {
    if events != [] {
      var front, last := events[..|events| - 1], events[|events| - 1];
      if e != RawEvent(m, last.ts, last.kind) { RowsOfLog(m, front, e); }
    }
  }

  /**
   * Three days away, with the daemon's own batches: the first day is sealed with twenty
   * and a half minutes at most; the first event after them makes it almost a whole day,
   * and marks no day but its own. The rollup stays wrong and clean. The marking test
   * says so when the batch arrives.
   */
  lemma {:induction false} DaysAwayGoUnmarked()
    ensures Run(FRESH_STATE, DaysAway()).events == MORNING.events + RETURN.events
    ensures forall t :: 1_230_000 <= t < 3 * DAY ==> MissedAt(t)
    ensures !SwitchesMarked(MORNING.events, RETURN.events, Utc(), GRACE_MS)
    ensures var st := RunCalls(AwayCalls(), Defaults());
            && 0 in st.rollups && 0 !in st.dirty
            && st.rollups[0].grossMs <= 1_230_000 && Recomputed(st, Defaults(), 0).grossMs >= DAY - 330_000
  {
    hide *;
    AwayTrace();
    forall t | 1_230_000 <= t < 3 * DAY
      ensures MissedAt(t)
    {
      AwayChanges(t);
    }
    AwayUnmarked();
    AwayRun();
  }

  /** The return changes this instant, whose day it does not mark. */
  ghost predicate MissedAt(t: int) {
    && ChangesAt(MORNING.events, RETURN.events, t, t + 1, GRACE_MS)
    && LocalDayStart(t, Utc()) !in MarkedDays(MORNING.events, RETURN.events, Utc(), GRACE_MS)
  }

  lemma AwayChanges(t: int)
    requires 1_230_000 <= t < 3 * DAY
    ensures MissedAt(t)
  {
    AwayActivity(t, t + 1);
    DayExactly(t, LocalDayStart(t, Utc()), Utc());
    hide MarkedDays; hide ActiveAt; hide LocalDayStart;
    if LocalDayStart(t, Utc()) in MarkedDays(MORNING.events, RETURN.events, Utc(), GRACE_MS) {
      ReturnMarks(LocalDayStart(t, Utc()));
    }
  }

  lemma AwayUnmarked()
    ensures !SwitchesMarked(MORNING.events, RETURN.events, Utc(), GRACE_MS)
  {
    DayZero();
    AwayChanges(10_000_000);
    assert Timely(MORNING.events + RETURN.events);
    hide MarkedDays; hide SwitchesMarked; hide ChangesAt; hide LocalDayStart; hide Timely;
    MarkingExact(MORNING.events, RETURN.events, Utc(), 0, GRACE_MS);
  }

  lemma AwayRun()
    ensures var st := RunCalls(AwayCalls(), Defaults());
            && 0 in st.rollups && 0 !in st.dirty
            && st.rollups[0].grossMs <= 1_230_000 && Recomputed(st, Defaults(), 0).grossMs >= DAY - 330_000
  {
    var cfg, calls := Defaults(), [DoIngest("m", MORNING)] + [DoMaintain(2 * DAY)];
    var before, st := RunCalls(calls, cfg), RunCalls(AwayCalls(), cfg);
    AfterSealing();
    LogOf(MORNING.events, RETURN.events, "m");
    hide RunCalls; hide Ingested; hide Recomputed; hide SealedFrom; hide LoadDay; hide ToLog; hide MarkedDays;
    hide EventsOf;
    RunCall(calls, DoIngest("m", RETURN), cfg);
    IngestFields(before, "m", RETURN, Utc());
    if 0 in MarkedDays(MORNING.events, RETURN.events, Utc(), GRACE_MS) { ReturnMarks(0); }
    AwayTotals(st.table, st);
  }
}
