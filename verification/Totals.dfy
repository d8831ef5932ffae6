/**
 * What decides a day's rollup: the instants measured activity claims in each ledger.
 * Two logs give the same rollup under every table of corrections exactly when they
 * claim the same instants, and so a sealing is right exactly when what it has
 * loaded claims what the log claims.
 */
module Totals {
  import opened Sorting
  import opened Events
  import opened Intervals
  import opened LocalTime
  import opened Pairing
  import opened Day
  import opened DayLaws
  import opened DayLocality
  import opened DayMeaning
  import opened Week
  import opened Corrections
  import opened Store

  // ---- one ledger ----------------------------------------------------------

  /** Sensor or bridged time, corrections apart. */
  ghost function MeasuredOf(l: Layers): set<int> { Points(l.sensor) + Points(l.bridged) }

  /** The instants of the day that the activity of a log claims for a ledger. */
  ghost function Measured(log: seq<RawEvent>, d: int, s: Settings, ledger: Ledger, checkTime: int): set<int> {
    MeasuredOf(LayersOf(Pair(log, checkTime, GRACE_MS).active, [], Window(d, s), s, ledger))
  }

  /** The day of a ledger, from its log and the table of corrections. */
  function LedgerDay(
    log: seq<RawEvent>, table: Table, d: int, s: Settings, ledger: Ledger, checkTime: int): DayResult
  {
    DayAt(log, OfLedger(table.rows, ledger), d, s, WeekdayMon0(d, s.zone), ledger, checkTime, GRACE_MS)
  }

  /** What counts, when measured activity claims `m` and the rows correct it. */
  ghost function CountedOf(m: set<int>, rows: seq<Correction>, ledger: Ledger, win: Interval): set<int> {
    set x | x in Range(win) &&
            (Has(rows, ledger, AddWork, x) || (x in m && !Has(rows, ledger, RemoveWork, x)))
  }

  lemma GrossOfMeasured(log: seq<RawEvent>, table: Table, d: int, s: Settings, ledger: Ledger, checkTime: int)
    ensures LedgerDay(log, table, d, s, ledger, checkTime).grossMs
            == |CountedOf(Measured(log, d, s, ledger, checkTime), table.rows, ledger, Window(d, s))|
  {
    var p, win, cs := Pair(log, checkTime, GRACE_MS), Window(d, s), OfLedger(table.rows, ledger);
    var l := LayersOf(p.active, cs, win, s, ledger);
    hide Pair; hide DayOf; hide LayersOf; hide Window; hide OfLedger; hide WeekdayMon0; hide Has; hide Points;
    hide Range; hide CountedPoints; hide SpanExtents;
    GrossIsMeasure(p.active, cs, d, s, WeekdayMon0(d, s.zone), p.provisional, ledger);
    SensorStays(p.active, cs, [], win, s, ledger);
    forall x ensures x in CountedPoints(l) <==>
                     x in CountedOf(Measured(log, d, s, ledger, checkTime), table.rows, ledger, win)
    {
      if x in Range(win) { CountsByRows(p.active, table.rows, win, s, ledger, x); }
    }
    assert CountedPoints(l) == CountedOf(Measured(log, d, s, ledger, checkTime), table.rows, ledger, win);
  }

  /** Everything a rollup takes from a day. */
  predicate SameTotals(a: DayResult, b: DayResult) {
    && a.workedMs == b.workedMs && a.grossMs == b.grossMs && a.lunchMs == b.lunchMs
    && a.normMs == b.normMs && a.balanceMs == b.balanceMs && a.isWorkingDay == b.isWorkingDay
  }

  /** Under the same corrections, the gross time decides the other totals. */
  lemma GrossDecides(
    a: seq<Interval>, b: seq<Interval>, cs: seq<Correction>, d: int, s: Settings, weekday: int,
    v: seq<ProvisionalSpan>, w: seq<ProvisionalSpan>, mode: Ledger)
    ensures var x, y := DayOf(a, cs, d, s, weekday, v, mode), DayOf(b, cs, d, s, weekday, w, mode);
            x.grossMs == y.grossMs ==> SameTotals(x, y)
  {
    hide LayersOf; hide Window; hide ClampEach; hide Parts; hide PeriodsFrom; hide SpansOf; hide SpanExtents;
    hide Envelope; hide ReviewLeft; hide RemovedLeft; hide TotalDuration; hide HolidaysOf; hide IdsOf;
  }

  lemma MeasuredDecides(
    a: seq<RawEvent>, ta: int, b: seq<RawEvent>, tb: int, table: Table, d: int, s: Settings, ledger: Ledger)
    requires Measured(a, d, s, ledger, ta) == Measured(b, d, s, ledger, tb)
    ensures SameTotals(LedgerDay(a, table, d, s, ledger, ta), LedgerDay(b, table, d, s, ledger, tb))
  {
    var p, q := Pair(a, ta, GRACE_MS), Pair(b, tb, GRACE_MS);
    GrossOfMeasured(a, table, d, s, ledger, ta);
    GrossOfMeasured(b, table, d, s, ledger, tb);
    hide Measured; hide CountedOf; hide Pair; hide DayOf; hide OfLedger; hide WeekdayMon0; hide Window; hide SameTotals;
    GrossDecides(p.active, q.active, OfLedger(table.rows, ledger), d, s, WeekdayMon0(d, s.zone),
                 p.provisional, q.provisional, ledger);
  }

  lemma MeasuredInside(log: seq<RawEvent>, d: int, s: Settings, ledger: Ledger, checkTime: int)
    ensures Measured(log, d, s, ledger, checkTime) <= Range(Window(d, s))
  {
    LayersAreWellLayered(Pair(log, checkTime, GRACE_MS).active, [], Window(d, s), s, ledger);
    hide LayersOf; hide Window; hide Points; hide Range; hide Pair;
  }

  // ---- both ledgers --------------------------------------------------------

  function DayRollup(
    work: seq<RawEvent>, personal: seq<RawEvent>, table: Table, d: int, s: Settings, checkTime: int): Rollup
  {
    RollupOf(LedgerDay(work, table, d, s, Work, checkTime), LedgerDay(personal, table, d, s, Personal, checkTime))
  }

  /** Two removes that leave one instant of the window. */
  function OnlyInstant(x: int, win: Interval, ledger: Ledger, id: int): Table {
    Table([Correction(RemoveWork, win.start - 1, x, Some(id), ledger),
           Correction(RemoveWork, x + 1, win.end + 1, Some(id + 1), ledger)], id + 2)
  }

  lemma OnlyInstantCounts(m: set<int>, x: int, win: Interval, ledger: Ledger, id: int)
    requires x in Range(win)
    ensures WellFormed(OnlyInstant(x, win, ledger, id))
    ensures CountedOf(m, OnlyInstant(x, win, ledger, id).rows, ledger, win) == if x in m then {x} else {}
  {
    var rows := OnlyInstant(x, win, ledger, id).rows;
    assert rows[0] in rows && rows[1] in rows;
    forall y | y in Range(win)
      ensures !Has(rows, ledger, AddWork, y) && (Has(rows, ledger, RemoveWork, y) <==> y != x)
    {
      assert y < x ==> rows[0].start <= y < rows[0].end;
      assert x < y ==> rows[1].start <= y < rows[1].end;
    }
    hide Has; hide Range;
  }

  /** An instant that only one of two logs claims shows in some rollup. */
  lemma DifferenceShows(
    a: seq<RawEvent>, ta: int, b: seq<RawEvent>, tb: int, d: int, s: Settings, ledger: Ledger, x: int,
    id: int)
    requires x in Measured(a, d, s, ledger, ta) <==> x !in Measured(b, d, s, ledger, tb)
    ensures var table := OnlyInstant(x, Window(d, s), ledger, id);
            && WellFormed(table)
            && LedgerDay(a, table, d, s, ledger, ta).grossMs != LedgerDay(b, table, d, s, ledger, tb).grossMs
  {
    var win := Window(d, s);
    var table := OnlyInstant(x, win, ledger, id);
    MeasuredInside(a, d, s, ledger, ta);
    MeasuredInside(b, d, s, ledger, tb);
    hide *;
    OnlyInstantCounts(Measured(a, d, s, ledger, ta), x, win, ledger, id);
    OnlyInstantCounts(Measured(b, d, s, ledger, tb), x, win, ledger, id);
    GrossOfMeasured(a, table, d, s, ledger, ta);
    GrossOfMeasured(b, table, d, s, ledger, tb);
  }

  lemma SetsDiffer(a: set<int>, b: set<int>)
    requires a != b
    ensures exists x :: x in a <==> x !in b
  {
    assert (forall x :: x in a <==> x in b) ==> a == b;
  }

  /**
   * Rollups, exactly: two pairs of logs, seen at two check times, give the same
   * rollup under every table of corrections if and only if they claim the same
   * instants of the day in both ledgers.
   */
  lemma {:induction false} TotalsExact(
    aw: seq<RawEvent>, ap: seq<RawEvent>, ta: int, bw: seq<RawEvent>, bp: seq<RawEvent>, tb: int,
    d: int, s: Settings)
    ensures (forall t: Table | WellFormed(t) :: DayRollup(aw, ap, t, d, s, ta) == DayRollup(bw, bp, t, d, s, tb)) <==>
            && Measured(aw, d, s, Work, ta) == Measured(bw, d, s, Work, tb)
            && Measured(ap, d, s, Personal, ta) == Measured(bp, d, s, Personal, tb)
  {
    hide Measured; hide LedgerDay; hide WellFormed; hide OnlyInstant; hide Window;
    if Measured(aw, d, s, Work, ta) != Measured(bw, d, s, Work, tb) {
      SetsDiffer(Measured(aw, d, s, Work, ta), Measured(bw, d, s, Work, tb));
      var x :| x in Measured(aw, d, s, Work, ta) <==> x !in Measured(bw, d, s, Work, tb);
      DifferenceShows(aw, ta, bw, tb, d, s, Work, x, 1);
    } else if Measured(ap, d, s, Personal, ta) != Measured(bp, d, s, Personal, tb) {
      SetsDiffer(Measured(ap, d, s, Personal, ta), Measured(bp, d, s, Personal, tb));
      var x :| x in Measured(ap, d, s, Personal, ta) <==> x !in Measured(bp, d, s, Personal, tb);
      DifferenceShows(ap, ta, bp, tb, d, s, Personal, x, 1);
    } else {
      forall t: Table | WellFormed(t) ensures DayRollup(aw, ap, t, d, s, ta) == DayRollup(bw, bp, t, d, s, tb) {
        MeasuredDecides(aw, ta, bw, tb, t, d, s, Work);
        MeasuredDecides(ap, ta, bp, tb, t, d, s, Personal);
      }
    }
  }

  // ---- the store's rollups -------------------------------------------------

  /** One ledger of a day from the whole log and all corrections. */
  function FullDay(st: State, cfg: Config, d: int, ledger: Ledger): DayResult {
    LedgerDay(ForLedger(st.events, cfg.roles, ledger), st.table, d, cfg.settings, ledger, Window(d, cfg.settings).end)
  }

  function Recomputed(st: State, cfg: Config, d: int): Rollup {
    RollupOf(FullDay(st, cfg, d, Work), FullDay(st, cfg, d, Personal))
  }

  /** What the log claims of the day in a ledger. */
  ghost function Claims(log: seq<RawEvent>, cfg: Config, d: int, ledger: Ledger): set<int> {
    Measured(ForLedger(log, cfg.roles, ledger), d, cfg.settings, ledger, Window(d, cfg.settings).end)
  }

  /** What a sealing started at `now` claims of the rows it has loaded. */
  ghost function SealClaims(loaded: seq<RawEvent>, cfg: Config, d: int, ledger: Ledger, now: int): set<int> {
    Measured(ForLedger(loaded, cfg.roles, ledger), d, cfg.settings, ledger, now)
  }

  /** What a sealing has loaded claims the instants that the log claims, in both ledgers. */
  ghost predicate Gives(loaded: seq<RawEvent>, now: int, log: seq<RawEvent>, cfg: Config, d: int) {
    forall l: Ledger :: SealClaims(loaded, cfg, d, l, now) == Claims(log, cfg, d, l)
  }

  /** Two logs claim the same instants of the day, in both ledgers. */
  ghost predicate SameClaims(a: seq<RawEvent>, b: seq<RawEvent>, cfg: Config, d: int) {
    forall l: Ledger :: Claims(a, cfg, d, l) == Claims(b, cfg, d, l)
  }

  lemma SealedAsRollup(loaded: seq<RawEvent>, table: Table, cfg: Config, d: int, now: int)
    ensures SealedFrom(loaded, table, cfg, d, now) ==
            DayRollup(ForLedger(loaded, cfg.roles, Work), ForLedger(loaded, cfg.roles, Personal), table, d,
                      cfg.settings, now)
  {
    hide SealedDay; hide LedgerDay; hide ForLedger;
    SealedAsLedgerDay(loaded, table, cfg, d, Work, now);
    SealedAsLedgerDay(loaded, table, cfg, d, Personal, now);
  }

  lemma SealedAsLedgerDay(loaded: seq<RawEvent>, table: Table, cfg: Config, d: int, ledger: Ledger, now: int)
    ensures SealedDay(loaded, table, cfg, d, ledger, now) ==
            LedgerDay(ForLedger(loaded, cfg.roles, ledger), table, d, cfg.settings, ledger, now)
  {
    var win := Window(d, cfg.settings);
    var p := Pair(ForLedger(loaded, cfg.roles, ledger), now, GRACE_MS);
    hide Pair; hide DayOf; hide OfLedger; hide Overlapping; hide Window; hide WeekdayMon0; hide ForLedger;
    LoadingLosesNothing(p.active, OfLedger(table.rows, ledger), win, d, cfg.settings, WeekdayMon0(d, cfg.settings.zone),
                        p.provisional, ledger);
  }

  lemma RecomputedAsRollup(st: State, cfg: Config, d: int)
    ensures Recomputed(st, cfg, d) ==
            DayRollup(ForLedger(st.events, cfg.roles, Work), ForLedger(st.events, cfg.roles, Personal), st.table, d,
                      cfg.settings, Window(d, cfg.settings).end)
  {
    hide LedgerDay; hide ForLedger; hide Window;
  }

  /**
   * Sealing, exactly: for any rows loaded, any log, any day and any clock, the rollup
   * is recomputation under every table of corrections if and only if what was loaded
   * claims the instants that the log claims.
   */
  lemma {:induction false} SealExact(loaded: seq<RawEvent>, now: int, st: State, cfg: Config, d: int)
    ensures (forall t: Table | WellFormed(t) ::
               SealedFrom(loaded, t, cfg, d, now) == Recomputed(st.(table := t), cfg, d)) <==>
            Gives(loaded, now, st.events, cfg, d)
  {
    var s, end := cfg.settings, Window(d, cfg.settings).end;
    var aw, ap := ForLedger(loaded, cfg.roles, Work), ForLedger(loaded, cfg.roles, Personal);
    var bw, bp := ForLedger(st.events, cfg.roles, Work), ForLedger(st.events, cfg.roles, Personal);
    TotalsExact(aw, ap, now, bw, bp, end, d, s);
    hide SealedFrom; hide Recomputed; hide DayRollup; hide WellFormed; hide Measured; hide ForLedger; hide Window;
    forall t: Table
      ensures SealedFrom(loaded, t, cfg, d, now) == DayRollup(aw, ap, t, d, s, now)
      ensures Recomputed(st.(table := t), cfg, d) == DayRollup(bw, bp, t, d, s, end)
    {
      SealedAsRollup(loaded, t, cfg, d, now);
      RecomputedAsRollup(st.(table := t), cfg, d);
    }
    GivesBoth(loaded, now, st.events, cfg, d);
  }

  lemma GivesBoth(loaded: seq<RawEvent>, now: int, log: seq<RawEvent>, cfg: Config, d: int)
    ensures Gives(loaded, now, log, cfg, d) <==>
            && SealClaims(loaded, cfg, d, Work, now) == Claims(log, cfg, d, Work)
            && SealClaims(loaded, cfg, d, Personal, now) == Claims(log, cfg, d, Personal)
  {
    hide SealClaims; hide Claims;
    forall l: Ledger | SealClaims(loaded, cfg, d, Work, now) == Claims(log, cfg, d, Work)
                       && SealClaims(loaded, cfg, d, Personal, now) == Claims(log, cfg, d, Personal)
      ensures SealClaims(loaded, cfg, d, l, now) == Claims(log, cfg, d, l)
    {
      match l
      case Work =>
      case Personal =>
    }
  }

  lemma SameClaimsBoth(a: seq<RawEvent>, b: seq<RawEvent>, cfg: Config, d: int)
    ensures SameClaims(a, b, cfg, d) <==>
            && Claims(a, cfg, d, Work) == Claims(b, cfg, d, Work)
            && Claims(a, cfg, d, Personal) == Claims(b, cfg, d, Personal)
  {
    hide Claims;
    forall l: Ledger | Claims(a, cfg, d, Work) == Claims(b, cfg, d, Work)
                       && Claims(a, cfg, d, Personal) == Claims(b, cfg, d, Personal)
      ensures Claims(a, cfg, d, l) == Claims(b, cfg, d, l)
    {
      match l
      case Work =>
      case Personal =>
    }
  }

  /** A change of the log leaves a day's rollup alone, under every table, iff it leaves its claims alone. */
  lemma {:induction false} LogChangeExact(st: State, log: seq<RawEvent>, cfg: Config, d: int)
    ensures (forall t: Table | WellFormed(t) ::
               Recomputed(st.(events := log, table := t), cfg, d) == Recomputed(st.(table := t), cfg, d)) <==>
            SameClaims(log, st.events, cfg, d)
  {
    var s, end := cfg.settings, Window(d, cfg.settings).end;
    var aw, ap := ForLedger(log, cfg.roles, Work), ForLedger(log, cfg.roles, Personal);
    var bw, bp := ForLedger(st.events, cfg.roles, Work), ForLedger(st.events, cfg.roles, Personal);
    TotalsExact(aw, ap, end, bw, bp, end, d, s);
    hide Recomputed; hide DayRollup; hide WellFormed; hide Measured; hide ForLedger; hide Window;
    forall t: Table
      ensures Recomputed(st.(events := log, table := t), cfg, d) == DayRollup(aw, ap, t, d, s, end)
      ensures Recomputed(st.(table := t), cfg, d) == DayRollup(bw, bp, t, d, s, end)
    {
      RecomputedAsRollup(st.(events := log, table := t), cfg, d);
      RecomputedAsRollup(st.(table := t), cfg, d);
    }
    SameClaimsBoth(log, st.events, cfg, d);
  }

  /** Logs active at the same instants of the day claim the same ones. */
  lemma SameActivitySameMeasured(
    a: seq<RawEvent>, ta: int, b: seq<RawEvent>, tb: int, d: int, s: Settings, ledger: Ledger)
    requires forall t :: t in Range(Window(d, s)) ==>
               (AnyActiveAt(a, t, ta, GRACE_MS) <==> AnyActiveAt(b, t, tb, GRACE_MS))
    ensures Measured(a, d, s, ledger, ta) == Measured(b, d, s, ledger, tb)
  {
    var p, q := Pair(a, ta, GRACE_MS), Pair(b, tb, GRACE_MS);
    hide Pair; hide AnyActiveAt; hide Window; hide Points; hide Canonical; hide Range; hide LayersOf;
    PairMeaning(a, 0, ta, GRACE_MS);
    PairMeaning(b, 0, tb, GRACE_MS);
    forall t | t in Range(Window(d, s)) ensures t in Points(p.active) <==> t in Points(q.active) {
      PairMeaning(a, t, ta, GRACE_MS);
      PairMeaning(b, t, tb, GRACE_MS);
    }
    DaySeesItsWindow(p.active, q.active, [], d, s, 0, [], [], ledger);
  }

  // ---- what a rollup says --------------------------------------------------

  /** A holiday of the ledger touches the window. */
  ghost predicate HolidayTouches(rows: seq<Correction>, ledger: Ledger, win: Interval) {
    exists c :: c in rows && c.ledger == ledger && c.kind == Holiday && Overlaps(c, win)
  }

  /** What a ledger's day puts into the books, from the instants that count. */
  ghost predicate Booked(r: DayResult, counted: nat, holiday: bool, s: Settings, weekday: int, ledger: Ledger) {
    && r.grossMs == counted
    && r.lunchMs == (if ledger == Work && counted > s.lunchThresholdMin * MINUTE then s.lunchDeductMin * MINUTE else 0)
    && r.workedMs == Max(0, counted - r.lunchMs)
    && (r.isWorkingDay <==> weekday in s.workingWeekdays)
    && r.normMs == (if ledger == Work && weekday in s.workingWeekdays && !holiday
                    then s.dailyNormMin * MINUTE else 0)
    && r.balanceMs == r.workedMs - r.normMs
  }

  lemma LedgerBooks(log: seq<RawEvent>, table: Table, d: int, s: Settings, ledger: Ledger, checkTime: int)
    ensures var win := Window(d, s);
            Booked(LedgerDay(log, table, d, s, ledger, checkTime),
                   |CountedOf(Measured(log, d, s, ledger, checkTime), table.rows, ledger, win)|,
                   HolidayTouches(table.rows, ledger, win), s, WeekdayMon0(d, s.zone), ledger)
  {
    var p, win, cs := Pair(log, checkTime, GRACE_MS), Window(d, s), OfLedger(table.rows, ledger);
    GrossOfMeasured(log, table, d, s, ledger, checkTime);
    hide Pair; hide DayOf; hide OfLedger; hide WeekdayMon0; hide Window; hide Measured; hide CountedOf; hide Overlaps;
    DayBooks(p.active, cs, d, s, WeekdayMon0(d, s.zone), p.provisional, ledger);
    forall c ensures c in cs <==> c in table.rows && c.ledger == ledger { OfLedgerMeaning(table.rows, ledger, c); }
  }

  /**
   * A sealed rollup, field by field, from the instants that count in each ledger under
   * the corrections there are: the work ledger's gross time is their number, lunch is
   * deducted past the threshold, the norm is due on working weekdays that no holiday
   * touches; the personal ledger's two fields are the number of its own.
   */
  lemma {:induction false} SealedBooks(loaded: seq<RawEvent>, table: Table, cfg: Config, d: int, now: int)
    ensures var r, s, win := SealedFrom(loaded, table, cfg, d, now), cfg.settings, Window(d, cfg.settings);
            var work := |CountedOf(SealClaims(loaded, cfg, d, Work, now), table.rows, Work, win)|;
            var personal := |CountedOf(SealClaims(loaded, cfg, d, Personal, now), table.rows, Personal, win)|;
            var weekday := WeekdayMon0(d, s.zone);
            && r.grossMs == work
            && r.lunchMs == (if work > s.lunchThresholdMin * MINUTE then s.lunchDeductMin * MINUTE else 0)
            && r.workedMs == Max(0, work - r.lunchMs)
            && (r.isWorkingDay <==> weekday in s.workingWeekdays)
            && r.normMs == (if weekday in s.workingWeekdays && !HolidayTouches(table.rows, Work, win)
                            then s.dailyNormMin * MINUTE else 0)
            && r.balanceMs == r.workedMs - r.normMs
            && r.personalGrossMs == personal && r.personalWorkedMs == personal
  {
    hide SealedDay; hide LedgerDay; hide ForLedger; hide Window; hide Measured; hide CountedOf; hide HolidayTouches;
    hide WeekdayMon0;
    SealedAsLedgerDay(loaded, table, cfg, d, Work, now);
    SealedAsLedgerDay(loaded, table, cfg, d, Personal, now);
    LedgerBooks(ForLedger(loaded, cfg.roles, Work), table, d, cfg.settings, Work, now);
    LedgerBooks(ForLedger(loaded, cfg.roles, Personal), table, d, cfg.settings, Personal, now);
  }

  /** The sessions a sealing stores are, in order, the work ledger's counted instants. */
  lemma {:induction false} SessionsExactly(
    loaded: seq<RawEvent>, table: Table, cfg: Config, d: int, now: int, t: int)
    ensures var spans, win := SpansFrom(loaded, table, cfg, d, now), Window(d, cfg.settings);
            && SortedBy(spans, SpanStart)
            && ((exists x :: x in spans && x.start <= t < x.end) <==>
                t in CountedOf(SealClaims(loaded, cfg, d, Work, now), table.rows, Work, win))
  {
    var log, s := ForLedger(loaded, cfg.roles, Work), cfg.settings;
    hide SealedDay; hide LedgerDay; hide ForLedger; hide Window; hide Measured; hide CountedOf; hide WeekdayMon0;
    SealedAsLedgerDay(loaded, table, cfg, d, Work, now);
    LedgerSpans(log, table, d, s, Work, now, t);
  }

  lemma LedgerSpans(log: seq<RawEvent>, table: Table, d: int, s: Settings, ledger: Ledger, checkTime: int, t: int)
    ensures var spans := LedgerDay(log, table, d, s, ledger, checkTime).spans;
            && SortedBy(spans, SpanStart)
            && ((exists x :: x in spans && x.start <= t < x.end) <==>
                t in CountedOf(Measured(log, d, s, ledger, checkTime), table.rows, ledger, Window(d, s)))
  {
    var p, win, cs := Pair(log, checkTime, GRACE_MS), Window(d, s), OfLedger(table.rows, ledger);
    var l := LayersOf(p.active, cs, win, s, ledger);
    hide Pair; hide DayOf; hide LayersOf; hide Window; hide OfLedger; hide WeekdayMon0; hide Has; hide Points;
    hide Range;
    hide SortedBy;
    SpansMeaning(p.active, cs, d, s, WeekdayMon0(d, s.zone), p.provisional, ledger, t);
    LayersAreWellLayered(p.active, cs, win, s, ledger);
    SensorStays(p.active, cs, [], win, s, ledger);
    if t in Range(win) { CountsByRows(p.active, table.rows, win, s, ledger, t); }
  }
}
