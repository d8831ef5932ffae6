/** `computeWeek` (worktime/worktime.ts): seven days, Monday first, and their totals. */
module Week {
  import opened Sorting
  import opened Events
  import opened Intervals
  import opened LocalTime
  import opened Pairing
  import opened Day
  import opened DayLaws

  datatype WeekResult = WeekResult(
    weekStart: int,
    days: seq<DayResult>,
    weeklyWorkedMs: int,
    weeklyNormMs: int,
    weeklyBalanceMs: int)

  const GRACE_MS := 3 * 300 * 1000

  function WorkedOf(d: DayResult): int { d.workedMs }
  function NormOf(d: DayResult): int { d.normMs }
  function BalanceOf(d: DayResult): int { d.balanceMs }
  function RawOf(d: DayResult): int { Total(d.rawActive) }
  function ReliefOf(d: DayResult): int { if d.isHoliday && d.isWorkingDay then 1 else 0 }
  function WorkingOf(d: DayResult): int { if d.isWorkingDay then 1 else 0 }

  /** The start of the `i`-th day, reached by stepping a local day at a time. */
  function Cursor(weekStart: int, i: nat, z: Zone): int {
    if i == 0 then LocalDayStart(weekStart, z) else AddLocalDays(Cursor(weekStart, i - 1, z), 1, z)
  }

  /** The first `n` days. */
  function DaysOf(
    p: PairedSpans, cs: seq<Correction>, weekStart: int, s: Settings, mode: Ledger, n: nat): seq<DayResult>
  {
    if n == 0 then []
    else DaysOf(p, cs, weekStart, s, mode, n - 1)
         + [DayOf(p.active, cs, Cursor(weekStart, n - 1, s.zone), s, n - 1, p.provisional, mode)]
  }

  function WeeklyNorm(days: seq<DayResult>, s: Settings, mode: Ledger): int {
    if mode == Work then
      Max(0, s.weeklyNormMin * MINUTE - SumBy(days, ReliefOf) * s.dailyNormMin * MINUTE)
    else 0
  }

  function WeekOf(
    weekStart: int, log: seq<RawEvent>, cs: seq<Correction>, s: Settings, checkTime: int, mode: Ledger): WeekResult
  {
    var days := DaysOf(Pair(log, checkTime, GRACE_MS), cs, weekStart, s, mode, 7);
    var worked, norm := SumBy(days, WorkedOf), WeeklyNorm(days, s, mode);
    WeekResult(weekStart, days, worked, norm, worked - norm)
  }

  method ComputeWeek(
    weekStart: int, log: seq<RawEvent>, cs: seq<Correction>, s: Settings, checkTime: int, mode: Ledger)
    returns (r: WeekResult)
    ensures r == WeekOf(weekStart, log, cs, s, checkTime, mode)
  {
    hide DayOf; hide Pair; hide SumBy; hide AddLocalDays; hide LocalDayStart;
    var paired := PairSpans(log, checkTime, GRACE_MS);
    var days: seq<DayResult> := [];
    var cursor := LocalDayStart(weekStart, s.zone);
    for i := 0 to 7
      invariant cursor == Cursor(weekStart, i, s.zone)
      invariant days == DaysOf(paired, cs, weekStart, s, mode, i)
    {
      var day := ComputeDay(paired.active, cs, cursor, s, i, paired.provisional, mode);
      days := days + [day];
      cursor := AddLocalDays(cursor, 1, s.zone);
    }
    var worked := SumBy(days, WorkedOf);
    var relief := if mode == Work then SumBy(days, ReliefOf) else 0;
    var norm := if mode == Work then Max(0, s.weeklyNormMin * MINUTE - relief * s.dailyNormMin * MINUTE) else 0;
    r := WeekResult(weekStart, days, worked, norm, worked - norm);
  }

  // ---- the seven windows ---------------------------------------------------

  lemma {:induction false} CursorFixed(weekStart: int, i: nat, z: Zone, off: int)
    requires Fixed(z, off)
    ensures var w := LocalDayStart(weekStart, z);
            Cursor(weekStart, i, z) == w + i * DAY && IsMidnight(w + i * DAY, z)
  {
    DayContains(weekStart, z, off);
    if i > 0 {
      CursorFixed(weekStart, i - 1, z, off);
      AddDaysFixed(Cursor(weekStart, i - 1, z), 1, z, off);
    }
  }

  /**
   * In a week that starts where `localWeekStart` says, the loop index is the
   * weekday: the week view and the sealed rollups judge a day by the same norm.
   */
  lemma {:induction false} IndexIsWeekday(ts: int, i: nat, z: Zone, off: int)
    requires Fixed(z, off) && i < 7
    ensures WeekdayMon0(Cursor(LocalWeekStart(ts, z), i, z), z) == i
    ensures LocalDayStart(LocalWeekStart(ts, z), z) == LocalWeekStart(ts, z)
  {
    hide Cursor; hide LocalWeekStart; hide LocalDayStart; hide WeekdayMon0; hide AddLocalDays; hide IsMidnight;
    var w := LocalWeekStart(ts, z);
    WeekContains(ts, z, off);
    DayIsUnique(w, w, z, off);
    CursorFixed(w, i, z, off);
    WeekdayOfDay(w, i, z, off);
  }

  /** How many of the instants fall in [from, to). */
  ghost function MeasureWithin(q: set<int>, from: int, to: int): nat { |q * Range(Interval(from, to))| }

  lemma RawIsClamped(p: PairedSpans, cs: seq<Correction>, d: int, s: Settings, i: int, mode: Ledger)
    requires Canonical(p.active)
    ensures RawOf(DayOf(p.active, cs, d, s, i, p.provisional, mode))
            == MeasureWithin(Points(p.active), Window(d, s).start, Window(d, s).end)
  {
    var win := Window(d, s);
    ClampEachKeepsCanonical(p.active, win);
    CanonicalMeasure(ClampEach(p.active, win));
    var l := LayersOf(p.active, cs, win, s, mode);
    hide LayersOf; hide Canonical; hide Points; hide ClampEach; hide Window; hide Parts; hide PeriodsFrom; hide SpansOf;
    hide SpanExtents; hide Envelope; hide ReviewLeft; hide RemovedLeft; hide TotalDuration; hide Total;
  }

  lemma SplitMeasure(q: set<int>, from: int, mid: int, to: int)
    requires from <= mid <= to
    ensures MeasureWithin(q, from, to) == MeasureWithin(q, from, mid) + MeasureWithin(q, mid, to)
  {
    var a, b := q * Range(Interval(from, mid)), q * Range(Interval(mid, to));
    assert q * Range(Interval(from, to)) == a + b;
    assert a !! b;
  }

  /** The first `n` steps of the cursor do not go back. */
  predicate StepsOn(weekStart: int, n: nat, z: Zone) {
    n == 0 || (StepsOn(weekStart, n - 1, z) && Cursor(weekStart, n - 1, z) <= Cursor(weekStart, n, z))
  }

  lemma {:induction false} CursorGrows(weekStart: int, n: nat, z: Zone)
    requires StepsOn(weekStart, n, z)
    ensures Cursor(weekStart, 0, z) <= Cursor(weekStart, n, z)
  {
    if n > 0 { CursorGrows(weekStart, n - 1, z); }
    hide Cursor;
  }

  lemma {:induction false} RawSum(
    p: PairedSpans, cs: seq<Correction>, weekStart: int, s: Settings, mode: Ledger, n: nat)
    requires StepsOn(weekStart, n, s.zone) && Canonical(p.active)
    ensures SumBy(DaysOf(p, cs, weekStart, s, mode, n), RawOf)
            == MeasureWithin(Points(p.active), Cursor(weekStart, 0, s.zone), Cursor(weekStart, n, s.zone))
  {
    hide Cursor; hide DaysOf; hide DayOf; hide Points; hide Canonical; hide SumBy; hide MeasureWithin; hide RawOf;
    DaysOfSnoc(p, cs, weekStart, s, mode, n);
    var w, q := Cursor(weekStart, 0, s.zone), Points(p.active);
    if n == 0 {
      SplitMeasure(q, w, w, w);
      SumByNone();
    } else {
      RawSum(p, cs, weekStart, s, mode, n - 1);
      CursorGrows(weekStart, n - 1, s.zone);
      WindowIsStep(weekStart, n - 1, s);
      RawIsClamped(p, cs, Cursor(weekStart, n - 1, s.zone), s, n - 1, mode);
      SplitMeasure(q, w, Cursor(weekStart, n - 1, s.zone), Cursor(weekStart, n, s.zone));
      SumBySnoc(DaysOf(p, cs, weekStart, s, mode, n - 1),
                DayOf(p.active, cs, Cursor(weekStart, n - 1, s.zone), s, n - 1, p.provisional, mode), RawOf);
    }
  }

  /** The window of each day ends where the cursor goes next. */
  lemma WindowIsStep(weekStart: int, i: nat, s: Settings)
    ensures Window(Cursor(weekStart, i, s.zone), s)
            == Interval(Cursor(weekStart, i, s.zone), Cursor(weekStart, i + 1, s.zone))
  {
    hide AddLocalDays; hide LocalDayStart;
  }

  lemma SumByNone()
    ensures SumBy<DayResult>([], RawOf) == 0
  {
  }

  lemma DaysOfSnoc(p: PairedSpans, cs: seq<Correction>, weekStart: int, s: Settings, mode: Ledger, n: nat)
    ensures DaysOf(p, cs, weekStart, s, mode, n) ==
            if n == 0 then []
            else DaysOf(p, cs, weekStart, s, mode, n - 1)
                 + [DayOf(p.active, cs, Cursor(weekStart, n - 1, s.zone), s, n - 1, p.provisional, mode)]
  {
    hide DayOf; hide Cursor;
  }

  /**
   * Week conservation, in any zone whose seven steps do not go back: the days' sensor
   * time adds up to the active time between the first and the last step, each
   * millisecond once, whatever crosses a midnight.
   */
  lemma {:induction false} WeekConservesActiveTime(
    weekStart: int, log: seq<RawEvent>, cs: seq<Correction>, s: Settings, checkTime: int, mode: Ledger)
    requires StepsOn(weekStart, 7, s.zone)
    ensures SumBy(WeekOf(weekStart, log, cs, s, checkTime, mode).days, RawOf)
            == MeasureWithin(Points(Pair(log, checkTime, GRACE_MS).active),
                             Cursor(weekStart, 0, s.zone), Cursor(weekStart, 7, s.zone))
  {
    WeekDays(weekStart, log, cs, s, checkTime, mode);
    PairedIsCanonical(log, checkTime);
    hide *;
    RawSum(Pair(log, checkTime, GRACE_MS), cs, weekStart, s, mode, 7);
  }

  /** With one offset the seven windows are seven days of 24 hours. */
  lemma {:induction false} WeekIsSevenDays(weekStart: int, z: Zone, off: int)
    requires Fixed(z, off)
    ensures StepsOn(weekStart, 7, z)
    ensures Cursor(weekStart, 7, z) == LocalDayStart(weekStart, z) + 7 * DAY
  {
    hide Cursor; hide LocalDayStart; hide IsMidnight; hide Fixed;
    forall i: nat ensures Cursor(weekStart, i, z) == LocalDayStart(weekStart, z) + i * DAY {
      CursorFixed(weekStart, i, z, off);
    }
    StepsOnDays(weekStart, 7, z);
  }

  lemma {:induction false} StepsOnDays(weekStart: int, n: nat, z: Zone)
    requires forall i: nat :: Cursor(weekStart, i, z) == LocalDayStart(weekStart, z) + i * DAY
    ensures StepsOn(weekStart, n, z)
  {
    hide Cursor; hide LocalDayStart;
    if n > 0 { StepsOnDays(weekStart, n - 1, z); }
  }

  lemma WeekDays(weekStart: int, log: seq<RawEvent>, cs: seq<Correction>, s: Settings, checkTime: int, mode: Ledger)
    ensures WeekOf(weekStart, log, cs, s, checkTime, mode).days
            == DaysOf(Pair(log, checkTime, GRACE_MS), cs, weekStart, s, mode, 7)
  {
    hide Pair; hide DaysOf; hide SumBy; hide WeeklyNorm;
  }

  lemma PairedIsCanonical(log: seq<RawEvent>, checkTime: int)
    ensures Canonical(Pair(log, checkTime, GRACE_MS).active)
  {
    PairMeaning(log, 0, checkTime, GRACE_MS);
    hide Pair;
  }

  // ---- the totals ----------------------------------------------------------

  /** How many of the first `n` days are relieved: holidays that fall on a working weekday. */
  function Relieved(days: seq<DayResult>, n: nat): nat
    requires n <= |days|
  {
    if n == 0 then 0
    else Relieved(days, n - 1) + if days[n - 1].isHoliday && days[n - 1].isWorkingDay then 1 else 0
  }

  lemma {:induction false} DaysOfAt(
    p: PairedSpans, cs: seq<Correction>, weekStart: int, s: Settings, mode: Ledger, n: nat, i: nat)
    requires i < n
    ensures |DaysOf(p, cs, weekStart, s, mode, n)| == n
    ensures DaysOf(p, cs, weekStart, s, mode, n)[i]
            == DayOf(p.active, cs, Cursor(weekStart, i, s.zone), s, i, p.provisional, mode)
  {
    hide DaysOf; hide DayOf; hide Cursor;
    DaysOfSnoc(p, cs, weekStart, s, mode, n);
    if n > 1 { DaysOfAt(p, cs, weekStart, s, mode, n - 1, if i < n - 1 then i else 0); }
    if n == 1 { DaysOfSnoc(p, cs, weekStart, s, mode, 0); }
  }

  lemma {:induction false} SumUpTo(days: seq<DayResult>, n: nat)
    requires n <= |days|
    ensures SumBy(days[..n], ReliefOf) == Relieved(days, n)
  {
    if n > 0 {
      SumUpTo(days, n - 1);
      assert days[..n] == days[..n - 1] + [days[n - 1]];
      SumBySnoc(days[..n - 1], days[n - 1], ReliefOf);
      hide SumBy;
    }
  }

  lemma SumOfSeven(days: seq<DayResult>, f: DayResult -> int)
    requires |days| == 7
    ensures SumBy(days, f) ==
            f(days[0]) + f(days[1]) + f(days[2]) + f(days[3]) + f(days[4]) + f(days[5]) + f(days[6])
  {
    assert SumBy([], f) == 0;
    assert days[..0] == [] && days[..7] == days;
    hide SumBy;
    forall n | 0 <= n < 7 ensures SumBy(days[..n + 1], f) == SumBy(days[..n], f) + f(days[n]) {
      assert days[..n + 1] == days[..n] + [days[n]];
      SumBySnoc(days[..n], days[n], f);
    }
    assert SumBy(days[..1], f) == f(days[0]);
    assert SumBy(days[..2], f) == f(days[0]) + f(days[1]);
    assert SumBy(days[..3], f) == f(days[0]) + f(days[1]) + f(days[2]);
    assert SumBy(days[..4], f) == f(days[0]) + f(days[1]) + f(days[2]) + f(days[3]);
  }

  /**
   * The week adds up: seven days, with a grace of a quarter of an hour, each computed
   * from the cursor's stop and with its index as weekday; the worked time is what the
   * seven worked, the norm of a work week is the agreed one less a daily norm for each
   * relieved day, never below nothing, and the balance is the difference.
   */
  lemma {:induction false} WeekAddsUp(
    weekStart: int, log: seq<RawEvent>, cs: seq<Correction>, s: Settings, checkTime: int, mode: Ledger)
    ensures var w := WeekOf(weekStart, log, cs, s, checkTime, mode);
            var p := Pair(log, checkTime, 900_000);
            && w.weekStart == weekStart && |w.days| == 7
            && (forall i: nat :: i < 7 ==>
                  w.days[i] == DayOf(p.active, cs, Cursor(weekStart, i, s.zone), s, i, p.provisional, mode))
            && w.weeklyWorkedMs ==
               w.days[0].workedMs + w.days[1].workedMs + w.days[2].workedMs + w.days[3].workedMs
               + w.days[4].workedMs + w.days[5].workedMs + w.days[6].workedMs
            && w.weeklyNormMs ==
               (if mode == Personal then 0
                else Max(0, s.weeklyNormMin * MINUTE - Relieved(w.days, 7) * s.dailyNormMin * MINUTE))
            && w.weeklyBalanceMs == w.weeklyWorkedMs - w.weeklyNormMs
  {
    hide *;
    var p := Pair(log, checkTime, 900_000);
    var days := DaysOf(p, cs, weekStart, s, mode, 7);
    QuarterOfAnHour();
    WeekParts(weekStart, log, cs, s, checkTime, mode);
    forall i: nat | i < 7
      ensures days[i] == DayOf(p.active, cs, Cursor(weekStart, i, s.zone), s, i, p.provisional, mode)
    {
      DaysOfAt(p, cs, weekStart, s, mode, 7, i);
    }
    SevenWorked(days);
    NormOfRelieved(days, s, mode);
  }

  lemma QuarterOfAnHour()
    ensures GRACE_MS == 900_000
  {
  }

  lemma WeekParts(
    weekStart: int, log: seq<RawEvent>, cs: seq<Correction>, s: Settings, checkTime: int, mode: Ledger)
    ensures var w := WeekOf(weekStart, log, cs, s, checkTime, mode);
            && w.weekStart == weekStart
            && w.days == DaysOf(Pair(log, checkTime, GRACE_MS), cs, weekStart, s, mode, 7) && |w.days| == 7
            && w.weeklyWorkedMs == SumBy(w.days, WorkedOf) && w.weeklyNormMs == WeeklyNorm(w.days, s, mode)
            && w.weeklyBalanceMs == w.weeklyWorkedMs - w.weeklyNormMs
  {
    hide Pair; hide DaysOf; hide SumBy; hide WeeklyNorm;
    DaysOfAt(Pair(log, checkTime, GRACE_MS), cs, weekStart, s, mode, 7, 0);
    hide DayOf; hide Cursor;
  }

  lemma SevenWorked(days: seq<DayResult>)
    requires |days| == 7
    ensures SumBy(days, WorkedOf) ==
            days[0].workedMs + days[1].workedMs + days[2].workedMs + days[3].workedMs
            + days[4].workedMs + days[5].workedMs + days[6].workedMs
  {
    SumOfSeven(days, WorkedOf);
    hide SumBy;
  }

  lemma NormOfRelieved(days: seq<DayResult>, s: Settings, mode: Ledger)
    requires |days| == 7
    ensures WeeklyNorm(days, s, mode) ==
            if mode == Personal then 0
            else Max(0, s.weeklyNormMin * MINUTE - Relieved(days, 7) * s.dailyNormMin * MINUTE)
  {
    SumUpTo(days, 7);
    assert days[..7] == days;
    hide SumBy; hide Relieved;
  }

  // ---- norms and balances --------------------------------------------------

  /** How many of the days 0..n-1 are working weekdays. */
  function WorkingDays(s: Settings, n: nat): nat {
    if n == 0 then 0 else WorkingDays(s, n - 1) + if n - 1 in s.workingWeekdays then 1 else 0
  }

  /** The norm of `k` ordinary working days. */
  function NormOfDays(k: int, s: Settings): int { k * (s.dailyNormMin * MINUTE) }

  lemma NormOfDaysAdds(k: int, r: int, s: Settings)
    ensures NormOfDays(k + r, s) == NormOfDays(k, s) + NormOfDays(r, s)
    ensures NormOfDays(k - r, s) == NormOfDays(k, s) - NormOfDays(r, s)
    ensures NormOfDays(0, s) == 0 && NormOfDays(1, s) == s.dailyNormMin * MINUTE
    ensures k >= 0 && s.dailyNormMin >= 0 ==> NormOfDays(k, s) >= 0
    ensures k * s.dailyNormMin * MINUTE == NormOfDays(k, s)
  {
  }

  lemma DayNorm(
    active: seq<Interval>, cs: seq<Correction>, d: int, s: Settings, i: int, v: seq<ProvisionalSpan>, mode: Ledger)
    ensures var r := DayOf(active, cs, d, s, i, v, mode);
            && r.balanceMs == r.workedMs - r.normMs
            && r.isWorkingDay == (i in s.workingWeekdays)
            && r.normMs == (if mode == Work then NormOfDays(WorkingOf(r) - ReliefOf(r), s) else 0)
            && (r.isHoliday ==> exists c :: c in cs && c.kind == Holiday)
  {
    var win := Window(d, s);
    HolidayWitness(cs, win, mode);
    NormOfDaysAdds(0, 0, s);
    hide LayersOf; hide Window; hide ClampEach; hide Parts; hide PeriodsFrom; hide SpansOf; hide SpanExtents;
    hide Envelope; hide ReviewLeft; hide RemovedLeft; hide TotalDuration; hide HolidaysOf; hide IdsOf;
    hide NormOfDays;
  }

  lemma {:induction false} OverlappingOfKind(cs: seq<Correction>, kind: CorrectionKind, win: Interval, c: Correction)
    ensures c in Overlapping(OfKind(cs, kind), win) <==> c in cs && c.kind == kind && Overlaps(c, win)
  {
    if cs != [] {
      OverlappingOfKind(cs[1..], kind, win, c);
      var rest := OfKind(cs[1..], kind);
      if cs[0].kind == kind {
        assert ([cs[0]] + rest)[1..] == rest;
      } else {
        assert [] + rest == rest;
      }
      assert c in cs <==> c == cs[0] || c in cs[1..];
    }
  }

  lemma HolidayWitness(cs: seq<Correction>, win: Interval, mode: Ledger)
    ensures HolidaysOf(cs, win, mode) != [] ==> exists c :: c in cs && c.kind == Holiday
  {
    var h := HolidaysOf(cs, win, mode);
    if h != [] {
      OverlappingOfKind(cs, Holiday, win, h[0]);
    }
  }

  /** What is known of the sums over the first `n` days of a week. */
  ghost predicate NormFacts(days: seq<DayResult>, cs: seq<Correction>, s: Settings, mode: Ledger, n: nat) {
    && SumBy(days, BalanceOf) == SumBy(days, WorkedOf) - SumBy(days, NormOf)
    && 0 <= SumBy(days, ReliefOf) <= WorkingDays(s, n)
    && ((forall c :: c in cs ==> c.kind != Holiday) ==> SumBy(days, ReliefOf) == 0)
    && SumBy(days, NormOf)
       == (if mode == Work then NormOfDays(WorkingDays(s, n) - SumBy(days, ReliefOf), s) else 0)
  }

  lemma NormStep(days: seq<DayResult>, day: DayResult, cs: seq<Correction>, s: Settings, mode: Ledger, n: nat)
    requires NormFacts(days, cs, s, mode, n)
    requires day.balanceMs == day.workedMs - day.normMs && day.isWorkingDay == (n in s.workingWeekdays)
    requires day.normMs == if mode == Work then NormOfDays(WorkingOf(day) - ReliefOf(day), s) else 0
    requires day.isHoliday ==> exists c :: c in cs && c.kind == Holiday
    ensures NormFacts(days + [day], cs, s, mode, n + 1)
  {
    hide SumBy; hide NormOfDays;
    SumBySnoc(days, day, BalanceOf);
    SumBySnoc(days, day, WorkedOf);
    SumBySnoc(days, day, NormOf);
    SumBySnoc(days, day, ReliefOf);
    NormOfDaysAdds(WorkingDays(s, n) - SumBy(days, ReliefOf), WorkingOf(day) - ReliefOf(day), s);
  }

  lemma NormBase(cs: seq<Correction>, s: Settings, mode: Ledger)
    ensures NormFacts([], cs, s, mode, 0)
  {
    NormOfDaysAdds(0, 0, s);
  }

  lemma {:induction false} NormSum(
    p: PairedSpans, cs: seq<Correction>, weekStart: int, s: Settings, mode: Ledger, n: nat)
    ensures NormFacts(DaysOf(p, cs, weekStart, s, mode, n), cs, s, mode, n)
  {
    hide DayOf; hide Cursor; hide NormOfDays; hide SumBy; hide NormFacts; hide WorkingDays;
    if n == 0 {
      NormBase(cs, s, mode);
    } else {
      NormSum(p, cs, weekStart, s, mode, n - 1);
      var d := Cursor(weekStart, n - 1, s.zone);
      DayNorm(p.active, cs, d, s, n - 1, p.provisional, mode);
      NormStep(DaysOf(p, cs, weekStart, s, mode, n - 1),
               DayOf(p.active, cs, d, s, n - 1, p.provisional, mode), cs, s, mode, n - 1);
    }
  }

  /** The weekly balance is what the seven daily balances add up to. */
  ghost predicate Balanced(
    weekStart: int, log: seq<RawEvent>, cs: seq<Correction>, s: Settings, checkTime: int, mode: Ledger)
  {
    var w := WeekOf(weekStart, log, cs, s, checkTime, mode);
    w.weeklyBalanceMs == SumBy(w.days, BalanceOf)
  }

  /** The exact condition for one week: the weekly norm is the norm of the days not relieved. */
  lemma {:induction false} BalanceExact(
    weekStart: int, log: seq<RawEvent>, cs: seq<Correction>, s: Settings, checkTime: int, mode: Ledger)
    ensures var w := WeekOf(weekStart, log, cs, s, checkTime, mode);
            Balanced(weekStart, log, cs, s, checkTime, mode) <==>
            mode == Personal || w.weeklyNormMs == NormOfDays(WorkingDays(s, 7) - SumBy(w.days, ReliefOf), s)
  {
    hide Pair; hide DaysOf; hide SumBy; hide WorkingDays; hide NormOfDays;
    NormSum(Pair(log, checkTime, GRACE_MS), cs, weekStart, s, mode, 7);
  }

  /** The weekly norm in terms of relieved days, for norms a settings page can hold. */
  lemma WeeklyNormExact(days: seq<DayResult>, s: Settings)
    requires 0 <= s.dailyNormMin && 0 <= s.weeklyNormMin
    requires 0 <= SumBy(days, ReliefOf) <= WorkingDays(s, 7)
    ensures var k, r := WorkingDays(s, 7), SumBy(days, ReliefOf);
            && (s.weeklyNormMin == k * s.dailyNormMin ==> WeeklyNorm(days, s, Work) == NormOfDays(k - r, s))
            && (r == 0 && WeeklyNorm(days, s, Work) == NormOfDays(k - r, s) ==> s.weeklyNormMin == k * s.dailyNormMin)
  {
    hide SumBy; hide WorkingDays;
    var k, r := WorkingDays(s, 7), SumBy(days, ReliefOf);
    NormOfDaysAdds(k, r, s);
    NormOfDaysAdds(k - r, 0, s);
    NormOfDaysAdds(r, 0, s);
    hide NormOfDays;
  }

  /**
   * For work weeks with a non-negative norm: the balance is the sum of the days'
   * balances for every set of holidays exactly when the weekly norm is the daily
   * norm times the number of working weekdays.
   */
  lemma {:induction false} BalanceConserved(weekStart: int, log: seq<RawEvent>, s: Settings, checkTime: int)
    requires 0 <= s.dailyNormMin && 0 <= s.weeklyNormMin
    ensures (forall cs :: Balanced(weekStart, log, cs, s, checkTime, Work)) <==>
            s.weeklyNormMin == WorkingDays(s, 7) * s.dailyNormMin
  {
    hide Pair; hide DaysOf; hide SumBy; hide WorkingDays; hide Balanced; hide NormOfDays; hide WeeklyNorm;
    var p := Pair(log, checkTime, GRACE_MS);
    forall cs | s.weeklyNormMin == WorkingDays(s, 7) * s.dailyNormMin
      ensures Balanced(weekStart, log, cs, s, checkTime, Work)
    {
      NormSum(p, cs, weekStart, s, Work, 7);
      BalanceExact(weekStart, log, cs, s, checkTime, Work);
      WeeklyNormExact(DaysOf(p, cs, weekStart, s, Work, 7), s);
    }
    if Balanced(weekStart, log, [], s, checkTime, Work) {
      NormSum(p, [], weekStart, s, Work, 7);
      BalanceExact(weekStart, log, [], s, checkTime, Work);
      WeeklyNormExact(DaysOf(p, [], weekStart, s, Work, 7), s);
    }
  }
}
