/**
 * What the layers, the envelope and the books of a day mean, in terms of the active
 * instants and the corrections rather than of the loops that collect them.
 */
module DayMeaning {
  import opened Sorting
  import opened Events
  import opened Intervals
  import opened LocalTime
  import opened Pairing
  import opened Day
  import opened DayLaws
  import opened Week

  // ---- runs and holes ------------------------------------------------------

  /** `i` is a longest stretch of consecutive instants of `p`. */
  ghost predicate MaximalRun(i: Interval, p: set<int>) {
    i.start < i.end && (forall t :: i.start <= t < i.end ==> t in p) && i.start - 1 !in p && i.end !in p
  }

  /** `g` is exactly what lies between two neighbouring instants of `p`. */
  ghost predicate MaximalHole(g: Interval, p: set<int>) {
    g.start < g.end && (forall t :: g.start <= t < g.end ==> t !in p) && g.start - 1 in p && g.end in p
  }

  /** A canonical list holds the maximal runs of its set and nothing else. */
  lemma {:induction false} CanonicalRuns(s: seq<Interval>, i: Interval)
    requires Canonical(s)
    ensures i in s <==> MaximalRun(i, Points(s))
  {
    assert MaximalRun(i, Points(s)) ==> i.start in Points(s);
    if s != [] {
      CanonicalTail(s);
      CanonicalRuns(s[1..], i);
      var head, rest := s[0], Points(s[1..]);
      assert i in s <==> i == head || i in s[1..];
      assert Points(s) == Range(head) + rest;
      hide Points; hide Canonical;
      if i != head {
        RunBehind(head, rest, i);
      } else {
        assert head.end - 1 in Range(head) && MaximalRun(head, Range(head) + rest);
      }
    }
  }

  lemma RunBehind(head: Interval, rest: set<int>, i: Interval)
    requires head.start < head.end && (forall t :: t in rest ==> head.end < t) && i != head
    ensures MaximalRun(i, Range(head) + rest) <==> MaximalRun(i, rest)
  {
    var p := Range(head) + rest;
    assert head.start in Range(head) && head.end !in p && head.start - 1 !in p;
    assert i.start - 1 in Range(head) <==> head.start < i.start <= head.end;
    assert i.end in Range(head) <==> head.start <= i.end < head.end;
    assert MaximalRun(i, p) ==> i.start in p && (i.start in Range(head) ==> i.start == head.start);
    assert MaximalRun(i, p) && i.start <= head.end < i.end ==> head.end in p;
    assert MaximalRun(i, p) ==> i.start in rest;
    assert MaximalRun(i, rest) ==> i.start in rest;
  }

  lemma HolesAreGaps(s: seq<Interval>, g: Interval)
    ensures g in Gaps(s) <==> MaximalHole(g, Points(s))
  {
    var p, h := Points(s), Points(Gaps(s));
    assert forall t :: t in h <==> Hole(p, t);
    CanonicalRuns(Gaps(s), g);
    hide Points; hide Gaps; hide Canonical;
    RunsOfHoles(p, h, g);
  }

  lemma RunsOfHoles(p: set<int>, h: set<int>, g: Interval)
    requires forall t :: t in h <==> Hole(p, t)
    ensures MaximalRun(g, h) <==> MaximalHole(g, p)
  {
    if MaximalRun(g, h) {
      assert g.start in h && g.end - 1 in h;
      assert g.start - 1 !in p ==> Hole(p, g.start - 1);
      assert g.end !in p ==> Hole(p, g.end);
      forall t | g.start <= t < g.end ensures t !in p { assert t in h; }
    }
    if MaximalHole(g, p) {
      forall t | g.start <= t < g.end ensures t in h { assert Hole(p, t); }
      assert !Hole(p, g.start - 1) && !Hole(p, g.end);
    }
  }

  // ---- the layers ----------------------------------------------------------

  lemma {:induction false} AtLeastMeaning(s: seq<Interval>, ms: int, i: Interval)
    ensures i in AtLeast(s, ms) <==> i in s && i.Duration() >= ms
  {
    if s != [] {
      AtLeastMeaning(s[1..], ms, i);
      assert i in s <==> i == s[0] || i in s[1..];
    }
  }

  lemma {:induction false} SplitMeaning(g: seq<Interval>, s: Settings, i: Interval)
    ensures i in BridgedOf(g, s) <==> i in g && Bridges(i, s)
    ensures i in ReviewOf(g, s) <==> i in g && Reviewable(i, s)
  {
    if g != [] {
      SplitMeaning(g[1..], s, i);
      assert i in g <==> i == g[0] || i in g[1..];
      hide Bridges; hide Reviewable;
    }
  }

  /** The time since the last midnight on the wall clock. */
  function WallMs(ts: int, z: Zone): int { (ts + z(ts) * MINUTE) % DAY }

  /**
   * In office hours by the wall clock: starting no earlier than they do, ending before
   * the minute after their last, and not ending in a minute before the one it starts in.
   */
  predicate OnTheClock(g: Interval, s: Settings) {
    var from, until := WallMs(g.start, s.zone), WallMs(g.end, s.zone);
    && s.workdayStartMin * MINUTE <= from
    && until < (s.workdayEndMin + 1) * MINUTE
    && from - from % MINUTE <= until
  }

  lemma InHoursByClock(g: Interval, s: Settings)
    ensures InHours(g, s) <==> OnTheClock(g, s)
  {
    var from, until := WallMs(g.start, s.zone), WallMs(g.end, s.zone);
    assert MinuteOfDay(g.start, s.zone) == from / MINUTE && MinuteOfDay(g.end, s.zone) == until / MINUTE;
    hide WallMs; hide MinuteOfDay;
    InMinutes(from, s.workdayStartMin);
    InMinutes(until, s.workdayEndMin + 1);
    InMinutes(until, from / MINUTE);
    assert from - from % MINUTE == from / MINUTE * MINUTE;
  }

  lemma InMinutes(w: int, k: int)
    ensures k * MINUTE <= w <==> k <= w / MINUTE
  {
    var q := w / MINUTE;
    assert q * MINUTE <= w < q * MINUTE + MINUTE;
    if k <= q { assert k * MINUTE <= q * MINUTE; } else { assert k * MINUTE >= q * MINUTE + MINUTE; }
  }

  /** Within a day of a zone with one offset, that is between the day's office times. */
  lemma {:induction false} OfficeExactly(g: Interval, d: int, s: Settings, off: int)
    requires Fixed(s.zone, off) && IsMidnight(d, s.zone) && d <= g.start <= g.end < d + DAY
    ensures InHours(g, s) <==> Office(d, s).start <= g.start && g.end < Office(d, s).end + MINUTE
  {
    InHoursByClock(g, s);
    var k := (d + off * MINUTE) / DAY;
    assert d + off * MINUTE == k * DAY;
    DivOfMultiple(k, g.start - d);
    DivOfMultiple(k, g.end - d);
    assert WallMs(g.start, s.zone) == g.start - d && WallMs(g.end, s.zone) == g.end - d;
    hide InHours; hide WallMs; hide IsMidnight;
  }

  /**
   * The measured layers from the active instants alone. Sensor time is every run of
   * activity inside the day that is long enough; in the work ledger a hole between
   * sensor runs that lies in office hours is bridged when it is shorter than the
   * threshold and left for review otherwise; the personal ledger has neither.
   */
  lemma {:induction false} LayersMeaning(
    active: seq<Interval>, cs: seq<Correction>, win: Interval, s: Settings, mode: Ledger, i: Interval)
    requires Canonical(active)
    ensures var l := LayersOf(active, cs, win, s, mode);
            && (i in l.sensor <==>
                MaximalRun(i, Points(active) * Range(win)) && i.end - i.start >= s.minActiveSec * 1000)
            && (i in l.bridged <==>
                mode == Work && MaximalHole(i, Points(l.sensor)) && OnTheClock(i, s)
                && i.end - i.start < s.privateLeaveThresholdSec * 1000)
            && (i in l.reviewable <==>
                mode == Work && MaximalHole(i, Points(l.sensor)) && OnTheClock(i, s)
                && i.end - i.start >= s.privateLeaveThresholdSec * 1000)
  {
    var raw := ClampEach(active, win);
    var l := LayersOf(active, cs, win, s, mode);
    ClampEachKeepsCanonical(active, win);
    CanonicalRuns(raw, i);
    AtLeastMeaning(raw, s.minActiveSec * 1000, i);
    HolesAreGaps(l.sensor, i);
    SplitMeaning(if mode == Work then Gaps(l.sensor) else [], s, i);
    InHoursByClock(i, s);
    hide Points; hide Canonical; hide ClampEach; hide AtLeast; hide BridgedOf; hide ReviewOf; hide Gaps; hide ClampAll;
    hide OfKind; hide InHours; hide OnTheClock;
  }

  // ---- the envelope --------------------------------------------------------

  /** The configured office hours of the day that starts at `dayStart`. */
  function Office(dayStart: int, s: Settings): Interval {
    Interval(dayStart + s.workdayStartMin * MINUTE, dayStart + s.workdayEndMin * MINUTE)
  }

  predicate Touches(i: Interval, office: Interval) { i.end > office.start && i.start < office.end }

  lemma {:induction false} BelongingMeaning(sensor: seq<Interval>, office: Interval, i: Interval)
    ensures i in Belonging(sensor, office) <==> i in sensor && Touches(i, office)
  {
    if sensor != [] {
      BelongingMeaning(sensor[1..], office, i);
      assert i in sensor <==> i == sensor[0] || i in sensor[1..];
    }
  }

  lemma {:induction false} ExtremesMeaning(s: seq<Interval>)
    requires s != []
    ensures (exists i :: i in s && i.start == MinStart(s)) && forall i :: i in s ==> MinStart(s) <= i.start
    ensures (exists i :: i in s && i.end == MaxEnd(s)) && forall i :: i in s ==> i.end <= MaxEnd(s)
  {
    assert s[0] in s;
    if |s| > 1 {
      ExtremesMeaning(s[1..]);
      assert forall i :: i in s <==> i == s[0] || i in s[1..];
    }
  }

  /**
   * The envelope reaches from the earliest start to the latest end of the sensor
   * runs that touch office hours, and exists when there is such a run.
   */
  lemma EnvelopeMeaning(sensor: seq<Interval>, dayStart: int, s: Settings, mode: Ledger)
    ensures var e, office := Envelope(sensor, dayStart, s, mode), Office(dayStart, s);
            && (e.Some? <==> mode == Work && exists i :: i in sensor && Touches(i, office))
            && (e.Some? ==>
                  && (exists i :: i in sensor && Touches(i, office) && i.start == e.value.start)
                  && (exists i :: i in sensor && Touches(i, office) && i.end == e.value.end)
                  && (forall i :: i in sensor && Touches(i, office) ==>
                        e.value.start <= i.start && i.end <= e.value.end))
  {
    var office := Office(dayStart, s);
    var b := Belonging(sensor, office);
    forall i ensures i in b <==> i in sensor && Touches(i, office) { BelongingMeaning(sensor, office, i); }
    hide Belonging; hide Touches;
    if b != [] {
      ExtremesMeaning(b);
      assert b[0] in b;
      hide MinStart; hide MaxEnd;
    }
  }

  // ---- the books -----------------------------------------------------------

  lemma HolidayExactly(cs: seq<Correction>, win: Interval, mode: Ledger)
    ensures HolidaysOf(cs, win, mode) != [] <==>
            mode == Work && exists c :: c in cs && c.kind == Holiday && Overlaps(c, win)
  {
    var h := Overlapping(OfKind(cs, Holiday), win);
    if h != [] { OverlappingOfKind(cs, Holiday, win, h[0]); }
    forall c | c in cs && c.kind == Holiday && Overlaps(c, win) ensures c in h {
      OverlappingOfKind(cs, Holiday, win, c);
    }
  }

  lemma {:induction false} IdsOfMeaning(cs: seq<Correction>, id: int)
    ensures id in IdsOf(cs) <==> exists c :: c in cs && c.id == Some(id)
  {
    if cs != [] {
      IdsOfMeaning(cs[1..], id);
      assert forall c :: c in cs <==> c == cs[0] || c in cs[1..];
    }
  }

  lemma HolidayIdsExactly(cs: seq<Correction>, win: Interval, mode: Ledger)
    ensures forall id :: id in IdsOf(HolidaysOf(cs, win, mode)) <==>
              mode == Work && exists c :: c in cs && c.kind == Holiday && c.id == Some(id) && Overlaps(c, win)
  {
    var h := HolidaysOf(cs, win, mode);
    forall c ensures c in h <==> mode == Work && c in cs && c.kind == Holiday && Overlaps(c, win) {
      OverlappingOfKind(cs, Holiday, win, c);
    }
    hide HolidaysOf; hide Overlaps;
    forall id ensures id in IdsOf(h) <==> exists c :: c in h && c.id == Some(id) { IdsOfMeaning(h, id); }
    hide IdsOf;
  }

  /**
   * The books of a day: a holiday is a holiday correction touching the day and only
   * takes the norm away; lunch never makes the worked time negative nor touches a
   * day at or under the threshold; the personal ledger knows neither norm nor lunch.
   */
  lemma {:induction false} DayBooks(
    active: seq<Interval>, cs: seq<Correction>, dayStart: int, s: Settings, weekday: int,
    v: seq<ProvisionalSpan>, mode: Ledger)
    ensures var r := DayOf(active, cs, dayStart, s, weekday, v, mode);
            var win := Window(dayStart, s);
            && 0 <= r.workedMs && (0 <= s.lunchDeductMin ==> r.workedMs <= r.grossMs)
            && r.lunchMs == (if mode == Work && r.grossMs > s.lunchThresholdMin * MINUTE
                             then s.lunchDeductMin * MINUTE else 0)
            && r.workedMs == Max(0, r.grossMs - r.lunchMs)
            && (r.workedMs < r.grossMs ==> mode == Work && r.grossMs > s.lunchThresholdMin * MINUTE)
            && (mode == Work && r.grossMs > s.lunchThresholdMin * MINUTE ==>
                  r.workedMs == Max(0, r.grossMs - s.lunchDeductMin * MINUTE))
            && (r.isHoliday <==> mode == Work && exists c :: c in cs && c.kind == Holiday && Overlaps(c, win))
            && (r.normMs != 0 ==> mode == Work && weekday in s.workingWeekdays && !r.isHoliday)
            && (mode == Work && weekday in s.workingWeekdays && !r.isHoliday ==> r.normMs == s.dailyNormMin * MINUTE)
            && r.balanceMs + r.normMs == r.workedMs
            && r.dayStart == dayStart && (r.isWorkingDay <==> weekday in s.workingWeekdays)
            && forall id :: id in r.holidayCorrectionIds <==>
                 mode == Work && exists c :: c in cs && c.kind == Holiday && c.id == Some(id) && Overlaps(c, win)
  {
    var win := Window(dayStart, s);
    HolidayExactly(cs, win, mode);
    HolidayIdsExactly(cs, win, mode);
    GrossIsMeasure(active, cs, dayStart, s, weekday, v, mode);
    hide LayersOf; hide Window; hide ClampEach; hide Parts; hide PeriodsFrom; hide SpansOf; hide SpanExtents;
    hide Envelope; hide ReviewLeft; hide RemovedLeft; hide TotalDuration; hide HolidaysOf; hide IdsOf;
    hide CountedPoints;
  }

  /**
   * More time can count for less, exactly: of two work days under the same settings,
   * the one with more gross time has less worked time if and only if the lunch
   * threshold lies between them and the deduction takes more than the difference.
   */
  lemma {:induction false} MoreCanCountLess(
    a: seq<Interval>, cs: seq<Correction>, d: int, v: seq<ProvisionalSpan>,
    b: seq<Interval>, ds: seq<Correction>, e: int, w: seq<ProvisionalSpan>, s: Settings, i: int, j: int)
    requires 0 <= s.lunchDeductMin
    ensures var x, y := DayOf(a, cs, d, s, i, v, Work), DayOf(b, ds, e, s, j, w, Work);
            var threshold := s.lunchThresholdMin * MINUTE;
            x.grossMs <= y.grossMs ==>
              (y.workedMs < x.workedMs <==>
               && x.grossMs <= threshold < y.grossMs
               && 0 < x.grossMs && y.grossMs - x.grossMs < s.lunchDeductMin * MINUTE)
  {
    GrossIsMeasure(a, cs, d, s, i, v, Work);
    GrossIsMeasure(b, ds, e, s, j, w, Work);
    hide LayersOf; hide Window; hide ClampEach; hide Parts; hide PeriodsFrom; hide SpansOf; hide SpanExtents;
    hide Envelope; hide ReviewLeft; hide RemovedLeft; hide TotalDuration; hide HolidaysOf; hide IdsOf;
    hide CountedPoints; hide Counts; hide Range;
  }

  // ---- provisional marks ---------------------------------------------------

  predicate Meets(p: Period, v: ProvisionalSpan) { p.start < v.end && p.end > v.start }

  /** The `i`-th span is the first that meets the period. */
  ghost predicate FirstMeeting(vs: seq<ProvisionalSpan>, p: Period, i: int) {
    0 <= i < |vs| && Meets(p, vs[i]) && forall j :: 0 <= j < i ==> !Meets(p, vs[j])
  }

  lemma {:induction false} FirstOverlapMeaning(vs: seq<ProvisionalSpan>, p: Period)
    ensures var r := FirstOverlap(vs, p);
            && (r.Some? <==> exists v :: v in vs && Meets(p, v))
            && (r.Some? ==> exists i :: FirstMeeting(vs, p, i) && r == Some(Mark(vs[i].lastAlive, vs[i].growing)))
  {
    if vs != [] {
      FirstOverlapMeaning(vs[1..], p);
      assert vs[0] in vs && forall v :: v in vs <==> v == vs[0] || v in vs[1..];
      assert Meets(p, vs[0]) ==> FirstOverlap(vs, p) == Some(Mark(vs[0].lastAlive, vs[0].growing));
      assert !Meets(p, vs[0]) ==> FirstOverlap(vs, p) == FirstOverlap(vs[1..], p);
      var r := FirstOverlap(vs, p);
      if Meets(p, vs[0]) {
        assert FirstMeeting(vs, p, 0);
      } else if r.Some? {
        var i :| FirstMeeting(vs[1..], p, i) && r == Some(Mark(vs[1..][i].lastAlive, vs[1..][i].growing));
        assert FirstMeeting(vs, p, i + 1) by {
          forall j | 0 <= j < i + 1 ensures !Meets(p, vs[j]) { if j > 0 { assert vs[j] == vs[1..][j - 1]; } }
        }
        assert vs[i + 1] == vs[1..][i];
      }
    }
  }

  lemma {:induction false} BaseUnmarked(l: Layers, cs: seq<Correction>, win: Interval, p: Period)
    requires p in BasePeriods(l, cs, win)
    ensures p.provisional == None
  {
    var parts := Parts(l, cs);
    SortByElements(parts + ToPeriods(PlainGaps(parts, win), Gap, None), PeriodStart, p);
    PeriodsUnmarked(SensorLeft(l), PeriodType.Sensor, None, p);
    PeriodsUnmarked(BridgedLeft(l), AutoBridged, None, p);
    PeriodsUnmarked(ManualLeft(l), PeriodType.ManualAdded, Some(OfKind(cs, AddWork)), p);
    PeriodsUnmarked(ReviewLeft(l), Review, None, p);
    PeriodsUnmarked(RemovedLeft(l), Removed, Some(OfKind(cs, RemoveWork)), p);
    PeriodsUnmarked(PlainGaps(parts, win), Gap, None, p);
    hide ToPeriods; hide SortBy; hide PlainGaps;
  }

  lemma {:induction false} PeriodsUnmarked(
    s: seq<Interval>, kind: PeriodType, source: Option<seq<Correction>>, p: Period)
    ensures p in ToPeriods(s, kind, source) ==> p.provisional == None
  {
    if s != [] { PeriodsUnmarked(s[1..], kind, source, p); }
  }

  /** A period is marked exactly when it is sensor time that meets a provisional span. */
  lemma {:induction false} MarkedExactly(
    active: seq<Interval>, cs: seq<Correction>, dayStart: int, s: Settings, weekday: int,
    vs: seq<ProvisionalSpan>, mode: Ledger, p: Period)
    requires p in DayOf(active, cs, dayStart, s, weekday, vs, mode).periods
    ensures p.provisional.Some? <==> p.kind == PeriodType.Sensor && exists v :: v in vs && Meets(p, v)
    ensures p.provisional.Some? ==>
              exists i :: FirstMeeting(vs, p, i) && p.provisional == Some(Mark(vs[i].lastAlive, vs[i].growing))
  {
    var win := Window(dayStart, s);
    var l := LayersOf(active, cs, win, s, mode);
    var base := BasePeriods(l, cs, win);
    PeriodsField(active, cs, dayStart, s, weekday, vs, mode);
    MarkedAt(base, vs);
    hide DayOf; hide LayersOf; hide BasePeriods; hide Marked; hide Window; hide FirstOverlap;
    var ps := Marked(base, vs);
    var i :| 0 <= i < |ps| && ps[i] == p;
    assert base[i] in base;
    BaseUnmarked(l, cs, win, base[i]);
    FirstOverlapMeaning(vs, base[i]);
    assert forall v :: Meets(base[i], v) <==> Meets(p, v);
    assert forall k :: FirstMeeting(vs, base[i], k) <==> FirstMeeting(vs, p, k);
  }

  // ---- the other lists of a day --------------------------------------------

  /** The spans, in order of their starts, are what counts, each with the layer it counts by. */
  lemma {:induction false} SpansMeaning(
    active: seq<Interval>, cs: seq<Correction>, dayStart: int, s: Settings, weekday: int,
    v: seq<ProvisionalSpan>, mode: Ledger, t: int)
    ensures var r := DayOf(active, cs, dayStart, s, weekday, v, mode);
            var l := LayersOf(active, cs, Window(dayStart, s), s, mode);
            && SortedBy(r.spans, SpanStart)
            && (forall x :: x in r.spans && x.start <= t < x.end ==> x.provenance == Classify(l, t))
            && ((exists x :: x in r.spans && x.start <= t < x.end) <==> Counts(l, t))
  {
    var l := LayersOf(active, cs, Window(dayStart, s), s, mode);
    SpansField(active, cs, dayStart, s, weekday, v, mode);
    LayersAreWellLayered(active, cs, Window(dayStart, s), s, mode);
    hide DayOf; hide LayersOf; hide Window; hide WellLayered;
    SpansByLayer(l, Range(Window(dayStart, s)), t);
  }

  lemma SpansField(
    active: seq<Interval>, cs: seq<Correction>, dayStart: int, s: Settings, weekday: int,
    v: seq<ProvisionalSpan>, mode: Ledger)
    ensures var r := DayOf(active, cs, dayStart, s, weekday, v, mode);
            var l := LayersOf(active, cs, Window(dayStart, s), s, mode);
            r.spans == SpansOf(l) && r.reviewableGaps == ReviewLeft(l) && r.removedSpans == RemovedLeft(l)
  {
    hide LayersOf; hide Window; hide SpansOf; hide SpanExtents; hide PeriodsFrom; hide Envelope; hide Parts;
    hide HolidaysOf; hide ClampEach; hide IdsOf; hide ReviewLeft; hide RemovedLeft; hide TotalDuration;
  }

  lemma SpansByLayer(l: Layers, w: set<int>, t: int)
    requires WellLayered(l, w)
    ensures SortedBy(SpansOf(l), SpanStart)
    ensures forall x :: x in SpansOf(l) && x.start <= t < x.end ==> x.provenance == Classify(l, t)
    ensures (exists x :: x in SpansOf(l) && x.start <= t < x.end) <==> Counts(l, t)
  {
    var a, b, c := Tag(SensorLeft(l), PeriodType.Sensor), Tag(BridgedLeft(l), AutoBridged),
                   Tag(ManualLeft(l), PeriodType.ManualAdded);
    hide *;
    SpansOrdered(l);
    PartSets(l);
    LayerOf(l, w, t);
    TagPoints(SensorLeft(l), PeriodType.Sensor, t);
    TagPoints(BridgedLeft(l), AutoBridged, t);
    TagPoints(ManualLeft(l), PeriodType.ManualAdded, t);
    forall x ensures x in SpansOf(l) <==> x in a || x in b || x in c { SpansElements(l, x); }
    forall x | x in SpansOf(l) && x.start <= t < x.end ensures x.provenance == Classify(l, t) {
      TagKinds(SensorLeft(l), PeriodType.Sensor, x);
      TagKinds(BridgedLeft(l), AutoBridged, x);
      TagKinds(ManualLeft(l), PeriodType.ManualAdded, x);
    }
  }

  /** The layer an instant counts by, from the layers left after the corrections. */
  lemma LayerOf(l: Layers, w: set<int>, t: int)
    requires WellLayered(l, w)
    ensures t in Points(SensorLeft(l)) ==> Classify(l, t) == PeriodType.Sensor
    ensures t in Points(BridgedLeft(l)) ==> Classify(l, t) == AutoBridged
    ensures t in Points(ManualLeft(l)) ==> Classify(l, t) == PeriodType.ManualAdded
    ensures Counts(l, t) <==> t in Points(SensorLeft(l)) || t in Points(BridgedLeft(l)) || t in Points(ManualLeft(l))
  {
    PartSets(l);
    hide Points; hide SensorLeft; hide BridgedLeft; hide ManualLeft; hide ReviewLeft; hide RemovedLeft; hide Surviving;
  }

  lemma SpansOrdered(l: Layers)
    ensures SortedBy(SpansOf(l), SpanStart)
  {
    hide SensorLeft; hide BridgedLeft; hide ManualLeft; hide Tag;
  }

  lemma SpansElements(l: Layers, x: Span)
    ensures x in SpansOf(l) <==> x in Tag(SensorLeft(l), PeriodType.Sensor) || x in Tag(BridgedLeft(l), AutoBridged)
                                 || x in Tag(ManualLeft(l), PeriodType.ManualAdded)
  {
    hide SensorLeft; hide BridgedLeft; hide ManualLeft; hide Tag; hide SortBy;
    SortByElements(Tag(SensorLeft(l), PeriodType.Sensor) + Tag(BridgedLeft(l), AutoBridged)
                   + Tag(ManualLeft(l), PeriodType.ManualAdded), SpanStart, x);
  }

  lemma {:induction false} TagKinds(s: seq<Interval>, k: PeriodType, x: Span)
    ensures x in Tag(s, k) ==> x.provenance == k
  {
    if s != [] { TagKinds(s[1..], k, x); }
  }

  /** The gaps left for review and the removed spans are the canonical lists of their types' instants. */
  lemma {:induction false} ListsMeaning(
    active: seq<Interval>, cs: seq<Correction>, dayStart: int, s: Settings, weekday: int,
    v: seq<ProvisionalSpan>, mode: Ledger, t: int)
    ensures var r := DayOf(active, cs, dayStart, s, weekday, v, mode);
            var l := LayersOf(active, cs, Window(dayStart, s), s, mode);
            && Canonical(r.reviewableGaps) && Canonical(r.removedSpans)
            && (t in Points(r.reviewableGaps) <==> Classify(l, t) == Review)
            && (t in Points(r.removedSpans) <==> Classify(l, t) == Removed)
  {
    var win := Window(dayStart, s);
    var l := LayersOf(active, cs, win, s, mode);
    SpansField(active, cs, dayStart, s, weekday, v, mode);
    LayersAreWellLayered(active, cs, win, s, mode);
    PartSets(l);
    hide DayOf; hide LayersOf; hide Window; hide Points; hide Canonical; hide ReviewLeft; hide RemovedLeft;
    hide SensorLeft; hide BridgedLeft; hide ManualLeft; hide Surviving; hide Range;
  }
}
