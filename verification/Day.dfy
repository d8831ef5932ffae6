/**
 * `computeDay` (worktime/worktime.ts): compose one local day from the merged
 * active intervals and the corrections of one ledger.
 */
module Day {
  import opened Sorting
  import opened Events
  import opened Intervals
  import opened LocalTime
  import opened Pairing

  datatype Ledger = Work | Personal

  datatype CorrectionKind = AddWork | RemoveWork | Holiday

  datatype Correction = Correction(kind: CorrectionKind, start: int, end: int, id: Option<int>, ledger: Ledger)

  datatype Settings = Settings(
    zone: Zone,
    workdayStartMin: int,
    workdayEndMin: int,
    workingWeekdays: seq<int>,
    dailyNormMin: int,
    weeklyNormMin: int,
    minActiveSec: int,
    privateLeaveThresholdSec: int,
    lunchDeductMin: int,
    lunchThresholdMin: int)

  datatype PeriodType = Sensor | AutoBridged | ManualAdded | Review | Removed | Gap

  datatype Mark = Mark(lastAlive: int, growing: bool)

  datatype Period = Period(
    start: int,
    end: int,
    kind: PeriodType,
    correctionIds: Option<seq<int>>,
    provisional: Option<Mark>)

  datatype Span = Span(start: int, end: int, provenance: PeriodType)

  datatype DayResult = DayResult(
    dayStart: int,
    spans: seq<Span>,
    periods: seq<Period>,
    officeEnvelope: Option<Interval>,
    rawActive: seq<Interval>,
    reviewableGaps: seq<Interval>,
    removedSpans: seq<Interval>,
    isWorkingDay: bool,
    isHoliday: bool,
    holidayCorrectionIds: seq<int>,
    grossMs: int,
    lunchMs: int,
    workedMs: int,
    normMs: int,
    balanceMs: int)

  function PeriodStart(p: Period): int { p.start }
  function SpanStart(s: Span): int { s.start }

  // ---- sensor time and its gaps --------------------------------------------

  function AtLeast(s: seq<Interval>, ms: int): seq<Interval> {
    if s == [] then []
    else (if s[0].Duration() >= ms then [s[0]] else []) + AtLeast(s[1..], ms)
  }

  /** A gap lies wholly inside the office hours of one local day. */
  predicate InHours(gap: Interval, s: Settings) {
    var gs, ge := MinuteOfDay(gap.start, s.zone), MinuteOfDay(gap.end, s.zone);
    gs >= s.workdayStartMin && ge <= s.workdayEndMin && ge >= gs
  }

  predicate Bridges(gap: Interval, s: Settings) {
    InHours(gap, s) && gap.Duration() < s.privateLeaveThresholdSec * 1000
  }

  predicate Reviewable(gap: Interval, s: Settings) {
    InHours(gap, s) && !(gap.Duration() < s.privateLeaveThresholdSec * 1000)
  }

  function BridgedOf(g: seq<Interval>, s: Settings): seq<Interval> {
    if g == [] then [] else (if Bridges(g[0], s) then [g[0]] else []) + BridgedOf(g[1..], s)
  }

  function ReviewOf(g: seq<Interval>, s: Settings): seq<Interval> {
    if g == [] then [] else (if Reviewable(g[0], s) then [g[0]] else []) + ReviewOf(g[1..], s)
  }

  // ---- corrections ---------------------------------------------------------

  function OfKind(cs: seq<Correction>, kind: CorrectionKind): seq<Correction> {
    if cs == [] then [] else (if cs[0].kind == kind then [cs[0]] else []) + OfKind(cs[1..], kind)
  }

  function Extents(cs: seq<Correction>): seq<Interval> {
    if cs == [] then [] else [Interval(cs[0].start, cs[0].end)] + Extents(cs[1..])
  }

  function ClampAll(cs: seq<Correction>, win: Interval): seq<Interval> {
    Merge(ClampEach(Extents(cs), win))
  }

  predicate Overlaps(c: Correction, i: Interval) { c.end > i.start && c.start < i.end }

  /** The ids of the corrections that overlap a piece. */
  function IdsOver(cs: seq<Correction>, i: Interval): seq<int> {
    if cs == [] then []
    else (if cs[0].id.Some? && Overlaps(cs[0], i) then [cs[0].id.value] else []) + IdsOver(cs[1..], i)
  }

  function Overlapping(cs: seq<Correction>, i: Interval): seq<Correction> {
    if cs == [] then [] else (if Overlaps(cs[0], i) then [cs[0]] else []) + Overlapping(cs[1..], i)
  }

  function IdsOf(cs: seq<Correction>): seq<int> {
    if cs == [] then [] else (if cs[0].id.Some? then [cs[0].id.value] else []) + IdsOf(cs[1..])
  }

  // ---- composition ---------------------------------------------------------

  /** What the composition starts from, all clamped to the day. */
  datatype Layers = Layers(
    sensor: seq<Interval>,
    bridged: seq<Interval>,
    reviewable: seq<Interval>,
    adds: seq<Interval>,
    removes: seq<Interval>)

  function LayersOf(active: seq<Interval>, cs: seq<Correction>, win: Interval, s: Settings, mode: Ledger): Layers {
    var sensor := AtLeast(ClampEach(active, win), s.minActiveSec * 1000);
    var g := if mode == Work then Gaps(sensor) else [];
    Layers(sensor, BridgedOf(g, s), ReviewOf(g, s),
           ClampAll(OfKind(cs, AddWork), win), ClampAll(OfKind(cs, RemoveWork), win))
  }

  function Covered(l: Layers): seq<Interval> { Merge(l.sensor + l.bridged) }
  function Surviving(l: Layers): seq<Interval> { Subtract(Covered(l), l.removes) }
  function SensorLeft(l: Layers): seq<Interval> { Subtract(l.sensor, l.removes) }
  function BridgedLeft(l: Layers): seq<Interval> { Subtract(l.bridged, l.removes) }
  function ManualLeft(l: Layers): seq<Interval> { Subtract(l.adds, Surviving(l)) }
  function ReviewLeft(l: Layers): seq<Interval> { Subtract(l.reviewable, l.adds) }
  function RemovedLeft(l: Layers): seq<Interval> {
    SortBy(Subtract(Subtract(Covered(l), Surviving(l)), l.adds), StartOf)
  }

  function Tag(s: seq<Interval>, provenance: PeriodType): seq<Span> {
    if s == [] then [] else [Span(s[0].start, s[0].end, provenance)] + Tag(s[1..], provenance)
  }

  function SpansOf(l: Layers): seq<Span> {
    SortBy(Tag(SensorLeft(l), PeriodType.Sensor) + Tag(BridgedLeft(l), AutoBridged)
           + Tag(ManualLeft(l), PeriodType.ManualAdded), SpanStart)
  }

  function SpanExtents(s: seq<Span>): seq<Interval> {
    if s == [] then [] else [Interval(s[0].start, s[0].end)] + SpanExtents(s[1..])
  }

  function ToPeriods(s: seq<Interval>, kind: PeriodType, source: Option<seq<Correction>>): seq<Period> {
    if s == [] then []
    else
      var ids := if source.None? then None else Some(IdsOver(source.value, s[0]));
      [Period(s[0].start, s[0].end, kind, ids, None)] + ToPeriods(s[1..], kind, source)
  }

  /** The counted, excluded and review layers, before the plain gaps. */
  function Parts(l: Layers, cs: seq<Correction>): seq<Period> {
    ToPeriods(SensorLeft(l), PeriodType.Sensor, None)
    + ToPeriods(BridgedLeft(l), AutoBridged, None)
    + ToPeriods(ManualLeft(l), PeriodType.ManualAdded, Some(OfKind(cs, AddWork)))
    + ToPeriods(ReviewLeft(l), Review, None)
    + ToPeriods(RemovedLeft(l), Removed, Some(OfKind(cs, RemoveWork)))
  }

  function PeriodExtents(p: seq<Period>): seq<Interval> {
    if p == [] then [] else [Interval(p[0].start, p[0].end)] + PeriodExtents(p[1..])
  }

  function PlainGaps(parts: seq<Period>, win: Interval): seq<Interval> {
    Subtract([win], Merge(PeriodExtents(parts)))
  }

  function FirstOverlap(provisional: seq<ProvisionalSpan>, p: Period): Option<Mark> {
    if provisional == [] then None
    else if p.start < provisional[0].end && p.end > provisional[0].start then
      Some(Mark(provisional[0].lastAlive, provisional[0].growing))
    else FirstOverlap(provisional[1..], p)
  }

  /** Only sensor periods can have an end that was inferred. */
  function WithMark(p: Period, provisional: seq<ProvisionalSpan>): Period {
    if p.kind != PeriodType.Sensor then p else p.(provisional := FirstOverlap(provisional, p))
  }

  function Marked(ps: seq<Period>, provisional: seq<ProvisionalSpan>): seq<Period> {
    if ps == [] then [] else Marked(ps[..|ps| - 1], provisional) + [WithMark(ps[|ps| - 1], provisional)]
  }

  /** Fill up with plain gaps, mark, and sort. */
  function PeriodsFrom(parts: seq<Period>, win: Interval, provisional: seq<ProvisionalSpan>): seq<Period> {
    SortBy(Marked(parts + ToPeriods(PlainGaps(parts, win), Gap, None), provisional), PeriodStart)
  }

  // ---- the office envelope -------------------------------------------------

  function Belonging(sensor: seq<Interval>, office: Interval): seq<Interval> {
    if sensor == [] then []
    else (if sensor[0].end > office.start && sensor[0].start < office.end then [sensor[0]] else [])
         + Belonging(sensor[1..], office)
  }

  function MinStart(s: seq<Interval>): int
    requires s != []
  {
    if |s| == 1 then s[0].start else Min(s[0].start, MinStart(s[1..]))
  }

  function MaxEnd(s: seq<Interval>): int
    requires s != []
  {
    if |s| == 1 then s[0].end else Max(s[0].end, MaxEnd(s[1..]))
  }

  function Envelope(sensor: seq<Interval>, dayStart: int, s: Settings, mode: Ledger): Option<Interval> {
    var office := Interval(dayStart + s.workdayStartMin * MINUTE, dayStart + s.workdayEndMin * MINUTE);
    var b := if mode == Work then Belonging(sensor, office) else [];
    if b == [] then None else Some(Interval(MinStart(b), MaxEnd(b)))
  }

  // ---- the day -------------------------------------------------------------

  function Window(dayStart: int, s: Settings): Interval {
    Interval(dayStart, AddLocalDays(dayStart, 1, s.zone))
  }

  function HolidaysOf(cs: seq<Correction>, win: Interval, mode: Ledger): seq<Correction> {
    if mode == Work then Overlapping(OfKind(cs, Holiday), win) else []
  }

  function Assemble(
    l: Layers, rawActive: seq<Interval>, parts: seq<Period>, holidays: seq<Correction>, dayStart: int, win: Interval,
    s: Settings, weekday: int, provisional: seq<ProvisionalSpan>, mode: Ledger): DayResult
  {
    var spans := SpansOf(l);
    var gross := TotalDuration(SpanExtents(spans));
    var working := weekday in s.workingWeekdays;
    var lunch := if mode == Work && gross > s.lunchThresholdMin * MINUTE then s.lunchDeductMin * MINUTE else 0;
    var worked := Max(0, gross - lunch);
    var norm := if mode == Work && working && holidays == [] then s.dailyNormMin * MINUTE else 0;
    DayResult(dayStart, spans, PeriodsFrom(parts, win, provisional), Envelope(l.sensor, dayStart, s, mode),
              rawActive, ReviewLeft(l), RemovedLeft(l), working, holidays != [], IdsOf(holidays),
              gross, lunch, worked, norm, worked - norm)
  }

  function DayOf(
    active: seq<Interval>, cs: seq<Correction>, dayStart: int, s: Settings, weekday: int,
    provisional: seq<ProvisionalSpan>, mode: Ledger): DayResult
  {
    var win := Window(dayStart, s);
    var l := LayersOf(active, cs, win, s, mode);
    Assemble(l, ClampEach(active, win), Parts(l, cs), HolidaysOf(cs, win, mode), dayStart, win, s, weekday,
             provisional, mode)
  }

  // ---- the loops -----------------------------------------------------------

  method ClampLoop(active: seq<Interval>, win: Interval) returns (out: seq<Interval>)
    ensures out == ClampEach(active, win)
  {
    out := [];
    hide Points; hide Clamp;
    for k := 0 to |active|
      invariant out + ClampEach(active[k..], win) == ClampEach(active, win)
    {
      assert active[k..][1..] == active[k + 1..];
      var c := Clamp(active[k], win);
      if c != [] {
        assert c == [c[0]];
        out := out + [c[0]];
      }
    }
  }

  method ClassifyGaps(g: seq<Interval>, s: Settings) returns (bridged: seq<Interval>, reviewable: seq<Interval>)
    ensures bridged == BridgedOf(g, s) && reviewable == ReviewOf(g, s)
  {
    bridged, reviewable := [], [];
    for k := 0 to |g|
      invariant bridged + BridgedOf(g[k..], s) == BridgedOf(g, s)
      invariant reviewable + ReviewOf(g[k..], s) == ReviewOf(g, s)
    {
      assert g[k..][1..] == g[k + 1..];
      if InHours(g[k], s) {
        if g[k].Duration() < s.privateLeaveThresholdSec * 1000 {
          bridged := bridged + [g[k]];
        } else {
          reviewable := reviewable + [g[k]];
        }
      }
    }
  }

  /** Mark the periods in place, one by one. */
  method MarkProvisional(parts: array<Period>, provisional: seq<ProvisionalSpan>)
    modifies parts
    ensures parts[..] == Marked(old(parts[..]), provisional)
  {
    ghost var was := parts[..];
    for k := 0 to parts.Length
      invariant forall j :: k <= j < parts.Length ==> parts[j] == was[j]
      invariant forall j :: 0 <= j < k ==> parts[j] == WithMark(was[j], provisional)
    {
      if parts[k].kind == PeriodType.Sensor {
        var mark := FirstOverlap(provisional, parts[k]);
        parts[k] := parts[k].(provisional := mark);
      }
    }
    MarkedAt(was, provisional);
  }

  lemma {:induction false} MarkedAt(ps: seq<Period>, provisional: seq<ProvisionalSpan>)
    ensures |Marked(ps, provisional)| == |ps|
    ensures forall i :: 0 <= i < |ps| ==> Marked(ps, provisional)[i] == WithMark(ps[i], provisional)
  {
    if ps != [] {
      MarkedAt(ps[..|ps| - 1], provisional);
    }
  }

  method BuildLayers(active: seq<Interval>, cs: seq<Correction>, win: Interval, s: Settings, mode: Ledger)
    returns (rawActive: seq<Interval>, l: Layers)
    ensures rawActive == ClampEach(active, win) && l == LayersOf(active, cs, win, s, mode)
  {
    assert BridgedOf([], s) == [] && ReviewOf([], s) == [];
    hide Points; hide Canonical; hide Merge; hide Gaps; hide ClampEach; hide AtLeast; hide BridgedOf; hide ReviewOf;
    hide OfKind; hide Extents;
    rawActive := ClampLoop(active, win);
    var sensor := AtLeast(rawActive, s.minActiveSec * 1000);
    var bridged: seq<Interval>, reviewable: seq<Interval> := [], [];
    if mode == Work {
      var g := GapsBetween(sensor);
      bridged, reviewable := ClassifyGaps(g, s);
    }
    var adds := ClampLoop(Extents(OfKind(cs, AddWork)), win);
    adds := MergeIntervals(adds);
    var removes := ClampLoop(Extents(OfKind(cs, RemoveWork)), win);
    removes := MergeIntervals(removes);
    l := Layers(sensor, bridged, reviewable, adds, removes);
  }

  method BuildParts(l: Layers, cs: seq<Correction>)
    returns (spans: seq<Span>, reviewableGaps: seq<Interval>, removedSpans: seq<Interval>, parts: seq<Period>)
    ensures spans == SpansOf(l) && reviewableGaps == ReviewLeft(l) && removedSpans == RemovedLeft(l)
    ensures parts == Parts(l, cs)
  {
    hide Points; hide Canonical; hide Merge; hide Subtract; hide SortBy; hide Tag; hide ToPeriods; hide OfKind;
    var covered := MergeIntervals(l.sensor + l.bridged);
    var surviving := SubtractIntervals(covered, l.removes);
    var manual := SubtractIntervals(l.adds, surviving);
    var sensorLeft := SubtractIntervals(l.sensor, l.removes);
    var bridgedLeft := SubtractIntervals(l.bridged, l.removes);
    spans := SortBy(Tag(sensorLeft, PeriodType.Sensor) + Tag(bridgedLeft, AutoBridged)
                    + Tag(manual, PeriodType.ManualAdded), SpanStart);
    var cut := SubtractIntervals(covered, surviving);
    cut := SubtractIntervals(cut, l.adds);
    removedSpans := SortBy(cut, StartOf);
    reviewableGaps := SubtractIntervals(l.reviewable, l.adds);
    parts := ToPeriods(sensorLeft, PeriodType.Sensor, None)
             + ToPeriods(bridgedLeft, AutoBridged, None)
             + ToPeriods(manual, PeriodType.ManualAdded, Some(OfKind(cs, AddWork)))
             + ToPeriods(reviewableGaps, Review, None)
             + ToPeriods(removedSpans, Removed, Some(OfKind(cs, RemoveWork)));
  }

  method ComputeDay(
    active: seq<Interval>, cs: seq<Correction>, dayStart: int, s: Settings, weekday: int,
    provisional: seq<ProvisionalSpan>, mode: Ledger) returns (r: DayResult)
    ensures r == DayOf(active, cs, dayStart, s, weekday, provisional, mode)
  {
    hide Points; hide Canonical; hide Merge; hide Subtract; hide SortBy; hide ClampEach; hide Parts; hide LayersOf;
    hide ToPeriods; hide PeriodExtents; hide Marked; hide Envelope; hide IdsOf; hide Overlapping; hide OfKind;
    hide TotalDuration; hide SpanExtents; hide SpansOf; hide ReviewLeft; hide RemovedLeft; hide AddLocalDays;
    var win := Interval(dayStart, AddLocalDays(dayStart, 1, s.zone));
    var rawActive, l := BuildLayers(active, cs, win, s, mode);
    var spans, reviewableGaps, removedSpans, parts := BuildParts(l, cs);
    var partitionCovered := MergeIntervals(PeriodExtents(parts));
    var plain := SubtractIntervals([win], partitionCovered);
    parts := parts + ToPeriods(plain, Gap, None);
    var inPlace := new Period[|parts|](i requires 0 <= i < |parts| => parts[i]);
    assert inPlace[..] == parts;
    MarkProvisional(inPlace, provisional);
    var periods := SortBy(inPlace[..], PeriodStart);

    var grossMs := TotalDuration(SpanExtents(spans));
    var isWorkingDay := weekday in s.workingWeekdays;
    var holidayCorr: seq<Correction> := [];
    if mode == Work { holidayCorr := Overlapping(OfKind(cs, Holiday), win); }
    var lunchMs := if mode == Work && grossMs > s.lunchThresholdMin * MINUTE then s.lunchDeductMin * MINUTE else 0;
    var workedMs := Max(0, grossMs - lunchMs);
    var normMs := if mode == Work && isWorkingDay && holidayCorr == [] then s.dailyNormMin * MINUTE else 0;
    r := DayResult(dayStart, spans, periods, Envelope(l.sensor, dayStart, s, mode), rawActive, reviewableGaps,
                   removedSpans, isWorkingDay, holidayCorr != [], IdsOf(holidayCorr), grossMs, lunchMs, workedMs,
                   normMs, workedMs - normMs);
  }
}
