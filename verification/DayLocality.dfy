/**
 * What a day depends on: only the active instants inside its window and the
 * corrections that overlap it. Hence an elapsed day is settled.
 */
module DayLocality {
  import opened Sorting
  import opened Events
  import opened Intervals
  import opened Pairing
  import opened Day
  import opened DayLaws

  // ---- active time ---------------------------------------------------------

  lemma ClampSees(a: seq<Interval>, b: seq<Interval>, win: Interval)
    requires Canonical(a) && Canonical(b)
    requires forall t :: t in Range(win) ==> (t in Points(a) <==> t in Points(b))
    ensures ClampEach(a, win) == ClampEach(b, win)
  {
    ClampEachKeepsCanonical(a, win);
    ClampEachKeepsCanonical(b, win);
    CanonicalUnique(ClampEach(a, win), ClampEach(b, win));
  }

  lemma MarksAside(
    l: Layers, raw: seq<Interval>, parts: seq<Period>, holidays: seq<Correction>, dayStart: int, win: Interval,
    s: Settings, weekday: int, v: seq<ProvisionalSpan>, w: seq<ProvisionalSpan>, mode: Ledger)
    ensures Assemble(l, raw, parts, holidays, dayStart, win, s, weekday, v, mode).(periods := [])
            == Assemble(l, raw, parts, holidays, dayStart, win, s, weekday, w, mode).(periods := [])
  {
    hide SpansOf; hide PeriodsFrom; hide Envelope; hide ReviewLeft; hide RemovedLeft; hide TotalDuration;
    hide SpanExtents; hide IdsOf;
  }

  /** Two active lists that agree inside the day give the same day, marks aside. */
  lemma {:induction false} DaySeesItsWindow(
    a: seq<Interval>, b: seq<Interval>, cs: seq<Correction>, dayStart: int, s: Settings, weekday: int,
    v: seq<ProvisionalSpan>, w: seq<ProvisionalSpan>, mode: Ledger)
    requires Canonical(a) && Canonical(b)
    requires forall t :: t in Range(Window(dayStart, s)) ==> (t in Points(a) <==> t in Points(b))
    ensures var win := Window(dayStart, s);
            LayersOf(a, cs, win, s, mode) == LayersOf(b, cs, win, s, mode)
    ensures DayOf(a, cs, dayStart, s, weekday, v, mode).(periods := [])
            == DayOf(b, cs, dayStart, s, weekday, w, mode).(periods := [])
  {
    var win := Window(dayStart, s);
    ClampSees(a, b, win);
    assert LayersOf(a, cs, win, s, mode) == LayersOf(b, cs, win, s, mode);
    var l := LayersOf(a, cs, win, s, mode);
    MarksAside(l, ClampEach(a, win), Parts(l, cs), HolidaysOf(cs, win, mode), dayStart, win, s, weekday, v, w, mode);
    hide LayersOf; hide ClampEach; hide Window; hide Parts; hide HolidaysOf; hide Assemble; hide Points; hide Canonical;
  }

  // ---- corrections ---------------------------------------------------------

  predicate Inside(i: Interval, win: Interval) { win.start <= i.start && i.end <= win.end }

  lemma {:induction false} KindsOverlapping(cs: seq<Correction>, kind: CorrectionKind, range: Interval)
    ensures OfKind(Overlapping(cs, range), kind) == Overlapping(OfKind(cs, kind), range)
  {
    if cs != [] {
      KindsOverlapping(cs[1..], kind, range);
      var rest := Overlapping(cs[1..], range);
      if Overlaps(cs[0], range) {
        assert ([cs[0]] + rest)[1..] == rest;
      } else {
        assert [] + rest == rest;
      }
      var others := OfKind(cs[1..], kind);
      if cs[0].kind == kind {
        assert ([cs[0]] + others)[1..] == others;
      } else {
        assert [] + others == others;
      }
    }
  }

  lemma {:induction false} ClampIgnoresOutside(cs: seq<Correction>, range: Interval, win: Interval)
    requires Inside(win, range)
    ensures ClampEach(Extents(Overlapping(cs, range)), win) == ClampEach(Extents(cs), win)
  {
    if cs != [] {
      ClampIgnoresOutside(cs[1..], range, win);
      var i := Interval(cs[0].start, cs[0].end);
      assert Extents(cs) == [i] + Extents(cs[1..]) && Extents(cs)[1..] == Extents(cs[1..]);
      var rest := Overlapping(cs[1..], range);
      if Overlaps(cs[0], range) {
        assert ([cs[0]] + rest)[1..] == rest;
        assert Extents([cs[0]] + rest) == [i] + Extents(rest);
        assert ([i] + Extents(rest))[1..] == Extents(rest);
      } else {
        assert Clamp(i, win) == [];
        assert [] + rest == rest;
      }
    }
  }

  lemma {:induction false} IdsIgnoreOutside(cs: seq<Correction>, range: Interval, i: Interval)
    requires Inside(i, range)
    ensures IdsOver(Overlapping(cs, range), i) == IdsOver(cs, i)
  {
    if cs != [] {
      IdsIgnoreOutside(cs[1..], range, i);
      var rest := Overlapping(cs[1..], range);
      if Overlaps(cs[0], range) {
        assert ([cs[0]] + rest)[1..] == rest;
      } else {
        assert [] + rest == rest;
      }
    }
  }

  lemma {:induction false} TagsIgnoreOutside(s: seq<Interval>, kind: PeriodType, cs: seq<Correction>, range: Interval)
    requires Canonical(s) && Points(s) <= Range(range)
    ensures ToPeriods(s, kind, Some(Overlapping(cs, range))) == ToPeriods(s, kind, Some(cs))
  {
    if s != [] {
      CanonicalTail(s);
      assert s[0].start in Range(s[0]) && s[0].end - 1 in Range(s[0]);
      IdsIgnoreOutside(cs, range, s[0]);
      TagsIgnoreOutside(s[1..], kind, cs, range);
    }
  }

  lemma {:induction false} OverlapTwice(cs: seq<Correction>, range: Interval, win: Interval)
    requires Inside(win, range)
    ensures Overlapping(Overlapping(cs, range), win) == Overlapping(cs, win)
  {
    if cs != [] {
      OverlapTwice(cs[1..], range, win);
      var rest := Overlapping(cs[1..], range);
      hide Overlapping;
      OverlappingCons(cs[0], cs[1..], range);
      OverlappingCons(cs[0], cs[1..], win);
      OverlappingCons(cs[0], rest, win);
      assert cs == [cs[0]] + cs[1..];
    }
  }

  lemma OverlappingCons(c: Correction, rest: seq<Correction>, i: Interval)
    ensures Overlapping([c] + rest, i) ==
            if Overlaps(c, i) then [c] + Overlapping(rest, i) else Overlapping(rest, i)
  {
    assert ([c] + rest)[1..] == rest && ([c] + rest)[0] == c;
    assert [] + Overlapping(rest, i) == Overlapping(rest, i);
  }

  lemma PartsIgnoreOutside(l: Layers, cs: seq<Correction>, range: Interval)
    requires WellLayered(l, Range(range))
    ensures Parts(l, Overlapping(cs, range)) == Parts(l, cs)
  {
    PartSets(l);
    KindsOverlapping(cs, AddWork, range);
    KindsOverlapping(cs, RemoveWork, range);
    var m, r := ManualLeft(l), RemovedLeft(l);
    hide Points; hide ToPeriods; hide OfKind; hide Overlapping;
    hide SensorLeft; hide BridgedLeft; hide ManualLeft; hide ReviewLeft; hide RemovedLeft; hide Canonical;
    TagsIgnoreOutside(m, PeriodType.ManualAdded, OfKind(cs, AddWork), range);
    TagsIgnoreOutside(r, Removed, OfKind(cs, RemoveWork), range);
  }

  lemma RangeInside(i: Interval, win: Interval)
    requires Inside(i, win)
    ensures Range(i) <= Range(win)
  {
  }

  lemma LayersIgnoreOutside(
    active: seq<Interval>, cs: seq<Correction>, range: Interval, win: Interval, s: Settings, mode: Ledger)
    requires Inside(win, range)
    ensures LayersOf(active, Overlapping(cs, range), win, s, mode) == LayersOf(active, cs, win, s, mode)
    ensures HolidaysOf(Overlapping(cs, range), win, mode) == HolidaysOf(cs, win, mode)
  {
    KindsOverlapping(cs, AddWork, range);
    KindsOverlapping(cs, RemoveWork, range);
    KindsOverlapping(cs, Holiday, range);
    hide Overlapping; hide OfKind; hide Extents; hide ClampEach; hide Points; hide Canonical; hide Merge; hide Gaps;
    hide AtLeast; hide BridgedOf; hide ReviewOf;
    ClampIgnoresOutside(OfKind(cs, AddWork), range, win);
    ClampIgnoresOutside(OfKind(cs, RemoveWork), range, win);
    OverlapTwice(OfKind(cs, Holiday), range, win);
  }

  /** Loading only the corrections that overlap a range around the day loses nothing. */
  lemma {:induction false} LoadingLosesNothing(
    active: seq<Interval>, cs: seq<Correction>, range: Interval, dayStart: int, s: Settings, weekday: int,
    v: seq<ProvisionalSpan>, mode: Ledger)
    requires Inside(Window(dayStart, s), range)
    ensures DayOf(active, Overlapping(cs, range), dayStart, s, weekday, v, mode)
            == DayOf(active, cs, dayStart, s, weekday, v, mode)
  {
    var win := Window(dayStart, s);
    hide LayersOf; hide Parts; hide OfKind; hide HolidaysOf; hide Assemble; hide Points; hide ClampEach; hide Window;
    hide Overlapping; hide Extents; hide Range; hide Canonical;
    LayersAreWellLayered(active, cs, win, s, mode);
    RangeInside(win, range);
    LayersIgnoreOutside(active, cs, range, win, s, mode);
    PartsIgnoreOutside(LayersOf(active, cs, win, s, mode), cs, range);
  }

  // ---- elapsed days --------------------------------------------------------

  predicate SameButGrowing(p: Period, q: Period) {
    && p.(provisional := None) == q.(provisional := None)
    && (p.provisional.Some? <==> q.provisional.Some?)
    && (p.provisional.Some? ==> p.provisional.value.lastAlive == q.provisional.value.lastAlive)
  }

  lemma {:induction false} FirstOverlapConcat(a: seq<ProvisionalSpan>, b: seq<ProvisionalSpan>, p: Period)
    ensures FirstOverlap(a + b, p) == if FirstOverlap(a, p).Some? then FirstOverlap(a, p) else FirstOverlap(b, p)
  {
    if a == [] {
      assert a + b == b;
    } else {
      FirstOverlapConcat(a[1..], b, p);
      assert (a + b)[1..] == a[1..] + b;
    }
  }

  predicate SameMark(a: Option<Mark>, b: Option<Mark>) {
    (a.Some? <==> b.Some?) && (a.Some? ==> a.value.lastAlive == b.value.lastAlive)
  }

  /** Past the period's end, the check time only decides whether the span still grows. */
  lemma MachineMarkFrozen(list: seq<Event>, p: Period, earlier: int, later: int, grace: int)
    requires p.start < p.end <= earlier && p.end <= later
    ensures SameMark(FirstOverlap(PairMachine(list, earlier, grace).provisional, p),
                     FirstOverlap(PairMachine(list, later, grace).provisional, p))
  {
    hide PairFold; hide SortBy;
    var s := PairFold(SortBy(list, TsOf));
    var a, b := OpenSpan(s, earlier, grace), OpenSpan(s, later, grace);
    assert a == [] || a == [a[0]];
    assert b == [] || b == [b[0]];
    assert FirstOverlap([], p) == None;
  }

  lemma {:induction false} MarksFrozen(
    log: seq<RawEvent>, order: seq<string>, k: nat, p: Period, earlier: int, later: int, grace: int)
    requires k <= |order| && p.start < p.end <= earlier && p.end <= later
    ensures SameMark(FirstOverlap(AllProvisional(log, order, k, earlier, grace), p),
                     FirstOverlap(AllProvisional(log, order, k, later, grace), p))
  {
    hide EventsOf; hide Machines; hide PairMachine; hide FirstOverlap; hide Points;
    if k > 0 {
      MarksFrozen(log, order, k - 1, p, earlier, later, grace);
      var list := EventsOf(log, order[k - 1]);
      MachineMarkFrozen(list, p, earlier, later, grace);
      FirstOverlapConcat(AllProvisional(log, order, k - 1, earlier, grace),
                         PairMachine(list, earlier, grace).provisional, p);
      FirstOverlapConcat(AllProvisional(log, order, k - 1, later, grace),
                         PairMachine(list, later, grace).provisional, p);
    }
  }

  /** The day of a log at a check time. */
  function DayAt(
    log: seq<RawEvent>, cs: seq<Correction>, dayStart: int, s: Settings, weekday: int, mode: Ledger,
    checkTime: int, grace: int): DayResult
  {
    var p := Pair(log, checkTime, grace);
    DayOf(p.active, cs, dayStart, s, weekday, p.provisional, mode)
  }

  lemma SettledInstants(log: seq<RawEvent>, t: int, earlier: int, later: int, grace: int)
    requires t < earlier && t < later
    ensures t in Points(Pair(log, earlier, grace).active) <==> t in Points(Pair(log, later, grace).active)
  {
    hide ActiveAt; hide EventsOf; hide Pair; hide Points; hide Canonical;
    PairMeaning(log, t, earlier, grace);
    PairMeaning(log, t, later, grace);
    forall m: string
      ensures ActiveAt(EventsOf(log, m), t, earlier, grace) <==> ActiveAt(EventsOf(log, m), t, later, grace)
    {
      SettledMachine(EventsOf(log, m), t, earlier, later, grace);
    }
  }

  lemma SettledMachine(list: seq<Event>, t: int, earlier: int, later: int, grace: int)
    requires t < earlier && t < later
    ensures ActiveAt(list, t, earlier, grace) <==> ActiveAt(list, t, later, grace)
  {
  }

  /**
   * Elapsed days are frozen: for any two check times at or after the day's end the
   * same events and corrections give the same day. Only whether an inferred end is
   * still growing may differ, so it does not matter when a day is sealed.
   */
  lemma {:induction false} ElapsedDayFrozen(
    log: seq<RawEvent>, cs: seq<Correction>, dayStart: int, s: Settings, weekday: int, mode: Ledger,
    earlier: int, later: int, grace: int)
    requires Window(dayStart, s).end <= earlier && Window(dayStart, s).end <= later
    ensures var a := DayAt(log, cs, dayStart, s, weekday, mode, earlier, grace);
            var b := DayAt(log, cs, dayStart, s, weekday, mode, later, grace);
            && a.(periods := []) == b.(periods := [])
            && |a.periods| == |b.periods|
            && forall i :: 0 <= i < |a.periods| ==> SameButGrowing(a.periods[i], b.periods[i])
  {
    var p, q := Pair(log, earlier, grace), Pair(log, later, grace);
    var win := Window(dayStart, s);
    PairMeaning(log, 0, earlier, grace);
    PairMeaning(log, 0, later, grace);
    forall t | t in Range(win) ensures t in Points(p.active) <==> t in Points(q.active) {
      SettledInstants(log, t, earlier, later, grace);
    }
    DaySeesItsWindow(p.active, q.active, cs, dayStart, s, weekday, p.provisional, q.provisional, mode);
    PeriodsField(p.active, cs, dayStart, s, weekday, p.provisional, mode);
    PeriodsField(q.active, cs, dayStart, s, weekday, q.provisional, mode);
    LayersAreWellLayered(p.active, cs, win, s, mode);
    var l := LayersOf(p.active, cs, win, s, mode);
    BaseLaid(l, cs, win);
    MarksOfBase(BasePeriods(l, cs, win), win, l, log, earlier, later, grace);
    hide *;
  }

  lemma MarksOfBase(
    base: seq<Period>, win: Interval, l: Layers, log: seq<RawEvent>, earlier: int, later: int, grace: int)
    requires Laid(base, Range(win), l) && win.end <= earlier && win.end <= later
    ensures var a := Marked(base, Pair(log, earlier, grace).provisional);
            var b := Marked(base, Pair(log, later, grace).provisional);
            |a| == |b| && forall i :: 0 <= i < |a| ==> SameButGrowing(a[i], b[i])
  {
    var v, w := Pair(log, earlier, grace).provisional, Pair(log, later, grace).provisional;
    MarkedAt(base, v);
    MarkedAt(base, w);
    hide Marked; hide Pair; hide FirstOverlap; hide SameButGrowing;
    forall i | 0 <= i < |base| ensures SameButGrowing(WithMark(base[i], v), WithMark(base[i], w)) {
      EndsInside(base, win, l, base[i]);
      PeriodFrozen(log, base[i], earlier, later, grace);
    }
    hide Laid; hide Range;
  }

  lemma EndsInside(ps: seq<Period>, win: Interval, l: Layers, p: Period)
    requires Laid(ps, Range(win), l) && p in ps
    ensures p.start < p.end <= win.end
  {
    assert Holds(p, p.end - 1);
  }

  lemma PeriodFrozen(log: seq<RawEvent>, p: Period, earlier: int, later: int, grace: int)
    requires p.start < p.end <= earlier && p.end <= later
    ensures SameButGrowing(WithMark(p, Pair(log, earlier, grace).provisional),
                           WithMark(p, Pair(log, later, grace).provisional))
  {
    var order := Machines(log);
    hide AllProvisional; hide Machines; hide FirstOverlap; hide AllActive; hide PairMachine;
    MarksFrozen(log, order, |order|, p, earlier, later, grace);
  }
}
