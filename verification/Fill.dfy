/** "Mark whole day as work": `fillSpans` (ui/client-helpers.ts) and `fillDay` (ui/render.ts). */
module Fill {
  import opened Events
  import opened Intervals
  import opened LocalTime
  import opened Pairing
  import opened Day
  import opened DayLaws
  import opened Corrections

  predicate Fillable(k: PeriodType) { k.Review? || k.Gap? }

  function FillOf(ps: seq<Period>, env: Interval): seq<Interval> {
    if ps == [] then []
    else
      var p := ps[|ps| - 1];
      FillOf(ps[..|ps| - 1], env) + if Fillable(p.kind) then Clamp(Interval(p.start, p.end), env) else []
  }

  function FillSpans(d: DayResult): seq<Interval> {
    if d.officeEnvelope.None? then [] else FillOf(d.periods, d.officeEnvelope.value)
  }

  method ComputeFillSpans(d: DayResult) returns (out: seq<Interval>)
    ensures out == FillSpans(d)
  {
    out := [];
    if d.officeEnvelope.None? { return; }
    var env := d.officeEnvelope.value;
    hide Points; hide Range;
    for k := 0 to |d.periods|
      invariant out == FillOf(d.periods[..k], env)
    {
      var p := d.periods[k];
      assert d.periods[..k + 1][..k] == d.periods[..k];
      if p.kind != Review && p.kind != Gap { continue; }
      var s, e := Max(p.start, env.start), Min(p.end, env.end);
      if e > s { out := out + [Interval(s, e)]; }
    }
    assert d.periods[..|d.periods|] == d.periods;
  }

  /** One add_work in the work ledger for every span. */
  function FillDay(t: Table, spans: seq<Interval>): Table {
    if spans == [] then t
    else
      var i := spans[|spans| - 1];
      InsertRow(FillDay(t, spans[..|spans| - 1]), AddWork, i.start, i.end, Work)
  }

  lemma {:induction false} FillDayHas(t: Table, spans: seq<Interval>, l: Ledger, k: CorrectionKind, x: int)
    ensures Has(FillDay(t, spans).rows, l, k, x) <==>
            Has(t.rows, l, k, x) || (l == Work && k == AddWork && x in Points(spans))
  {
    if spans != [] {
      var front, i := spans[..|spans| - 1], spans[|spans| - 1];
      assert spans == front + [i];
      FillDayHas(t, front, l, k, x);
      PointsOfSnoc(front, i);
      HasAfterInsert(FillDay(t, front), AddWork, i.start, i.end, Work, l, k, x);
      hide Has; hide InsertRow; hide Points;
    }
  }

  lemma {:induction false} FillPoints(ps: seq<Period>, env: Interval, x: int)
    ensures x in Points(FillOf(ps, env)) <==>
            x in Range(env) && exists p :: p in ps && Fillable(p.kind) && Holds(p, x)
    ensures forall i :: 0 <= i < |FillOf(ps, env)| ==> !FillOf(ps, env)[i].IsEmpty()
  {
    if ps != [] {
      var front, p := ps[..|ps| - 1], ps[|ps| - 1];
      assert ps == front + [p];
      FillPoints(front, env, x);
      var i := Interval(p.start, p.end);
      PointsOfConcat(FillOf(front, env), if Fillable(p.kind) then Clamp(i, env) else []);
      assert x in Range(i) <==> Holds(p, x);
      hide Points; hide Clamp;
      assert forall q :: q in ps <==> q in front || q == p;
    }
  }

  // ---- the envelope --------------------------------------------------------

  predicate AllWithin(s: seq<Interval>, win: Interval) {
    forall i :: i in s ==> win.start <= i.start < i.end <= win.end
  }

  lemma {:induction false} EnvelopeWithin(s: seq<Interval>, win: Interval)
    requires AllWithin(s, win) && s != []
    ensures win.start <= MinStart(s) && MaxEnd(s) <= win.end
  {
    assert s[0] in s;
    if |s| > 1 { EnvelopeWithin(s[1..], win); }
  }

  lemma {:induction false} BelongingWithin(s: seq<Interval>, office: Interval, win: Interval)
    requires AllWithin(s, win)
    ensures AllWithin(Belonging(s, office), win)
  {
    if s != [] {
      assert s[0] in s;
      BelongingWithin(s[1..], office, win);
    }
  }

  lemma {:induction false} ClampedWithin(s: seq<Interval>, win: Interval, ms: int)
    ensures AllWithin(ClampEach(s, win), win) && AllWithin(AtLeast(ClampEach(s, win), ms), win)
  {
    ClampAllWithin(s, win);
    AtLeastWithin(ClampEach(s, win), win, ms);
  }

  lemma {:induction false} ClampAllWithin(s: seq<Interval>, win: Interval)
    ensures AllWithin(ClampEach(s, win), win)
  {
    if s != [] { ClampAllWithin(s[1..], win); }
  }

  lemma {:induction false} AtLeastWithin(s: seq<Interval>, win: Interval, ms: int)
    requires AllWithin(s, win)
    ensures AllWithin(AtLeast(s, ms), win)
  {
    if s != [] {
      assert s[0] in s;
      AtLeastWithin(s[1..], win, ms);
    }
  }

  lemma EnvelopeInside(sensor: seq<Interval>, dayStart: int, s: Settings, win: Interval)
    requires AllWithin(sensor, win)
    ensures var e := Envelope(sensor, dayStart, s, Work);
            e.Some? ==> win.start <= e.value.start && e.value.end <= win.end
  {
    hide Belonging; hide MinStart; hide MaxEnd; hide AllWithin;
    var office := Interval(dayStart + s.workdayStartMin * MINUTE, dayStart + s.workdayEndMin * MINUTE);
    BelongingWithin(sensor, office, win);
    if Belonging(sensor, office) != [] { EnvelopeWithin(Belonging(sensor, office), win); }
  }

  lemma EnvelopeInDay(active: seq<Interval>, cs: seq<Correction>, dayStart: int, s: Settings)
    ensures var win := Window(dayStart, s);
            var e := Envelope(LayersOf(active, cs, win, s, Work).sensor, dayStart, s, Work);
            e.Some? ==> Range(e.value) <= Range(win)
  {
    var win := Window(dayStart, s);
    var sensor := LayersOf(active, cs, win, s, Work).sensor;
    assert sensor == AtLeast(ClampEach(active, win), s.minActiveSec * 1000);
    hide LayersOf; hide ClampEach; hide AtLeast; hide Window; hide AllWithin; hide Envelope; hide Points;
    ClampedWithin(active, win, s.minActiveSec * 1000);
    EnvelopeInside(sensor, dayStart, s, win);
  }

  // ---- the theorem ---------------------------------------------------------

  lemma BaseCovers(l: Layers, cs: seq<Correction>, win: Interval, v: seq<ProvisionalSpan>, x: int)
    requires WellLayered(l, Range(win)) && x in Range(win)
    ensures exists p :: p in Marked(BasePeriods(l, cs, win), v) && Holds(p, x)
  {
    hide Marked; hide BasePeriods; hide Apart; hide Classify; hide Range; hide WellLayered;
    BaseLaid(l, cs, win);
    MarkedCovers(BasePeriods(l, cs, win), v, x);
  }

  lemma MarkedCovers(base: seq<Period>, v: seq<ProvisionalSpan>, x: int)
    requires exists p :: p in base && Holds(p, x)
    ensures exists p :: p in Marked(base, v) && Holds(p, x)
  {
    MarkedAt(base, v);
    hide Marked;
    var p :| p in base && Holds(p, x);
    var i :| 0 <= i < |base| && base[i] == p;
    assert Marked(base, v)[i] in Marked(base, v) && Holds(Marked(base, v)[i], x);
  }

  /** The instants a fill would add: in the envelope, and plain gap or review time. */
  lemma FillMeaning(l: Layers, cs: seq<Correction>, win: Interval, v: seq<ProvisionalSpan>, env: Interval, x: int)
    requires WellLayered(l, Range(win)) && Range(env) <= Range(win)
    ensures x in Points(FillOf(Marked(BasePeriods(l, cs, win), v), env)) <==>
            x in Range(env) && Fillable(Classify(l, x))
  {
    var ps := Marked(BasePeriods(l, cs, win), v);
    FillPoints(ps, env, x);
    PartitionOfLayers(l, cs, win, v);
    if x in Range(win) { BaseCovers(l, cs, win, v, x); }
    hide Points; hide Marked; hide BasePeriods; hide Classify; hide FillOf; hide Range; hide Tiles;
  }

  /** The layers after adding `f` to the adds, instant by instant. */
  lemma FilledClass(l: Layers, k: Layers, f: set<int>, x: int)
    requires l.sensor == k.sensor && l.bridged == k.bridged && l.reviewable == k.reviewable
    requires x in Points(k.adds) <==> x in Points(l.adds) || x in f
    requires x in Points(k.removes) <==> x in Points(l.removes)
    requires x in f ==> Fillable(Classify(l, x))
    ensures x in f ==> Classify(k, x) == PeriodType.ManualAdded
    ensures x !in f ==> Classify(k, x) == Classify(l, x)
  {
    hide Points;
  }

  lemma FilledLayers(
    t: Table, spans: seq<Interval>, active: seq<Interval>, win: Interval, s: Settings, x: int)
    requires x in Range(win)
    ensures var u := FillDay(t, spans);
            var l := LayersOf(active, OfLedger(t.rows, Work), win, s, Work);
            var k := LayersOf(active, OfLedger(u.rows, Work), win, s, Work);
            && l.sensor == k.sensor && l.bridged == k.bridged && l.reviewable == k.reviewable
            && (x in Points(k.adds) <==> x in Points(l.adds) || x in Points(spans))
            && (x in Points(k.removes) <==> x in Points(l.removes))
  {
    var u := FillDay(t, spans);
    var l := LayersOf(active, OfLedger(t.rows, Work), win, s, Work);
    var k := LayersOf(active, OfLedger(u.rows, Work), win, s, Work);
    assert l.sensor == k.sensor && l.bridged == k.bridged && l.reviewable == k.reviewable;
    hide LayersOf; hide OfLedger; hide Points; hide Has; hide FillDay; hide Range;
    CountsByRows(active, t.rows, win, s, Work, x);
    CountsByRows(active, u.rows, win, s, Work, x);
    FillDayHas(t, spans, Work, AddWork, x);
    FillDayHas(t, spans, Work, RemoveWork, x);
  }

  /** The fields of a work day the fill looks at. */
  lemma WorkDayFields(
    active: seq<Interval>, cs: seq<Correction>, dayStart: int, s: Settings, weekday: int, v: seq<ProvisionalSpan>)
    ensures var d := DayOf(active, cs, dayStart, s, weekday, v, Work);
            var win := Window(dayStart, s);
            var l := LayersOf(active, cs, win, s, Work);
            && d.officeEnvelope == Envelope(l.sensor, dayStart, s, Work)
            && d.periods == Marked(BasePeriods(l, cs, win), v)
            && WellLayered(l, Range(win))
            && (d.officeEnvelope.Some? ==> Range(d.officeEnvelope.value) <= Range(win))
  {
    PeriodsField(active, cs, dayStart, s, weekday, v, Work);
    LayersAreWellLayered(active, cs, Window(dayStart, s), s, Work);
    EnvelopeInDay(active, cs, dayStart, s);
    hide LayersOf; hide PeriodsFrom; hide Window; hide Marked; hide BasePeriods; hide Parts; hide SpansOf;
    hide Envelope; hide ReviewLeft; hide RemovedLeft; hide TotalDuration; hide SpanExtents; hide HolidaysOf;
    hide IdsOf; hide ClampEach; hide WellLayered; hide Range;
  }

  /**
   * Whole-day fill: afterwards every instant of the office envelope counts or is
   * removed, removed time and everything outside the envelope are as before, the
   * envelope is the same, and there is nothing left to fill.
   */
  lemma {:induction false} WholeDayFill(
    t: Table, active: seq<Interval>, dayStart: int, s: Settings, weekday: int, v: seq<ProvisionalSpan>)
    ensures var d := DayOf(active, OfLedger(t.rows, Work), dayStart, s, weekday, v, Work);
            var u := FillDay(t, FillSpans(d));
            var e := DayOf(active, OfLedger(u.rows, Work), dayStart, s, weekday, v, Work);
            var win := Window(dayStart, s);
            var l := LayersOf(active, OfLedger(t.rows, Work), win, s, Work);
            var k := LayersOf(active, OfLedger(u.rows, Work), win, s, Work);
            && e.officeEnvelope == d.officeEnvelope
            && FillSpans(e) == []
            && forall x :: x in Range(win) ==>
                 var inside := d.officeEnvelope.Some? && x in Range(d.officeEnvelope.value);
                 && (if inside && (Classify(l, x) == Review || Classify(l, x) == Gap)
                     then Classify(k, x) == PeriodType.ManualAdded
                     else Classify(k, x) == Classify(l, x))
                 && (inside ==> Counts(k, x) || Classify(k, x) == Removed)
  {
    var cs, win := OfLedger(t.rows, Work), Window(dayStart, s);
    var d := DayOf(active, cs, dayStart, s, weekday, v, Work);
    var u := FillDay(t, FillSpans(d));
    var ds := OfLedger(u.rows, Work);
    var e := DayOf(active, ds, dayStart, s, weekday, v, Work);
    var l, k := LayersOf(active, cs, win, s, Work), LayersOf(active, ds, win, s, Work);
    WorkDayFields(active, cs, dayStart, s, weekday, v);
    WorkDayFields(active, ds, dayStart, s, weekday, v);
    assert l.sensor == k.sensor;
    assert FillSpans(d) == if d.officeEnvelope.None? then [] else FillOf(d.periods, d.officeEnvelope.value);
    assert FillSpans(e) == if e.officeEnvelope.None? then [] else FillOf(e.periods, e.officeEnvelope.value);
    assert Points([]) == {};
    hide *;
    FilledDay(t, active, win, s, l, k, d.officeEnvelope, FillSpans(d), FillSpans(e), ds, v, cs);
    forall x | x in Range(win)
      ensures var inside := d.officeEnvelope.Some? && x in Range(d.officeEnvelope.value);
              && (if inside && (Classify(l, x) == Review || Classify(l, x) == Gap)
                  then Classify(k, x) == PeriodType.ManualAdded
                  else Classify(k, x) == Classify(l, x))
              && (inside ==> Counts(k, x) || Classify(k, x) == Removed)
    {
      FilledType(l, k, x);
    }
  }

  /** What the fill leaves of each type. */
  lemma FilledType(l: Layers, k: Layers, x: int)
    ensures Fillable(Classify(l, x)) <==> Classify(l, x) == Review || Classify(l, x) == Gap
    ensures Counts(k, x) <==> CountedType(Classify(k, x))
    ensures CountedType(Classify(k, x)) || Classify(k, x) == Removed || Fillable(Classify(k, x))
    ensures Classify(k, x) == PeriodType.ManualAdded ==> CountedType(Classify(k, x))
  {
    CountsByType(k, x);
    hide Classify; hide Counts;
  }

  lemma FilledDay(
    t: Table, active: seq<Interval>, win: Interval, s: Settings, l: Layers, k: Layers, envelope: Option<Interval>,
    fill: seq<Interval>, left: seq<Interval>, ds: seq<Correction>, v: seq<ProvisionalSpan>, cs: seq<Correction>)
    requires cs == OfLedger(t.rows, Work) && ds == OfLedger(FillDay(t, fill).rows, Work)
    requires l == LayersOf(active, cs, win, s, Work) && k == LayersOf(active, ds, win, s, Work)
    requires WellLayered(l, Range(win)) && WellLayered(k, Range(win))
    requires envelope.Some? ==> Range(envelope.value) <= Range(win)
    requires fill == if envelope.None? then [] else FillOf(Marked(BasePeriods(l, cs, win), v), envelope.value)
    requires left == if envelope.None? then [] else FillOf(Marked(BasePeriods(k, ds, win), v), envelope.value)
    ensures left == []
    ensures forall x :: x in Range(win) ==>
              if envelope.Some? && x in Range(envelope.value) && Fillable(Classify(l, x))
              then Classify(k, x) == PeriodType.ManualAdded
              else Classify(k, x) == Classify(l, x)
  {
    assert Points([]) == {};
    hide LayersOf; hide OfLedger; hide Points; hide FillDay; hide Range; hide FillOf; hide Marked; hide BasePeriods;
    hide WellLayered; hide Classify;
    forall x | x in Range(win)
      ensures if envelope.Some? && x in Range(envelope.value) && Fillable(Classify(l, x))
              then Classify(k, x) == PeriodType.ManualAdded
              else Classify(k, x) == Classify(l, x)
    {
      FilledLayers(t, fill, active, win, s, x);
      if envelope.Some? { FillMeaning(l, cs, win, v, envelope.value, x); }
      FilledClass(l, k, Points(fill), x);
    }
    if envelope.Some? { NothingLeft(l, k, ds, win, v, envelope.value); }
  }

  lemma NothingLeft(l: Layers, k: Layers, ds: seq<Correction>, win: Interval, v: seq<ProvisionalSpan>, env: Interval)
    requires WellLayered(k, Range(win)) && Range(env) <= Range(win)
    requires forall x :: x in Range(win) ==>
               if x in Range(env) && Fillable(Classify(l, x)) then Classify(k, x) == PeriodType.ManualAdded
               else Classify(k, x) == Classify(l, x)
    ensures FillOf(Marked(BasePeriods(k, ds, win), v), env) == []
  {
    var ps := Marked(BasePeriods(k, ds, win), v);
    var left := FillOf(ps, env);
    hide Points; hide FillOf; hide Marked; hide BasePeriods; hide WellLayered; hide Classify;
    if left != [] {
      FillPoints(ps, env, left[0].start);
      InPoints(left, left[0].start);
      FillMeaning(k, ds, win, v, env, left[0].start);
    }
  }
}
