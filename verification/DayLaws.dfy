/**
 * What a composed day means, instant by instant.
 *
 * `Classify` says why an instant has the type it has, from the five layers alone.
 * The composed list of periods tiles the day and every period carries the type of
 * each of its instants; the gross time counts the instants that count.
 */
module DayLaws {
  import opened Sorting
  import opened Events
  import opened Intervals
  import opened Pairing
  import opened Day

  // ---- the five layers as sets ---------------------------------------------

  ghost predicate WellLayered(l: Layers, w: set<int>) {
    var s, b, v := Points(l.sensor), Points(l.bridged), Points(l.reviewable);
    && s <= w && b <= w && v <= w && Points(l.adds) <= w && Points(l.removes) <= w
    && s !! b && s !! v && b !! v
  }

  ghost predicate InSensorOrBridged(l: Layers, t: int) {
    t in Points(l.sensor) || t in Points(l.bridged)
  }

  /** Counting law: an add always wins; a remove beats measured and bridged time. */
  ghost predicate Counts(l: Layers, t: int) {
    t in Points(l.adds) || (InSensorOrBridged(l, t) && t !in Points(l.removes))
  }

  ghost function Classify(l: Layers, t: int): PeriodType {
    if t in Points(l.sensor) && t !in Points(l.removes) then PeriodType.Sensor
    else if t in Points(l.bridged) && t !in Points(l.removes) then AutoBridged
    else if t in Points(l.adds) then PeriodType.ManualAdded
    else if InSensorOrBridged(l, t) then Removed
    else if t in Points(l.reviewable) then Review
    else Gap
  }

  predicate CountedType(k: PeriodType) { k.Sensor? || k.AutoBridged? || k.ManualAdded? }

  lemma {:induction false} CountsByType(l: Layers, t: int)
    ensures Counts(l, t) <==> CountedType(Classify(l, t))
  {
  }

  lemma {:induction false} AtLeastPoints(s: seq<Interval>, ms: int)
    ensures Points(AtLeast(s, ms)) <= Points(s)
  {
    if s != [] {
      AtLeastPoints(s[1..], ms);
      PointsOfOne(s[0]);
      PointsOfConcat(if s[0].Duration() >= ms then [s[0]] else [], AtLeast(s[1..], ms));
    }
  }

  lemma {:induction false} GapSplitPoints(g: seq<Interval>, s: Settings)
    requires Canonical(g)
    ensures Points(BridgedOf(g, s)) <= Points(g) && Points(ReviewOf(g, s)) <= Points(g)
    ensures Points(BridgedOf(g, s)) !! Points(ReviewOf(g, s))
  {
    if g != [] {
      CanonicalTail(g);
      GapSplitPoints(g[1..], s);
      PointsOfOne(g[0]);
      PointsOfConcat(if Bridges(g[0], s) then [g[0]] else [], BridgedOf(g[1..], s));
      PointsOfConcat(if Reviewable(g[0], s) then [g[0]] else [], ReviewOf(g[1..], s));
      assert forall t :: t in Range(g[0]) ==> t !in Points(g[1..]);
    }
  }

  lemma LayersAreWellLayered(active: seq<Interval>, cs: seq<Correction>, win: Interval, s: Settings, mode: Ledger)
    ensures WellLayered(LayersOf(active, cs, win, s, mode), Range(win))
  {
    var sensor := AtLeast(ClampEach(active, win), s.minActiveSec * 1000);
    AtLeastPoints(ClampEach(active, win), s.minActiveSec * 1000);
    var g := if mode == Work then Gaps(sensor) else [];
    GapSplitPoints(g, s);
    forall t | t in Points(g) ensures t in Range(win) && t !in Points(sensor) {
      var a :| a in Points(sensor) && a < t;
      var b :| b in Points(sensor) && t < b;
      assert a in Range(win) && b in Range(win);
    }
  }

  /** Adding and deleting rows never moves the sensor layers. */
  lemma SensorStays(
    active: seq<Interval>, cs: seq<Correction>, ds: seq<Correction>, win: Interval, s: Settings, mode: Ledger)
    ensures var l, k := LayersOf(active, cs, win, s, mode), LayersOf(active, ds, win, s, mode);
            l.sensor == k.sensor && l.bridged == k.bridged && l.reviewable == k.reviewable
  {
  }

  /** The add and remove layers are the instants of the day the corrections cover. */
  lemma {:induction false} CorrectionPoints(cs: seq<Correction>, kind: CorrectionKind, win: Interval, t: int)
    ensures t in Points(ClampAll(OfKind(cs, kind), win)) <==>
            t in Range(win) && exists c :: c in cs && c.kind == kind && c.start <= t < c.end
  {
    ExtentPoints(cs, kind, t);
  }

  lemma {:induction false} ExtentPoints(cs: seq<Correction>, kind: CorrectionKind, t: int)
    ensures t in Points(Extents(OfKind(cs, kind))) <==>
            exists c :: c in cs && c.kind == kind && c.start <= t < c.end
  {
    if cs != [] {
      ExtentPoints(cs[1..], kind, t);
      var rest := OfKind(cs[1..], kind);
      if cs[0].kind == kind {
        assert OfKind(cs, kind) == [cs[0]] + rest;
        assert OfKind(cs, kind)[1..] == rest;
        var i := Interval(cs[0].start, cs[0].end);
        assert Extents(OfKind(cs, kind)) == [i] + Extents(rest);
        PointsOfConcat([i], Extents(rest));
        PointsOfOne(i);
      } else {
        assert OfKind(cs, kind) == rest;
      }
      assert forall c :: c in cs <==> c == cs[0] || c in cs[1..];
    }
  }

  // ---- laying periods ------------------------------------------------------

  predicate Holds(p: Period, t: int) { p.start <= t < p.end }

  ghost predicate Clear(p: Period, q: Period) { p.end <= q.start || q.end <= p.start }

  ghost predicate Apart(ps: seq<Period>) {
    ps == [] ||
    var front, last := ps[..|ps| - 1], ps[|ps| - 1];
    Apart(front) && forall p :: p in front ==> Clear(p, last)
  }

  /** The periods are non-empty, share no instant, cover exactly `q`, and are typed right. */
  ghost predicate Laid(ps: seq<Period>, q: set<int>, l: Layers) {
    && Apart(ps)
    && (forall p :: p in ps ==> p.start < p.end)
    && (forall p, t :: p in ps && Holds(p, t) ==> t in q && p.kind == Classify(l, t))
    && (forall t :: t in q ==> exists p :: p in ps && Holds(p, t))
  }

  lemma {:induction false} ApartConcat(a: seq<Period>, b: seq<Period>)
    requires Apart(a) && Apart(b)
    requires forall p, q :: p in a && q in b ==> Clear(p, q)
    ensures Apart(a + b)
  {
    if b == [] {
      assert a + b == a;
    } else {
      var front, last := b[..|b| - 1], b[|b| - 1];
      ApartConcat(a, front);
      assert (a + b)[..|a + b| - 1] == a + front;
    }
  }

  lemma LaidConcat(a: seq<Period>, qa: set<int>, b: seq<Period>, qb: set<int>, l: Layers)
    requires Laid(a, qa, l) && Laid(b, qb, l) && qa !! qb
    ensures Laid(a + b, qa + qb, l)
  {
    forall p, q | p in a && q in b ensures Clear(p, q) {
      var t := Max(p.start, q.start);
      assert Holds(p, t) ==> t in qa;
      assert Holds(q, t) ==> t in qb;
    }
    ApartConcat(a, b);
    forall t | t in qa + qb ensures exists p :: p in a + b && Holds(p, t) {
      if t in qa {
        var p :| p in a && Holds(p, t);
        assert p in a + b;
      } else {
        var p :| p in b && Holds(p, t);
        assert p in a + b;
      }
    }
  }

  lemma {:induction false} LaidOfPeriods(s: seq<Interval>, kind: PeriodType, source: Option<seq<Correction>>, l: Layers)
    requires Canonical(s)
    requires forall t :: t in Points(s) ==> Classify(l, t) == kind
    ensures Laid(ToPeriods(s, kind, source), Points(s), l)
  {
    if s != [] {
      CanonicalTail(s);
      LaidOfPeriods(s[1..], kind, source, l);
      var ids := if source.None? then None else Some(IdsOver(source.value, s[0]));
      var p := Period(s[0].start, s[0].end, kind, ids, None);
      LaidOne(p, l);
      LaidConcat([p], Range(s[0]), ToPeriods(s[1..], kind, source), Points(s[1..]), l);
    }
  }

  lemma LaidOne(p: Period, l: Layers)
    requires p.start < p.end
    requires forall t :: Holds(p, t) ==> Classify(l, t) == p.kind
    ensures Laid([p], Range(Interval(p.start, p.end)), l)
  {
    assert [p][..0] == [];
    forall t | t in Range(Interval(p.start, p.end)) ensures exists x :: x in [p] && Holds(x, t) {
      assert p in [p] && Holds(p, t);
    }
  }

  lemma {:induction false} ApartInsert(c: seq<Period>, x: Period)
    requires Apart(c) && forall p :: p in c ==> Clear(p, x)
    ensures Apart(InsertBy(c, x, PeriodStart))
  {
    if c == [] || PeriodStart(c[|c| - 1]) <= PeriodStart(x) {
      assert (c + [x])[..|c|] == c;
    } else {
      var front, last := c[..|c| - 1], c[|c| - 1];
      ApartInsert(front, x);
      var r := InsertBy(front, x, PeriodStart);
      assert (r + [last])[..|r|] == r;
      assert last in c;
      forall p | p in r ensures Clear(p, last) {
        assert p in multiset(r);
        assert p in front || p == x;
      }
    }
  }

  lemma {:induction false} ApartSorted(ps: seq<Period>)
    requires Apart(ps)
    ensures Apart(SortBy(ps, PeriodStart))
  {
    if ps != [] {
      var front := ps[..|ps| - 1];
      ApartSorted(front);
      forall p | p in SortBy(front, PeriodStart) ensures Clear(p, ps[|ps| - 1]) {
        SortByElements(front, PeriodStart, p);
      }
      ApartInsert(SortBy(front, PeriodStart), ps[|ps| - 1]);
    }
  }

  lemma LaidSorted(ps: seq<Period>, q: set<int>, l: Layers)
    requires Laid(ps, q, l)
    ensures Laid(SortBy(ps, PeriodStart), q, l)
  {
    ApartSorted(ps);
    forall p ensures p in SortBy(ps, PeriodStart) <==> p in ps { SortByElements(ps, PeriodStart, p); }
  }

  // ---- the partition -------------------------------------------------------

  /** The list of periods before provisional marks are put on. */
  function BasePeriods(l: Layers, cs: seq<Correction>, win: Interval): seq<Period> {
    var parts := Parts(l, cs);
    SortBy(parts + ToPeriods(PlainGaps(parts, win), Gap, None), PeriodStart)
  }

  lemma {:induction false} PeriodExtentPoints(ps: seq<Period>, t: int)
    ensures t in Points(PeriodExtents(ps)) <==> exists p :: p in ps && Holds(p, t)
  {
    if ps != [] {
      PeriodExtentPoints(ps[1..], t);
      var i := Interval(ps[0].start, ps[0].end);
      PointsOfConcat([i], PeriodExtents(ps[1..]));
      PointsOfOne(i);
      assert t in Range(i) <==> Holds(ps[0], t);
      assert ps[0] in ps;
      assert forall p :: p in ps <==> p == ps[0] || p in ps[1..];
    }
  }

  lemma LaidExtents(ps: seq<Period>, q: set<int>, l: Layers)
    requires Laid(ps, q, l)
    ensures Points(PeriodExtents(ps)) == q
  {
    forall t ensures t in Points(PeriodExtents(ps)) <==> t in q { PeriodExtentPoints(ps, t); }
  }

  lemma {:induction false} CanonicalIsSorted(s: seq<Interval>)
    requires Canonical(s)
    ensures SortedBy(s, StartOf)
  {
    if |s| >= 2 {
      var front := s[..|s| - 1];
      assert s == front + [s[|s| - 1]];
      CanonicalSplit(front, [s[|s| - 1]]);
      CanonicalIsSorted(front);
      CanonicalPairs(s);
    }
  }

  /** Each layer of the composition as a set of instants. */
  lemma PartSets(l: Layers)
    ensures var s, b, a, r := Points(l.sensor), Points(l.bridged), Points(l.adds), Points(l.removes);
            && Points(Surviving(l)) == (s + b) - r
            && Points(SensorLeft(l)) == s - r && Points(BridgedLeft(l)) == b - r
            && Points(ManualLeft(l)) == a - ((s + b) - r)
            && Points(ReviewLeft(l)) == Points(l.reviewable) - a
            && Points(RemovedLeft(l)) == ((s + b) * r) - a
    ensures Canonical(SensorLeft(l)) && Canonical(BridgedLeft(l)) && Canonical(ManualLeft(l))
    ensures Canonical(ReviewLeft(l)) && Canonical(RemovedLeft(l))
  {
    hide *;
    SurvivingSet(l);
    MeasuredSets(l);
    ManualSets(l);
    RemovedSet(l);
  }

  lemma CoveredSet(l: Layers)
    ensures Points(Covered(l)) == Points(l.sensor) + Points(l.bridged)
  {
    PointsOfConcat(l.sensor, l.bridged);
    hide Points;
  }

  lemma SurvivingSet(l: Layers)
    ensures Points(Surviving(l)) == (Points(l.sensor) + Points(l.bridged)) - Points(l.removes)
  {
    hide Points; hide Covered;
    CoveredSet(l);
  }

  lemma MeasuredSets(l: Layers)
    ensures Points(SensorLeft(l)) == Points(l.sensor) - Points(l.removes) && Canonical(SensorLeft(l))
    ensures Points(BridgedLeft(l)) == Points(l.bridged) - Points(l.removes) && Canonical(BridgedLeft(l))
  {
    hide Points; hide Canonical;
  }

  lemma ManualSets(l: Layers)
    ensures Points(ManualLeft(l)) == Points(l.adds) - ((Points(l.sensor) + Points(l.bridged)) - Points(l.removes))
    ensures Points(ReviewLeft(l)) == Points(l.reviewable) - Points(l.adds)
    ensures Canonical(ManualLeft(l)) && Canonical(ReviewLeft(l))
  {
    hide Points; hide Canonical; hide Surviving;
    SurvivingSet(l);
  }

  lemma RemovedSet(l: Layers)
    ensures Points(RemovedLeft(l)) == ((Points(l.sensor) + Points(l.bridged)) * Points(l.removes)) - Points(l.adds)
    ensures Canonical(RemovedLeft(l))
  {
    var cut := Subtract(Subtract(Covered(l), Surviving(l)), l.adds);
    assert Canonical(cut) && Points(cut) == (Points(Covered(l)) - Points(Surviving(l))) - Points(l.adds);
    assert RemovedLeft(l) == SortBy(cut, StartOf);
    hide Points; hide Canonical; hide Surviving; hide Covered; hide RemovedLeft; hide Subtract; hide SortBy;
    CanonicalIsSorted(cut);
    SortByIdentity(cut, StartOf);
    CoveredSet(l);
    SurvivingSet(l);
    RemovedAlgebra(Points(l.sensor) + Points(l.bridged), Points(l.removes), Points(l.adds));
  }

  lemma RemovedAlgebra(m: set<int>, r: set<int>, a: set<int>)
    ensures (m - (m - r)) - a == (m * r) - a
  {
  }

  /** Everything the five layers claim. */
  ghost function Claimed(l: Layers): set<int> {
    Points(SensorLeft(l)) + Points(BridgedLeft(l)) + Points(ManualLeft(l))
    + Points(ReviewLeft(l)) + Points(RemovedLeft(l))
  }

  lemma PartsLaid(l: Layers, cs: seq<Correction>, w: set<int>)
    requires WellLayered(l, w)
    ensures Laid(Parts(l, cs), Claimed(l), l)
  {
    PartSets(l);
    hide Points; hide Canonical; hide SensorLeft; hide BridgedLeft; hide ManualLeft; hide ReviewLeft; hide RemovedLeft;
    var a, b, c, d, e := SensorLeft(l), BridgedLeft(l), ManualLeft(l), ReviewLeft(l), RemovedLeft(l);
    var adds, removes := Some(OfKind(cs, AddWork)), Some(OfKind(cs, RemoveWork));
    LaidOfPeriods(a, PeriodType.Sensor, None, l);
    LaidOfPeriods(b, AutoBridged, None, l);
    LaidOfPeriods(c, PeriodType.ManualAdded, adds, l);
    LaidOfPeriods(d, Review, None, l);
    LaidOfPeriods(e, Removed, removes, l);
    hide Laid; hide ToPeriods; hide OfKind;
    LaidConcat(ToPeriods(a, PeriodType.Sensor, None), Points(a), ToPeriods(b, AutoBridged, None), Points(b), l);
    var ab := ToPeriods(a, PeriodType.Sensor, None) + ToPeriods(b, AutoBridged, None);
    LaidConcat(ab, Points(a) + Points(b), ToPeriods(c, PeriodType.ManualAdded, adds), Points(c), l);
    var abc := ab + ToPeriods(c, PeriodType.ManualAdded, adds);
    LaidConcat(abc, Points(a) + Points(b) + Points(c), ToPeriods(d, Review, None), Points(d), l);
    LaidConcat(abc + ToPeriods(d, Review, None), Points(a) + Points(b) + Points(c) + Points(d),
               ToPeriods(e, Removed, removes), Points(e), l);
  }

  lemma GapSet(l: Layers, t: int)
    ensures t !in Claimed(l) <==> Classify(l, t) == Gap
  {
    PartSets(l);
    hide Points; hide SensorLeft; hide BridgedLeft; hide ManualLeft; hide ReviewLeft; hide RemovedLeft;
  }

  lemma ClaimedInside(l: Layers, w: set<int>)
    requires WellLayered(l, w)
    ensures Claimed(l) <= w
  {
    PartSets(l);
    hide Points; hide SensorLeft; hide BridgedLeft; hide ManualLeft; hide ReviewLeft; hide RemovedLeft;
  }

  lemma BaseLaid(l: Layers, cs: seq<Correction>, win: Interval)
    requires WellLayered(l, Range(win))
    ensures Laid(BasePeriods(l, cs, win), Range(win), l)
  {
    hide *;
    var parts := Parts(l, cs);
    var g := PlainGaps(parts, win);
    PlainGapsFill(parts, win);
    PartsLaid(l, cs, Range(win));
    LaidExtents(parts, Claimed(l), l);
    ClaimedInside(l, Range(win));
    forall t | t in Points(g) ensures Classify(l, t) == Gap { GapSet(l, t); }
    LaidOfPeriods(g, Gap, None, l);
    assert Claimed(l) + Points(g) == Range(win);
    LaidConcat(parts, Claimed(l), ToPeriods(g, Gap, None), Points(g), l);
    LaidSorted(parts + ToPeriods(g, Gap, None), Range(win), l);
    BaseIsSorted(l, cs, win);
  }

  lemma PlainGapsFill(parts: seq<Period>, win: Interval)
    ensures var g := PlainGaps(parts, win); Canonical(g) && Points(g) == Range(win) - Points(PeriodExtents(parts))
  {
    PointsOfOne(win);
    hide Points; hide Canonical; hide PeriodExtents;
  }

  lemma BaseIsSorted(l: Layers, cs: seq<Correction>, win: Interval)
    ensures var parts := Parts(l, cs);
            BasePeriods(l, cs, win) == SortBy(parts + ToPeriods(PlainGaps(parts, win), Gap, None), PeriodStart)
  {
    hide Parts; hide PlainGaps; hide ToPeriods; hide SortBy;
  }

  /** Sorted, disjoint and covering means contiguous. */
  ghost predicate Tiles(ps: seq<Period>, from: int, to: int) {
    if from >= to then ps == []
    else
      && ps != []
      && ps[0].start == from && ps[|ps| - 1].end == to
      && (forall i :: 0 <= i < |ps| ==> ps[i].start < ps[i].end)
      && (forall i, j :: 0 <= i && j == i + 1 < |ps| ==> ps[i].end == ps[j].start)
  }

  /** The last period of a sorted partition ends the window, and the rest fills what is before it. */
  lemma LastPeriod(ps: seq<Period>, win: Interval, l: Layers)
    requires Laid(ps, Range(win), l) && SortedBy(ps, PeriodStart) && win.start < win.end
    ensures ps != []
    ensures var front, last := ps[..|ps| - 1], ps[|ps| - 1];
            && last.end == win.end && win.start <= last.start < last.end
            && Laid(front, Range(Interval(win.start, last.start)), l) && SortedBy(front, PeriodStart)
  {
    hide Classify; hide SortedBy;
    LastReaches(ps, win, l);
    var front, last := ps[..|ps| - 1], ps[|ps| - 1];
    assert ps == front + [last];
    assert SortedBy(front, PeriodStart) by { SortedFront(ps); }
    var rest := Interval(win.start, last.start);
    assert forall q :: q in front ==> Clear(q, last);
    forall q | q in front ensures q.end <= last.start {
      SortedLast(ps, PeriodStart, q);
    }
    forall t | t in Range(rest) ensures exists q :: q in front && Holds(q, t) {
      assert t in Range(win);
      var q :| q in ps && Holds(q, t);
    }
    forall q, t | q in front && Holds(q, t) ensures t in Range(rest) {
      assert t in Range(win);
    }
  }

  lemma SortedFront(ps: seq<Period>)
    requires SortedBy(ps, PeriodStart) && ps != []
    ensures SortedBy(ps[..|ps| - 1], PeriodStart)
  {
  }

  lemma LastReaches(ps: seq<Period>, win: Interval, l: Layers)
    requires Laid(ps, Range(win), l) && SortedBy(ps, PeriodStart) && win.start < win.end
    ensures ps != []
    ensures var last := ps[|ps| - 1]; last.end == win.end && win.start <= last.start < last.end
  {
    hide Classify; hide SortedBy;
    assert win.end - 1 in Range(win);
    var p :| p in ps && Holds(p, win.end - 1);
    var last := ps[|ps| - 1];
    SortedLast(ps, PeriodStart, p);
    assert Holds(last, last.start) && Holds(last, last.end - 1);
    assert p == last || Clear(p, last);
  }

  lemma TilesSnoc(front: seq<Period>, last: Period, from: int)
    requires Tiles(front, from, last.start) && from <= last.start < last.end
    ensures Tiles(front + [last], from, last.end)
  {
    var ps := front + [last];
    forall i, j | 0 <= i && j == i + 1 < |ps| ensures ps[i].end == ps[j].start {
      if j == |front| { assert ps[i] == front[|front| - 1] && ps[j] == last; }
    }
    assert ps[0] == if front == [] then last else front[0];
  }

  lemma {:induction false} LaidTiles(ps: seq<Period>, win: Interval, l: Layers)
    requires Laid(ps, Range(win), l) && SortedBy(ps, PeriodStart)
    ensures Tiles(ps, win.start, win.end)
  {
    if win.start >= win.end {
      assert ps != [] ==> ps[0] in ps && Holds(ps[0], ps[0].start);
    } else {
      LastPeriod(ps, win, l);
      var front, last := ps[..|ps| - 1], ps[|ps| - 1];
      var rest := Interval(win.start, last.start);
      hide Laid; hide Range; hide SortedBy;
      LaidTiles(front, rest, l);
      assert ps == front + [last];
      TilesSnoc(front, last, win.start);
    }
  }

  // ---- marks ---------------------------------------------------------------

  lemma {:induction false} MarkedInsert(c: seq<Period>, x: Period, v: seq<ProvisionalSpan>)
    ensures Marked(InsertBy(c, x, PeriodStart), v) == InsertBy(Marked(c, v), WithMark(x, v), PeriodStart)
  {
    var m := Marked(c, v);
    if c == [] || PeriodStart(c[|c| - 1]) <= PeriodStart(x) {
      assert (c + [x])[..|c|] == c;
    } else {
      MarkedInsert(c[..|c| - 1], x, v);
      var r, last := InsertBy(c[..|c| - 1], x, PeriodStart), c[|c| - 1];
      assert (r + [last])[..|r|] == r;
      assert m[..|m| - 1] == Marked(c[..|c| - 1], v);
    }
  }

  lemma {:induction false} MarkedSorted(ps: seq<Period>, v: seq<ProvisionalSpan>)
    ensures SortBy(Marked(ps, v), PeriodStart) == Marked(SortBy(ps, PeriodStart), v)
  {
    if ps != [] {
      MarkedSorted(ps[..|ps| - 1], v);
      MarkedInsert(SortBy(ps[..|ps| - 1], PeriodStart), ps[|ps| - 1], v);
      var m := Marked(ps, v);
      assert m[..|m| - 1] == Marked(ps[..|ps| - 1], v);
    }
  }

  /** Provisional marks change neither the boundaries nor the types of the periods. */
  lemma {:induction false} MarksOnlyMark(l: Layers, cs: seq<Correction>, win: Interval, v: seq<ProvisionalSpan>)
    ensures PeriodsFrom(Parts(l, cs), win, v) == Marked(BasePeriods(l, cs, win), v)
  {
    var parts := Parts(l, cs);
    MarkedSorted(parts + ToPeriods(PlainGaps(parts, win), Gap, None), v);
  }

  lemma MarkedTiles(base: seq<Period>, v: seq<ProvisionalSpan>, from: int, to: int)
    requires Tiles(base, from, to)
    ensures Tiles(Marked(base, v), from, to)
  {
    MarkedAt(base, v);
    hide Marked;
  }

  lemma MarkedHolds(base: seq<Period>, v: seq<ProvisionalSpan>, p: Period)
    requires p in Marked(base, v)
    ensures exists q :: q in base && q.start == p.start && q.end == p.end && q.kind == p.kind
  {
    MarkedAt(base, v);
    hide Marked;
    var ps := Marked(base, v);
    var i :| 0 <= i < |ps| && ps[i] == p;
    assert base[i] in base;
  }

  lemma PeriodsField(
    active: seq<Interval>, cs: seq<Correction>, dayStart: int, s: Settings, weekday: int,
    v: seq<ProvisionalSpan>, mode: Ledger)
    ensures var win := Window(dayStart, s);
            DayOf(active, cs, dayStart, s, weekday, v, mode).periods
            == Marked(BasePeriods(LayersOf(active, cs, win, s, mode), cs, win), v)
  {
    var win := Window(dayStart, s);
    hide LayersOf; hide PeriodsFrom; hide Window; hide Marked; hide BasePeriods; hide Parts;
    hide SpansOf; hide Envelope; hide ReviewLeft; hide RemovedLeft; hide TotalDuration; hide SpanExtents;
    hide HolidaysOf; hide IdsOf; hide ClampEach;
    MarksOnlyMark(LayersOf(active, cs, win, s, mode), cs, win, v);
  }

  lemma PartitionOfLayers(l: Layers, cs: seq<Correction>, win: Interval, v: seq<ProvisionalSpan>)
    requires WellLayered(l, Range(win))
    ensures var ps := Marked(BasePeriods(l, cs, win), v);
            && Tiles(ps, win.start, win.end)
            && (forall p, t :: p in ps && Holds(p, t) ==> t in Range(win) && p.kind == Classify(l, t))
  {
    hide Classify; hide Marked; hide SortedBy; hide Tiles; hide WellLayered; hide Range; hide Apart;
    BaseLaid(l, cs, win);
    var base := BasePeriods(l, cs, win);
    LaidTiles(base, win, l);
    hide BasePeriods;
    MarkedTiles(base, v, win.start, win.end);
    forall p, t | p in Marked(base, v) && Holds(p, t) ensures t in Range(win) && p.kind == Classify(l, t) {
      MarkedHolds(base, v, p);
      var q :| q in base && q.start == p.start && q.end == p.end && q.kind == p.kind;
      assert Holds(q, t);
    }
  }

  /**
   * Day partition: for every list of intervals, every correction list and both
   * ledgers the periods tile the day window, and every period has the type of each
   * instant in it.
   */
  lemma {:induction false} DayPartition(
    active: seq<Interval>, cs: seq<Correction>, dayStart: int, s: Settings, weekday: int,
    v: seq<ProvisionalSpan>, mode: Ledger)
    ensures var r := DayOf(active, cs, dayStart, s, weekday, v, mode);
            var win := Window(dayStart, s);
            && Tiles(r.periods, win.start, win.end)
            && (forall p, t :: p in r.periods && Holds(p, t) ==>
                  t in Range(win) && p.kind == Classify(LayersOf(active, cs, win, s, mode), t))
  {
    hide *;
    var win := Window(dayStart, s);
    LayersAreWellLayered(active, cs, win, s, mode);
    PeriodsField(active, cs, dayStart, s, weekday, v, mode);
    PartitionOfLayers(LayersOf(active, cs, win, s, mode), cs, win, v);
  }

  // ---- gross time ----------------------------------------------------------

  ghost function CountedPoints(l: Layers): set<int> {
    Points(l.adds) + ((Points(l.sensor) + Points(l.bridged)) - Points(l.removes))
  }

  function CountedMs(p: Period): int {
    if CountedType(p.kind) then p.end - p.start else 0
  }

  lemma {:induction false} CanonicalMeasure(s: seq<Interval>)
    requires Canonical(s)
    ensures Total(s) == |Points(s)|
  {
    CanonicalPairs(s);
    DisjointMeasure(s);
  }

  lemma {:induction false} SumOfPeriods(s: seq<Interval>, kind: PeriodType, source: Option<seq<Correction>>)
    requires Canonical(s)
    ensures SumBy(ToPeriods(s, kind, source), CountedMs) == if CountedType(kind) then |Points(s)| else 0
  {
    SumOfPeriodsTotal(s, kind, source);
    CanonicalMeasure(s);
  }

  lemma {:induction false} SumOfPeriodsTotal(s: seq<Interval>, kind: PeriodType, source: Option<seq<Correction>>)
    requires Canonical(s)
    ensures SumBy(ToPeriods(s, kind, source), CountedMs) == if CountedType(kind) then Total(s) else 0
  {
    if s != [] {
      CanonicalTail(s);
      SumOfPeriodsTotal(s[1..], kind, source);
      var ids := if source.None? then None else Some(IdsOver(source.value, s[0]));
      var p := Period(s[0].start, s[0].end, kind, ids, None);
      SumByConcat([p], ToPeriods(s[1..], kind, source), CountedMs);
      assert [p][..0] == [];
    }
  }

  lemma {:induction false} SumOfMarked(ps: seq<Period>, v: seq<ProvisionalSpan>)
    ensures SumBy(Marked(ps, v), CountedMs) == SumBy(ps, CountedMs)
  {
    if ps != [] {
      SumOfMarked(ps[..|ps| - 1], v);
      var m := Marked(ps, v);
      assert m[..|m| - 1] == Marked(ps[..|ps| - 1], v);
    }
  }

  lemma {:induction false} SpanPoints(s: seq<Span>, t: int)
    ensures t in Points(SpanExtents(s)) <==> exists x :: x in s && x.start <= t < x.end
  {
    if s != [] {
      SpanPoints(s[1..], t);
      var i := Interval(s[0].start, s[0].end);
      PointsOfConcat([i], SpanExtents(s[1..]));
      PointsOfOne(i);
      assert forall x :: x in s <==> x == s[0] || x in s[1..];
    }
  }

  lemma {:induction false} TagPoints(s: seq<Interval>, k: PeriodType, t: int)
    ensures t in Points(s) <==> exists x :: x in Tag(s, k) && x.start <= t < x.end
  {
    if s != [] {
      TagPoints(s[1..], k, t);
      var x := Span(s[0].start, s[0].end, k);
      assert Tag(s, k) == [x] + Tag(s[1..], k);
      assert forall y :: y in Tag(s, k) <==> y == x || y in Tag(s[1..], k);
    }
  }

  lemma SpansCover(l: Layers)
    ensures Points(SpanExtents(SpansOf(l))) == CountedPoints(l)
  {
    PartSets(l);
    var a, b, c := Tag(SensorLeft(l), PeriodType.Sensor), Tag(BridgedLeft(l), AutoBridged),
                   Tag(ManualLeft(l), PeriodType.ManualAdded);
    forall t ensures t in Points(SpanExtents(SpansOf(l))) <==> t in CountedPoints(l) {
      SpanPoints(SpansOf(l), t);
      TagPoints(SensorLeft(l), PeriodType.Sensor, t);
      TagPoints(BridgedLeft(l), AutoBridged, t);
      TagPoints(ManualLeft(l), PeriodType.ManualAdded, t);
      forall x ensures x in SpansOf(l) <==> x in a || x in b || x in c {
        SortByElements(a + b + c, SpanStart, x);
      }
      hide SpansOf; hide SensorLeft; hide BridgedLeft; hide ManualLeft; hide Tag; hide Points; hide SpanExtents;
    }
  }

  lemma SumOfParts(l: Layers, cs: seq<Correction>)
    ensures SumBy(Parts(l, cs), CountedMs)
            == |Points(SensorLeft(l))| + |Points(BridgedLeft(l))| + |Points(ManualLeft(l))|
  {
    PartSets(l);
    var a, b, c, d, e := SensorLeft(l), BridgedLeft(l), ManualLeft(l), ReviewLeft(l), RemovedLeft(l);
    hide Points; hide Canonical; hide SumBy; hide ToPeriods; hide OfKind;
    hide SensorLeft; hide BridgedLeft; hide ManualLeft; hide ReviewLeft; hide RemovedLeft;
    var adds, removes := Some(OfKind(cs, AddWork)), Some(OfKind(cs, RemoveWork));
    var pa, pb, pc := ToPeriods(a, PeriodType.Sensor, None), ToPeriods(b, AutoBridged, None),
                      ToPeriods(c, PeriodType.ManualAdded, adds);
    var pd, pe := ToPeriods(d, Review, None), ToPeriods(e, Removed, removes);
    SumOfPeriods(a, PeriodType.Sensor, None);
    SumOfPeriods(b, AutoBridged, None);
    SumOfPeriods(c, PeriodType.ManualAdded, adds);
    SumOfPeriods(d, Review, None);
    SumOfPeriods(e, Removed, removes);
    SumByConcat(pa, pb, CountedMs);
    SumByConcat(pa + pb, pc, CountedMs);
    SumByConcat(pa + pb + pc, pd, CountedMs);
    SumByConcat(pa + pb + pc + pd, pe, CountedMs);
  }

  lemma CountedSplit(l: Layers, w: set<int>)
    requires WellLayered(l, w)
    ensures |CountedPoints(l)| == |Points(SensorLeft(l))| + |Points(BridgedLeft(l))| + |Points(ManualLeft(l))|
  {
    PartSets(l);
    var s, b, a, r := Points(l.sensor), Points(l.bridged), Points(l.adds), Points(l.removes);
    assert s !! b && CountedPoints(l) == a + ((s + b) - r);
    hide *;
    SplitAlgebra(s, b, a, r);
  }

  lemma SplitAlgebra(s: set<int>, b: set<int>, a: set<int>, r: set<int>)
    requires s !! b
    ensures |a + ((s + b) - r)| == |s - r| + |b - r| + |a - ((s + b) - r)|
  {
    var x, y := s - r, b - r;
    assert (s + b) - r == x + y && x !! y;
    var c := a - (x + y);
    assert a + (x + y) == (x + y) + c && (x + y) !! c;
  }

  lemma SumOfBase(l: Layers, cs: seq<Correction>, win: Interval)
    requires WellLayered(l, Range(win))
    ensures SumBy(BasePeriods(l, cs, win), CountedMs) == |CountedPoints(l)|
  {
    var parts, g := Parts(l, cs), PlainGaps(Parts(l, cs), win);
    assert Canonical(g);
    CountedSplit(l, Range(win));
    hide Points; hide Canonical; hide SortBy; hide SumBy; hide ToPeriods; hide PlainGaps; hide Parts;
    hide CountedPoints;
    SumBySorted(parts + ToPeriods(g, Gap, None), PeriodStart, CountedMs);
    SumOfParts(l, cs);
    SumOfPeriods(g, Gap, None);
    SumByConcat(parts, ToPeriods(g, Gap, None), CountedMs);
  }

  /**
   * Counting law: gross time is the number of milliseconds of the day that count,
   * and also what the counted periods add up to.
   */
  lemma {:induction false} GrossIsMeasure(
    active: seq<Interval>, cs: seq<Correction>, dayStart: int, s: Settings, weekday: int,
    v: seq<ProvisionalSpan>, mode: Ledger)
    ensures var r := DayOf(active, cs, dayStart, s, weekday, v, mode);
            var win := Window(dayStart, s);
            var l := LayersOf(active, cs, win, s, mode);
            && (forall t :: t in CountedPoints(l) <==> t in Range(win) && Counts(l, t))
            && r.grossMs == |CountedPoints(l)|
            && r.grossMs == SumBy(r.periods, CountedMs)
  {
    var win := Window(dayStart, s);
    var l := LayersOf(active, cs, win, s, mode);
    LayersAreWellLayered(active, cs, win, s, mode);
    SpansCover(l);
    CountedMeaning(l, Range(win));
    GrossField(active, cs, dayStart, s, weekday, v, mode);
    hide *;
    SumOfBase(l, cs, win);
    PeriodsField(active, cs, dayStart, s, weekday, v, mode);
    SumOfMarked(BasePeriods(l, cs, win), v);
  }

  lemma GrossField(
    active: seq<Interval>, cs: seq<Correction>, dayStart: int, s: Settings, weekday: int,
    v: seq<ProvisionalSpan>, mode: Ledger)
    ensures DayOf(active, cs, dayStart, s, weekday, v, mode).grossMs
            == |Points(SpanExtents(SpansOf(LayersOf(active, cs, Window(dayStart, s), s, mode))))|
  {
    hide LayersOf; hide Window; hide SpansOf; hide SpanExtents; hide PeriodsFrom; hide Points; hide Envelope;
    hide Parts; hide HolidaysOf; hide ClampEach; hide IdsOf; hide ReviewLeft; hide RemovedLeft;
  }

  lemma CountedMeaning(l: Layers, w: set<int>)
    requires WellLayered(l, w)
    ensures forall t :: t in CountedPoints(l) <==> t in w && Counts(l, t)
  {
    hide Points; hide Canonical;
  }
}
