/**
 * The edit planner (ui/client-helpers.ts) and its executor (ui/render.ts): which
 * corrections a choice implies, and what the recomputed day then says.
 */
module Edits {
  import opened Sorting
  import opened Events
  import opened Intervals
  import opened Pairing
  import opened Day
  import opened DayLaws
  import opened Corrections

  /** The position picked for a period: one of the two ledgers, or neither. */
  datatype Target = In(ledger: Ledger) | Neither

  datatype Op = Del | Add(ledger: Ledger) | Remove(ledger: Ledger) | Move(from: Ledger)

  function ClassifyPlan(p: Period, target: Target, ledger: Ledger): seq<Op> {
    var other := Other(ledger);
    if CountedType(p.kind) then
      if target == In(ledger) then []
      else if p.kind == PeriodType.ManualAdded then
        if target == In(other) then [Del, Add(other)] else [Del]
      else if target == Neither then [Remove(ledger)] else [Move(ledger)]
    else if target == Neither then []
    else if target == In(ledger) && p.kind == Removed then [Del]
    else [Add(target.ledger)]
  }

  function ApplyOp(t: Table, p: Period, op: Op): Table {
    match op
    case Del => DeleteRows(t, if p.correctionIds.Some? then p.correctionIds.value else [])
    case Add(l) => InsertRow(t, AddWork, p.start, p.end, l)
    case Remove(l) => InsertRow(t, RemoveWork, p.start, p.end, l)
    case Move(from) =>
      InsertRow(InsertRow(t, RemoveWork, p.start, p.end, from), AddWork, p.start, p.end, Other(from))
  }

  function ApplyOps(t: Table, p: Period, ops: seq<Op>): Table
    decreases |ops|
  {
    if ops == [] then t else ApplyOps(ApplyOp(t, p, ops[0]), p, ops[1..])
  }

  /** Edits are withheld while the period is still growing. */
  function ClassifyPeriod(t: Table, p: Period, target: Target, ledger: Ledger): Table {
    if p.provisional.Some? && p.provisional.value.growing then t
    else ApplyOps(t, p, ClassifyPlan(p, target, ledger))
  }

  // ---- correction ids on periods -------------------------------------------

  function IdsFor(p: Period, cs: seq<Correction>): Option<seq<int>> {
    if p.kind == PeriodType.ManualAdded then Some(IdsOver(OfKind(cs, AddWork), Interval(p.start, p.end)))
    else if p.kind == Removed then Some(IdsOver(OfKind(cs, RemoveWork), Interval(p.start, p.end)))
    else None
  }

  ghost predicate IdsRight(ps: seq<Period>, cs: seq<Correction>) {
    forall p :: p in ps ==> p.correctionIds == IdsFor(p, cs)
  }

  lemma {:induction false} IdsOfPeriods(
    s: seq<Interval>, kind: PeriodType, source: Option<seq<Correction>>, cs: seq<Correction>)
    requires source == (if kind == PeriodType.ManualAdded then Some(OfKind(cs, AddWork))
                        else if kind == Removed then Some(OfKind(cs, RemoveWork)) else None)
    ensures IdsRight(ToPeriods(s, kind, source), cs)
  {
    if s != [] {
      IdsOfPeriods(s[1..], kind, source, cs);
      assert Interval(s[0].start, s[0].end) == s[0];
    }
  }

  lemma BaseIds(l: Layers, cs: seq<Correction>, win: Interval)
    ensures IdsRight(BasePeriods(l, cs, win), cs)
  {
    var parts := Parts(l, cs);
    var g := PlainGaps(parts, win);
    IdsOfPeriods(SensorLeft(l), PeriodType.Sensor, None, cs);
    IdsOfPeriods(BridgedLeft(l), AutoBridged, None, cs);
    IdsOfPeriods(ManualLeft(l), PeriodType.ManualAdded, Some(OfKind(cs, AddWork)), cs);
    IdsOfPeriods(ReviewLeft(l), Review, None, cs);
    IdsOfPeriods(RemovedLeft(l), Removed, Some(OfKind(cs, RemoveWork)), cs);
    IdsOfPeriods(g, Gap, None, cs);
    hide IdsFor; hide ToPeriods; hide OfKind; hide SensorLeft; hide BridgedLeft; hide ManualLeft; hide ReviewLeft;
    hide RemovedLeft; hide PlainGaps; hide SortBy; hide Points; hide Canonical;
    forall p | p in BasePeriods(l, cs, win) ensures p.correctionIds == IdsFor(p, cs) {
      SortByElements(parts + ToPeriods(g, Gap, None), PeriodStart, p);
    }
  }

  lemma MarkedIds(ps: seq<Period>, v: seq<ProvisionalSpan>, cs: seq<Correction>)
    requires IdsRight(ps, cs)
    ensures IdsRight(Marked(ps, v), cs)
  {
    MarkedAt(ps, v);
    hide Marked;
    forall p | p in Marked(ps, v) ensures p.correctionIds == IdsFor(p, cs) {
      var i :| 0 <= i < |Marked(ps, v)| && Marked(ps, v)[i] == p;
      assert ps[i] in ps;
    }
  }

  lemma {:induction false} IdsOverMeaning(cs: seq<Correction>, kind: CorrectionKind, i: Interval, id: int)
    ensures id in IdsOver(OfKind(cs, kind), i) <==>
            exists c :: c in cs && c.kind == kind && c.id == Some(id) && Overlaps(c, i)
  {
    if cs != [] {
      IdsOverMeaning(cs[1..], kind, i, id);
      var rest := OfKind(cs[1..], kind);
      if cs[0].kind == kind {
        assert ([cs[0]] + rest)[1..] == rest;
      } else {
        assert [] + rest == rest;
      }
      assert forall c :: c in cs <==> c == cs[0] || c in cs[1..];
    }
  }

  // ---- the day seen from one period ----------------------------------------

  /** Everything the argument needs to know about a period of the viewed day. */
  ghost predicate Shown(p: Period, l: Layers, rows: seq<Correction>, win: Interval, ledger: Ledger) {
    && p.start < p.end && win.start <= p.start && p.end <= win.end
    && (forall x :: Holds(p, x) ==> Classify(l, x) == p.kind)
    && p.correctionIds == IdsFor(p, OfLedger(rows, ledger))
  }

  lemma PeriodIsShown(
    active: seq<Interval>, rows: seq<Correction>, dayStart: int, s: Settings, weekday: int, v: seq<ProvisionalSpan>,
    ledger: Ledger, p: Period)
    requires p in DayOf(active, OfLedger(rows, ledger), dayStart, s, weekday, v, ledger).periods
    ensures var win := Window(dayStart, s);
            Shown(p, LayersOf(active, OfLedger(rows, ledger), win, s, ledger), rows, win, ledger)
  {
    hide *;
    var cs, win := OfLedger(rows, ledger), Window(dayStart, s);
    PeriodsField(active, cs, dayStart, s, weekday, v, ledger);
    LayersAreWellLayered(active, cs, win, s, ledger);
    ShownByLayers(LayersOf(active, cs, win, s, ledger), rows, win, v, ledger, p);
  }

  lemma ShownByLayers(
    l: Layers, rows: seq<Correction>, win: Interval, v: seq<ProvisionalSpan>, ledger: Ledger, p: Period)
    requires WellLayered(l, Range(win)) && p in Marked(BasePeriods(l, OfLedger(rows, ledger), win), v)
    ensures Shown(p, l, rows, win, ledger)
  {
    hide Marked; hide BasePeriods; hide OfLedger; hide IdsFor; hide Classify; hide WellLayered; hide Tiles; hide Range;
    var cs := OfLedger(rows, ledger);
    var ps := Marked(BasePeriods(l, cs, win), v);
    PartitionOfLayers(l, cs, win, v);
    BaseIds(l, cs, win);
    MarkedIds(BasePeriods(l, cs, win), v, cs);
    TilesInside(ps, win, p);
  }

  lemma TilesInside(ps: seq<Period>, win: Interval, p: Period)
    requires Tiles(ps, win.start, win.end) && p in ps
    requires forall q, t :: q in ps && Holds(q, t) ==> t in Range(win)
    ensures p.start < p.end && win.start <= p.start && p.end <= win.end
  {
    assert Holds(p, p.start) && Holds(p, p.end - 1);
  }

  /** Deleting the ids a period shows removes every row of that kind from it, and no other kind. */
  lemma DelClears(t: Table, p: Period, ledger: Ledger, kind: CorrectionKind, x: int)
    requires WellFormed(t) && Holds(p, x)
    requires p.correctionIds == Some(IdsOver(OfKind(OfLedger(t.rows, ledger), kind), Interval(p.start, p.end)))
    ensures var u := DeleteRows(t, p.correctionIds.value);
            && !Has(u.rows, ledger, kind, x)
            && forall l: Ledger, k: CorrectionKind :: l != ledger || k != kind ==>
                 (Has(u.rows, l, k, x) <==> Has(t.rows, l, k, x))
  {
    var ids := p.correctionIds.value;
    forall id ensures id in ids <==> exists c :: c in t.rows && c.ledger == ledger && c.kind == kind &&
                                                 c.id == Some(id) && Overlaps(c, Interval(p.start, p.end))
    {
      IdsOverMeaning(OfLedger(t.rows, ledger), kind, Interval(p.start, p.end), id);
      forall c ensures c in OfLedger(t.rows, ledger) <==> c in t.rows && c.ledger == ledger {
        OfLedgerMeaning(t.rows, ledger, c);
      }
    }
    hide IdsOver; hide OfKind; hide OfLedger;
    forall l: Ledger, k: CorrectionKind
      ensures Has(DeleteRows(t, ids).rows, l, k, x) <==> Has(t.rows, l, k, x) && !(l == ledger && k == kind)
    {
      HasAfterDelete(t, ids, l, k, x);
    }
  }

  /** Some add of this ledger overlaps the period. */
  ghost predicate AddOverlaps(rows: seq<Correction>, ledger: Ledger, p: Period) {
    exists c :: c in rows && c.ledger == ledger && c.kind == AddWork && Overlaps(c, Interval(p.start, p.end))
  }

  lemma AddOverlapsMeaning(t: Table, ledger: Ledger, p: Period)
    requires WellFormed(t) && p.start < p.end
    ensures AddOverlaps(t.rows, ledger, p) <==> exists x :: Holds(p, x) && Has(t.rows, ledger, AddWork, x)
  {
    if AddOverlaps(t.rows, ledger, p) {
      var c :| c in t.rows && c.ledger == ledger && c.kind == AddWork && Overlaps(c, Interval(p.start, p.end));
      var x := Max(c.start, p.start);
      assert Holds(p, x) && Has(t.rows, ledger, AddWork, x);
    }
  }

  /** Counting at `x` after an edit, from the rows and the sensor layers before it. */
  ghost predicate CountsAfter(rows: seq<Correction>, l: Layers, ledger: Ledger, x: int) {
    Has(rows, ledger, AddWork, x) || (InSensorOrBridged(l, x) && !Has(rows, ledger, RemoveWork, x))
  }

  /** A period of measured or bridged time leaving its ledger. */
  predicate Leaving(p: Period, target: Target, ledger: Ledger) {
    (p.kind == PeriodType.Sensor || p.kind == AutoBridged) && target != In(ledger)
  }

  lemma ApplyOne(t: Table, p: Period, op: Op)
    ensures ApplyOps(t, p, [op]) == ApplyOp(t, p, op)
  {
    assert [op][1..] == [];
  }

  lemma ApplyTwo(t: Table, p: Period, op: Op, next: Op)
    ensures ApplyOps(t, p, [op, next]) == ApplyOp(ApplyOp(t, p, op), p, next)
  {
    assert [op, next][1..] == [next];
    ApplyOne(ApplyOp(t, p, op), p, next);
  }

  /** What the layers say of the rows at one instant. */
  ghost predicate Reads(l: Layers, t: Table, ledger: Ledger, x: int) {
    && (x in Points(l.adds) <==> Has(t.rows, ledger, AddWork, x))
    && (x in Points(l.removes) <==> Has(t.rows, ledger, RemoveWork, x))
  }

  /** What the plan is for: the other ledger counts if chosen, this one exactly if chosen. */
  ghost predicate Done(u: Table, l: Layers, target: Target, ledger: Ledger, x: int) {
    && (target == In(Other(ledger)) ==> Has(u.rows, Other(ledger), AddWork, x))
    && (CountsAfter(u.rows, l, ledger, x) <==> target == In(ledger))
  }

  lemma PlanManual(t: Table, p: Period, target: Target, ledger: Ledger, l: Layers, x: int)
    requires WellFormed(t) && Holds(p, x) && Classify(l, x) == p.kind == PeriodType.ManualAdded && target != In(ledger)
    requires p.correctionIds == IdsFor(p, OfLedger(t.rows, ledger)) && Reads(l, t, ledger, x)
    ensures Done(ApplyOps(t, p, ClassifyPlan(p, target, ledger)), l, target, ledger, x)
  {
    DelClears(t, p, ledger, AddWork, x);
    var other := Other(ledger);
    var d := DeleteRows(t, p.correctionIds.value);
    ApplyOne(t, p, Del);
    ApplyTwo(t, p, Del, Add(other));
    HasAfterInsert(d, AddWork, p.start, p.end, other, other, AddWork, x);
    HasAfterInsert(d, AddWork, p.start, p.end, other, ledger, AddWork, x);
    HasAfterInsert(d, AddWork, p.start, p.end, other, ledger, RemoveWork, x);
    hide Points; hide IdsOver; hide OfKind; hide OfLedger; hide Has; hide InsertRow; hide DeleteRows; hide ApplyOps;
    hide WellFormed;
  }

  lemma PlanRemoved(t: Table, p: Period, target: Target, ledger: Ledger, l: Layers, x: int)
    requires WellFormed(t) && Holds(p, x) && Classify(l, x) == p.kind == Removed && target == In(ledger)
    requires p.correctionIds == IdsFor(p, OfLedger(t.rows, ledger)) && Reads(l, t, ledger, x)
    ensures Done(ApplyOps(t, p, ClassifyPlan(p, target, ledger)), l, target, ledger, x)
  {
    DelClears(t, p, ledger, RemoveWork, x);
    ApplyOne(t, p, Del);
    hide Points; hide IdsOver; hide OfKind; hide OfLedger; hide Has; hide InsertRow; hide DeleteRows; hide ApplyOps;
    hide WellFormed;
  }

  lemma PlanLeaving(t: Table, p: Period, target: Target, ledger: Ledger, l: Layers, x: int)
    requires Holds(p, x) && Classify(l, x) == p.kind && Leaving(p, target, ledger) && Reads(l, t, ledger, x)
    ensures var u := ApplyOps(t, p, ClassifyPlan(p, target, ledger));
            && (target == In(Other(ledger)) ==> Has(u.rows, Other(ledger), AddWork, x))
            && (CountsAfter(u.rows, l, ledger, x) <==> Has(t.rows, ledger, AddWork, x))
  {
    var other := Other(ledger);
    var r := InsertRow(t, RemoveWork, p.start, p.end, ledger);
    ApplyOne(t, p, Remove(ledger));
    ApplyOne(t, p, Move(ledger));
    HasAfterInsert(t, RemoveWork, p.start, p.end, ledger, ledger, AddWork, x);
    HasAfterInsert(t, RemoveWork, p.start, p.end, ledger, ledger, RemoveWork, x);
    HasAfterInsert(r, AddWork, p.start, p.end, other, other, AddWork, x);
    HasAfterInsert(r, AddWork, p.start, p.end, other, ledger, AddWork, x);
    HasAfterInsert(r, AddWork, p.start, p.end, other, ledger, RemoveWork, x);
    hide Points; hide Has; hide InsertRow; hide ApplyOps;
  }

  lemma PlanOther(t: Table, p: Period, target: Target, ledger: Ledger, l: Layers, x: int)
    requires Holds(p, x) && Classify(l, x) == p.kind && Reads(l, t, ledger, x)
    requires if CountedType(p.kind) then target == In(ledger) else !(p.kind == Removed && target == In(ledger))
    ensures Done(ApplyOps(t, p, ClassifyPlan(p, target, ledger)), l, target, ledger, x)
  {
    if target.In? {
      ApplyOne(t, p, Add(target.ledger));
      HasAfterInsert(t, AddWork, p.start, p.end, target.ledger, target.ledger, AddWork, x);
      HasAfterInsert(t, AddWork, p.start, p.end, target.ledger, ledger, AddWork, x);
      HasAfterInsert(t, AddWork, p.start, p.end, target.ledger, ledger, RemoveWork, x);
    }
    assert ApplyOps(t, p, []) == t;
    CountsByType(l, x);
    hide Points; hide Has; hide InsertRow; hide ApplyOps;
  }

  /** The plan at one instant, for every type, target and ledger. */
  lemma {:induction false} PlanAt(t: Table, p: Period, target: Target, ledger: Ledger, l: Layers, x: int)
    requires WellFormed(t) && Holds(p, x) && Classify(l, x) == p.kind
    requires p.correctionIds == IdsFor(p, OfLedger(t.rows, ledger)) && Reads(l, t, ledger, x)
    ensures var u := ApplyOps(t, p, ClassifyPlan(p, target, ledger));
            && (target == In(Other(ledger)) ==> Has(u.rows, Other(ledger), AddWork, x))
            && (CountsAfter(u.rows, l, ledger, x) <==>
                target == In(ledger) || (Leaving(p, target, ledger) && Has(t.rows, ledger, AddWork, x)))
  {
    hide Classify; hide IdsFor; hide ApplyOps; hide ClassifyPlan; hide WellFormed; hide Reads; hide CountsAfter;
    hide Has; hide OfLedger;
    if Leaving(p, target, ledger) {
      PlanLeaving(t, p, target, ledger, l, x);
    } else if p.kind == PeriodType.ManualAdded && target != In(ledger) {
      PlanManual(t, p, target, ledger, l, x);
    } else if p.kind == Removed && target == In(ledger) {
      PlanRemoved(t, p, target, ledger, l, x);
    } else {
      PlanOther(t, p, target, ledger, l, x);
    }
  }

  // ---- the theorem ---------------------------------------------------------

  lemma EditAt(
    t: Table, u: Table, active: seq<Interval>, otherActive: seq<Interval>, win: Interval, s: Settings,
    ledger: Ledger, p: Period, target: Target, x: int)
    requires WellFormed(t) && Holds(p, x) && u == ApplyOps(t, p, ClassifyPlan(p, target, ledger))
    requires Shown(p, LayersOf(active, OfLedger(t.rows, ledger), win, s, ledger), t.rows, win, ledger)
    ensures var here := LayersOf(active, OfLedger(u.rows, ledger), win, s, ledger);
            var there := LayersOf(otherActive, OfLedger(u.rows, Other(ledger)), win, s, Other(ledger));
            && (target == In(Other(ledger)) ==> Counts(there, x))
            && (Counts(here, x) <==>
                target == In(ledger) || (Leaving(p, target, ledger) && Has(t.rows, ledger, AddWork, x)))
  {
    var l := LayersOf(active, OfLedger(t.rows, ledger), win, s, ledger);
    SensorStays(active, OfLedger(t.rows, ledger), OfLedger(u.rows, ledger), win, s, ledger);
    assert x in Range(win);
    hide LayersOf; hide OfLedger; hide ApplyOps; hide ClassifyPlan; hide Points; hide Has; hide IdsFor; hide Classify;
    hide WellFormed; hide Range; hide Leaving;
    CountsByRows(active, t.rows, win, s, ledger, x);
    CountsByRows(active, u.rows, win, s, ledger, x);
    CountsByRows(otherActive, u.rows, win, s, Other(ledger), x);
    PlanAt(t, p, target, ledger, l, x);
  }

  /**
   * Edit plans do what they say, for all six types, all targets and both ledgers.
   * After the plan every instant of the period counts in the chosen other ledger,
   * and counts in the viewed ledger exactly when that one was chosen. The one
   * exception is exact: measured or bridged time that is to leave its ledger keeps
   * counting precisely where an add_work of the ledger overlaps it.
   */
  lemma {:induction false} EditDoesWhatItSays(
    t: Table, active: seq<Interval>, otherActive: seq<Interval>, dayStart: int, s: Settings, weekday: int,
    v: seq<ProvisionalSpan>, ledger: Ledger, p: Period, target: Target)
    requires WellFormed(t)
    requires p in DayOf(active, OfLedger(t.rows, ledger), dayStart, s, weekday, v, ledger).periods
    requires !(p.provisional.Some? && p.provisional.value.growing)
    ensures var u := ClassifyPeriod(t, p, target, ledger);
            var win := Window(dayStart, s);
            var here := LayersOf(active, OfLedger(u.rows, ledger), win, s, ledger);
            var there := LayersOf(otherActive, OfLedger(u.rows, Other(ledger)), win, s, Other(ledger));
            && (target == In(Other(ledger)) ==> forall x :: Holds(p, x) ==> Counts(there, x))
            && (target == In(ledger) ==> forall x :: Holds(p, x) ==> Counts(here, x))
            && (target != In(ledger) ==>
                  ((forall x :: Holds(p, x) ==> !Counts(here, x)) <==>
                   !(Leaving(p, target, ledger) && AddOverlaps(t.rows, ledger, p))))
  {
    var win := Window(dayStart, s);
    var u := ClassifyPeriod(t, p, target, ledger);
    assert u == ApplyOps(t, p, ClassifyPlan(p, target, ledger));
    hide LayersOf; hide DayOf; hide OfLedger; hide Window; hide ApplyOps; hide ClassifyPlan; hide ClassifyPeriod;
    hide Has; hide IdsFor; hide Classify; hide WellFormed; hide AddOverlaps; hide Counts; hide Leaving;
    PeriodIsShown(active, t.rows, dayStart, s, weekday, v, ledger, p);
    AddOverlapsMeaning(t, ledger, p);
    forall x | Holds(p, x)
      ensures var here := LayersOf(active, OfLedger(u.rows, ledger), win, s, ledger);
              var there := LayersOf(otherActive, OfLedger(u.rows, Other(ledger)), win, s, Other(ledger));
              && (target == In(Other(ledger)) ==> Counts(there, x))
              && (Counts(here, x) <==>
                  target == In(ledger) || (Leaving(p, target, ledger) && Has(t.rows, ledger, AddWork, x)))
    {
      EditAt(t, u, active, otherActive, win, s, ledger, p, target, x);
    }
  }

  // ---- instants outside the period -----------------------------------------

  /** The kind of rows a plan deletes, if any. A row is deleted whole. */
  function DeletedKind(p: Period, target: Target, ledger: Ledger): Option<CorrectionKind> {
    if p.kind == PeriodType.ManualAdded && target != In(ledger) then Some(AddWork)
    else if p.kind == Removed && target == In(ledger) then Some(RemoveWork)
    else None
  }

  /** Some row of the kind covers `x`, and each that does reaches into the period. */
  ghost predicate LosesCover(rows: seq<Correction>, ledger: Ledger, kind: CorrectionKind, p: Period, x: int) {
    && Has(rows, ledger, kind, x)
    && forall c :: c in rows && c.ledger == ledger && c.kind == kind && c.start <= x < c.end ==>
                     Overlaps(c, Interval(p.start, p.end))
  }

  lemma DeletedCover(t: Table, p: Period, ledger: Ledger, kind: CorrectionKind, l: Ledger, k: CorrectionKind, x: int)
    requires WellFormed(t)
    requires p.correctionIds == Some(IdsOver(OfKind(OfLedger(t.rows, ledger), kind), Interval(p.start, p.end)))
    ensures var u := DeleteRows(t, p.correctionIds.value);
            Has(u.rows, l, k, x) <==>
            Has(t.rows, l, k, x) && !(l == ledger && k == kind && LosesCover(t.rows, ledger, kind, p, x))
  {
    var ids := p.correctionIds.value;
    forall id ensures id in ids <==> exists c :: c in t.rows && c.ledger == ledger && c.kind == kind &&
                                                 c.id == Some(id) && Overlaps(c, Interval(p.start, p.end))
    {
      IdsOverMeaning(OfLedger(t.rows, ledger), kind, Interval(p.start, p.end), id);
      forall c ensures c in OfLedger(t.rows, ledger) <==> c in t.rows && c.ledger == ledger {
        OfLedgerMeaning(t.rows, ledger, c);
      }
    }
    HasAfterDelete(t, ids, l, k, x);
    hide IdsOver; hide OfKind; hide OfLedger; hide DeleteRows;
  }

  /** The rows a plan writes over the period: an add where it is to count, a remove where it is leaving. */
  predicate Written(p: Period, target: Target, ledger: Ledger, l: Ledger, k: CorrectionKind) {
    || (k == AddWork && target == In(l) && (l != ledger || !(CountedType(p.kind) || p.kind == Removed)))
    || (k == RemoveWork && l == ledger && Leaving(p, target, ledger))
  }

  /**
   * What a plan does to the table, exactly: at every instant, in both ledgers and for
   * every kind, the cover afterwards is what the deleted rows leave and the written rows add.
   */
  lemma {:induction false} PlanExactly(
    t: Table, p: Period, target: Target, ledger: Ledger, l: Ledger, k: CorrectionKind, x: int)
    requires WellFormed(t) && p.correctionIds == IdsFor(p, OfLedger(t.rows, ledger))
    ensures var u := ApplyOps(t, p, ClassifyPlan(p, target, ledger));
            Has(u.rows, l, k, x) <==>
            || (&& Has(t.rows, l, k, x)
                && !(l == ledger && DeletedKind(p, target, ledger) == Some(k) && LosesCover(t.rows, ledger, k, p, x)))
            || (Holds(p, x) && Written(p, target, ledger, l, k))
  {
    var other := Other(ledger);
    hide ApplyOps; hide WellFormed; hide Has; hide LosesCover; hide OfLedger; hide OfKind; hide IdsOver; hide InsertRow;
    hide DeleteRows;
    assert ApplyOps(t, p, []) == t by { NoOps(t, p); }
    ApplyOne(t, p, Del);
    ApplyTwo(t, p, Del, Add(other));
    ApplyOne(t, p, Remove(ledger));
    ApplyOne(t, p, Move(ledger));
    if target.In? {
      ApplyOne(t, p, Add(target.ledger));
      HasAfterInsert(t, AddWork, p.start, p.end, target.ledger, l, k, x);
    }
    HasAfterInsert(t, RemoveWork, p.start, p.end, ledger, l, k, x);
    HasAfterInsert(InsertRow(t, RemoveWork, p.start, p.end, ledger), AddWork, p.start, p.end, other, l, k, x);
    if DeletedKind(p, target, ledger).Some? {
      DeletedCover(t, p, ledger, DeletedKind(p, target, ledger).value, l, k, x);
      HasAfterInsert(DeleteRows(t, p.correctionIds.value), AddWork, p.start, p.end, other, l, k, x);
    }
  }

  lemma NoOps(t: Table, p: Period)
    ensures ApplyOps(t, p, []) == t
  {
  }

  /** The position a period has before any edit. */
  function Position(p: Period, ledger: Ledger): Target {
    if p.kind == PeriodType.Sensor || p.kind == AutoBridged || p.kind == PeriodType.ManualAdded then In(ledger)
    else Neither
  }

  /** Nothing is asked for exactly when the position held is picked; nothing is done then or while growing. */
  lemma {:induction false} NothingToDo(t: Table, p: Period, target: Target, ledger: Ledger)
    ensures ClassifyPlan(p, target, ledger) == [] <==> target == Position(p, ledger)
    ensures target == Position(p, ledger) || (p.provisional.Some? && p.provisional.value.growing) ==>
              ClassifyPeriod(t, p, target, ledger) == t
  {
    NoOps(t, p);
    hide ApplyOps;
  }

  /**
   * Outside the edited period, exactly: nothing changes in the other ledger, and an
   * instant of the viewed one changes if and only if the plan deletes every row of its
   * kind that covers it and that row alone had decided whether it counts.
   */
  lemma {:induction false} EditElsewhere(
    t: Table, active: seq<Interval>, otherActive: seq<Interval>, dayStart: int, s: Settings, weekday: int,
    v: seq<ProvisionalSpan>, ledger: Ledger, p: Period, target: Target, x: int)
    requires WellFormed(t)
    requires p in DayOf(active, OfLedger(t.rows, ledger), dayStart, s, weekday, v, ledger).periods
    requires !(p.provisional.Some? && p.provisional.value.growing)
    requires x in Range(Window(dayStart, s)) && !Holds(p, x)
    ensures var u := ClassifyPeriod(t, p, target, ledger);
            var win, other, kind := Window(dayStart, s), Other(ledger), DeletedKind(p, target, ledger);
            var here, now := LayersOf(active, OfLedger(t.rows, ledger), win, s, ledger),
                             LayersOf(active, OfLedger(u.rows, ledger), win, s, ledger);
            && (Counts(LayersOf(otherActive, OfLedger(u.rows, other), win, s, other), x) <==>
                Counts(LayersOf(otherActive, OfLedger(t.rows, other), win, s, other), x))
            && (Counts(now, x) != Counts(here, x) <==>
                && kind.Some? && LosesCover(t.rows, ledger, kind.value, p, x)
                && (if kind == Some(AddWork) then !InSensorOrBridged(here, x) || Has(t.rows, ledger, RemoveWork, x)
                    else InSensorOrBridged(here, x) && !Has(t.rows, ledger, AddWork, x)))
  {
    hide *;
    var u := ApplyOps(t, p, ClassifyPlan(p, target, ledger));
    EditIsPlan(t, p, target, ledger);
    PeriodIsShown(active, t.rows, dayStart, s, weekday, v, ledger, p);
    var win := Window(dayStart, s);
    ShownIds(p, LayersOf(active, OfLedger(t.rows, ledger), win, s, ledger), t.rows, win, ledger);
    ElsewhereHere(t, u, active, win, s, ledger, p, target, x);
    ElsewhereThere(t, u, otherActive, win, s, ledger, p, target, x);
  }

  lemma EditIsPlan(t: Table, p: Period, target: Target, ledger: Ledger)
    requires !(p.provisional.Some? && p.provisional.value.growing)
    ensures ClassifyPeriod(t, p, target, ledger) == ApplyOps(t, p, ClassifyPlan(p, target, ledger))
  {
    hide ApplyOps; hide ClassifyPlan;
  }

  lemma ShownIds(p: Period, l: Layers, rows: seq<Correction>, win: Interval, ledger: Ledger)
    requires Shown(p, l, rows, win, ledger)
    ensures p.correctionIds == IdsFor(p, OfLedger(rows, ledger))
  {
    hide IdsFor; hide OfLedger; hide Classify; hide Range;
  }

  lemma ElsewhereHere(
    t: Table, u: Table, active: seq<Interval>, win: Interval, s: Settings, ledger: Ledger, p: Period,
    target: Target, x: int)
    requires WellFormed(t) && x in Range(win) && !Holds(p, x) && p.correctionIds == IdsFor(p, OfLedger(t.rows, ledger))
    requires u == ApplyOps(t, p, ClassifyPlan(p, target, ledger))
    ensures var kind := DeletedKind(p, target, ledger);
            var here, now := LayersOf(active, OfLedger(t.rows, ledger), win, s, ledger),
                             LayersOf(active, OfLedger(u.rows, ledger), win, s, ledger);
            Counts(now, x) != Counts(here, x) <==>
            && kind.Some? && LosesCover(t.rows, ledger, kind.value, p, x)
            && (if kind == Some(AddWork) then !InSensorOrBridged(here, x) || Has(t.rows, ledger, RemoveWork, x)
                else InSensorOrBridged(here, x) && !Has(t.rows, ledger, AddWork, x))
  {
    hide LayersOf; hide OfLedger; hide ApplyOps; hide ClassifyPlan; hide Has; hide IdsFor; hide WellFormed; hide Points;
    hide Range; hide LosesCover;
    SensorStays(active, OfLedger(t.rows, ledger), OfLedger(u.rows, ledger), win, s, ledger);
    CountsByRows(active, t.rows, win, s, ledger, x);
    CountsByRows(active, u.rows, win, s, ledger, x);
    PlanExactly(t, p, target, ledger, ledger, AddWork, x);
    PlanExactly(t, p, target, ledger, ledger, RemoveWork, x);
    LostIsHad(t.rows, ledger, p, x);
  }

  lemma ElsewhereThere(
    t: Table, u: Table, active: seq<Interval>, win: Interval, s: Settings, ledger: Ledger, p: Period,
    target: Target, x: int)
    requires WellFormed(t) && x in Range(win) && !Holds(p, x) && p.correctionIds == IdsFor(p, OfLedger(t.rows, ledger))
    requires u == ApplyOps(t, p, ClassifyPlan(p, target, ledger))
    ensures var other := Other(ledger);
            Counts(LayersOf(active, OfLedger(u.rows, other), win, s, other), x) <==>
            Counts(LayersOf(active, OfLedger(t.rows, other), win, s, other), x)
  {
    var other := Other(ledger);
    hide LayersOf; hide OfLedger; hide ApplyOps; hide ClassifyPlan; hide Has; hide IdsFor; hide WellFormed; hide Points;
    hide Range; hide LosesCover;
    SensorStays(active, OfLedger(t.rows, other), OfLedger(u.rows, other), win, s, other);
    CountsByRows(active, t.rows, win, s, other, x);
    CountsByRows(active, u.rows, win, s, other, x);
    PlanExactly(t, p, target, ledger, other, AddWork, x);
    PlanExactly(t, p, target, ledger, other, RemoveWork, x);
  }

  lemma LostIsHad(rows: seq<Correction>, ledger: Ledger, p: Period, x: int)
    ensures forall k :: LosesCover(rows, ledger, k, p, x) ==> Has(rows, ledger, k, x)
  {
  }
}
