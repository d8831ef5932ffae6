/**
 * From the daemon's trace to the backend's intervals and back: pairing the span
 * boundaries returns the spans the daemon confirmed, and heartbeats are harmless
 * under an exact condition that the daemon does not always meet.
 */
module RoundTrip {
  import opened Sorting
  import opened Events
  import opened Intervals
  import opened Pairing
  import opened Daemon
  import opened DaemonLaws

  // ---- what the daemon confirmed -------------------------------------------

  /** The spans a run has closed, in order, and the start of the one still open. */
  datatype Claims = Claims(closed: seq<Interval>, open: Option<int>)

  /** A claim opens and closes with the reported state, at the timestamp emitted. */
  function ClaimStep(c: Claims, before: Persisted, o: Outcome): Claims {
    if o.events == [] || o.p.reported == before.reported then c
    else if o.p.reported == ReportedActive then c.(open := Some(o.events[0].ts))
    else if c.open.Some? then Claims(c.closed + [Interval(c.open.value, o.events[0].ts)], None)
    else c
  }

  function ClaimsOf(ops: seq<Op>): Claims {
    if ops == [] then Claims([], None)
    else
      var before := Run(FRESH_STATE, ops[..|ops| - 1]).p;
      ClaimStep(ClaimsOf(ops[..|ops| - 1]), before, Apply(before, ops[|ops| - 1]))
  }

  lemma {:induction false} NonEmptySnoc(s: seq<Interval>, i: Interval)
    ensures NonEmpty(s + [i]) == NonEmpty(s) + (if i.IsEmpty() then [] else [i])
  {
    if s == [] {
      assert [i][1..] == [];
    } else {
      assert (s + [i])[1..] == s[1..] + [i];
      NonEmptySnoc(s[1..], i);
    }
  }

  predicate Matches(c: Claims, s: PairState, p: Persisted) {
    s.open == c.open && s.closed == NonEmpty(c.closed) && (c.open.Some? <==> p.reported == ReportedActive)
  }

  lemma MatchStep(c: Claims, p: Persisted, trace: seq<Event>, op: Op)
    requires Matches(c, PairFold(Boundaries(trace)), p)
    ensures var o := Apply(p, op);
            Matches(ClaimStep(c, p, o), PairFold(Boundaries(trace + o.events)), o.p)
  {
    OneEventPerOp(p, op);
    hide Apply; hide Boundaries; hide NonEmpty; hide PairFold;
    var o := Apply(p, op);
    if o.events == [] {
      assert trace + o.events == trace;
    } else {
      var e, b := o.events[0], Boundaries(trace);
      assert o.events == [e];
      BoundariesSnoc(trace, e);
      if e.kind != Heartbeat {
        PairFoldSnoc(b, e);
        if c.open.Some? { NonEmptySnoc(c.closed, Interval(c.open.value, e.ts)); }
      }
    }
  }

  lemma PairFoldSnoc(b: seq<Event>, e: Event)
    ensures PairFold(b + [e]) == PairStep(PairFold(b), e)
  {
    assert (b + [e])[..|b + [e]| - 1] == b;
  }

  lemma {:induction false} ClaimsArePaired(ops: seq<Op>)
    ensures var r := Run(FRESH_STATE, ops);
            Matches(ClaimsOf(ops), PairFold(Boundaries(r.events)), r.p)
  {
    if ops != [] {
      var front := ops[..|ops| - 1];
      ClaimsArePaired(front);
      var before := Run(FRESH_STATE, front);
      MatchStep(ClaimsOf(front), before.p, before.events, ops[|ops| - 1]);
    }
  }

  /** The open claim, bounded by the check time and the grace after its start. */
  function OpenClaim(c: Claims, checkTime: int, grace: int): seq<Interval> {
    if c.open.None? then []
    else
      var i := Interval(c.open.value, Min(checkTime, Max(0, c.open.value) + grace));
      if i.IsEmpty() then [] else [i]
  }

  lemma LastAliveOfBoundaries(b: seq<Event>)
    requires b != [] && SortedBy(b, TsOf) && b[|b| - 1].kind == Active
    ensures LastAlive(b) == Max(0, b[|b| - 1].ts)
  {
    LastAliveMeaning(b);
    assert b[|b| - 1] in b;
    if e :| e in b && Presence(e.kind) && e.ts == LastAlive(b) { SortedLast(b, TsOf, e); }
  }

  lemma {:induction false} OpenIsLastActive(b: seq<Event>)
    requires Alternating(b)
    ensures PairFold(b).open == (if |b| % 2 == 1 then Some(b[|b| - 1].ts) else None)
  {
    if b != [] { OpenIsLastActive(b[..|b| - 1]); }
  }

  /**
   * Round trip: for every run of ticks and restarts from a fresh state, pairing the
   * emitted boundaries gives back exactly the confirmed spans, zero-length ones
   * dropped and the last possibly open.
   */
  lemma {:induction false} SpansComeBack(ops: seq<Op>, checkTime: int, grace: int)
    ensures var c := ClaimsOf(ops);
            PairMachine(Boundaries(Run(FRESH_STATE, ops).events), checkTime, grace).active
            == NonEmpty(c.closed) + OpenClaim(c, checkTime, grace)
  {
    TraceShape(ops);
    ClaimsArePaired(ops);
    var c, r := ClaimsOf(ops), Run(FRESH_STATE, ops);
    assert Claims(c.closed, c.open) == c;
    hide Run; hide ClaimsOf; hide Boundaries; hide PairFold; hide PairMachine; hide NonEmpty; hide OpenClaim;
    hide Alternating; hide SortedBy;
    PairedByFold(Boundaries(r.events), c, checkTime, grace);
  }

  lemma PairedByFold(b: seq<Event>, c: Claims, checkTime: int, grace: int)
    requires SortedBy(b, TsOf) && Alternating(b)
    requires PairFold(b).open == c.open && PairFold(b).closed == NonEmpty(c.closed)
    ensures PairMachine(b, checkTime, grace).active == NonEmpty(c.closed) + OpenClaim(c, checkTime, grace)
  {
    SortByIdentity(b, TsOf);
    OpenAtEnd(b);
    OpenOfState(PairFold(b), c, checkTime, grace);
    hide PairFold; hide SortBy; hide SortedBy; hide Alternating; hide NonEmpty; hide Points; hide OpenClaim;
    hide OpenSpan;
  }

  lemma OpenOfState(s: PairState, c: Claims, checkTime: int, grace: int)
    requires s.open == c.open && (s.open.Some? ==> s.lastAlive == Max(0, s.open.value))
    ensures var v := OpenSpan(s, checkTime, grace);
            OpenClaim(c, checkTime, grace) == if v == [] then [] else [Interval(v[0].start, v[0].end)]
  {
  }

  /** The open span's last sign of life is its own start. */
  lemma OpenAtEnd(b: seq<Event>)
    requires SortedBy(b, TsOf) && Alternating(b)
    ensures PairFold(b).open.Some? ==> PairFold(b).lastAlive == Max(0, PairFold(b).open.value)
  {
    FoldMeaning(b, 0);
    OpenIsLastActive(b);
    if |b| % 2 == 1 {
      AlternatingEnd(b);
      LastAliveOfBoundaries(b);
    }
    hide *;
  }

  /** The same at the backend's door: `active` is the canonical form of the confirmed spans. */
  lemma ActiveIsConfirmed(m: string, ops: seq<Op>, checkTime: int, grace: int)
    ensures var c := ClaimsOf(ops);
            Pair(ToLog(m, Boundaries(Run(FRESH_STATE, ops).events)), checkTime, grace).active
            == Merge(c.closed + OpenClaim(c, checkTime, grace))
  {
    var c, b := ClaimsOf(ops), Boundaries(Run(FRESH_STATE, ops).events);
    var log := ToLog(m, b);
    var active, spans := Pair(log, checkTime, grace).active, Merge(c.closed + OpenClaim(c, checkTime, grace));
    SpansComeBack(ops, checkTime, grace);
    PairMeaning(log, 0, checkTime, grace);
    hide Run; hide Boundaries; hide ClaimsOf; hide Pair; hide PairMachine; hide ToLog; hide OpenClaim; hide EventsOf;
    PointsOfConcat(NonEmpty(c.closed), OpenClaim(c, checkTime, grace));
    PointsOfConcat(c.closed, OpenClaim(c, checkTime, grace));
    forall t ensures t in Points(active) <==> t in Points(spans) {
      PairMeaning(log, t, checkTime, grace);
      PairMachineMeaning(b, t, checkTime, grace);
      OnlyMachine(m, b, t, checkTime, grace);
    }
    CanonicalUnique(active, spans);
  }

  lemma OnlyMachine(m: string, b: seq<Event>, t: int, checkTime: int, grace: int)
    ensures AnyActiveAt(ToLog(m, b), t, checkTime, grace) <==> ActiveAt(b, t, checkTime, grace)
  {
    EventsOfLog(m, b, m);
    if AnyActiveAt(ToLog(m, b), t, checkTime, grace) {
      var x: string :| ActiveAt(EventsOf(ToLog(m, b), x), t, checkTime, grace);
      EventsOfLog(m, b, x);
    }
  }

  // ---- heartbeats ----------------------------------------------------------

  /** Active at `t` by a span that a later absence closes. */
  ghost predicate ClosedAt(list: seq<Event>, t: int) {
    PresentAt(list, t) && AbsenceAfter(list, t)
  }

  /** Wherever a heartbeat decides, the boundaries alone say active too. */
  ghost predicate HeartbeatsCovered(list: seq<Event>) {
    forall h :: h in list && h.kind == Heartbeat && AbsenceAfter(list, h.ts) && PresentAt(list, h.ts) ==>
                  PresentAt(Boundaries(list), h.ts)
  }

  lemma {:induction false} BoundariesMeaning(list: seq<Event>, e: Event)
    ensures e in Boundaries(list) <==> e in list && e.kind != Heartbeat
  {
    if list != [] {
      BoundariesMeaning(list[..|list| - 1], e);
      assert list == list[..|list| - 1] + [list[|list| - 1]];
    }
  }

  lemma BoundaryAbsence(list: seq<Event>, t: int)
    ensures AbsenceAfter(Boundaries(list), t) <==> AbsenceAfter(list, t)
  {
    forall e ensures e in Boundaries(list) <==> e in list && e.kind != Heartbeat { BoundariesMeaning(list, e); }
  }

  /** If the last event is not a heartbeat it is the last boundary as well. */
  lemma {:induction false} LastBoundary(list: seq<Event>, t: int)
    ensures var r := LastAt(list, t);
            && (r.None? ==> LastAt(Boundaries(list), t).None?)
            && (r.Some? && r.value.kind != Heartbeat ==> LastAt(Boundaries(list), t) == r)
            && (LastAt(Boundaries(list), t).Some? ==> r.Some? && LastAt(Boundaries(list), t).value.ts <= r.value.ts)
  {
    if list != [] {
      var front, e := list[..|list| - 1], list[|list| - 1];
      LastBoundary(front, t);
      if e.kind != Heartbeat { LastAtOfSnoc(Boundaries(front), e, t); }
    }
  }

  lemma HeartbeatDecides(list: seq<Event>, t: int)
    requires HeartbeatsCovered(list) && AbsenceAfter(list, t)
    requires LastAt(list, t).Some? && LastAt(list, t).value.kind == Heartbeat
    ensures PresentAt(Boundaries(list), t)
  {
    var h := LastAt(list, t).value;
    LastAtMeaning(list, t);
    LastAtQuiet(list, h.ts, t);
    forall e | e in Boundaries(list) && e.ts <= t ensures e.ts <= h.ts { BoundariesMeaning(list, e); }
    LastAtQuiet(Boundaries(list), h.ts, t);
  }

  /** The spans of a trace that a later absence closes, as pairing pushes them. */
  function ClosedSpans(list: seq<Event>): seq<Interval> { PairFold(SortBy(list, TsOf)).closed }

  /** They head the machine's list, whatever the check time and the grace, and are its closed instants. */
  lemma ClosedSpansMeaning(list: seq<Event>, t: int, checkTime: int, grace: int)
    ensures t in Points(ClosedSpans(list)) <==> ClosedAt(list, t)
    ensures |ClosedSpans(list)| <= |PairMachine(list, checkTime, grace).active| <= |ClosedSpans(list)| + 1
    ensures PairMachine(list, checkTime, grace).active[..|ClosedSpans(list)|] == ClosedSpans(list)
  {
    var sorted := SortBy(list, TsOf);
    FoldMeaning(sorted, t);
    LastAtOfSorted(list, t);
    SortedSameEvents(list);
    assert AbsenceAfter(list, t) <==> AbsenceAfter(sorted, t);
    hide PairFold; hide SortBy; hide LastAt; hide AbsenceAfter; hide Points;
  }

  lemma CoveredSameClosed(list: seq<Event>, t: int)
    requires HeartbeatsCovered(list)
    ensures ClosedAt(list, t) <==> ClosedAt(Boundaries(list), t)
  {
    BoundaryAbsence(list, t);
    LastBoundary(list, t);
    if AbsenceAfter(list, t) && LastAt(list, t).Some? && LastAt(list, t).value.kind == Heartbeat {
      HeartbeatDecides(list, t);
    }
  }

  ghost predicate SameClosed(a: seq<Event>, b: seq<Event>) { forall t :: ClosedAt(a, t) <==> ClosedAt(b, t) }

  lemma SameClosedCovered(list: seq<Event>)
    requires SameClosed(list, Boundaries(list))
    ensures HeartbeatsCovered(list)
  {
    forall h | h in list && h.kind == Heartbeat && AbsenceAfter(list, h.ts) && PresentAt(list, h.ts)
      ensures PresentAt(Boundaries(list), h.ts)
    {
      assert ClosedAt(list, h.ts);
    }
  }

  lemma SameMergeSameClosed(a: seq<Event>, b: seq<Event>)
    requires Merge(ClosedSpans(a)) == Merge(ClosedSpans(b))
    ensures SameClosed(a, b)
  {
    hide ClosedSpans; hide ClosedAt; hide PairMachine; hide Points; hide Canonical;
    forall t ensures ClosedAt(a, t) <==> ClosedAt(b, t) {
      ClosedSpansMeaning(a, t, 0, 0);
      ClosedSpansMeaning(b, t, 0, 0);
    }
  }

  /**
   * Exactly when heartbeats are harmless, for any trace: the closed spans that pairing
   * returns with and without heartbeats have the same canonical form if and only if
   * every deciding heartbeat falls where the boundaries alone are active.
   */
  lemma {:induction false} HeartbeatsHarmless(list: seq<Event>)
    ensures Merge(ClosedSpans(list)) == Merge(ClosedSpans(Boundaries(list))) <==> HeartbeatsCovered(list)
  {
    var b := Boundaries(list);
    hide ClosedSpans; hide Boundaries; hide HeartbeatsCovered; hide ClosedAt; hide PairMachine; hide Points;
    hide Canonical;
    forall t
      ensures t in Points(Merge(ClosedSpans(list))) <==> ClosedAt(list, t)
      ensures t in Points(Merge(ClosedSpans(b))) <==> ClosedAt(b, t)
    {
      ClosedSpansMeaning(list, t, 0, 0);
      ClosedSpansMeaning(b, t, 0, 0);
    }
    if HeartbeatsCovered(list) {
      forall t ensures ClosedAt(list, t) <==> ClosedAt(b, t) { CoveredSameClosed(list, t); }
      SamePoints(Merge(ClosedSpans(list)), Merge(ClosedSpans(b)));
    }
    if Merge(ClosedSpans(list)) == Merge(ClosedSpans(b)) {
      SameMergeSameClosed(list, b);
      SameClosedCovered(list);
    }
  }

  lemma SamePoints(a: seq<Interval>, b: seq<Interval>)
    requires Canonical(a) && Canonical(b)
    requires forall t :: t in Points(a) <==> t in Points(b)
    ensures a == b
  {
    SameSets(Points(a), Points(b));
    CanonicalUnique(a, b);
  }

  lemma SameSets(a: set<int>, b: set<int>)
    requires forall t :: t in a <==> t in b
    ensures a == b
  {
    forall t | t in a ensures t in b {
    }
    forall t | t in b ensures t in a {
    }
    assert a <= b && b <= a;
  }

  /**
   * Each heartbeat lies at or after the start of its span, and no span ends before
   * a heartbeat it holds.
   */
  ghost predicate Inside(trace: seq<Event>) {
    trace == [] ||
    var front, e := trace[..|trace| - 1], trace[|trace| - 1];
    var b := Boundaries(front);
    && Inside(front)
    && (e.kind == Heartbeat ==> b != [] && b[|b| - 1].kind == Active && b[|b| - 1].ts <= e.ts)
    && (e.kind == Idle ==> forall h :: h in front && h.kind == Heartbeat ==> h.ts <= e.ts)
  }

  /** What holds of a well-nested trace whose boundaries alternate in order. */
  ghost predicate Nested(trace: seq<Event>, t: int) {
    var b := Boundaries(trace);
    && (ClosedAt(trace, t) <==> ClosedAt(b, t))
    && (b == [] ==> trace == [])
    && (b != [] && b[|b| - 1].kind == Idle ==> forall e :: e in trace ==> e.ts <= b[|b| - 1].ts)
    && (b != [] && b[|b| - 1].kind == Active ==>
          var a := b[|b| - 1].ts;
          && (a <= t ==> PresentAt(trace, t) && PresentAt(b, t))
          && (t < a && !AbsenceAfter(trace, t) ==> !PresentAt(trace, t) && !PresentAt(b, t))
          && (forall e :: e in trace && Absence(e.kind) ==> e.ts <= a))
    && (b != [] && b[|b| - 1].kind == Idle && b[|b| - 1].ts <= t ==> !PresentAt(trace, t) && !PresentAt(b, t))
  }

  /** How one more boundary changes what is known at `t`. */
  lemma BoundaryStep(front: seq<Event>, e: Event, t: int)
    requires e.kind != Heartbeat
    ensures var b := Boundaries(front);
            && Boundaries(front + [e]) == b + [e]
            && LastAt(front + [e], t) == Later(LastAt(front, t), e, t)
            && LastAt(b + [e], t) == Later(LastAt(b, t), e, t)
            && (AbsenceAfter(front + [e], t) <==> AbsenceAfter(front, t) || (Absence(e.kind) && t < e.ts))
            && (AbsenceAfter(b + [e], t) <==> AbsenceAfter(front + [e], t))
            && (AbsenceAfter(b, t) <==> AbsenceAfter(front, t))
    ensures LastAt(front, t).Some? ==> LastAt(front, t).value in front && LastAt(front, t).value.ts <= t
    ensures LastAt(Boundaries(front), t).Some? ==>
              LastAt(Boundaries(front), t).value in front && LastAt(Boundaries(front), t).value.ts <= t
  {
    var b := Boundaries(front);
    assert (front + [e])[..|front + [e]| - 1] == front;
    LastAtOfSnoc(front, e, t);
    LastAtOfSnoc(b, e, t);
    AbsenceAfterSnoc(front, e, t);
    AbsenceAfterSnoc(b, e, t);
    BoundaryAbsence(front, t);
    LastAtMeaning(front, t);
    LastAtMeaning(b, t);
    if LastAt(b, t).Some? { BoundariesMeaning(front, LastAt(b, t).value); }
  }

  lemma NestedHeartbeat(front: seq<Event>, e: Event, t: int)
    requires Nested(front, t) && e.kind == Heartbeat
    requires var b := Boundaries(front); b != [] && b[|b| - 1].kind == Active && b[|b| - 1].ts <= e.ts
    ensures Nested(front + [e], t)
  {
    var b := Boundaries(front);
    assert (front + [e])[..|front + [e]| - 1] == front;
    LastAtOfSnoc(front, e, t);
    AbsenceAfterSnoc(front, e, t);
    BoundaryAbsence(front, t);
  }

  lemma NestedActive(front: seq<Event>, e: Event, t: int)
    requires Nested(front, t) && e.kind == Active
    requires var b := Boundaries(front); b != [] ==> b[|b| - 1].kind == Idle && b[|b| - 1].ts <= e.ts
    ensures Nested(front + [e], t)
  {
    hide LastAt; hide Boundaries; hide AbsenceAfter;
    BoundaryStep(front, e, t);
    EmptyBoundaries(t);
    var b := Boundaries(front);
    if b != [] && !AbsenceAfter(front, t) { LastIdleIsAbsence(front, t); }
  }

  lemma EmptyBoundaries(t: int)
    ensures Boundaries([]) == [] && LastAt([], t) == None && !AbsenceAfter([], t)
  {
  }

  lemma LastIdleIsAbsence(front: seq<Event>, t: int)
    requires var b := Boundaries(front); b != [] && b[|b| - 1].kind == Idle
    ensures t < Boundaries(front)[|Boundaries(front)| - 1].ts ==> AbsenceAfter(front, t)
  {
    var b := Boundaries(front);
    BoundariesMeaning(front, b[|b| - 1]);
  }

  lemma NestedIdle(front: seq<Event>, e: Event, t: int)
    requires Nested(front, t) && e.kind == Idle
    requires var b := Boundaries(front); b != [] && b[|b| - 1].kind == Active && b[|b| - 1].ts <= e.ts
    requires forall x :: x in front ==> x.ts <= e.ts
    ensures Nested(front + [e], t)
  {
    hide LastAt; hide Boundaries;
    BoundaryStep(front, e, t);
  }

  lemma BeforeIdle(front: seq<Event>, ts: int)
    requires var b := Boundaries(front); b != [] && SortedBy(b, TsOf) && b[|b| - 1].ts <= ts
    requires forall h :: h in front && h.kind == Heartbeat ==> h.ts <= ts
    ensures forall x :: x in front ==> x.ts <= ts
  {
    hide Boundaries; hide SortedBy;
    forall x | x in front ensures x.ts <= ts {
      if x.kind != Heartbeat {
        BoundariesMeaning(front, x);
        SortedLast(Boundaries(front), TsOf, x);
      }
    }
  }

  lemma AlternatingEnd(b: seq<Event>)
    requires Alternating(b)
    ensures b != [] ==> b[|b| - 1].kind == if |b| % 2 == 1 then Active else Idle
  {
  }

  lemma {:induction false} NestedAlways(trace: seq<Event>, t: int)
    requires Inside(trace) && Alternating(Boundaries(trace)) && SortedBy(Boundaries(trace), TsOf)
    requires forall e :: e in trace ==> e.kind == Active || e.kind == Idle || e.kind == Heartbeat
    ensures Nested(trace, t)
  {
    if trace != [] {
      var front, e := trace[..|trace| - 1], trace[|trace| - 1];
      hide *;
      assert trace == front + [e];
      assert e in trace;
      var b := Boundaries(front);
      InsideSnoc(front, e);
      BoundariesSnoc(front, e);
      AlternatingSnoc(b, e);
      AlternatingEnd(b);
      NestedAlways(front, t);
      NestedStep(front, e, t);
    } else {
      EmptyBoundaries(t);
      hide Inside; hide Alternating; hide SortedBy;
    }
  }

  lemma InsideSnoc(front: seq<Event>, e: Event)
    ensures var b := Boundaries(front);
            Inside(front + [e]) <==>
            && Inside(front)
            && (e.kind == Heartbeat ==> b != [] && b[|b| - 1].kind == Active && b[|b| - 1].ts <= e.ts)
            && (e.kind == Idle ==> forall h :: h in front && h.kind == Heartbeat ==> h.ts <= e.ts)
  {
    assert (front + [e])[..|front + [e]| - 1] == front;
  }

  lemma NestedStep(front: seq<Event>, e: Event, t: int)
    requires Nested(front, t) && (e.kind == Active || e.kind == Idle || e.kind == Heartbeat)
    requires var b := Boundaries(front);
             && SortedBy(b, TsOf)
             && (b != [] ==> b[|b| - 1].kind == if |b| % 2 == 1 then Active else Idle)
             && (e.kind == Heartbeat ==> b != [] && b[|b| - 1].kind == Active && b[|b| - 1].ts <= e.ts)
             && (e.kind != Heartbeat ==>
                   e.kind == (if |b| % 2 == 0 then Active else Idle) && (b == [] || b[|b| - 1].ts <= e.ts))
    requires e.kind == Idle ==> forall h :: h in front && h.kind == Heartbeat ==> h.ts <= e.ts
    ensures Nested(front + [e], t)
  {
    hide *;
    if e.kind == Heartbeat {
      NestedHeartbeat(front, e, t);
    } else if e.kind == Active {
      NestedActive(front, e, t);
    } else {
      BeforeIdle(front, e.ts);
      NestedIdle(front, e, t);
    }
  }

  lemma {:induction false} TraceKinds(ops: seq<Op>)
    ensures forall e :: e in Run(FRESH_STATE, ops).events ==> e.kind == Active || e.kind == Idle || e.kind == Heartbeat
  {
    if ops != [] {
      TraceKinds(ops[..|ops| - 1]);
      OneEventPerOp(Run(FRESH_STATE, ops[..|ops| - 1]).p, ops[|ops| - 1]);
      hide Apply;
    }
  }

  /**
   * For the daemon's own traces: when every heartbeat lies between the start and the
   * end of its span, pairing the whole trace returns the closed spans the daemon
   * confirmed, adjoining ones coalesced.
   */
  lemma {:induction false} NestedHeartbeatsAreHarmless(ops: seq<Op>)
    requires Inside(Run(FRESH_STATE, ops).events)
    ensures Merge(ClosedSpans(Run(FRESH_STATE, ops).events)) == Merge(ClaimsOf(ops).closed)
  {
    var trace, spans := Run(FRESH_STATE, ops).events, ClaimsOf(ops).closed;
    hide Run; hide ClaimsOf; hide Points; hide Inside; hide ClosedSpans; hide Canonical; hide ClosedAt;
    hide PairMachine;
    forall t ensures t in Points(Merge(ClosedSpans(trace))) <==> t in Points(Merge(spans)) {
      NestedClosed(ops, t);
      ClosedSpansMeaning(trace, t, 0, 0);
    }
    SamePoints(Merge(ClosedSpans(trace)), Merge(spans));
  }

  lemma NestedClosed(ops: seq<Op>, t: int)
    requires Inside(Run(FRESH_STATE, ops).events)
    ensures ClosedAt(Run(FRESH_STATE, ops).events, t) <==> t in Points(ClaimsOf(ops).closed)
    ensures Nested(Run(FRESH_STATE, ops).events, t)
  {
    var trace := Run(FRESH_STATE, ops).events;
    TraceShape(ops);
    TraceKinds(ops);
    NestedAlways(trace, t);
    ClaimsArePaired(ops);
    FoldMeaning(Boundaries(trace), t);
    hide Run; hide ClaimsOf; hide Points; hide Boundaries; hide Inside; hide PairFold;
  }

  // ---- the daemon's own default run ----------------------------------------

  const DEFAULTS := Thresholds(600_000, 30_000, 300_000)

  /** A poll `elapsed` milliseconds after the last one, on both clocks. */
  function After(elapsed: int, now: int, idleMs: int): Op { Poll(DEFAULTS, Tick(now, idleMs, false, Some(elapsed))) }

  /** The first poll of a process, which has no monotonic reading to compare with. */
  function First(now: int, idleMs: int): Op { Poll(DEFAULTS, Tick(now, idleMs, false, None)) }

  /** Half a minute of input, ten minutes away, then half a minute two hours later. */
  function QuietMorning(): seq<Op> {
    [First(0, 0), After(30_000, 30_000, 0), After(300_000, 330_000, 300_000), After(300_000, 630_000, 600_000),
     After(6_570_000, 7_200_000, 0), After(30_000, 7_230_000, 0), After(600_000, 7_830_000, 600_000)]
  }

  /** The state after the fourth poll: idle since half a minute past. */
  const AWAY := Persisted(ReportedIdle, Some(30_000), Some(330_000), None, Some(30_000), Some(630_000))

  function Morning(): seq<Op> {
    [First(0, 0)] + [After(30_000, 30_000, 0)] + [After(300_000, 330_000, 300_000)] + [After(300_000, 630_000, 600_000)]
  }

  lemma MorningPolls()
    ensures var a := Persisted(ReportedIdle, Some(0), None, Some(0), None, Some(0));
            var b := Persisted(ReportedActive, Some(30_000), Some(30_000), None, Some(0), Some(30_000));
            var c := Persisted(ReportedActive, Some(30_000), Some(330_000), None, Some(0), Some(330_000));
            && Apply(FRESH_STATE, First(0, 0)) == Outcome(a, [])
            && Apply(a, After(30_000, 30_000, 0)) == Outcome(b, [Event(0, Active)])
            && Apply(b, After(300_000, 330_000, 300_000)) == Outcome(c, [Event(330_000, Heartbeat)])
            && Apply(c, After(300_000, 630_000, 600_000)) == Outcome(AWAY, [Event(30_000, Idle)])
  {
  }

  lemma MorningTrace()
    ensures Run(FRESH_STATE, Morning()) ==
            Outcome(AWAY, [Event(0, Active), Event(330_000, Heartbeat), Event(30_000, Idle)])
    ensures ClaimsOf(Morning()) == Claims([Interval(0, 30_000)], None)
  {
    var o1 := [First(0, 0)];
    var o2 := o1 + [After(30_000, 30_000, 0)];
    var o3 := o2 + [After(300_000, 330_000, 300_000)];
    assert o1 == [] + [First(0, 0)];
    MorningPolls();
    hide Run; hide ClaimsOf; hide Apply;
    ClaimSnoc([], First(0, 0));
    ClaimSnoc(o1, After(30_000, 30_000, 0));
    ClaimSnoc(o2, After(300_000, 330_000, 300_000));
    ClaimSnoc(o3, After(300_000, 630_000, 600_000));
  }

  /** Two more polls with input make the machine active at the first of them. */
  lemma ReturnPolls(p: Persisted, elapsed: int, now: int)
    requires p == AWAY && 630_000 <= now && now - 630_000 == elapsed
    ensures var q := Persisted(ReportedIdle, Some(now), Some(330_000), Some(now), Some(30_000), Some(now));
            var end := Some(now + 30_000);
            var r := Persisted(ReportedActive, end, end, None, Some(now), end);
            && Apply(p, After(elapsed, now, 0)) == Outcome(q, [])
            && Apply(q, After(30_000, now + 30_000, 0)) == Outcome(r, [Event(now, Active)])
            && Apply(r, After(600_000, now + 630_000, 600_000)).events == [Event(now + 30_000, Idle)]
            && Apply(r, After(600_000, now + 630_000, 600_000)).p.reported == ReportedIdle
  {
  }

  lemma QuietMorningTrace()
    ensures Run(FRESH_STATE, QuietMorning()).events ==
            [Event(0, Active), Event(330_000, Heartbeat), Event(30_000, Idle), Event(7_200_000, Active),
             Event(7_230_000, Idle)]
    ensures ClaimsOf(QuietMorning()).closed == [Interval(0, 30_000), Interval(7_200_000, 7_230_000)]
  {
    var o5 := Morning() + [After(6_570_000, 7_200_000, 0)];
    var o6 := o5 + [After(30_000, 7_230_000, 0)];
    assert QuietMorning() == o6 + [After(600_000, 7_830_000, 600_000)];
    hide Run; hide ClaimsOf; hide Apply; hide Morning; hide QuietMorning;
    MorningTrace();
    ReturnPolls(AWAY, 6_570_000, 7_200_000);
    ClaimSnoc(Morning(), After(6_570_000, 7_200_000, 0));
    ClaimSnoc(o5, After(30_000, 7_230_000, 0));
    ClaimSnoc(o6, After(600_000, 7_830_000, 600_000));
  }

  lemma ClaimSnoc(ops: seq<Op>, op: Op)
    ensures var before := Run(FRESH_STATE, ops); var o := Apply(before.p, op);
            && Run(FRESH_STATE, ops + [op]) == Outcome(o.p, before.events + o.events)
            && ClaimsOf(ops + [op]) == ClaimStep(ClaimsOf(ops), before.p, o)
    ensures ops == [] ==> Run(FRESH_STATE, ops) == Outcome(FRESH_STATE, []) && ClaimsOf(ops) == Claims([], None)
  {
    assert (ops + [op])[..|ops + [op]| - 1] == ops;
  }

  lemma MorningLast(trace: seq<Event>, t: int)
    requires trace == [Event(0, Active), Event(330_000, Heartbeat), Event(30_000, Idle), Event(7_200_000, Active),
                       Event(7_230_000, Idle)]
    requires 330_000 <= t < 7_200_000
    ensures LastAt(trace, t) == Some(Event(330_000, Heartbeat))
  {
    var t1 := [Event(0, Active)];
    var t2 := t1 + [Event(330_000, Heartbeat)];
    var t3 := t2 + [Event(30_000, Idle)];
    var t4 := t3 + [Event(7_200_000, Active)];
    assert trace == t4 + [Event(7_230_000, Idle)];
    assert t1 == [] + [Event(0, Active)];
    assert LastAt([], t) == None;
    hide LastAt;
    LastAtOfSnoc([], Event(0, Active), t);
    LastAtOfSnoc(t1, Event(330_000, Heartbeat), t);
    LastAtOfSnoc(t2, Event(30_000, Idle), t);
    LastAtOfSnoc(t3, Event(7_200_000, Active), t);
    LastAtOfSnoc(t4, Event(7_230_000, Idle), t);
  }

  lemma MorningLastBoundary(b: seq<Event>, t: int)
    requires b == [Event(0, Active), Event(30_000, Idle), Event(7_200_000, Active), Event(7_230_000, Idle)]
    requires 330_000 <= t < 7_200_000
    ensures LastAt(b, t) == Some(Event(30_000, Idle))
  {
    var b1 := [Event(0, Active)];
    var b2 := b1 + [Event(30_000, Idle)];
    var b3 := b2 + [Event(7_200_000, Active)];
    assert b == b3 + [Event(7_230_000, Idle)];
    assert b1 == [] + [Event(0, Active)];
    assert LastAt([], t) == None;
    hide LastAt;
    LastAtOfSnoc([], Event(0, Active), t);
    LastAtOfSnoc(b1, Event(30_000, Idle), t);
    LastAtOfSnoc(b2, Event(7_200_000, Active), t);
    LastAtOfSnoc(b3, Event(7_230_000, Idle), t);
  }

  /**
   * With the default thresholds a heartbeat is sent before an idle that is dated
   * back past it. Pairing then reopens the span at the heartbeat and counts until
   * the next idle: one minute confirmed becomes two hours.
   */
  lemma {:induction false} HeartbeatReopensSpan(checkTime: int, grace: int)
    ensures var trace := Run(FRESH_STATE, QuietMorning()).events;
            && 3_600_000 in Points(PairMachine(trace, checkTime, grace).active)
            && 3_600_000 !in Points(ClaimsOf(QuietMorning()).closed)
            && !Inside(trace) && !HeartbeatsCovered(trace)
  {
    QuietMorningTrace();
    var trace := Run(FRESH_STATE, QuietMorning()).events;
    hide Run; hide ClaimsOf; hide QuietMorning; hide LastAt; hide Boundaries; hide Points; hide Inside;
    hide PairMachine;
    var h := Event(330_000, Heartbeat);
    assert Event(7_230_000, Idle) in trace && trace[1] == h && h in trace;
    BoundariesOfMorning(trace);
    MorningLast(trace, 3_600_000);
    MorningLast(trace, h.ts);
    MorningLastBoundary(Boundaries(trace), h.ts);
    PairMachineMeaning(trace, 3_600_000, checkTime, grace);
    InPoints(ClaimsOf(QuietMorning()).closed, 3_600_000);
    InsideIdle(trace, 2);
  }

  lemma BoundariesOfMorning(trace: seq<Event>)
    requires trace == [Event(0, Active), Event(330_000, Heartbeat), Event(30_000, Idle), Event(7_200_000, Active),
                       Event(7_230_000, Idle)]
    ensures Boundaries(trace) ==
            [Event(0, Active), Event(30_000, Idle), Event(7_200_000, Active), Event(7_230_000, Idle)]
  {
    var t1 := [Event(0, Active)];
    var t2 := t1 + [Event(330_000, Heartbeat)];
    var t3 := t2 + [Event(30_000, Idle)];
    var t4 := t3 + [Event(7_200_000, Active)];
    assert trace == t4 + [Event(7_230_000, Idle)];
    assert t1 == [] + [Event(0, Active)];
    assert Boundaries([]) == [];
    hide Boundaries;
    BoundariesSnoc([], Event(0, Active));
    BoundariesSnoc(t1, Event(330_000, Heartbeat));
    BoundariesSnoc(t2, Event(30_000, Idle));
    BoundariesSnoc(t3, Event(7_200_000, Active));
    BoundariesSnoc(t4, Event(7_230_000, Idle));
  }

  lemma {:induction false} InsideIdle(trace: seq<Event>, n: nat)
    requires n < |trace| && trace[n].kind == Idle
    ensures Inside(trace) ==> forall i :: 0 <= i < n && trace[i].kind == Heartbeat ==> trace[i].ts <= trace[n].ts
  {
    var front := trace[..|trace| - 1];
    if n < |trace| - 1 {
      InsideIdle(front, n);
    } else {
      assert forall i :: 0 <= i < n ==> trace[i] == front[i] && front[i] in front;
    }
  }
}
