/**
 * `pairSpans` (worktime/worktime.ts): turn each machine's presence and absence
 * events into active intervals, then union them across machines.
 *
 * `ActiveAt` says pointwise when a machine counts as active. It never sorts and
 * never pairs; the engine does both, and `PairMachineMeaning` connects the two.
 */
module Pairing {
  import opened Sorting
  import opened Events
  import opened Intervals

  /** A span whose end was inferred from the liveness bound. */
  datatype ProvisionalSpan = ProvisionalSpan(start: int, end: int, lastAlive: int, growing: bool)

  datatype MachineSpans = MachineSpans(active: seq<Interval>, provisional: seq<ProvisionalSpan>)

  datatype PairedSpans = PairedSpans(
    active: seq<Interval>,
    provisional: seq<ProvisionalSpan>,
    byMachine: map<string, MachineSpans>)

  // ---- the pointwise specification -----------------------------------------

  /** The machine's last event at or before `t` is a presence. */
  predicate PresentAt(list: seq<Event>, t: int) {
    LastAt(list, t).Some? && Presence(LastAt(list, t).value.kind)
  }

  ghost predicate ActiveAt(list: seq<Event>, t: int, checkTime: int, grace: int) {
    PresentAt(list, t) && (AbsenceAfter(list, t) || t < Min(checkTime, LastAlive(list) + grace))
  }

  /** Some machine is active at `t`. */
  ghost predicate AnyActiveAt(log: seq<RawEvent>, t: int, checkTime: int, grace: int) {
    exists m: string :: ActiveAt(EventsOf(log, m), t, checkTime, grace)
  }

  // ---- one machine ---------------------------------------------------------

  datatype PairState = PairState(open: Option<int>, lastAlive: int, closed: seq<Interval>)

  function PairStep(s: PairState, e: Event): PairState {
    if Presence(e.kind) then
      PairState(if s.open.None? then Some(e.ts) else s.open, Max(s.lastAlive, e.ts), s.closed)
    else if s.open.Some? then
      PairState(None, s.lastAlive,
                if e.ts > s.open.value then s.closed + [Interval(s.open.value, e.ts)] else s.closed)
    else s
  }

  function PairFold(sorted: seq<Event>): PairState {
    if sorted == [] then PairState(None, 0, [])
    else PairStep(PairFold(sorted[..|sorted| - 1]), sorted[|sorted| - 1])
  }

  /** The open span, bounded by the check time and by the last sign of life. */
  function OpenSpan(s: PairState, checkTime: int, grace: int): seq<ProvisionalSpan> {
    if s.open.None? then []
    else
      var bound := s.lastAlive + grace;
      var end := Min(checkTime, bound);
      if end > s.open.value then [ProvisionalSpan(s.open.value, end, s.lastAlive, bound >= checkTime)] else []
  }

  function PairMachine(list: seq<Event>, checkTime: int, grace: int): MachineSpans {
    var s := PairFold(SortBy(list, TsOf));
    var provisional := OpenSpan(s, checkTime, grace);
    MachineSpans(s.closed + (if provisional == [] then [] else [Interval(provisional[0].start, provisional[0].end)]),
                 provisional)
  }

  /** The state after a sorted prefix, at one instant. */
  ghost predicate FoldAt(sorted: seq<Event>, s: PairState, t: int) {
    && (t in Points(s.closed) <==> PresentAt(sorted, t) && AbsenceAfter(sorted, t))
    && (PresentAt(sorted, t) && !AbsenceAfter(sorted, t) <==> s.open.Some? && s.open.value <= t)
  }

  lemma AbsenceAfterSnoc(c: seq<Event>, e: Event, t: int)
    ensures AbsenceAfter(c + [e], t) <==> AbsenceAfter(c, t) || (Absence(e.kind) && t < e.ts)
  {
    if AbsenceAfter(c, t) {
      var x :| x in c && Absence(x.kind) && t < x.ts;
      assert x in c + [e];
    }
    if Absence(e.kind) && t < e.ts { assert e in c + [e]; }
  }

  lemma LastAliveSnoc(c: seq<Event>, e: Event)
    ensures LastAlive(c + [e]) == if Presence(e.kind) then Max(LastAlive(c), e.ts) else LastAlive(c)
  {
    assert (c + [e])[..|c + [e]| - 1] == c;
  }

  /** Nothing in a sorted list lies after an instant at or past its last event. */
  lemma NothingAfterLast(c: seq<Event>, e: Event, t: int)
    requires SortedBy(c + [e], TsOf) && e.ts <= t
    ensures !AbsenceAfter(c, t)
    ensures LastAt(c + [e], t) == Some(e)
  {
    LastAtMeaning(c, t);
    LastAtOfSnoc(c, e, t);
    forall x | x in c ensures x.ts <= e.ts {
      assert x in c + [e];
      LastIsLatest(c + [e], x);
    }
  }

  lemma {:induction false} FoldMeaning(sorted: seq<Event>, t: int)
    requires SortedBy(sorted, TsOf)
    ensures FoldAt(sorted, PairFold(sorted), t)
    ensures PairFold(sorted).lastAlive == LastAlive(sorted)
  {
    if sorted != [] {
      var c, e := sorted[..|sorted| - 1], sorted[|sorted| - 1];
      assert sorted == c + [e];
      FoldMeaning(c, t);
      LastAliveSnoc(c, e);
      AbsenceAfterSnoc(c, e, t);
      LastAtOfSnoc(c, e, t);
      var s := PairFold(c);
      if s.open.Some? {
        PointsOfSnoc(s.closed, Interval(s.open.value, e.ts));
        OpenBeforeLast(c, e);
      }
      if e.ts <= t { NothingAfterLast(c, e, t); }
    }
  }

  /** An open span starts at or before every later event. */
  lemma OpenBeforeLast(c: seq<Event>, e: Event)
    requires SortedBy(c + [e], TsOf) && PairFold(c).open.Some?
    ensures PairFold(c).open.value <= e.ts
  {
    assert (c + [e])[..|c|] == c;
    OpenIsBefore(c, e.ts);
    if c != [] { assert (c + [e])[|c| - 1] == c[|c| - 1]; }
  }

  lemma {:induction false} OpenIsBefore(c: seq<Event>, ts: int)
    requires SortedBy(c, TsOf) && (c != [] ==> c[|c| - 1].ts <= ts)
    ensures PairFold(c).open.Some? ==> PairFold(c).open.value <= ts
  {
    if c != [] {
      var front := c[..|c| - 1];
      if front != [] { assert front[|front| - 1] == c[|c| - 2]; }
      OpenIsBefore(front, c[|c| - 1].ts);
    }
  }

  /** The intervals of one machine are exactly the instants at which it is active. */
  lemma PairMachineMeaning(list: seq<Event>, t: int, checkTime: int, grace: int)
    ensures t in Points(PairMachine(list, checkTime, grace).active) <==> ActiveAt(list, t, checkTime, grace)
  {
    hide PairFold; hide LastAt; hide Points; hide SortBy; hide LastAlive;
    var sorted := SortBy(list, TsOf);
    var s := PairFold(sorted);
    FoldMeaning(sorted, t);
    LastAtOfSorted(list, t);
    SortedSameEvents(list);
    LastAliveOfSame(list, sorted);
    assert AbsenceAfter(list, t) <==> AbsenceAfter(sorted, t);
    hide AbsenceAfter; hide SameEvents;
    var p := OpenSpan(s, checkTime, grace);
    if p != [] {
      PointsOfSnoc(s.closed, Interval(p[0].start, p[0].end));
    } else {
      assert s.closed + [] == s.closed;
    }
  }

  /** The loop over one machine's events. */
  method PairOneMachine(list: seq<Event>, checkTime: int, grace: int) returns (r: MachineSpans)
    ensures r == PairMachine(list, checkTime, grace)
  {
    var sorted := SortBy(list, TsOf);
    var active: seq<Interval> := [];
    var provisional: seq<ProvisionalSpan> := [];
    var open: Option<int> := None;
    var lastAlive := 0;
    for k := 0 to |sorted|
      invariant PairState(open, lastAlive, active) == PairFold(sorted[..k])
    {
      var e := sorted[k];
      assert sorted[..k + 1][..k] == sorted[..k];
      if Presence(e.kind) {
        if open.None? { open := Some(e.ts); }
        lastAlive := Max(lastAlive, e.ts);
      } else if Absence(e.kind) {
        if open.Some? {
          if e.ts > open.value { active := active + [Interval(open.value, e.ts)]; }
          open := None;
        }
      }
    }
    assert sorted[..|sorted|] == sorted;
    if open.Some? {
      var bound := lastAlive + grace;
      var end := Min(checkTime, bound);
      if end > open.value {
        provisional := [ProvisionalSpan(open.value, end, lastAlive, bound >= checkTime)];
        active := active + [Interval(open.value, end)];
      }
    }
    r := MachineSpans(active, provisional);
  }

  // ---- all machines --------------------------------------------------------

  /** Machine ids in order of first appearance, as a JavaScript `Map` keeps them. */
  function Machines(log: seq<RawEvent>): seq<string> {
    if log == [] then []
    else
      var front, m := Machines(log[..|log| - 1]), log[|log| - 1].machine;
      if m in front then front else front + [m]
  }

  lemma {:induction false} MachinesMeaning(log: seq<RawEvent>, m: string)
    ensures m in Machines(log) <==> exists e :: e in log && e.machine == m
    ensures m !in Machines(log) ==> EventsOf(log, m) == []
  {
    if log != [] {
      MachinesMeaning(log[..|log| - 1], m);
      assert log == log[..|log| - 1] + [log[|log| - 1]];
    }
  }

  /** The active intervals of the first `k` machines, one machine after the other. */
  function AllActive(log: seq<RawEvent>, order: seq<string>, k: nat, checkTime: int, grace: int): seq<Interval>
    requires k <= |order|
  {
    if k == 0 then []
    else AllActive(log, order, k - 1, checkTime, grace)
         + PairMachine(EventsOf(log, order[k - 1]), checkTime, grace).active
  }

  function AllProvisional(log: seq<RawEvent>, order: seq<string>, k: nat, checkTime: int, grace: int)
    : seq<ProvisionalSpan>
    requires k <= |order|
  {
    if k == 0 then []
    else AllProvisional(log, order, k - 1, checkTime, grace)
         + PairMachine(EventsOf(log, order[k - 1]), checkTime, grace).provisional
  }

  function Pair(log: seq<RawEvent>, checkTime: int, grace: int): PairedSpans {
    var order := Machines(log);
    PairedSpans(
      Merge(AllActive(log, order, |order|, checkTime, grace)),
      AllProvisional(log, order, |order|, checkTime, grace),
      map m | m in order :: PairMachine(EventsOf(log, m), checkTime, grace))
  }

  lemma {:induction false} AllActiveMeaning(
    log: seq<RawEvent>, order: seq<string>, k: nat, t: int, checkTime: int, grace: int)
    requires k <= |order|
    ensures t in Points(AllActive(log, order, k, checkTime, grace)) <==>
            exists i :: 0 <= i < k && ActiveAt(EventsOf(log, order[i]), t, checkTime, grace)
  {
    hide ActiveAt; hide PairMachine; hide EventsOf;
    if k > 0 {
      AllActiveMeaning(log, order, k - 1, t, checkTime, grace);
      PairMachineMeaning(EventsOf(log, order[k - 1]), t, checkTime, grace);
      PointsOfConcat(AllActive(log, order, k - 1, checkTime, grace),
                     PairMachine(EventsOf(log, order[k - 1]), checkTime, grace).active);
    }
  }

  /**
   * Pairing refinement: the merged list is the canonical list of exactly those
   * instants at which some machine is active.
   */
  lemma PairMeaning(log: seq<RawEvent>, t: int, checkTime: int, grace: int)
    ensures Canonical(Pair(log, checkTime, grace).active)
    ensures t in Points(Pair(log, checkTime, grace).active) <==> AnyActiveAt(log, t, checkTime, grace)
  {
    var order := Machines(log);
    AllActiveMeaning(log, order, |order|, t, checkTime, grace);
    if AnyActiveAt(log, t, checkTime, grace) {
      var m :| ActiveAt(EventsOf(log, m), t, checkTime, grace);
      MachinesMeaning(log, m);
      assert EventsOf(log, m) != [];
    }
  }

  /** `active` is the canonical union of the per-machine lists. */
  lemma UnionOfMachines(log: seq<RawEvent>, t: int, checkTime: int, grace: int)
    ensures var r := Pair(log, checkTime, grace);
            t in Points(r.active) <==> exists m :: m in r.byMachine && t in Points(r.byMachine[m].active)
  {
    var r, order := Pair(log, checkTime, grace), Machines(log);
    hide ActiveAt; hide PairMachine; hide EventsOf; hide AllActive; hide AllProvisional; hide Machines; hide Points;
    AllActiveMeaning(log, order, |order|, t, checkTime, grace);
    forall m | m in r.byMachine
      ensures t in Points(r.byMachine[m].active) <==> ActiveAt(EventsOf(log, m), t, checkTime, grace)
    {
      PairMachineMeaning(EventsOf(log, m), t, checkTime, grace);
    }
  }

  /** The grouping loop. */
  method GroupByMachine(log: seq<RawEvent>) returns (order: seq<string>, byMachine: map<string, seq<Event>>)
    ensures order == Machines(log)
    ensures byMachine == map m | m in order :: EventsOf(log, m)
  {
    order, byMachine := [], map[];
    for k := 0 to |log|
      invariant order == Machines(log[..k])
      invariant byMachine.Keys == set m | m in order
      invariant forall m :: m in byMachine ==> byMachine[m] == EventsOf(log[..k], m)
    {
      var e := log[k];
      assert log[..k + 1][..k] == log[..k];
      MachinesMeaning(log[..k], e.machine);
      var list := if e.machine in byMachine then byMachine[e.machine] else [];
      if e.machine !in byMachine { order := order + [e.machine]; }
      byMachine := byMachine[e.machine := list + [Event(e.ts, e.kind)]];
    }
    assert log[..|log|] == log;
  }

  /** Group by machine, pair each, merge the lot. */
  method PairSpans(log: seq<RawEvent>, checkTime: int, grace: int) returns (r: PairedSpans)
    ensures r == Pair(log, checkTime, grace)
  {
    var order, byMachine := GroupByMachine(log);
    var all: seq<Interval> := [];
    var provisional: seq<ProvisionalSpan> := [];
    var out: map<string, MachineSpans> := map[];
    hide PairMachine; hide EventsOf; hide Machines;
    for k := 0 to |order|
      invariant all == AllActive(log, order, k, checkTime, grace)
      invariant provisional == AllProvisional(log, order, k, checkTime, grace)
      invariant out.Keys == set i | 0 <= i < k :: order[i]
      invariant forall m :: m in out ==> out[m] == PairMachine(EventsOf(log, m), checkTime, grace)
    {
      var spans := PairOneMachine(byMachine[order[k]], checkTime, grace);
      all := all + spans.active;
      provisional := provisional + spans.provisional;
      out := out[order[k] := spans];
    }
    var active := MergeIntervals(all);
    r := PairedSpans(active, provisional, out);
  }
}
