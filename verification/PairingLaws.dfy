/**
 * What the pairing promises across calls: the order of arrival does not matter,
 * more evidence never takes time away, a silent machine stops, and elapsed
 * instants are settled.
 */
module PairingLaws {
  import opened Sorting
  import opened Events
  import opened Intervals
  import opened Pairing

  // ---- order independence --------------------------------------------------

  ghost predicate SameLog(a: seq<RawEvent>, b: seq<RawEvent>) {
    forall e :: e in a <==> e in b
  }

  /**
   * A machine's presence and absence for the same millisecond lie at or after the
   * check time, with no absence to follow.
   */
  ghost predicate TiesHarmless(list: seq<Event>, checkTime: int) {
    forall p, q :: p in list && q in list && p.ts == q.ts && Presence(p.kind) && !Presence(q.kind) ==>
                     checkTime <= p.ts && !AbsenceAfter(list, p.ts)
  }

  lemma SameActiveAt(x: seq<Event>, y: seq<Event>, t: int, checkTime: int, grace: int)
    requires SameEvents(x, y) && TiesHarmless(x, checkTime)
    ensures ActiveAt(x, t, checkTime, grace) <==> ActiveAt(y, t, checkTime, grace)
  {
    LastAliveOfSame(x, y);
    LastAtMeaning(x, t);
    LastAtMeaning(y, t);
    assert AbsenceAfter(x, t) <==> AbsenceAfter(y, t);
    assert AbsenceAfter(x, t) && LastAt(x, t).Some? ==> AbsenceAfter(x, LastAt(x, t).value.ts);
    hide LastAt; hide LastAlive;
  }

  lemma SameMachineEvents(a: seq<RawEvent>, b: seq<RawEvent>, m: string)
    requires SameLog(a, b)
    ensures SameEvents(EventsOf(a, m), EventsOf(b, m))
  {
    forall e ensures e in EventsOf(a, m) <==> e in EventsOf(b, m) {
      EventsOfMeaning(a, m, e);
      EventsOfMeaning(b, m, e);
    }
  }

  /**
   * Any reordering of a log with harmless ties, across machines or batches, gives the
   * identical `active` list. Storing an event twice changes nothing either.
   */
  lemma {:induction false} OrderIndependence(a: seq<RawEvent>, b: seq<RawEvent>, checkTime: int, grace: int)
    requires SameLog(a, b) && forall m: string :: TiesHarmless(EventsOf(a, m), checkTime)
    ensures Pair(a, checkTime, grace).active == Pair(b, checkTime, grace).active
  {
    var p, q := Pair(a, checkTime, grace).active, Pair(b, checkTime, grace).active;
    hide Pair; hide Points; hide Canonical; hide EventsOf; hide ActiveAt; hide TiesHarmless; hide SameLog;
    forall t ensures t in Points(p) <==> t in Points(q) {
      PairMeaning(a, t, checkTime, grace);
      PairMeaning(b, t, checkTime, grace);
      forall m: string
        ensures ActiveAt(EventsOf(a, m), t, checkTime, grace) <==> ActiveAt(EventsOf(b, m), t, checkTime, grace)
      {
        SameMachineEvents(a, b, m);
        SameActiveAt(EventsOf(a, m), EventsOf(b, m), t, checkTime, grace);
      }
    }
    PairMeaning(a, 0, checkTime, grace);
    PairMeaning(b, 0, checkTime, grace);
    CanonicalUnique(p, q);
  }

  // ---- exactly when the order does not matter ------------------------------

  /** What pairing reports of a machine. */
  function MachineActive(p: PairedSpans, m: string): seq<Interval> {
    if m in p.byMachine then p.byMachine[m].active else []
  }

  lemma MachineActiveMeaning(log: seq<RawEvent>, m: string, t: int, checkTime: int, grace: int)
    ensures t in Points(MachineActive(Pair(log, checkTime, grace), m)) <==>
            ActiveAt(EventsOf(log, m), t, checkTime, grace)
  {
    MachinesMeaning(log, m);
    PairMachineMeaning(EventsOf(log, m), t, checkTime, grace);
    hide EventsOf; hide PairMachine; hide Machines; hide AllActive; hide AllProvisional; hide AbsenceAfter;
    assert LastAt([], t) == None;
  }

  /** Each machine is reported active at the same instants. */
  ghost predicate SameByMachine(p: PairedSpans, q: PairedSpans) {
    forall m: string, t :: t in Points(MachineActive(p, m)) <==> t in Points(MachineActive(q, m))
  }

  lemma SameByMachineMeaning(a: seq<RawEvent>, b: seq<RawEvent>, checkTime: int, grace: int)
    ensures SameByMachine(Pair(a, checkTime, grace), Pair(b, checkTime, grace)) <==>
            forall m: string, t ::
              ActiveAt(EventsOf(a, m), t, checkTime, grace) <==> ActiveAt(EventsOf(b, m), t, checkTime, grace)
  {
    var p, q := Pair(a, checkTime, grace), Pair(b, checkTime, grace);
    hide Pair; hide EventsOf; hide ActiveAt; hide MachineActive; hide Points;
    forall m: string, t
      ensures t in Points(MachineActive(p, m)) <==> ActiveAt(EventsOf(a, m), t, checkTime, grace)
      ensures t in Points(MachineActive(q, m)) <==> ActiveAt(EventsOf(b, m), t, checkTime, grace)
    {
      MachineActiveMeaning(a, m, t, checkTime, grace);
      MachineActiveMeaning(b, m, t, checkTime, grace);
    }
    if SameByMachine(p, q) {
      forall m: string, t
        ensures ActiveAt(EventsOf(a, m), t, checkTime, grace) <==> ActiveAt(EventsOf(b, m), t, checkTime, grace)
      {
        assert t in Points(MachineActive(p, m)) <==> t in Points(MachineActive(q, m));
      }
    } else {
      var m: string, t :| t in Points(MachineActive(p, m)) <==> t !in Points(MachineActive(q, m));
      assert ActiveAt(EventsOf(a, m), t, checkTime, grace) <==> !ActiveAt(EventsOf(b, m), t, checkTime, grace);
    }
  }

  /** The last event to arrive decides its own instant. */
  lemma LastArrivalDecides(list: seq<Event>, front: seq<Event>, e: Event, checkTime: int, grace: int)
    requires SameEvents(front + [e], list) && grace > 0
    requires e.ts < checkTime || AbsenceAfter(list, e.ts)
    ensures ActiveAt(front + [e], e.ts, checkTime, grace) <==> Presence(e.kind)
  {
    var b := front + [e];
    LastAtOfSnoc(front, e, e.ts);
    LastAtMeaning(front, e.ts);
    LastAliveMeaning(b);
    assert e in b;
    assert AbsenceAfter(b, e.ts) <==> AbsenceAfter(list, e.ts);
    hide LastAt; hide LastAlive;
  }

  /** The log with its `i`-th event arriving last. */
  function Delayed(log: seq<RawEvent>, i: nat): seq<RawEvent>
    requires i < |log|
  {
    (log[..i] + log[i + 1..]) + [log[i]]
  }

  lemma DelayedIsReordered(log: seq<RawEvent>, i: nat)
    requires i < |log|
    ensures multiset(Delayed(log, i)) == multiset(log)
    ensures SameLog(Delayed(log, i), log)
  {
    assert log == (log[..i] + [log[i]]) + log[i + 1..];
    forall e ensures e in Delayed(log, i) <==> e in log {
      assert e in Delayed(log, i) <==> e in multiset(Delayed(log, i));
      assert e in log <==> e in multiset(log);
    }
  }

  lemma ReorderedIsSame(a: seq<RawEvent>, b: seq<RawEvent>)
    requires multiset(b) == multiset(a)
    ensures SameLog(a, b)
  {
    forall e ensures e in a <==> e in b {
      assert e in a <==> e in multiset(a);
      assert e in b <==> e in multiset(b);
    }
  }

  /** Delaying an event of machine `m` puts it last among the machine's events. */
  lemma DelayedDecides(log: seq<RawEvent>, i: nat, checkTime: int, grace: int)
    requires i < |log| && grace > 0
    requires log[i].ts < checkTime || AbsenceAfter(EventsOf(log, log[i].machine), log[i].ts)
    ensures ActiveAt(EventsOf(Delayed(log, i), log[i].machine), log[i].ts, checkTime, grace) <==> Presence(log[i].kind)
  {
    var r := log[i];
    var rest := log[..i] + log[i + 1..];
    DelayedIsReordered(log, i);
    SameMachineEvents(Delayed(log, i), log, r.machine);
    assert (rest + [r])[..|rest + [r]| - 1] == rest;
    assert EventsOf(rest + [r], r.machine) == EventsOf(rest, r.machine) + [Event(r.ts, r.kind)];
    hide EventsOf; hide ActiveAt; hide AbsenceAfter;
    LastArrivalDecides(EventsOf(log, r.machine), EventsOf(rest, r.machine), Event(r.ts, r.kind), checkTime, grace);
  }

  lemma TieShows(log: seq<RawEvent>, m: string, p: Event, q: Event, checkTime: int, grace: int)
    returns (b: seq<RawEvent>)
    requires p in EventsOf(log, m) && q in EventsOf(log, m) && p.ts == q.ts && Presence(p.kind) && !Presence(q.kind)
    requires (p.ts < checkTime || AbsenceAfter(EventsOf(log, m), p.ts)) && grace > 0
    ensures multiset(b) == multiset(log)
    ensures !SameByMachine(Pair(log, checkTime, grace), Pair(b, checkTime, grace))
  {
    EventsOfMeaning(log, m, p);
    EventsOfMeaning(log, m, q);
    var i :| 0 <= i < |log| && log[i] == RawEvent(m, p.ts, p.kind);
    var j :| 0 <= j < |log| && log[j] == RawEvent(m, q.ts, q.kind);
    hide EventsOf; hide ActiveAt; hide AbsenceAfter; hide SameByMachine; hide Pair; hide Delayed;
    DelayedDecides(log, i, checkTime, grace);
    DelayedDecides(log, j, checkTime, grace);
    DelayedIsReordered(log, i);
    DelayedIsReordered(log, j);
    b := if ActiveAt(EventsOf(log, m), p.ts, checkTime, grace) then Delayed(log, j) else Delayed(log, i);
    assert ActiveAt(EventsOf(b, m), p.ts, checkTime, grace) != ActiveAt(EventsOf(log, m), p.ts, checkTime, grace);
    SameByMachineMeaning(log, b, checkTime, grace);
  }

  /**
   * Order independence, exactly: every reordering of a log leaves what each machine is
   * reported for unchanged, if and only if every machine's ties are harmless.
   */
  lemma {:induction false} OrderExact(log: seq<RawEvent>, checkTime: int, grace: int)
    requires grace > 0
    ensures (forall b: seq<RawEvent> | multiset(b) == multiset(log) ::
               SameByMachine(Pair(log, checkTime, grace), Pair(b, checkTime, grace))) <==>
            forall m: string :: TiesHarmless(EventsOf(log, m), checkTime)
  {
    hide Pair; hide SameByMachine; hide EventsOf; hide AbsenceAfter; hide ActiveAt;
    if forall m: string :: TiesHarmless(EventsOf(log, m), checkTime) {
      forall b: seq<RawEvent> | multiset(b) == multiset(log)
        ensures SameByMachine(Pair(log, checkTime, grace), Pair(b, checkTime, grace))
      {
        ReorderedIsSame(log, b);
        forall m: string, t
          ensures ActiveAt(EventsOf(log, m), t, checkTime, grace) <==> ActiveAt(EventsOf(b, m), t, checkTime, grace)
        {
          SameMachineEvents(log, b, m);
          SameActiveAt(EventsOf(log, m), EventsOf(b, m), t, checkTime, grace);
        }
        SameByMachineMeaning(log, b, checkTime, grace);
      }
    } else {
      var m: string :| !TiesHarmless(EventsOf(log, m), checkTime);
      var p, q :| p in EventsOf(log, m) && q in EventsOf(log, m) && p.ts == q.ts
                  && Presence(p.kind) && !Presence(q.kind)
                  && (p.ts < checkTime || AbsenceAfter(EventsOf(log, m), p.ts));
      var b := TieShows(log, m, p, q, checkTime, grace);
    }
  }

  /** With a conflict the stored order shows: the tie is broken by arrival. */
  lemma {:induction false} OrderMattersForTies()
    ensures var on, off := RawEvent("m", 5, Active), RawEvent("m", 5, Idle);
            SameLog([on, off], [off, on]) &&
            Pair([on, off], 100, 50).active != Pair([off, on], 100, 50).active
  {
    var on, off := RawEvent("m", 5, Active), RawEvent("m", 5, Idle);
    var a, b := [on, off], [off, on];
    EventsOfTwo(on, off);
    EventsOfTwo(off, on);
    TieIdleLast();
    TieActiveLast();
    forall m: string ensures !ActiveAt(EventsOf(a, m), 6, 100, 50) {
      if m != "m" {
        OtherMachine(a, m, 6, 100, 50);
      }
      hide *;
    }
    assert ActiveAt(EventsOf(b, "m"), 6, 100, 50);
    assert SameLog(a, b);
    hide *;
    assert !AnyActiveAt(a, 6, 100, 50);
    assert AnyActiveAt(b, 6, 100, 50);
    PairMeaning(b, 6, 100, 50);
    PairMeaning(a, 6, 100, 50);
  }

  lemma LastAtOfTwo(a: Event, b: Event, t: int)
    requires a.ts <= b.ts <= t
    ensures LastAt([a] + [b], t) == Some(b)
  {
    LastAtOfSnoc([a], b, t);
    LastAtMeaning([a], t);
  }

  lemma TieIdleLast()
    ensures !ActiveAt([Event(5, Active)] + [Event(5, Idle)], 6, 100, 50)
  {
    LastAtOfTwo(Event(5, Active), Event(5, Idle), 6);
    hide LastAt; hide LastAlive; hide AbsenceAfter;
    AbsenceAfterSnoc([Event(5, Active)], Event(5, Idle), 6);
  }

  lemma TieActiveLast()
    ensures ActiveAt([Event(5, Idle)] + [Event(5, Active)], 6, 100, 50)
  {
    var y := [Event(5, Idle)] + [Event(5, Active)];
    LastAtOfTwo(Event(5, Idle), Event(5, Active), 6);
    hide LastAt; hide LastAlive; hide AbsenceAfter;
    LastAliveMeaning(y);
    assert y[1] in y;
  }

  lemma OtherMachine(log: seq<RawEvent>, m: string, t: int, checkTime: int, grace: int)
    requires forall e :: e in log ==> e.machine != m
    ensures !ActiveAt(EventsOf(log, m), t, checkTime, grace)
  {
    if LastAt(EventsOf(log, m), t).Some? {
      LastAtMeaning(EventsOf(log, m), t);
      EventsOfMeaning(log, m, LastAt(EventsOf(log, m), t).value);
    }
  }

  lemma EventsOfTwo(a: RawEvent, b: RawEvent)
    requires a.machine == b.machine
    ensures EventsOf([a, b], a.machine) == [Event(a.ts, a.kind)] + [Event(b.ts, b.kind)]
  {
    var l := [a, b];
    assert l[..|l| - 1] == [a];
    assert [a][..|[a]| - 1] == [];
    assert EventsOf([a], a.machine) == [] + [Event(a.ts, a.kind)];
  }

  // ---- evidence ------------------------------------------------------------

  lemma {:induction false} LastAtWithInserted(a: seq<Event>, x: Event, b: seq<Event>, t: int)
    ensures var r, s := LastAt(a + b, t), LastAt(a + [x] + b, t);
            s == r || (s == Some(x) && x.ts <= t && (r.None? || r.value.ts <= x.ts))
  {
    if b == [] {
      assert a + b == a && a + [x] + b == a + [x];
      LastAtOfSnoc(a, x, t);
    } else {
      var front, y := b[..|b| - 1], b[|b| - 1];
      LastAtWithInserted(a, x, front, t);
      assert a + b == (a + front) + [y] && a + [x] + b == (a + [x] + front) + [y];
      LastAtOfSnoc(a + front, y, t);
      LastAtOfSnoc(a + [x] + front, y, t);
    }
  }

  lemma PresenceAddsMachine(a: seq<Event>, x: Event, b: seq<Event>, t: int, checkTime: int, grace: int)
    requires Presence(x.kind) && ActiveAt(a + b, t, checkTime, grace)
    ensures ActiveAt(a + [x] + b, t, checkTime, grace)
  {
    LastAtWithInserted(a, x, b, t);
    LastAliveMeaning(a + b);
    LastAliveMeaning(a + [x] + b);
    assert forall e :: e in a + b ==> e in a + [x] + b;
  }

  /** Inserting a presence anywhere in the log never removes an active instant. */
  lemma PresenceNeverRemoves(
    a: seq<RawEvent>, x: RawEvent, b: seq<RawEvent>, t: int, checkTime: int, grace: int)
    requires Presence(x.kind) && t in Points(Pair(a + b, checkTime, grace).active)
    ensures t in Points(Pair(a + [x] + b, checkTime, grace).active)
  {
    PairMeaning(a + b, t, checkTime, grace);
    PairMeaning(a + [x] + b, t, checkTime, grace);
    var m: string :| ActiveAt(EventsOf(a + b, m), t, checkTime, grace);
    EventsOfConcat(a, b, m);
    EventsOfConcat(a + [x], b, m);
    EventsOfConcat(a, [x], m);
    assert [x][..0] == [];
    if x.machine == m {
      PresenceAddsMachine(EventsOf(a, m), Event(x.ts, x.kind), EventsOf(b, m), t, checkTime, grace);
    } else {
      assert EventsOf(a, m) + [] == EventsOf(a, m);
    }
    assert ActiveAt(EventsOf(a + [x] + b, m), t, checkTime, grace);
  }

  /**
   * Raising the check time never removes an active instant, and instants before
   * the earlier check time are settled: they are the same for both.
   */
  lemma CheckTimeMonotone(log: seq<RawEvent>, t: int, earlier: int, later: int, grace: int)
    requires earlier <= later
    ensures t in Points(Pair(log, earlier, grace).active) ==> t in Points(Pair(log, later, grace).active)
    ensures t < earlier ==>
              (t in Points(Pair(log, earlier, grace).active) <==> t in Points(Pair(log, later, grace).active))
  {
    hide ActiveAt; hide EventsOf; hide Pair; hide Points; hide Canonical;
    PairMeaning(log, t, earlier, grace);
    PairMeaning(log, t, later, grace);
    forall m: string
      ensures ActiveAt(EventsOf(log, m), t, earlier, grace) ==> ActiveAt(EventsOf(log, m), t, later, grace)
      ensures t < earlier && ActiveAt(EventsOf(log, m), t, later, grace) ==>
                ActiveAt(EventsOf(log, m), t, earlier, grace)
    {
      LaterCheck(EventsOf(log, m), t, earlier, later, grace);
    }
  }

  lemma LaterCheck(list: seq<Event>, t: int, earlier: int, later: int, grace: int)
    requires earlier <= later
    ensures ActiveAt(list, t, earlier, grace) ==> ActiveAt(list, t, later, grace)
    ensures t < earlier && ActiveAt(list, t, later, grace) ==> ActiveAt(list, t, earlier, grace)
  {
  }

  /** A machine contributes nothing past all its events once the grace is used up. */
  lemma {:induction false} NoBleed(list: seq<Event>, t: int, checkTime: int, grace: int)
    requires forall e :: e in list ==> e.ts <= t
    requires LastAlive(list) + grace <= t
    ensures t !in Points(PairMachine(list, checkTime, grace).active)
  {
    PairMachineMeaning(list, t, checkTime, grace);
  }

  // ---- logs without long silences ------------------------------------------

  /** Present at `t`, with no absence to come: only the grace can end this span. */
  ghost predicate OpenAt(list: seq<Event>, t: int) { PresentAt(list, t) && !AbsenceAfter(list, t) }

  lemma OpenFrom(list: seq<Event>, t: int)
    ensures var s := PairFold(SortBy(list, TsOf));
            && (OpenAt(list, t) <==> s.open.Some? && s.open.value <= t)
            && s.lastAlive == LastAlive(list)
  {
    hide PairFold; hide LastAt; hide Points; hide SortBy; hide LastAlive;
    var sorted := SortBy(list, TsOf);
    FoldMeaning(sorted, t);
    LastAtOfSorted(list, t);
    SortedSameEvents(list);
    LastAliveOfSame(list, sorted);
    assert AbsenceAfter(list, t) <==> AbsenceAfter(sorted, t);
  }

  /**
   * The provisional span of a machine: from the first instant that nothing but the
   * grace can end, to the check time or the grace after the last sign of life,
   * whichever comes first; still growing while the grace has not run out.
   */
  lemma ProvisionalMeaning(list: seq<Event>, v: ProvisionalSpan, checkTime: int, grace: int)
    ensures v in PairMachine(list, checkTime, grace).provisional <==>
            && v.start < v.end
            && v.lastAlive == LastAlive(list)
            && v.end == Min(checkTime, v.lastAlive + grace)
            && (v.growing <==> checkTime <= v.lastAlive + grace)
            && (forall t :: OpenAt(list, t) <==> v.start <= t)
  {
    hide *;
    ProvisionalIsOpenSpan(list, checkTime, grace);
    OpenSpanMeaning(PairFold(SortBy(list, TsOf)), v, checkTime, grace);
    OpenThroughout(list, v.start);
  }

  /** A span is open from `start` on iff that is where the fold has left one open. */
  lemma OpenThroughout(list: seq<Event>, start: int)
    ensures var s := PairFold(SortBy(list, TsOf));
            && (s.open == Some(start) <==> forall t :: OpenAt(list, t) <==> start <= t)
            && s.lastAlive == LastAlive(list)
  {
    hide *;
    var s := PairFold(SortBy(list, TsOf));
    OpenFrom(list, start);
    if s.open == Some(start) {
      forall t ensures OpenAt(list, t) <==> start <= t { OpenFrom(list, t); }
    } else if s.open.Some? {
      OpenFrom(list, s.open.value);
    }
  }

  lemma ProvisionalIsOpenSpan(list: seq<Event>, checkTime: int, grace: int)
    ensures PairMachine(list, checkTime, grace).provisional == OpenSpan(PairFold(SortBy(list, TsOf)), checkTime, grace)
  {
    hide OpenSpan; hide PairFold; hide SortBy;
  }

  lemma OpenSpanMeaning(s: PairState, v: ProvisionalSpan, checkTime: int, grace: int)
    ensures v in OpenSpan(s, checkTime, grace) <==>
            && s.open == Some(v.start) && v.start < v.end && v.lastAlive == s.lastAlive
            && v.end == Min(checkTime, s.lastAlive + grace) && (v.growing <==> checkTime <= s.lastAlive + grace)
  {
  }

  // ---- the provisional spans of all machines -------------------------------

  /** `m` appears in the log before `n` does. */
  ghost predicate SeenBefore(log: seq<RawEvent>, m: string, n: string) {
    exists i :: 0 <= i < |log| && log[i].machine == m && forall j :: 0 <= j <= i ==> log[j].machine != n
  }

  /** The machines come in the order in which the log first names them, each once. */
  lemma {:induction false} MachinesInOrder(log: seq<RawEvent>, i: nat, j: nat)
    requires i < j < |Machines(log)|
    ensures SeenBefore(log, Machines(log)[i], Machines(log)[j])
  {
    var front, last := log[..|log| - 1], log[|log| - 1].machine;
    var order := Machines(front);
    assert log == front + [log[|log| - 1]];
    if j < |order| {
      MachinesInOrder(front, i, j);
      var m, n := order[i], order[j];
      var k :| 0 <= k < |front| && front[k].machine == m && forall x :: 0 <= x <= k ==> front[x].machine != n;
      assert log[k].machine == m && forall x :: 0 <= x <= k ==> log[x].machine == front[x].machine;
    } else {
      MachinesMeaning(front, order[i]);
      MachinesMeaning(front, last);
      var e :| e in front && e.machine == order[i];
      var k :| 0 <= k < |front| && front[k] == e;
      assert log[k].machine == order[i];
      assert forall x :: 0 <= x <= k ==> log[x] == front[x] && front[x] in front;
    }
  }

  lemma {:induction false} AllProvisionalMeaning(
    log: seq<RawEvent>, order: seq<string>, k: nat, v: ProvisionalSpan, checkTime: int, grace: int)
    requires k <= |order|
    ensures v in AllProvisional(log, order, k, checkTime, grace) <==>
            exists i :: 0 <= i < k && v in PairMachine(EventsOf(log, order[i]), checkTime, grace).provisional
  {
    hide PairMachine; hide EventsOf;
    if k > 0 { AllProvisionalMeaning(log, order, k - 1, v, checkTime, grace); }
  }

  lemma AllProvisionalSnoc(log: seq<RawEvent>, order: seq<string>, k: nat, checkTime: int, grace: int)
    requires k <= |order|
    ensures k == 0 ==> AllProvisional(log, order, k, checkTime, grace) == []
    ensures k > 0 ==>
              var mine := PairMachine(EventsOf(log, order[k - 1]), checkTime, grace).provisional;
              && AllProvisional(log, order, k, checkTime, grace) ==
                 AllProvisional(log, order, k - 1, checkTime, grace) + mine
              && |mine| <= 1
  {
    hide PairFold; hide SortBy; hide EventsOf;
  }

  /** Each of them is some machine's, and those of a machine named earlier come earlier. */
  lemma {:induction false} AllProvisionalOrder(
    log: seq<RawEvent>, order: seq<string>, k: nat, a: nat, b: nat, checkTime: int, grace: int)
    returns (i: nat, j: nat)
    requires k <= |order| && a < b < |AllProvisional(log, order, k, checkTime, grace)|
    ensures i < j < k
    ensures var all := AllProvisional(log, order, k, checkTime, grace);
            && all[a] in PairMachine(EventsOf(log, order[i]), checkTime, grace).provisional
            && all[b] in PairMachine(EventsOf(log, order[j]), checkTime, grace).provisional
  {
    hide PairMachine; hide EventsOf; hide AllProvisional;
    AllProvisionalSnoc(log, order, k, checkTime, grace);
    var front := AllProvisional(log, order, k - 1, checkTime, grace);
    var mine := PairMachine(EventsOf(log, order[k - 1]), checkTime, grace).provisional;
    if b < |front| {
      i, j := AllProvisionalOrder(log, order, k - 1, a, b, checkTime, grace);
    } else {
      j := k - 1;
      assert (front + mine)[b] == mine[0] && (front + mine)[a] == front[a];
      assert mine[0] in mine && front[a] in front;
      i := ProvisionalOwner(log, order, k - 1, front[a], checkTime, grace);
    }
  }

  lemma ProvisionalOwner(
    log: seq<RawEvent>, order: seq<string>, k: nat, v: ProvisionalSpan, checkTime: int, grace: int) returns (i: nat)
    requires k <= |order| && v in AllProvisional(log, order, k, checkTime, grace)
    ensures i < k && v in PairMachine(EventsOf(log, order[i]), checkTime, grace).provisional
  {
    hide PairMachine; hide EventsOf; hide AllProvisional;
    AllProvisionalMeaning(log, order, k, v, checkTime, grace);
    i :| 0 <= i < k && v in PairMachine(EventsOf(log, order[i]), checkTime, grace).provisional;
  }

  /** What it takes to be the provisional span of a machine's events. */
  ghost predicate IsOpenEnd(list: seq<Event>, v: ProvisionalSpan, checkTime: int, grace: int) {
    && v.start < v.end
    && v.lastAlive == LastAlive(list)
    && v.end == Min(checkTime, v.lastAlive + grace)
    && (v.growing <==> checkTime <= v.lastAlive + grace)
    && (forall t :: OpenAt(list, t) <==> v.start <= t)
  }

  /**
   * The provisional spans of a log, exactly: a span is listed if and only if it is the
   * open end of some machine's events.
   */
  lemma {:induction false} ProvisionalOfLog(log: seq<RawEvent>, v: ProvisionalSpan, checkTime: int, grace: int)
    ensures v in Pair(log, checkTime, grace).provisional <==>
            exists m: string :: m in Pair(log, checkTime, grace).byMachine
                                && IsOpenEnd(EventsOf(log, m), v, checkTime, grace)
  {
    var order := Machines(log);
    hide Pair; hide AllProvisional; hide Machines; hide PairMachine; hide EventsOf; hide IsOpenEnd;
    PairParts(log, checkTime, grace);
    AllProvisionalMeaning(log, order, |order|, v, checkTime, grace);
    forall m: string
      ensures v in PairMachine(EventsOf(log, m), checkTime, grace).provisional <==>
              IsOpenEnd(EventsOf(log, m), v, checkTime, grace)
    {
      OpenEndIsProvisional(EventsOf(log, m), v, checkTime, grace);
    }
  }

  lemma PairParts(log: seq<RawEvent>, checkTime: int, grace: int)
    ensures var r, order := Pair(log, checkTime, grace), Machines(log);
            && r.provisional == AllProvisional(log, order, |order|, checkTime, grace)
            && forall m :: m in r.byMachine <==> m in order
  {
    hide AllActive; hide AllProvisional; hide Machines; hide PairMachine; hide EventsOf;
  }

  lemma OpenEndIsProvisional(list: seq<Event>, v: ProvisionalSpan, checkTime: int, grace: int)
    ensures v in PairMachine(list, checkTime, grace).provisional <==> IsOpenEnd(list, v, checkTime, grace)
  {
    ProvisionalMeaning(list, v, checkTime, grace);
    hide PairMachine; hide OpenAt; hide LastAlive;
  }

  /** And the spans are listed in the order in which the log first names their machines. */
  lemma {:induction false} ProvisionalInOrder(log: seq<RawEvent>, a: nat, b: nat, checkTime: int, grace: int)
    requires a < b < |Pair(log, checkTime, grace).provisional|
    ensures var all := Pair(log, checkTime, grace).provisional;
            exists m: string, n: string :: SeenBefore(log, m, n)
              && IsOpenEnd(EventsOf(log, m), all[a], checkTime, grace)
              && IsOpenEnd(EventsOf(log, n), all[b], checkTime, grace)
  {
    var order := Machines(log);
    var all := Pair(log, checkTime, grace).provisional;
    hide Pair; hide AllProvisional; hide Machines; hide PairMachine; hide EventsOf; hide IsOpenEnd; hide SeenBefore;
    PairParts(log, checkTime, grace);
    var i, j := AllProvisionalOrder(log, order, |order|, a, b, checkTime, grace);
    MachinesInOrder(log, i, j);
    OpenEndIsProvisional(EventsOf(log, order[i]), all[a], checkTime, grace);
    OpenEndIsProvisional(EventsOf(log, order[j]), all[b], checkTime, grace);
  }

  /**
   * The machine reports in timestamp order, and after a presence the next event
   * comes within the grace.
   */
  ghost predicate Spaced(list: seq<Event>, grace: int) {
    list == [] ||
    var front, e := list[..|list| - 1], list[|list| - 1];
    && Spaced(front, grace)
    && 0 <= e.ts
    && (front != [] ==>
          var p := front[|front| - 1];
          p.ts <= e.ts && (Presence(p.kind) ==> e.ts <= p.ts + grace))
  }

  /** For a spaced log, activity at `t` is decided by the last event alone. */
  predicate LocallyActive(list: seq<Event>, t: int, grace: int) {
    PresentAt(list, t) && t < LastAt(list, t).value.ts + grace
  }

  lemma {:induction false} SpacedIsSorted(list: seq<Event>, grace: int)
    requires Spaced(list, grace)
    ensures SortedBy(list, TsOf)
  {
    if |list| >= 2 {
      SpacedIsSorted(list[..|list| - 1], grace);
      assert list[..|list| - 1][|list| - 2] == list[|list| - 2];
    }
  }

  /** Split a non-empty spaced list at its last event. */
  lemma SpacedLast(list: seq<Event>, grace: int, t: int)
    requires Spaced(list, grace) && list != []
    ensures var front, e := list[..|list| - 1], list[|list| - 1];
            && LastAt(list, t) == (if e.ts <= t then Some(e) else LastAt(front, t))
            && (e.ts <= t ==> !AbsenceAfter(list, t))
            && (Presence(e.kind) ==> LastAlive(list) == e.ts)
  {
    var front, e := list[..|list| - 1], list[|list| - 1];
    assert list == front + [e];
    SpacedIsSorted(list, grace);
    LastAtOfSnoc(front, e, t);
    AbsenceAfterSnoc(front, e, t);
    if e.ts <= t { NothingAfterLast(front, e, t); }
    LastAliveSnoc(front, e);
    LastAliveMeaning(front);
    forall x | x in front ensures x.ts <= e.ts { LastIsLatest(list, x); }
  }

  lemma {:induction false} NextWithinGrace(list: seq<Event>, grace: int, t: int)
    requires Spaced(list, grace) && list != [] && t < list[|list| - 1].ts
    ensures PresentAt(list, t) ==> LocallyActive(list, t, grace)
  {
    var front := list[..|list| - 1];
    SpacedLast(list, grace, t);
    if front != [] {
      SpacedLast(front, grace, t);
      if t < front[|front| - 1].ts { NextWithinGrace(front, grace, t); }
    }
  }

  lemma ActiveIsLocal(list: seq<Event>, t: int, checkTime: int, grace: int)
    requires Spaced(list, grace) && t < checkTime
    ensures ActiveAt(list, t, checkTime, grace) <==> LocallyActive(list, t, grace)
  {
    if list != [] {
      SpacedLast(list, grace, t);
      if t < list[|list| - 1].ts { NextWithinGrace(list, grace, t); }
      LastAtMeaning(list, t);
      LastAliveMeaning(list);
    }
  }
}
