/**
 * Which days `ingest` marks dirty (tenant-do.ts), against which days the batch can
 * have changed. For a batch that continues its machine's log in timestamp order
 * the two are compared exactly.
 */
module Marking {
  import opened Sorting
  import opened Events
  import opened Intervals
  import opened LocalTime
  import opened Pairing
  import opened PairingLaws

  /** The event that `ORDER BY ts DESC LIMIT 1` returns, ties broken by the later row. */
  function Latest(list: seq<Event>): Option<Event> {
    if list == [] then None
    else
      var r, e := Latest(list[..|list| - 1]), list[|list| - 1];
      if r.None? || r.value.ts <= e.ts then Some(e) else r
  }

  /** How far the machine's open span is assumed to reach. */
  function AssumedOpenEnd(list: seq<Event>, grace: int): Option<int> {
    var last := Latest(list);
    if last.None? || !Presence(last.value.kind) then None else Some(last.value.ts + grace)
  }

  /** The newest row is the last event in timestamp order, from any instant past all of them. */
  lemma {:induction false} LatestIsLastAt(list: seq<Event>, t: int)
    requires forall e :: e in list ==> e.ts <= t
    ensures Latest(list) == LastAt(list, t)
  {
    if list != [] { LatestIsLastAt(list[..|list| - 1], t); }
  }

  /**
   * The assumed end says how the machine stands: there is one exactly when the
   * machine is present after all its events, and activity then ends there, or at the
   * check time if that is earlier.
   */
  lemma {:induction false} AssumedEndIsActivity(list: seq<Event>, t: int, checkTime: int, grace: int)
    requires forall e :: e in list ==> 0 <= e.ts <= t
    ensures var end := AssumedOpenEnd(list, grace);
            && (end.Some? <==> PresentAt(list, t))
            && (ActiveAt(list, t, checkTime, grace) <==> end.Some? && t < checkTime && t < end.value)
  {
    LatestIsLastAt(list, t);
    LastAtMeaning(list, t);
    LastAliveMeaning(list);
    hide LastAt; hide LastAlive; hide Latest;
  }

  function OrZero(o: Option<int>): int { if o.Some? then o.value else 0 }

  function EventDays(batch: seq<Event>, z: Zone): set<int> {
    set i | 0 <= i < |batch| :: LocalDayStart(batch[i].ts, z)
  }

  function FirstDay(batch: seq<Event>, z: Zone): int
    requires batch != []
  {
    if |batch| == 1 then LocalDayStart(batch[0].ts, z)
    else Min(FirstDay(batch[..|batch| - 1], z), LocalDayStart(batch[|batch| - 1].ts, z))
  }

  /** Every day from the batch's first through the one its machine's span may reach. */
  function WideDays(batch: seq<Event>, spanEnd: int, z: Zone): set<int> {
    if spanEnd > 0 && batch != [] then DaysFrom(FirstDay(batch, z), LocalDayStart(spanEnd, z) + 1, z) else {}
  }

  /** The days marked when `batch` arrives for a machine whose log is `list`. */
  function MarkedDays(list: seq<Event>, batch: seq<Event>, z: Zone, grace: int): set<int> {
    EventDays(batch, z)
    + WideDays(batch, Max(OrZero(AssumedOpenEnd(list, grace)), OrZero(AssumedOpenEnd(list + batch, grace))), z)
  }

  lemma DayAtMost(t: int, d: int, z: Zone, off: int)
    requires Fixed(z, off) && IsMidnight(d, z)
    ensures LocalDayStart(t, z) <= d <==> t < d + DAY
    ensures d <= LocalDayStart(t, z) <==> d <= t
    ensures LocalDayStart(t, z) == d <==> d <= t < d + DAY
  {
    DayContains(t, z, off);
    DayIsUnique(d, d, z, off);
    if d <= t { DayOrder(d, t, z, off); }
    if t < d + DAY {
      DayIsUnique(d + DAY - 1, d, z, off);
      DayOrder(t, d + DAY - 1, z, off);
    }
    hide LocalDayStart; hide IsMidnight;
  }

  lemma {:induction false} FirstDayAtMost(batch: seq<Event>, d: int, z: Zone, off: int)
    requires Fixed(z, off) && IsMidnight(d, z) && batch != []
    ensures FirstDay(batch, z) <= d <==> exists e :: e in batch && e.ts < d + DAY
  {
    var front, last := batch[..|batch| - 1], batch[|batch| - 1];
    assert batch == front + [last];
    DayAtMost(last.ts, d, z, off);
    hide LocalDayStart; hide IsMidnight;
    if front != [] { FirstDayAtMost(front, d, z, off); }
  }

  /**
   * The marked days, with one offset: the local days an event of the batch falls on, and
   * every day from the first of them to the later assumed end before and after.
   */
  lemma {:induction false} MarkedDaysMeaning(list: seq<Event>, batch: seq<Event>, z: Zone, off: int, grace: int, d: int)
    requires Fixed(z, off)
    ensures var end := Max(OrZero(AssumedOpenEnd(list, grace)), OrZero(AssumedOpenEnd(list + batch, grace)));
            d in MarkedDays(list, batch, z, grace) <==>
            && IsMidnight(d, z)
            && (|| (exists e :: e in batch && d <= e.ts < d + DAY)
                || (0 < end && d <= end && exists e :: e in batch && e.ts < d + DAY))
  {
    var end := Max(OrZero(AssumedOpenEnd(list, grace)), OrZero(AssumedOpenEnd(list + batch, grace)));
    hide LocalDayStart; hide AssumedOpenEnd; hide IsMidnight; hide WideDays; hide EventDays;
    EventDaysMeaning(batch, z, off, d);
    WideDaysMeaning(batch, end, z, off, d);
  }

  lemma EventDaysMeaning(batch: seq<Event>, z: Zone, off: int, d: int)
    requires Fixed(z, off)
    ensures d in EventDays(batch, z) <==> IsMidnight(d, z) && exists e :: e in batch && d <= e.ts < d + DAY
  {
    hide LocalDayStart; hide IsMidnight;
    if d in EventDays(batch, z) {
      var i :| 0 <= i < |batch| && d == LocalDayStart(batch[i].ts, z);
      DayContains(batch[i].ts, z, off);
      DayAtMost(batch[i].ts, d, z, off);
      assert batch[i] in batch;
    }
    if IsMidnight(d, z) && exists e :: e in batch && d <= e.ts < d + DAY {
      var e :| e in batch && d <= e.ts < d + DAY;
      var i :| 0 <= i < |batch| && batch[i] == e;
      DayAtMost(e.ts, d, z, off);
      assert LocalDayStart(batch[i].ts, z) in EventDays(batch, z);
    }
  }

  lemma WholeDaysApart(a: int, d: int, z: Zone, off: int)
    requires Fixed(z, off) && IsMidnight(a, z)
    ensures IsMidnight(d, z) <==> (d - a) % DAY == 0
  {
    DayRemainder(a + off * MINUTE, d + off * MINUTE);
  }

  lemma DayRemainder(a: int, b: int)
    requires a % DAY == 0
    ensures b % DAY == 0 <==> (b - a) % DAY == 0
  {
    assert a == (a / DAY) * DAY;
    var k := a / DAY;
    if b % DAY == 0 { DivOfMultiple(b / DAY - k, 0); }
    if (b - a) % DAY == 0 { DivOfMultiple((b - a) / DAY + k, 0); }
  }

  lemma WideDaysMeaning(batch: seq<Event>, end: int, z: Zone, off: int, d: int)
    requires Fixed(z, off)
    ensures d in WideDays(batch, end, z) <==>
            IsMidnight(d, z) && 0 < end && d <= end && exists e :: e in batch && e.ts < d + DAY
  {
    WideDaysFixed(batch, end, z, off);
    hide LocalDayStart; hide WideDays; hide Midnights; hide FirstDay; hide IsMidnight;
    if end > 0 && batch != [] {
      FirstDayIsMidnight(batch, z, off);
      WholeDaysApart(FirstDay(batch, z), d, z, off);
      MidnightsMeaning(FirstDay(batch, z), LocalDayStart(end, z) + 1, d);
      if IsMidnight(d, z) {
        DayAtMost(end, d, z, off);
        FirstDayAtMost(batch, d, z, off);
      }
    }
  }

  /** The batch changes whether the machine counts as active at `t`. */
  ghost predicate ChangesAt(list: seq<Event>, batch: seq<Event>, t: int, checkTime: int, grace: int) {
    ActiveAt(list, t, checkTime, grace) != ActiveAt(list + batch, t, checkTime, grace)
  }

  /** Every instant the batch changes, for any check time, lies on a marked day. */
  ghost predicate AllChangesMarked(list: seq<Event>, batch: seq<Event>, z: Zone, grace: int) {
    forall t, checkTime :: t < checkTime && ChangesAt(list, batch, t, checkTime, grace) ==>
                             LocalDayStart(t, z) in MarkedDays(list, batch, z, grace)
  }

  // ---- batches in order ----------------------------------------------------

  /** A machine log in timestamp order, none before the epoch. */
  ghost predicate InOrder(list: seq<Event>) {
    SortedBy(list, TsOf) && (list != [] ==> list[0].ts >= 0)
  }

  lemma LatestOfSorted(list: seq<Event>)
    requires SortedBy(list, TsOf) && list != []
    ensures Latest(list) == Some(list[|list| - 1])
  {
    var front := list[..|list| - 1];
    if front != [] {
      LatestIsIn(front);
      SortedLast(list, TsOf, Latest(front).value);
    }
  }

  lemma {:induction false} LatestIsIn(list: seq<Event>)
    ensures list != [] ==> Latest(list).Some? && Latest(list).value in list
  {
    if list != [] { LatestIsIn(list[..|list| - 1]); }
  }

  lemma InOrderFacts(list: seq<Event>, i: nat, j: nat)
    requires InOrder(list) && i <= j < |list|
    ensures 0 <= list[i].ts <= list[j].ts
  {
    SortedAt(list, TsOf, 0, i);
    SortedAt(list, TsOf, i, j);
  }

  /** In an ordered log, before the check time, activity ends a grace after the last event. */
  lemma ActiveInOrder(list: seq<Event>, t: int, checkTime: int, grace: int)
    requires InOrder(list) && list != [] && t < checkTime && grace > 0
    ensures ActiveAt(list, t, checkTime, grace) <==> PresentAt(list, t) && t < list[|list| - 1].ts + grace
  {
    var front, e := list[..|list| - 1], list[|list| - 1];
    assert list == front + [e];
    InOrderFacts(list, 0, |list| - 1);
    LastAliveMeaning(list);
    assert e in list;
    forall x | x in list ensures x.ts <= e.ts { SortedLast(list, TsOf, x); }
    if e.ts <= t {
      NothingAfterLast(front, e, t);
      AbsenceAfterSnoc(front, e, t);
    } else if !Presence(e.kind) {
      assert AbsenceAfter(list, t);
    }
  }

  /** The last event at or before `t`, by its index. */
  lemma {:induction false} LastAtIndex(list: seq<Event>, i: nat, t: int)
    requires SortedBy(list, TsOf) && i < |list| && list[i].ts <= t
    requires i + 1 < |list| ==> t < list[i + 1].ts
    ensures LastAt(list, t) == Some(list[i])
  {
    var front, e := list[..|list| - 1], list[|list| - 1];
    assert list == front + [e];
    if i == |list| - 1 {
      NothingAfterLast(front, e, t);
    } else {
      SortedAt(list, TsOf, i + 1, |list| - 1);
      LastAtIndex(front, i, t);
    }
  }

  /** `i` is the index of the last event at or before `t`. */
  predicate Current(list: seq<Event>, i: nat, t: int) {
    i < |list| && list[i].ts <= t && (i + 1 < |list| ==> t < list[i + 1].ts)
  }

  lemma {:induction false} IndexAt(list: seq<Event>, t: int)
    requires SortedBy(list, TsOf) && list != [] && list[0].ts <= t
    ensures exists i: nat :: Current(list, i, t)
  {
    var last := |list| - 1;
    if list[last].ts <= t {
      assert Current(list, last, t);
    } else {
      var front := list[..last];
      IndexAt(front, t);
      var i: nat :| Current(front, i, t);
      assert Current(list, i, t);
    }
  }

  lemma {:induction false} LastAtAppended(list: seq<Event>, batch: seq<Event>, t: int)
    requires SortedBy(list + batch, TsOf) && batch != []
    ensures t < batch[0].ts ==> LastAt(list + batch, t) == LastAt(list, t)
    ensures batch[0].ts <= t ==> LastAt(list + batch, t) == LastAt(batch, t) && LastAt(batch, t).Some?
  {
    var front, e := batch[..|batch| - 1], batch[|batch| - 1];
    assert list + batch == (list + front) + [e] && batch == front + [e];
    LastAtOfSnoc(list + front, e, t);
    LastAtOfSnoc(front, e, t);
    SortedAt(list + batch, TsOf, |list|, |list + batch| - 1);
    assert SortedBy(list + front, TsOf) by { assert (list + batch)[..|list + batch| - 1] == list + front; }
    assert LastAt([], t) == None;
    hide SortedBy; hide LastAt;
    if front == [] {
      assert list + front == list;
      if LastAt(list, t).Some? {
        LastAtMeaning(list, t);
        SortedLast(list + batch, TsOf, LastAt(list, t).value);
      }
    } else {
      LastAtAppended(list, front, t);
    }
  }

  lemma {:induction false} FirstDayOfSorted(batch: seq<Event>, z: Zone, off: int)
    requires Fixed(z, off) && SortedBy(batch, TsOf) && batch != []
    ensures FirstDay(batch, z) == LocalDayStart(batch[0].ts, z)
  {
    if |batch| > 1 {
      FirstDayOfSorted(batch[..|batch| - 1], z, off);
      SortedAt(batch, TsOf, 0, |batch| - 1);
      DayOrder(batch[0].ts, batch[|batch| - 1].ts, z, off);
    }
  }

  lemma SortedParts(list: seq<Event>, batch: seq<Event>)
    requires SortedBy(list + batch, TsOf)
    ensures SortedBy(list, TsOf) && SortedBy(batch, TsOf)
    decreases |batch|
  {
    if batch == [] {
      assert list + batch == list;
    } else {
      var front := batch[..|batch| - 1];
      assert (list + batch)[..|list + batch| - 1] == list + front;
      SortedParts(list, front);
      if front != [] {
        SortedAt(list + batch, TsOf, |list + batch| - 2, |list + batch| - 1);
        assert (list + batch)[|list + batch| - 2] == batch[|batch| - 2];
      }
    }
  }

  // ---- the exact condition -------------------------------------------------

  /** The day on which the machine's span was assumed to end, or `otherwise`. */
  function PriorDay(list: seq<Event>, z: Zone, grace: int, otherwise: int): int {
    var p := AssumedOpenEnd(list, grace);
    if p.Some? then LocalDayStart(p.value, z) else otherwise
  }

  /** No whole day is passed over in silence by an open span. */
  ghost predicate NoDaySkipped(list: seq<Event>, batch: seq<Event>, z: Zone, grace: int)
    requires batch != []
  {
    && LocalDayStart(batch[0].ts, z) <= PriorDay(list, z, grace, LocalDayStart(batch[0].ts, z))
    && (Presence(batch[|batch| - 1].kind) ||
        forall i, j :: 0 <= i && j == i + 1 < |batch| && Presence(batch[i].kind) ==>
          var d := LocalDayStart(batch[i].ts, z);
          LocalDayStart(batch[j].ts, z) <= Max(d, PriorDay(list, z, grace, d)) + DAY)
  }

  /** The machine's state before and after, in terms of the batch alone. */
  ghost predicate ActiveBefore(list: seq<Event>, t: int, grace: int) {
    list != [] && PresentAt(list, t) && t < list[|list| - 1].ts + grace
  }

  ghost predicate ActiveAfter(list: seq<Event>, batch: seq<Event>, t: int, grace: int)
    requires batch != []
  {
    t < batch[|batch| - 1].ts + grace &&
    if t < batch[0].ts then PresentAt(list, t) else PresentAt(batch, t)
  }

  lemma ChangeAsBeforeAfter(list: seq<Event>, batch: seq<Event>, t: int, checkTime: int, grace: int)
    requires InOrder(list + batch) && batch != [] && t < checkTime && grace > 0
    ensures ActiveAt(list, t, checkTime, grace) <==> ActiveBefore(list, t, grace)
    ensures ActiveAt(list + batch, t, checkTime, grace) <==> ActiveAfter(list, batch, t, grace)
  {
    SortedParts(list, batch);
    assert list != [] ==> (list + batch)[0] == list[0];
    LastAtAppended(list, batch, t);
    ActiveInOrder(list + batch, t, checkTime, grace);
    if list != [] { ActiveInOrder(list, t, checkTime, grace); }
    assert (list + batch)[|list + batch| - 1] == batch[|batch| - 1];
  }

  /** Facts about the boundary between log and batch. */
  lemma AtTheSeam(list: seq<Event>, batch: seq<Event>, t: int, grace: int)
    requires InOrder(list + batch) && batch != [] && grace > 0
    ensures AssumedOpenEnd(list + batch, grace) ==
            (if Presence(batch[|batch| - 1].kind) then Some(batch[|batch| - 1].ts + grace) else None)
    ensures list == [] ==> AssumedOpenEnd(list, grace) == None && LastAt(list, t) == None
    ensures list != [] ==>
              var p := list[|list| - 1];
              && 0 <= p.ts <= batch[0].ts
              && AssumedOpenEnd(list, grace) == (if Presence(p.kind) then Some(p.ts + grace) else None)
              && (p.ts <= t ==> LastAt(list, t) == Some(p))
    ensures 0 <= batch[0].ts <= batch[|batch| - 1].ts
  {
    SortedParts(list, batch);
    LatestOfSorted(list + batch);
    assert (list + batch)[|list + batch| - 1] == batch[|batch| - 1];
    InOrderFacts(list + batch, |list|, |list + batch| - 1);
    if list != [] {
      LatestOfSorted(list);
      InOrderFacts(list + batch, |list| - 1, |list|);
      assert (list + batch)[|list| - 1] == list[|list| - 1];
      if list[|list| - 1].ts <= t { LastAtIndex(list, |list| - 1, t); }
    }
  }

  lemma InMarkedRange(list: seq<Event>, batch: seq<Event>, t: int, end: int, z: Zone, off: int, grace: int)
    requires Fixed(z, off) && InOrder(list + batch) && batch != [] && grace > 0
    requires batch[0].ts <= t <= end && 0 < end
    requires AssumedOpenEnd(list, grace) == Some(end) || AssumedOpenEnd(list + batch, grace) == Some(end)
    ensures LocalDayStart(t, z) in MarkedDays(list, batch, z, grace)
  {
    SortedParts(list, batch);
    FirstDayOfSorted(batch, z, off);
    var spanEnd := Max(OrZero(AssumedOpenEnd(list, grace)), OrZero(AssumedOpenEnd(list + batch, grace)));
    DayOrder(batch[0].ts, t, z, off);
    DayOrder(t, spanEnd, z, off);
    WideDaysFixed(batch, spanEnd, z, off);
    MidnightsMeaning(FirstDay(batch, z), LocalDayStart(spanEnd, z) + 1, LocalDayStart(t, z));
    hide LocalDayStart; hide Midnights; hide AssumedOpenEnd; hide FirstDay; hide WideDays;
  }

  lemma {:induction false} FirstDayIsMidnight(batch: seq<Event>, z: Zone, off: int)
    requires Fixed(z, off) && batch != []
    ensures IsMidnight(FirstDay(batch, z), z)
  {
    DayContains(batch[|batch| - 1].ts, z, off);
    if |batch| > 1 { FirstDayIsMidnight(batch[..|batch| - 1], z, off); }
  }

  lemma WideDaysFixed(batch: seq<Event>, spanEnd: int, z: Zone, off: int)
    requires Fixed(z, off)
    ensures WideDays(batch, spanEnd, z) ==
            if spanEnd > 0 && batch != [] then Midnights(FirstDay(batch, z), LocalDayStart(spanEnd, z) + 1) else {}
  {
    hide FirstDay; hide LocalDayStart; hide Midnights; hide DaysFrom; hide IsMidnight;
    if batch != [] {
      FirstDayIsMidnight(batch, z, off);
      DaysFromFixed(FirstDay(batch, z), LocalDayStart(spanEnd, z) + 1, z, off);
    }
  }

  lemma OwnDayMarked(list: seq<Event>, batch: seq<Event>, i: nat, z: Zone, grace: int)
    requires i < |batch|
    ensures LocalDayStart(batch[i].ts, z) in MarkedDays(list, batch, z, grace)
  {
    assert LocalDayStart(batch[i].ts, z) in EventDays(batch, z);
  }

  lemma ChangeIsMarked(list: seq<Event>, batch: seq<Event>, t: int, z: Zone, off: int, grace: int)
    requires Fixed(z, off) && InOrder(list + batch) && batch != [] && grace > 0
    requires NoDaySkipped(list, batch, z, grace)
    requires ActiveBefore(list, t, grace) != ActiveAfter(list, batch, t, grace)
    ensures LocalDayStart(t, z) in MarkedDays(list, batch, z, grace)
  {
    hide LocalDayStart; hide MarkedDays; hide AssumedOpenEnd; hide SortedBy; hide LastAt; hide IsMidnight;
    AtTheSeam(list, batch, t, grace);
    SortedParts(list, batch);
    var last := |batch| - 1;
    if t < batch[0].ts {
      var end := list[|list| - 1].ts + grace;
      DayOrder(end, t, z, off);
      DayOrder(t, batch[0].ts, z, off);
      OwnDayMarked(list, batch, 0, z, grace);
    } else if ActiveBefore(list, t, grace) {
      InMarkedRange(list, batch, t, list[|list| - 1].ts + grace, z, off, grace);
    } else if Presence(batch[last].kind) {
      InMarkedRange(list, batch, t, batch[last].ts + grace, z, off, grace);
    } else {
      IndexAt(batch, t);
      var i: nat :| Current(batch, i, t);
      LastAtIndex(batch, i, t);
      assert i < last && Presence(batch[i].kind);
      BetweenEvents(list, batch, i, t, z, off, grace);
    }
  }

  lemma BetweenEvents(list: seq<Event>, batch: seq<Event>, i: nat, t: int, z: Zone, off: int, grace: int)
    requires Fixed(z, off) && InOrder(list + batch) && batch != [] && grace > 0
    requires i + 1 < |batch| && batch[0].ts <= t && batch[i].ts <= t < batch[i + 1].ts
    requires AssumedOpenEnd(list, grace).Some? ==> 0 < AssumedOpenEnd(list, grace).value <= t
    requires var d := LocalDayStart(batch[i].ts, z);
             LocalDayStart(batch[i + 1].ts, z) <= Max(d, PriorDay(list, z, grace, d)) + DAY
    ensures LocalDayStart(t, z) in MarkedDays(list, batch, z, grace)
  {
    hide LocalDayStart; hide MarkedDays; hide AssumedOpenEnd; hide SortedBy;
    OwnDayMarked(list, batch, i, z, grace);
    OwnDayMarked(list, batch, i + 1, z, grace);
    DayOrder(batch[i].ts, t, z, off);
    DayOrder(t, batch[i + 1].ts, z, off);
    var p := AssumedOpenEnd(list, grace);
    if p.Some? {
      DayOrder(p.value, t, z, off);
      DayOrder(batch[0].ts, t, z, off);
      if LocalDayStart(t, z) == LocalDayStart(p.value, z) {
        PriorDayMarked(list, batch, t, z, off, grace);
      }
    }
  }

  lemma PriorDayMarked(list: seq<Event>, batch: seq<Event>, t: int, z: Zone, off: int, grace: int)
    requires Fixed(z, off) && InOrder(list + batch) && batch != [] && grace > 0 && batch[0].ts <= t
    requires AssumedOpenEnd(list, grace).Some? && 0 < AssumedOpenEnd(list, grace).value
    requires LocalDayStart(t, z) == LocalDayStart(AssumedOpenEnd(list, grace).value, z)
    ensures LocalDayStart(t, z) in MarkedDays(list, batch, z, grace)
  {
    SortedParts(list, batch);
    FirstDayOfSorted(batch, z, off);
    var end := AssumedOpenEnd(list, grace).value;
    var spanEnd := Max(OrZero(AssumedOpenEnd(list, grace)), OrZero(AssumedOpenEnd(list + batch, grace)));
    DayOrder(batch[0].ts, t, z, off);
    DayOrder(end, spanEnd, z, off);
    WideDaysFixed(batch, spanEnd, z, off);
    MidnightsMeaning(FirstDay(batch, z), LocalDayStart(spanEnd, z) + 1, LocalDayStart(t, z));
    hide LocalDayStart; hide Midnights; hide AssumedOpenEnd; hide FirstDay; hide WideDays;
  }

  /** A day outside the events' own days and outside the widened range is not marked. */
  lemma NotMarked(list: seq<Event>, batch: seq<Event>, d: int, z: Zone, off: int, grace: int)
    requires Fixed(z, off) && InOrder(list + batch) && batch != [] && grace > 0
    requires forall i :: 0 <= i < |batch| ==> LocalDayStart(batch[i].ts, z) != d
    requires d < LocalDayStart(batch[0].ts, z) ||
             (AssumedOpenEnd(list + batch, grace) == None && PriorDay(list, z, grace, d - 1) < d)
    ensures d !in MarkedDays(list, batch, z, grace)
  {
    SortedParts(list, batch);
    FirstDayOfSorted(batch, z, off);
    var spanEnd := Max(OrZero(AssumedOpenEnd(list, grace)), OrZero(AssumedOpenEnd(list + batch, grace)));
    WideDaysFixed(batch, spanEnd, z, off);
    MidnightsMeaning(FirstDay(batch, z), LocalDayStart(spanEnd, z) + 1, d);
    assert d !in EventDays(batch, z);
    hide LocalDayStart; hide Midnights; hide AssumedOpenEnd; hide FirstDay; hide EventDays; hide WideDays;
  }

  /** A silence before the batch that leaves a day unmarked and changed. */
  lemma SkippedBefore(list: seq<Event>, batch: seq<Event>, z: Zone, off: int, grace: int) returns (t: int)
    requires Fixed(z, off) && InOrder(list + batch) && batch != [] && grace > 0
    requires LocalDayStart(batch[0].ts, z) > PriorDay(list, z, grace, LocalDayStart(batch[0].ts, z))
    ensures ActiveBefore(list, t, grace) != ActiveAfter(list, batch, t, grace)
    ensures LocalDayStart(t, z) !in MarkedDays(list, batch, z, grace)
  {
    t := AssumedOpenEnd(list, grace).value;
    AtTheSeam(list, batch, t, grace);
    SortedParts(list, batch);
    if t >= batch[0].ts { DayOrder(batch[0].ts, t, z, off); }
    hide AssumedOpenEnd; hide MarkedDays;
    forall i | 0 <= i < |batch| ensures LocalDayStart(batch[i].ts, z) != LocalDayStart(t, z) {
      SortedAt(batch, TsOf, 0, i);
      DayOrder(batch[0].ts, batch[i].ts, z, off);
    }
    NotMarked(list, batch, LocalDayStart(t, z), z, off, grace);
  }

  /** A silence inside the batch that leaves a day unmarked and changed. */
  lemma SkippedInside(list: seq<Event>, batch: seq<Event>, i: nat, z: Zone, off: int, grace: int) returns (t: int)
    requires Fixed(z, off) && InOrder(list + batch) && batch != [] && grace > 0
    requires !Presence(batch[|batch| - 1].kind) && i + 1 < |batch| && Presence(batch[i].kind)
    requires var d := LocalDayStart(batch[i].ts, z);
             LocalDayStart(batch[i + 1].ts, z) > Max(d, PriorDay(list, z, grace, d)) + DAY
    ensures ActiveBefore(list, t, grace) != ActiveAfter(list, batch, t, grace)
    ensures LocalDayStart(t, z) !in MarkedDays(list, batch, z, grace)
  {
    var d := LocalDayStart(batch[i].ts, z);
    t := Max(d, PriorDay(list, z, grace, d)) + DAY;
    AtTheSeam(list, batch, t, grace);
    SortedParts(list, batch);
    DayContains(batch[i].ts, z, off);
    DayContains(batch[i + 1].ts, z, off);
    var p := AssumedOpenEnd(list, grace);
    if p.Some? { DayContains(p.value, z, off); }
    var from := if p.Some? && LocalDayStart(p.value, z) > d then p.value else batch[i].ts;
    DayContains(from, z, off);
    AddDaysFixed(LocalDayStart(from, z), 1, z, off);
    DayIsUnique(t, t, z, off);
    SortedAt(batch, TsOf, 0, i);
    SortedAt(batch, TsOf, i + 1, |batch| - 1);
    LastAtIndex(batch, i, t);
    hide AssumedOpenEnd; hide MarkedDays; hide LastAt; hide SortedBy; hide AddLocalDays; hide IsMidnight;
    assert ActiveAfter(list, batch, t, grace) && !ActiveBefore(list, t, grace);
    forall j | 0 <= j < |batch| ensures LocalDayStart(batch[j].ts, z) != t {
      if j <= i {
        SortedAt(batch, TsOf, j, i);
        DayOrder(batch[j].ts, batch[i].ts, z, off);
      } else {
        SortedAt(batch, TsOf, i + 1, j);
        DayOrder(batch[i + 1].ts, batch[j].ts, z, off);
      }
    }
    NotMarked(list, batch, t, z, off, grace);
  }

  /**
   * Dirty marking, exactly: for a batch that continues the machine's log in
   * timestamp order, in a fixed-offset zone, every changed day is marked if and
   * only if no whole day was passed over in silence.
   */
  lemma {:induction false} InOrderMarking(list: seq<Event>, batch: seq<Event>, z: Zone, off: int, grace: int)
    requires Fixed(z, off) && InOrder(list + batch) && batch != [] && grace > 0
    ensures AllChangesMarked(list, batch, z, grace) <==> NoDaySkipped(list, batch, z, grace)
  {
    if NoDaySkipped(list, batch, z, grace) {
      forall t, checkTime | t < checkTime && ChangesAt(list, batch, t, checkTime, grace)
        ensures LocalDayStart(t, z) in MarkedDays(list, batch, z, grace)
      {
        ChangeAsBeforeAfter(list, batch, t, checkTime, grace);
        ChangeIsMarked(list, batch, t, z, off, grace);
      }
    } else {
      var t: int;
      if LocalDayStart(batch[0].ts, z) > PriorDay(list, z, grace, LocalDayStart(batch[0].ts, z)) {
        t := SkippedBefore(list, batch, z, off, grace);
      } else {
        var i, j :| 0 <= i && j == i + 1 < |batch| && Presence(batch[i].kind) &&
          var d := LocalDayStart(batch[i].ts, z);
          LocalDayStart(batch[j].ts, z) > Max(d, PriorDay(list, z, grace, d)) + DAY;
        t := SkippedInside(list, batch, i, z, off, grace);
      }
      ChangeAsBeforeAfter(list, batch, t, t + 1, grace);
      assert ChangesAt(list, batch, t, t + 1, grace);
    }
  }

  // ---- the exact condition, for any log ------------------------------------

  /** No event is before the epoch. */
  predicate Timely(list: seq<Event>) { forall i :: 0 <= i < |list| ==> 0 <= list[i].ts }

  function LatestAbsence(list: seq<Event>): int {
    if list == [] then 0
    else
      var e, r := list[|list| - 1], LatestAbsence(list[..|list| - 1]);
      if Absence(e.kind) && e.ts > r then e.ts else r
  }

  lemma {:induction false} LatestAbsenceMeaning(list: seq<Event>, t: int)
    requires 0 <= t
    ensures AbsenceAfter(list, t) <==> t < LatestAbsence(list)
    ensures LatestAbsence(list) >= 0
  {
    if list != [] {
      var front, e := list[..|list| - 1], list[|list| - 1];
      assert list == front + [e];
      LatestAbsenceMeaning(front, t);
      AbsenceAfterSnoc(front, e, t);
    }
  }

  /** Where the activity a log shows comes to its end. */
  function Horizon(list: seq<Event>, grace: int): int { Max(LatestAbsence(list), LastAlive(list) + grace) }

  /** Before the check time, only the last event and the horizon decide. */
  lemma ActiveByHorizon(list: seq<Event>, t: int, checkTime: int, grace: int)
    requires Timely(list) && t < checkTime
    ensures ActiveAt(list, t, checkTime, grace) <==> PresentAt(list, t) && t < Horizon(list, grace)
    ensures PresentAt(list, t) ==> 0 <= t
  {
    LastAtMeaning(list, t);
    hide LastAt; hide LastAlive; hide LatestAbsence; hide AbsenceAfter;
    if 0 <= t { LatestAbsenceMeaning(list, t); }
  }

  lemma InHorizon(list: seq<Event>, e: Event, grace: int)
    requires e in list && grace >= 0
    ensures e.ts <= Horizon(list, grace)
  {
    LastAliveMeaning(list);
    if Absence(e.kind) && 0 < e.ts {
      assert AbsenceAfter(list, e.ts - 1);
      LatestAbsenceMeaning(list, e.ts - 1);
    } else {
      LatestAbsenceMeaning(list, 0);
    }
  }

  /** The `i`-th stretch of a sorted log ends with the next event, the last one at the horizon. */
  function StretchEnd(s: seq<Event>, i: nat, horizon: int): int
    requires i < |s|
  {
    if i + 1 < |s| then s[i + 1].ts else horizon
  }

  /**
   * The part of a stretch without events, from `a` to `b`, that changes when the log
   * grows to `all`: where the machine is present now and was not, or was no longer
   * counted, or was counted and is not present now.
   */
  function Switched(list: seq<Event>, all: seq<Event>, a: int, b: int, grace: int): Interval {
    if PresentAt(all, a) then Interval(if PresentAt(list, a) then Max(a, Horizon(list, grace)) else a, b)
    else if PresentAt(list, a) then Interval(a, Min(b, Horizon(list, grace)))
    else Interval(a, a)
  }

  /** Every day that a switched part overlaps is marked. A test on the stored and the new events. */
  predicate SwitchesMarked(list: seq<Event>, batch: seq<Event>, z: Zone, grace: int) {
    var all := list + batch;
    var s := SortBy(all, TsOf);
    forall i :: 0 <= i < |s| ==> DaysMarked(
      Switched(list, all, s[i].ts, StretchEnd(s, i, Horizon(all, grace)), grace), MarkedDays(list, batch, z, grace), z)
  }

  predicate DaysMarked(p: Interval, marked: set<int>, z: Zone) {
    p.start < p.end ==> Midnights(LocalDayStart(p.start, z), p.end) <= marked
  }

  lemma DaysMarkedMeaning(p: Interval, marked: set<int>, z: Zone, off: int)
    requires Fixed(z, off)
    ensures DaysMarked(p, marked, z) <==> forall t :: p.start <= t < p.end ==> LocalDayStart(t, z) in marked
  {
    hide LocalDayStart; hide Midnights; hide IsMidnight;
    var first := LocalDayStart(p.start, z);
    forall t | p.start <= t < p.end ensures LocalDayStart(t, z) in Midnights(first, p.end) {
      DayOrder(p.start, t, z, off);
      DayContains(t, z, off);
      MidnightsMeaning(first, p.end, LocalDayStart(t, z));
    }
    if p.start < p.end {
      forall d | d in Midnights(first, p.end) ensures exists t :: p.start <= t < p.end && LocalDayStart(t, z) == d {
        MidnightsMeaning(first, p.end, d);
        DayIn(p.start, d, z, off);
        assert LocalDayStart(Max(d, p.start), z) == d;
      }
    }
  }

  lemma DayIn(a: int, d: int, z: Zone, off: int)
    requires Fixed(z, off) && LocalDayStart(a, z) <= d && (d - LocalDayStart(a, z)) % DAY == 0
    ensures LocalDayStart(Max(d, a), z) == d
  {
    DayContains(a, z, off);
    var first := LocalDayStart(a, z);
    AddDaysFixed(first, (d - first) / DAY, z, off);
    if a < d {
      DayIsUnique(d, d, z, off);
    } else {
      SameRemainder(d + DAY, first, first);
    }
  }

  /** Between neighbours of the sorted log nothing happens. */
  lemma QuietStretch(all: seq<Event>, i: nat, t: int, horizon: int)
    requires var s := SortBy(all, TsOf); i < |s| && s[i].ts <= t < StretchEnd(s, i, horizon)
    ensures forall e :: e in all && e.ts <= t ==> e.ts <= SortBy(all, TsOf)[i].ts
  {
    var s := SortBy(all, TsOf);
    hide SortBy; hide SortedBy;
    forall e | e in all && e.ts <= t ensures e.ts <= s[i].ts {
      SortByElements(all, TsOf, e);
      var j :| 0 <= j < |s| && s[j] == e;
      if j <= i { SortedAt(s, TsOf, j, i); } else { SortedAt(s, TsOf, i + 1, j); }
    }
  }

  lemma SwitchedMeaning(list: seq<Event>, batch: seq<Event>, i: nat, t: int, checkTime: int, grace: int)
    requires Timely(list + batch) && grace >= 0 && t < checkTime
    requires var s := SortBy(list + batch, TsOf);
             i < |s| && s[i].ts <= t < StretchEnd(s, i, Horizon(list + batch, grace))
    ensures var s := SortBy(list + batch, TsOf);
            var p := Switched(list, list + batch, s[i].ts, StretchEnd(s, i, Horizon(list + batch, grace)), grace);
            ChangesAt(list, batch, t, checkTime, grace) <==> p.start <= t < p.end
  {
    var all := list + batch;
    var s := SortBy(all, TsOf);
    hide SortBy; hide LastAt; hide ActiveAt; hide Horizon;
    assert forall j :: 0 <= j < |list| ==> all[j] == list[j];
    QuietStretch(all, i, t, Horizon(all, grace));
    LastAtQuiet(all, s[i].ts, t);
    assert forall e :: e in list ==> e in all;
    LastAtQuiet(list, s[i].ts, t);
    ActiveByHorizon(list, t, checkTime, grace);
    ActiveByHorizon(all, t, checkTime, grace);
    if i + 1 < |s| {
      SortByElements(all, TsOf, s[i + 1]);
      InHorizon(all, s[i + 1], grace);
    }
  }

  /** Every changed instant lies in a stretch. */
  lemma ChangeInStretch(list: seq<Event>, batch: seq<Event>, t: int, checkTime: int, grace: int) returns (i: nat)
    requires Timely(list + batch) && grace >= 0 && t < checkTime && ChangesAt(list, batch, t, checkTime, grace)
    ensures var s := SortBy(list + batch, TsOf);
            i < |s| && s[i].ts <= t < StretchEnd(s, i, Horizon(list + batch, grace))
  {
    var all := list + batch;
    var s := SortBy(all, TsOf);
    hide SortBy; hide LastAt; hide ActiveAt; hide Horizon;
    assert forall j :: 0 <= j < |list| ==> all[j] == list[j];
    ActiveByHorizon(list, t, checkTime, grace);
    ActiveByHorizon(all, t, checkTime, grace);
    SomethingBefore(list, t);
    SomethingBefore(all, t);
    var e: Event :| e in all && e.ts <= t;
    SortByElements(all, TsOf, e);
    SortedAtFirst(s, e);
    IndexAt(s, t);
    i :| Current(s, i, t);
    HorizonGrows(list, batch, grace);
  }

  lemma SomethingBefore(list: seq<Event>, t: int)
    ensures PresentAt(list, t) ==> exists e :: e in list && e.ts <= t
  {
    LastAtMeaning(list, t);
  }

  lemma SortedAtFirst(s: seq<Event>, e: Event)
    requires SortedBy(s, TsOf) && e in s
    ensures s != [] && s[0].ts <= e.ts
  {
    var j :| 0 <= j < |s| && s[j] == e;
    SortedAt(s, TsOf, 0, j);
  }

  lemma {:induction false} HorizonGrows(list: seq<Event>, batch: seq<Event>, grace: int)
    ensures Horizon(list, grace) <= Horizon(list + batch, grace)
  {
    if batch == [] {
      assert list + batch == list;
    } else {
      var front, e := batch[..|batch| - 1], batch[|batch| - 1];
      HorizonGrows(list, front, grace);
      assert list + batch == (list + front) + [e];
      assert (list + batch)[..|list + batch| - 1] == list + front;
    }
  }

  /**
   * Dirty marking, exactly, for any log and any batch with timestamps from the epoch
   * on, in a zone with one offset: every day the batch changes is marked if and only
   * if every day is marked that overlaps a stretch, between neighbouring events or
   * from the last one to the horizon, which the batch switches.
   */
  lemma {:induction false} MarkingExact(list: seq<Event>, batch: seq<Event>, z: Zone, off: int, grace: int)
    requires Fixed(z, off) && Timely(list + batch) && grace >= 0
    ensures AllChangesMarked(list, batch, z, grace) <==> SwitchesMarked(list, batch, z, grace)
  {
    var all, marked := list + batch, MarkedDays(list, batch, z, grace);
    var s, h := SortBy(all, TsOf), Horizon(all, grace);
    hide SortBy; hide ChangesAt; hide MarkedDays; hide LocalDayStart; hide DaysMarked; hide Switched; hide StretchEnd;
    hide Horizon; hide Timely;
    forall t, checkTime | SwitchesMarked(list, batch, z, grace) && t < checkTime
                          && ChangesAt(list, batch, t, checkTime, grace)
      ensures LocalDayStart(t, z) in marked
    {
      var i := ChangeInStretch(list, batch, t, checkTime, grace);
      SwitchedMeaning(list, batch, i, t, checkTime, grace);
      DaysMarkedMeaning(Switched(list, all, s[i].ts, StretchEnd(s, i, h), grace), marked, z, off);
    }
    forall i | AllChangesMarked(list, batch, z, grace) && 0 <= i < |s|
      ensures DaysMarked(Switched(list, all, s[i].ts, StretchEnd(s, i, h), grace), marked, z)
    {
      var p := Switched(list, all, s[i].ts, StretchEnd(s, i, h), grace);
      forall t | p.start <= t < p.end ensures LocalDayStart(t, z) in marked {
        SwitchedInside(list, all, s[i].ts, StretchEnd(s, i, h), grace, t);
        SwitchedMeaning(list, batch, i, t, t + 1, grace);
      }
      DaysMarkedMeaning(p, marked, z, off);
    }
  }

  lemma SwitchedInside(list: seq<Event>, all: seq<Event>, a: int, b: int, grace: int, t: int)
    ensures var p := Switched(list, all, a, b, grace); p.start <= t < p.end ==> a <= t < b
  {
    hide LastAt; hide Horizon;
  }

  // ---- spacing is enough ---------------------------------------------------

  lemma {:induction false} SpacedAt(list: seq<Event>, grace: int, i: nat)
    requires Spaced(list, grace) && i + 1 < |list|
    ensures 0 <= list[i].ts <= list[i + 1].ts
    ensures Presence(list[i].kind) ==> list[i + 1].ts <= list[i].ts + grace
  {
    var front := list[..|list| - 1];
    if i + 1 < |list| - 1 {
      SpacedAt(front, grace, i);
    } else {
      assert front[|front| - 1] == list[i];
      assert front != [] && Spaced(front, grace);
    }
  }

  lemma {:induction false} SpacedNonNegative(list: seq<Event>, grace: int)
    requires Spaced(list, grace) && list != []
    ensures list[0].ts >= 0
  {
    if |list| > 1 { SpacedNonNegative(list[..|list| - 1], grace); }
  }

  lemma WithinGraceNextDay(a: int, b: int, z: Zone, off: int, grace: int)
    requires Fixed(z, off) && a <= b <= a + grace && grace <= DAY
    ensures LocalDayStart(b, z) <= LocalDayStart(a, z) + DAY
  {
    DayContains(a, z, off);
    AddDaysFixed(LocalDayStart(a, z), 1, z, off);
    DayIsUnique(a + DAY, LocalDayStart(a, z) + DAY, z, off);
    DayOrder(b, a + DAY, z, off);
  }

  lemma SpacedSeam(list: seq<Event>, batch: seq<Event>, z: Zone, off: int, grace: int)
    requires Fixed(z, off) && Spaced(list + batch, grace) && InOrder(list + batch) && batch != [] && 0 < grace <= DAY
    ensures LocalDayStart(batch[0].ts, z) <= PriorDay(list, z, grace, LocalDayStart(batch[0].ts, z))
  {
    hide LocalDayStart;
    AtTheSeam(list, batch, 0, grace);
    if list != [] {
      SpacedAt(list + batch, grace, |list| - 1);
      assert (list + batch)[|list| - 1] == list[|list| - 1] && (list + batch)[|list|] == batch[0];
      if Presence(list[|list| - 1].kind) { DayOrder(batch[0].ts, list[|list| - 1].ts + grace, z, off); }
    }
  }

  /** When every event after a presence comes within the grace, ingest marks every changed day. */
  lemma {:induction false} SpacedMarkingSuffices(list: seq<Event>, batch: seq<Event>, z: Zone, off: int, grace: int)
    requires Fixed(z, off) && Spaced(list + batch, grace) && 0 < grace <= DAY
    ensures AllChangesMarked(list, batch, z, grace)
  {
    var all := list + batch;
    if batch == [] {
      assert all == list;
    } else {
      SpacedIsSorted(all, grace);
      SpacedNonNegative(all, grace);
      hide LocalDayStart; hide SortedBy; hide Spaced; hide MarkedDays; hide AssumedOpenEnd; hide ActiveAt;
      SpacedSeam(list, batch, z, off, grace);
      forall i, j | 0 <= i && j == i + 1 < |batch| && Presence(batch[i].kind)
        ensures LocalDayStart(batch[j].ts, z) <= LocalDayStart(batch[i].ts, z) + DAY
      {
        SpacedAt(all, grace, |list| + i);
        assert all[|list| + i] == batch[i] && all[|list| + i + 1] == batch[j];
        WithinGraceNextDay(batch[i].ts, batch[j].ts, z, off, grace);
      }
      InOrderMarking(list, batch, z, off, grace);
    }
  }

  // ---- and order is needed -------------------------------------------------

  /**
   * A late batch that is not in order can change a day it does not mark, with every
   * silence short: an active at 23:55 arrives after the idle at 23:00, the active at
   * 00:10 and the idle at 01:00 were stored. The ten minutes after midnight change.
   */
  lemma LateBatchMissesDay()
    ensures var utc: Zone := (t: int) => 0;
            var list := [Event(82_800_000, Idle), Event(87_000_000, Active), Event(90_000_000, Idle)];
            var batch := [Event(86_100_000, Active)];
            && ChangesAt(list, batch, 86_500_000, 200_000_000, 900_000)
            && LocalDayStart(86_500_000, utc) == DAY
            && DAY !in MarkedDays(list, batch, utc, 900_000)
  {
    var utc: Zone := (t: int) => 0;
    var e := Event(86_100_000, Active);
    var list := [Event(82_800_000, Idle), Event(87_000_000, Active), Event(90_000_000, Idle)];
    LateBatchActivity(list, e, 86_500_000, 200_000_000, 900_000);
    LateBatchEnds(list, e);
    assert EventDays([e], utc) == {0};
    hide LastAt; hide Latest; hide LastAlive; hide AbsenceAfter; hide ActiveAt; hide EventDays;
    assert DaysFrom(0, 1, utc) == {0} by { DaysFromFixed(0, 1, utc, 0); MidnightsFirst(0, 1); MidnightsFirst(DAY, 1); }
  }

  lemma LateBatchActivity(list: seq<Event>, e: Event, t: int, checkTime: int, grace: int)
    requires list == [Event(82_800_000, Idle), Event(87_000_000, Active), Event(90_000_000, Idle)]
    requires e == Event(86_100_000, Active) && t == 86_500_000
    ensures !ActiveAt(list, t, checkTime, grace) && ActiveAt(list + [e], t, checkTime, grace)
  {
    var a, b, c := list[0], list[1], list[2];
    assert list == ([a] + [b]) + [c] && [a] == [] + [a];
    assert LastAt([], t) == None;
    assert c in list + [e] && AbsenceAfter(list + [e], t);
    hide LastAt; hide LastAlive; hide AbsenceAfter;
    LastAtOfSnoc([], a, t);
    LastAtOfSnoc([a], b, t);
    LastAtOfSnoc([a] + [b], c, t);
    LastAtOfSnoc(list, e, t);
  }

  lemma LateBatchEnds(list: seq<Event>, e: Event)
    requires list == [Event(82_800_000, Idle), Event(87_000_000, Active), Event(90_000_000, Idle)]
    requires e == Event(86_100_000, Active)
    ensures AssumedOpenEnd(list, 900_000) == None && AssumedOpenEnd(list + [e], 900_000) == None
  {
    var a, b, c := list[0], list[1], list[2];
    assert list == ([a] + [b]) + [c] && [a] == [] + [a];
    assert Latest([]) == None;
    hide Latest;
    LatestOfSnoc([], a);
    LatestOfSnoc([a], b);
    LatestOfSnoc([a] + [b], c);
    LatestOfSnoc(list, e);
  }

  lemma LatestOfSnoc(list: seq<Event>, e: Event)
    ensures Latest(list + [e]) == if Latest(list).None? || Latest(list).value.ts <= e.ts then Some(e) else Latest(list)
  {
    assert (list + [e])[..|list + [e]| - 1] == list;
  }

  /** A lone idle two days after the last sign of life: the day between is not marked. */
  lemma LoneIdleSkipsDay()
    ensures var utc: Zone := (t: int) => 0;
            var list, batch := [Event(0, Active)], [Event(2 * DAY, Idle)];
            && !NoDaySkipped(list, batch, utc, 900_000)
            && !AllChangesMarked(list, batch, utc, 900_000)
  {
    var utc: Zone := (t: int) => 0;
    var list, batch := [Event(0, Active)], [Event(2 * DAY, Idle)];
    LatestOfSnoc([], list[0]);
    assert [] + list == list;
    var all := list + batch;
    assert all[..|all| - 1] == list && list[..0] == [];
    InOrderMarking(list, batch, utc, 0, 900_000);
  }
}
