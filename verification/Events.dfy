/** The wire vocabulary shared by the daemon and the backend. */
module Events {
  import opened Sorting

  datatype Option<T> = None | Some(value: T)

  datatype Kind = Active | Idle | Lock | Unlock | Login | Logout | Heartbeat

  /** One event of one machine. */
  datatype Event = Event(ts: int, kind: Kind)

  /** An event as the backend stores it. */
  datatype RawEvent = RawEvent(machine: string, ts: int, kind: Kind)

  function TsOf(e: Event): int { e.ts }

  /** Proves the machine was alive, and opens a span. */
  predicate Presence(k: Kind) { k.Active? || k.Login? || k.Unlock? || k.Heartbeat? }

  predicate Absence(k: Kind) { k.Idle? || k.Lock? || k.Logout? }

  /** The events of machine `m`, in the order they stand in the log. */
  function EventsOf(log: seq<RawEvent>, m: string): seq<Event> {
    if log == [] then []
    else
      var last, r := log[|log| - 1], EventsOf(log[..|log| - 1], m);
      if last.machine == m then r + [Event(last.ts, last.kind)] else r
  }

  lemma {:induction false} EventsOfMeaning(log: seq<RawEvent>, m: string, e: Event)
    ensures e in EventsOf(log, m) <==> RawEvent(m, e.ts, e.kind) in log
  {
    if log != [] {
      EventsOfMeaning(log[..|log| - 1], m, e);
      assert log == log[..|log| - 1] + [log[|log| - 1]];
    }
  }

  lemma {:induction false} EventsOfConcat(a: seq<RawEvent>, b: seq<RawEvent>, m: string)
    ensures EventsOf(a + b, m) == EventsOf(a, m) + EventsOf(b, m)
  {
    if b == [] {
      assert a + b == a;
    } else {
      assert (a + b)[..|a + b| - 1] == a + b[..|b| - 1];
      EventsOfConcat(a, b[..|b| - 1], m);
    }
  }

  function Later(r: Option<Event>, x: Event, t: int): Option<Event> {
    if x.ts <= t && (r.None? || r.value.ts <= x.ts) then Some(x) else r
  }

  /** The last event at or before `t` in stable timestamp order. */
  function LastAt(list: seq<Event>, t: int): Option<Event> {
    if list == [] then None
    else Later(LastAt(list[..|list| - 1], t), list[|list| - 1], t)
  }

  lemma {:induction false} LastAtMeaning(list: seq<Event>, t: int)
    ensures var r := LastAt(list, t);
            && (r.Some? ==> r.value in list && r.value.ts <= t)
            && (forall e :: e in list && e.ts <= t ==> r.Some? && e.ts <= r.value.ts)
  {
    if list != [] {
      LastAtMeaning(list[..|list| - 1], t);
      assert list == list[..|list| - 1] + [list[|list| - 1]];
    }
  }

  /** An absence of this machine lies after `t`. */
  ghost predicate AbsenceAfter(list: seq<Event>, t: int) {
    exists e :: e in list && Absence(e.kind) && t < e.ts
  }

  /** The latest presence, or 0, from which the engine starts counting. */
  function LastAlive(list: seq<Event>): int {
    if list == [] then 0
    else
      var last, r := list[|list| - 1], LastAlive(list[..|list| - 1]);
      if Presence(last.kind) && last.ts > r then last.ts else r
  }

  lemma {:induction false} LastAliveMeaning(list: seq<Event>)
    ensures LastAlive(list) >= 0
    ensures forall e :: e in list && Presence(e.kind) ==> e.ts <= LastAlive(list)
    ensures LastAlive(list) == 0 || exists e :: e in list && Presence(e.kind) && e.ts == LastAlive(list)
  {
    if list != [] {
      LastAliveMeaning(list[..|list| - 1]);
      assert list == list[..|list| - 1] + [list[|list| - 1]];
    }
  }

  ghost predicate SameEvents(a: seq<Event>, b: seq<Event>) {
    forall e :: e in a <==> e in b
  }

  lemma LastAliveOfSame(a: seq<Event>, b: seq<Event>)
    requires SameEvents(a, b)
    ensures LastAlive(a) == LastAlive(b)
  {
    LastAliveMeaning(a);
    LastAliveMeaning(b);
  }

  // ---- sorting does not change any of them ---------------------------------

  lemma LastAtOfSnoc(c: seq<Event>, x: Event, t: int)
    ensures LastAt(c + [x], t) == Later(LastAt(c, t), x, t)
  {
    assert (c + [x])[..|c + [x]| - 1] == c;
  }

  /** Nothing between `s` and `t`: the last event is the same at both. */
  lemma {:induction false} LastAtQuiet(list: seq<Event>, s: int, t: int)
    requires s <= t && forall e :: e in list && e.ts <= t ==> e.ts <= s
    ensures LastAt(list, s) == LastAt(list, t)
  {
    if list != [] {
      assert list == list[..|list| - 1] + [list[|list| - 1]];
      LastAtQuiet(list[..|list| - 1], s, t);
    }
  }

  lemma LastIsLatest(c: seq<Event>, e: Event)
    requires c != [] && SortedBy(c, TsOf) && e in c
    ensures e.ts <= c[|c| - 1].ts
  {
    SortedLast(c, TsOf, e);
  }

  lemma {:induction false} LastAtOfInsert(c: seq<Event>, x: Event, t: int)
    requires SortedBy(c, TsOf)
    ensures LastAt(InsertBy(c, x, TsOf), t) == Later(LastAt(c, t), x, t)
  {
    hide LastAt;
    if c == [] || TsOf(c[|c| - 1]) <= TsOf(x) {
      LastAtOfSnoc(c, x, t);
    } else {
      var front, l := c[..|c| - 1], c[|c| - 1];
      LastAtOfInsert(front, x, t);
      LastAtOfSnoc(InsertBy(front, x, TsOf), l, t);
      assert c == front + [l];
      LastAtOfSnoc(front, l, t);
      LastAtMeaning(front, t);
      if LastAt(front, t).Some? { LastIsLatest(c, LastAt(front, t).value); }
    }
  }

  lemma {:induction false} LastAtOfSorted(s: seq<Event>, t: int)
    ensures LastAt(SortBy(s, TsOf), t) == LastAt(s, t)
  {
    if s != [] {
      LastAtOfSorted(s[..|s| - 1], t);
      LastAtOfInsert(SortBy(s[..|s| - 1], TsOf), s[|s| - 1], t);
    }
  }

  lemma SortedSameEvents(s: seq<Event>)
    ensures SameEvents(s, SortBy(s, TsOf))
  {
    forall e ensures e in s <==> e in SortBy(s, TsOf) { SortByElements(s, TsOf, e); }
  }

  /** The events of one machine as rows of the log. */
  function ToLog(m: string, events: seq<Event>): seq<RawEvent> {
    if events == [] then []
    else ToLog(m, events[..|events| - 1]) + [RawEvent(m, events[|events| - 1].ts, events[|events| - 1].kind)]
  }

  lemma {:induction false} EventsOfLog(m: string, events: seq<Event>, x: string)
    ensures EventsOf(ToLog(m, events), x) == if x == m then events else []
  {
    if events != [] {
      EventsOfLog(m, events[..|events| - 1], x);
      var log := ToLog(m, events);
      assert log[..|log| - 1] == ToLog(m, events[..|events| - 1]);
    }
  }
}
