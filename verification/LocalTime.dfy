/**
 * Local days and weeks (worktime/time.ts). A zone is the function from an instant
 * to the minutes to add to UTC; nothing is assumed of it unless a lemma says so.
 */
module LocalTime {
  type Zone = int -> int

  const MINUTE := 60_000
  const DAY := 86_400_000

  function MinuteOfDay(ts: int, z: Zone): int {
    (ts + z(ts) * MINUTE) % DAY / MINUTE
  }

  function LocalDayStart(ts: int, z: Zone): int {
    var off := z(ts) * MINUTE;
    (ts + off) / DAY * DAY - off
  }

  function AddLocalDays(dayStart: int, n: int, z: Zone): int {
    var approx := dayStart + n * DAY;
    LocalDayStart(approx + (720 - MinuteOfDay(approx, z)) * MINUTE, z)
  }

  /** 0 is Monday. The epoch was a Thursday. */
  function WeekdayMon0(ts: int, z: Zone): int {
    var sun0 := (4 + (ts + z(ts) * MINUTE) / DAY) % 7;
    (sun0 + 6) % 7
  }

  function LocalWeekStart(ts: int, z: Zone): int {
    var dayStart := LocalDayStart(ts, z);
    AddLocalDays(dayStart, -WeekdayMon0(dayStart, z), z)
  }

  predicate IsMidnight(d: int, z: Zone) {
    (d + z(d) * MINUTE) % DAY == 0
  }

  ghost predicate Fixed(z: Zone, off: int) {
    forall t :: z(t) == off
  }

  // ---- any zone ------------------------------------------------------------

  /** The day of an instant, in any zone: the whole days before it on its own clock. */
  lemma {:induction false} DayExactly(ts: int, d: int, z: Zone)
    ensures LocalDayStart(ts, z) == d <==> d <= ts < d + DAY && (d + z(ts) * MINUTE) % DAY == 0
  {
    var off := z(ts) * MINUTE;
    var k := (ts + off) / DAY;
    assert k * DAY <= ts + off < k * DAY + DAY;
    DivOfMultiple(k, 0);
    if d <= ts < d + DAY && (d + off) % DAY == 0 {
      var j := (d + off) / DAY;
      assert d + off == j * DAY;
      assert j == k;
    }
  }

  /** The weekday, in any zone: the local 1 January 1970 was a Thursday, 3, and days follow on. */
  lemma {:induction false} WeekdayExactly(ts: int, n: int, z: Zone)
    requires n * DAY <= ts + z(ts) * MINUTE < (n + 1) * DAY
    ensures WeekdayMon0(ts, z) == (3 + n) % 7
  {
    DivOfMultiple(n, ts + z(ts) * MINUTE - n * DAY);
    FromThursday(n);
  }

  lemma FromThursday(n: int)
    ensures ((4 + n) % 7 + 6) % 7 == (3 + n) % 7
  {
  }

  /** Stepping a day at a time never stands still or goes back. */
  ghost predicate Advances(z: Zone) {
    forall ts :: LocalDayStart(ts, z) < AddLocalDays(LocalDayStart(ts, z), 1, z)
  }

  /** The noon that stepping one day from `d` probes. */
  function Probe(d: int, z: Zone): int {
    d + DAY + (720 - MinuteOfDay(d + DAY, z)) * MINUTE
  }

  /** The days a loop visits that starts at `from` and steps a local day until `until`. */
  function DaysFrom(from: int, until: int, z: Zone): set<int>
    decreases until - from
  {
    if from >= until then {}
    else
      var next := AddLocalDays(from, 1, z);
      {from} + if next > from then DaysFrom(next, until, z) else {}
  }

  lemma DaysFromDone(until: int, z: Zone)
    ensures forall d :: until <= d ==> DaysFrom(d, until, z) == {}
  {
    hide AddLocalDays;
  }

  /** One turn of such a loop. */
  lemma DaysFromStep(at: int, until: int, z: Zone)
    requires Advances(z) && LocalDayStart(at, z) < until
    ensures var d := LocalDayStart(at, z);
            var next := AddLocalDays(d, 1, z);
            d < next == LocalDayStart(Probe(d, z), z) && DaysFrom(d, until, z) == {d} + DaysFrom(next, until, z)
  {
    hide LocalDayStart; hide MinuteOfDay;
  }

  // ---- zones with one offset -----------------------------------------------

  lemma {:induction false} DayContains(ts: int, z: Zone, off: int)
    requires Fixed(z, off)
    ensures var d := LocalDayStart(ts, z); IsMidnight(d, z) && d <= ts < d + DAY
  {
  }

  /** The day of an instant is the only midnight that begins it. */
  lemma {:induction false} DayIsUnique(ts: int, d: int, z: Zone, off: int)
    requires Fixed(z, off) && IsMidnight(d, z) && d <= ts < d + DAY
    ensures LocalDayStart(ts, z) == d
  {
    var a, b := (ts + off * MINUTE) / DAY, (d + off * MINUTE) / DAY;
    assert d + off * MINUTE == b * DAY;
  }

  lemma {:induction false} AddDaysFixed(d: int, n: int, z: Zone, off: int)
    requires Fixed(z, off) && IsMidnight(d, z)
    ensures AddLocalDays(d, n, z) == d + n * DAY && IsMidnight(d + n * DAY, z)
  {
    var k := (d + off * MINUTE) / DAY;
    assert d + off * MINUTE == k * DAY;
    var approx := d + n * DAY;
    assert approx + off * MINUTE == (k + n) * DAY;
    DivOfMultiple(k + n, 0);
    DivOfMultiple(k + n, 720 * MINUTE);
    assert MinuteOfDay(approx, z) == 0;
  }

  lemma DivOfMultiple(k: int, r: int)
    requires 0 <= r < DAY
    ensures (k * DAY + r) / DAY == k && (k * DAY + r) % DAY == r
  {
  }

  /** The local week starts on a Monday midnight and holds the instant. */
  lemma {:induction false} WeekContains(ts: int, z: Zone, off: int)
    requires Fixed(z, off)
    ensures var w := LocalWeekStart(ts, z);
            IsMidnight(w, z) && WeekdayMon0(w, z) == 0 && w <= ts < w + 7 * DAY
  {
    var d := LocalDayStart(ts, z);
    DayContains(ts, z, off);
    AddDaysFixed(d, -WeekdayMon0(d, z), z, off);
    WeekdayOfDay(d, -WeekdayMon0(d, z), z, off);
  }

  lemma WeekdayOfDay(d: int, n: int, z: Zone, off: int)
    requires Fixed(z, off) && IsMidnight(d, z)
    ensures WeekdayMon0(d + n * DAY, z) == (WeekdayMon0(d, z) + n) % 7
  {
    var k := (d + off * MINUTE) / DAY;
    assert d + off * MINUTE == k * DAY;
    assert d + n * DAY + off * MINUTE == (k + n) * DAY;
    DivOfMultiple(k, 0);
    DivOfMultiple(k + n, 0);
    assert WeekdayMon0(d, z) == ((4 + k) % 7 + 6) % 7;
    assert WeekdayMon0(d + n * DAY, z) == ((4 + (k + n)) % 7 + 6) % 7;
    hide *;
    ShiftedWeekday(k, n);
  }

  lemma ShiftedWeekday(k: int, n: int)
    ensures ((4 + (k + n)) % 7 + 6) % 7 == (((4 + k) % 7 + 6) % 7 + n) % 7
  {
  }

  /** Days come in order, a whole number of days apart. */
  lemma DayOrder(a: int, b: int, z: Zone, off: int)
    requires Fixed(z, off) && a <= b
    ensures LocalDayStart(a, z) <= LocalDayStart(b, z)
    ensures (LocalDayStart(b, z) - LocalDayStart(a, z)) % DAY == 0
    ensures LocalDayStart(a, z) < LocalDayStart(b, z) ==> LocalDayStart(a, z) + DAY <= LocalDayStart(b, z)
  {
    var x, y := (a + off * MINUTE) / DAY, (b + off * MINUTE) / DAY;
    assert LocalDayStart(b, z) - LocalDayStart(a, z) == (y - x) * DAY;
    DivOfMultiple(y - x, 0);
    if x < y { assert (y - x) * DAY >= DAY; }
  }

  /** The midnights from `from` on, a day apart, that lie before `to`. */
  function Midnights(from: int, to: int): set<int> {
    set k | 0 <= k < (to - from + DAY - 1) / DAY :: from + k * DAY
  }

  lemma MidnightsMeaning(from: int, to: int, d: int)
    ensures d in Midnights(from, to) <==> from <= d < to && (d - from) % DAY == 0
  {
    if d in Midnights(from, to) {
      var k :| 0 <= k < (to - from + DAY - 1) / DAY && d == from + k * DAY;
      DivOfMultiple(k, 0);
      assert k * DAY <= to - from - 1;
    }
    if from <= d < to && (d - from) % DAY == 0 {
      var k := (d - from) / DAY;
      assert d == from + k * DAY;
      assert 0 <= k < (to - from + DAY - 1) / DAY;
    }
  }

  /** With one offset the loop visits exactly the midnights. */
  lemma {:induction false} DaysFromFixed(from: int, until: int, z: Zone, off: int)
    requires Fixed(z, off) && IsMidnight(from, z)
    ensures DaysFrom(from, until, z) == Midnights(from, until)
    decreases until - from
  {
    hide AddLocalDays; hide Midnights; hide IsMidnight;
    MidnightsFirst(from, until);
    if from < until {
      AddDaysFixed(from, 1, z, off);
      DaysFromFixed(from + DAY, until, z, off);
    }
  }

  lemma MidnightsFirst(from: int, until: int)
    ensures Midnights(from, until) == if from < until then {from} + Midnights(from + DAY, until) else {}
  {
    hide Midnights;
    var rest := if from < until then {from} + Midnights(from + DAY, until) else {};
    forall d ensures d in Midnights(from, until) <==> d in rest {
      MidnightsMeaning(from, until, d);
      MidnightsMeaning(from + DAY, until, d);
      NextMultiple(d - from);
    }
  }

  lemma NextMultiple(x: int)
    ensures (x - DAY) % DAY == x % DAY
    ensures 0 < x && x % DAY == 0 ==> DAY <= x
  {
  }

  lemma FixedAdvances(z: Zone, off: int)
    requires Fixed(z, off)
    ensures Advances(z)
  {
    forall ts ensures LocalDayStart(ts, z) < AddLocalDays(LocalDayStart(ts, z), 1, z) {
      DayContains(ts, z, off);
      AddDaysFixed(LocalDayStart(ts, z), 1, z, off);
    }
  }

  lemma SameRemainder(d: int, x: int, from: int)
    requires (d - from) % DAY == 0 && (x - from) % DAY == 0 && x < d
    ensures x <= d - DAY
  {
  }

  // ---- zones that change their clocks --------------------------------------

  /** Where one local day's step lands from the day of an instant, and when it gets ahead. */
  lemma {:induction false} StepLands(ts: int, z: Zone)
    requires var d := LocalDayStart(ts, z);
             -720 <= z(d + DAY) - z(ts) <= 720 && -720 <= z(Probe(d, z)) - z(d + DAY) < 720
    ensures var d := LocalDayStart(ts, z);
            && AddLocalDays(d, 1, z) ==
               d + z(ts) * MINUTE + (if z(d + DAY) >= z(ts) then DAY else 0) - z(Probe(d, z)) * MINUTE
            && (z(Probe(d, z)) - z(ts) < 1440 ==>
                  (d < AddLocalDays(d, 1, z) <==> z(d + DAY) >= z(ts) || z(Probe(d, z)) < z(ts)))
  {
    var d := LocalDayStart(ts, z);
    var a, b, c := z(ts), z(d + DAY), z(Probe(d, z));
    DayExactly(ts, d, z);
    var k := (d + a * MINUTE) / DAY;
    assert d + a * MINUTE == k * DAY;
    var approx := d + DAY;
    var shift := (b - a) * MINUTE;
    assert approx + b * MINUTE == (k + 1) * DAY + shift;
    var q, r := if shift >= 0 then k + 1 else k, if shift >= 0 then shift else DAY + shift;
    DivOfMultiple(q, r);
    var m := MinuteOfDay(approx, z);
    assert m == r / MINUTE && r == m * MINUTE;
    var probe := Probe(d, z);
    assert probe + c * MINUTE == q * DAY + (720 + c - b) * MINUTE;
    DivOfMultiple(q, (720 + c - b) * MINUTE);
  }

  /**
   * From a midnight the step reaches the next local midnight exactly when the offset
   * did not go down in the 24 hours and the noon probed has it still. A clock set back
   * before then lands on the same date again; a clock changed between that midnight
   * and noon misses it by the change.
   */
  lemma {:induction false} NextDayExact(d: int, z: Zone)
    requires IsMidnight(d, z)
    requires -720 <= z(d + DAY) - z(d) <= 720 && -720 <= z(Probe(d, z)) - z(d + DAY) < 720
    ensures var next := d + z(d) * MINUTE + DAY - z(d + DAY) * MINUTE;
            AddLocalDays(d, 1, z) == next <==> z(d + DAY) >= z(d) && z(Probe(d, z)) == z(d + DAY)
  {
    hide AddLocalDays; hide LocalDayStart; hide Probe;
    DayExactly(d, d, z);
    StepLands(d, z);
  }

  /** Helsinki's spring: +2 h until 01:00 UTC, +3 h after. Saturday's step misses Sunday's midnight by an hour. */
  lemma {:induction false} SpringStepMissesMidnight()
    ensures var z: Zone := (t: int) => if t < 3_600_000 then 120 else 180;
            var d := -120 * MINUTE - DAY;
            && IsMidnight(d, z) && IsMidnight(d + DAY, z) && z(d + DAY) >= z(d)
            && AddLocalDays(d, 1, z) == d + DAY - 60 * MINUTE && !IsMidnight(AddLocalDays(d, 1, z), z)
  {
  }

  /** Helsinki's autumn: +3 h until 01:00 UTC, +2 h after. The day lasts one hour. */
  lemma {:induction false} AutumnDayLastsOneHour()
    ensures var z: Zone := (t: int) => if t < 3_600_000 then 180 else 120;
            var d := -180 * MINUTE;
            IsMidnight(d, z) && AddLocalDays(d, 1, z) == d + 60 * MINUTE
  {
  }
}
