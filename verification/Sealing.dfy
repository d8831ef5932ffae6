/**
 * Sealing as it runs (tenant-do.ts): each sealing loads the log around its day, then
 * waits for the registry's answer about machine roles, and only then writes the
 * rollup and takes the day off the dirty list. Other calls run while it waits.
 */
module Sealing {
  import opened Events
  import opened Intervals
  import opened LocalTime
  import opened Day
  import opened Week
  import opened Corrections
  import opened Marking
  import opened Store
  import opened Totals
  import opened StoreLaws

  /** The store, the dirty days read so far by some maintenance run, and the waiting sealings. */
  datatype Live = Live(st: State, listed: set<int>, flights: seq<Flight>)

  datatype Move =
    | Do(call: Call)                // an ingest, an edit, or a maintenance run that never waits
    | ListDirty                     // a maintenance run reads the dirty days
    | Load(day: int, now: int)      // it starts on one of them
    | Finish(i: nat)                // the registry has answered

  function Moved(w: Live, m: Move, cfg: Config): Live {
    match m
    case Do(call) => w.(st := Called(w.st, call, cfg))
    case ListDirty => w.(listed := w.listed + w.st.dirty)
    case Load(d, now) =>
      if d in w.listed && Elapsed(d, cfg, now) then
        w.(flights := w.flights + [Flight(d, now, LoadDay(w.st.events, cfg, d))])
      else w
    case Finish(i) =>
      if i < |w.flights| then
        w.(st := Finished(w.st, w.flights[i], cfg), flights := w.flights[..i] + w.flights[i + 1..])
      else w
  }

  const IDLE_STORE := Live(EMPTY, {}, [])

  function RunMoves(w: Live, ms: seq<Move>, cfg: Config): Live {
    if ms == [] then w else Moved(RunMoves(w, ms[..|ms| - 1], cfg), ms[|ms| - 1], cfg)
  }

  lemma RunMove(w: Live, ms: seq<Move>, m: Move, cfg: Config)
    ensures RunMoves(w, ms + [m], cfg) == Moved(RunMoves(w, ms, cfg), m, cfg)
  {
    assert (ms + [m])[..|ms + [m]| - 1] == ms;
  }

  // ---- edits made meanwhile ------------------------------------------------

  predicate IsEdit(c: Call) { c.DoAdd? || c.DoDelete? }

  predicate OnlyEdits(calls: seq<Call>) { forall i :: 0 <= i < |calls| ==> IsEdit(calls[i]) }

  function Edited(st: State, calls: seq<Call>, cfg: Config): State {
    if calls == [] then st else Called(Edited(st, calls[..|calls| - 1], cfg), calls[|calls| - 1], cfg)
  }

  lemma EditSnoc(st: State, calls: seq<Call>, call: Call, cfg: Config)
    ensures Edited(st, calls + [call], cfg) == Called(Edited(st, calls, cfg), call, cfg)
  {
    assert (calls + [call])[..|calls + [call]| - 1] == calls;
  }

  lemma OneEdit(st: State, call: Call, cfg: Config)
    requires IsEdit(call) && WellFormed(st.table)
    ensures Called(st, call, cfg).events == st.events && WellFormed(Called(st, call, cfg).table)
  {
    hide WellFormed; hide DaysFrom; hide LocalDayStart; hide AddLocalDays; hide WeekdayMon0;
    match call
    case DoAdd(kind, start, end, ledger) =>
      var day := LocalDayStart(start, cfg.settings.zone);
      var from := if kind == Holiday then day else start;
      var to := if kind == Holiday then AddLocalDays(day, 1, cfg.settings.zone) else end;
      if from < to { InsertKeeps(st.table, kind, from, to, if kind == Holiday then Work else ledger); }
    case DoDelete(id) =>
      DeleteKeeps(st.table, [id]);
      assert [id][..|[id]| - 1] == [];
      assert DeleteRows(st.table, [id]) == DeleteRow(st.table, id);
      hide FindRow; hide DeleteRow; hide DeleteRows;
  }

  lemma {:induction false} EditsKeep(st: State, calls: seq<Call>, cfg: Config)
    requires OnlyEdits(calls) && WellFormed(st.table)
    ensures Edited(st, calls, cfg).events == st.events && WellFormed(Edited(st, calls, cfg).table)
  {
    hide WellFormed; hide Called;
    if calls != [] {
      EditsKeep(st, calls[..|calls| - 1], cfg);
      OneEdit(Edited(st, calls[..|calls| - 1], cfg), calls[|calls| - 1], cfg);
    }
  }

  // ---- edits that show one instant -----------------------------------------

  function Deletes(ids: seq<int>): seq<Call> {
    if ids == [] then [] else Deletes(ids[..|ids| - 1]) + [DoDelete(ids[|ids| - 1])]
  }

  lemma {:induction false} DeletesAreEdits(ids: seq<int>)
    ensures OnlyEdits(Deletes(ids))
  {
    if ids != [] { DeletesAreEdits(ids[..|ids| - 1]); }
  }

  lemma {:induction false} AfterDeletes(st: State, ids: seq<int>, cfg: Config, c: Correction)
    requires c.id.Some?
    ensures c in Edited(st, Deletes(ids), cfg).table.rows ==> c in st.table.rows && c.id.value !in ids
  {
    if ids != [] {
      var front, id := ids[..|ids| - 1], ids[|ids| - 1];
      AfterDeletes(st, front, cfg, c);
      var before := Edited(st, Deletes(front), cfg);
      EditSnoc(st, Deletes(front), DoDelete(id), cfg);
      WithoutMeaning(before.table.rows, id, c);
      FindRowMeaning(before.table.rows, id);
      hide Edited; hide Without; hide FindRow; hide DaysFrom; hide LocalDayStart; hide Deletes;
    }
  }

  function IdsIn(rows: seq<Correction>): seq<int> {
    if rows == [] then []
    else (if rows[0].id.Some? then [rows[0].id.value] else []) + IdsIn(rows[1..])
  }

  lemma {:induction false} IdsInMeaning(rows: seq<Correction>, c: Correction)
    requires c in rows && c.id.Some?
    ensures c.id.value in IdsIn(rows)
  {
    if c != rows[0] { IdsInMeaning(rows[1..], c); }
  }

  /** Deleting every row empties the table. */
  lemma AllDeleted(st: State, cfg: Config)
    requires WellFormed(st.table)
    ensures Edited(st, Deletes(IdsIn(st.table.rows)), cfg).table.rows == []
  {
    var ids := IdsIn(st.table.rows);
    var rows := Edited(st, Deletes(ids), cfg).table.rows;
    DeletesAreEdits(ids);
    EditsKeep(st, Deletes(ids), cfg);
    hide Edited; hide IdsIn; hide Deletes;
    if rows != [] {
      AfterDeletes(st, ids, cfg, rows[0]);
      IdsInMeaning(st.table.rows, rows[0]);
    }
  }

  /** Clear the table, then remove everything of the window but one instant. */
  function ShowOnly(st: State, x: int, win: Interval, ledger: Ledger): seq<Call> {
    Deletes(IdsIn(st.table.rows))
    + [DoAdd(RemoveWork, win.start - 1, x, ledger)] + [DoAdd(RemoveWork, x + 1, win.end + 1, ledger)]
  }

  lemma ShowOnlyShows(st: State, x: int, win: Interval, ledger: Ledger, cfg: Config)
    requires WellFormed(st.table) && x in Range(win)
    ensures OnlyEdits(ShowOnly(st, x, win, ledger))
    ensures var done := Edited(st, ShowOnly(st, x, win, ledger), cfg);
            done.events == st.events && done.table == OnlyInstant(x, win, ledger, done.table.nextId - 2)
  {
    hide *;
    var clear := Deletes(IdsIn(st.table.rows));
    var first, second := DoAdd(RemoveWork, win.start - 1, x, ledger), DoAdd(RemoveWork, x + 1, win.end + 1, ledger);
    ShowOnlyIs(st, x, win, ledger);
    DeletesAreEdits(IdsIn(st.table.rows));
    TwoMore(clear, first, second);
    EditsKeep(st, clear, cfg);
    AllDeleted(st, cfg);
    EditSnoc(st, clear, first, cfg);
    EditSnoc(st, clear + [first], second, cfg);
    TwoRemoves(Edited(st, clear, cfg), x, win, ledger, cfg);
  }

  lemma ShowOnlyIs(st: State, x: int, win: Interval, ledger: Ledger)
    ensures ShowOnly(st, x, win, ledger) ==
            Deletes(IdsIn(st.table.rows)) + [DoAdd(RemoveWork, win.start - 1, x, ledger)]
            + [DoAdd(RemoveWork, x + 1, win.end + 1, ledger)]
    ensures x in Range(win) ==> win.start <= x < win.end
  {
    hide Deletes; hide IdsIn;
  }

  lemma TwoMore(calls: seq<Call>, a: Call, b: Call)
    requires OnlyEdits(calls) && a.DoAdd? && b.DoAdd?
    ensures OnlyEdits(calls + [a] + [b])
  {
  }

  lemma TwoRemoves(st: State, x: int, win: Interval, ledger: Ledger, cfg: Config)
    requires st.table.rows == [] && win.start <= x < win.end
    ensures var done := Called(Called(st, DoAdd(RemoveWork, win.start - 1, x, ledger), cfg),
                               DoAdd(RemoveWork, x + 1, win.end + 1, ledger), cfg);
            done.events == st.events && done.table == OnlyInstant(x, win, ledger, done.table.nextId - 2)
  {
    hide Called;
    var id := st.table.nextId;
    var a := Correction(RemoveWork, win.start - 1, x, Some(id), ledger);
    AddedRow(st, win.start - 1, x, ledger, cfg);
    AddedRow(Called(st, DoAdd(RemoveWork, win.start - 1, x, ledger), cfg), x + 1, win.end + 1, ledger, cfg);
    assert [] + [a] == [a];
  }

  lemma AddedRow(st: State, start: int, end: int, ledger: Ledger, cfg: Config)
    requires start < end
    ensures var done := Called(st, DoAdd(RemoveWork, start, end, ledger), cfg);
            && done.events == st.events
            && done.table == Table(st.table.rows + [Correction(RemoveWork, start, end, Some(st.table.nextId), ledger)],
                                   st.table.nextId + 1)
  {
    hide DaysFrom; hide LocalDayStart; hide AddLocalDays; hide WeekdayMon0;
  }

  // ---- one sealing ---------------------------------------------------------

  /** The day of a sealing is clean and right after it. */
  ghost predicate EndsRight(st: State, f: Flight, cfg: Config) {
    var done := Finished(st, f, cfg);
    f.day !in done.dirty && f.day in done.rollups && done.rollups[f.day] == Recomputed(done, cfg, f.day)
  }

  lemma EndsRightWhen(st: State, f: Flight, cfg: Config)
    ensures EndsRight(st, f, cfg) <==> SealedFrom(f.loaded, st.table, cfg, f.day, f.now) == Recomputed(st, cfg, f.day)
  {
    hide SealedFrom; hide SpansFrom; hide Recomputed;
    SameLogSameDay(st, Finished(st, f, cfg), cfg, f.day);
  }

  /**
   * A waiting sealing, exactly: whatever is edited before the registry answers, its
   * day ends clean and right, if and only if the rows it has loaded claim the
   * instants of the day that the log claims by then.
   */
  lemma {:induction false} FinishExact(st: State, f: Flight, cfg: Config)
    requires WellFormed(st.table)
    ensures (forall edits | OnlyEdits(edits) :: EndsRight(Edited(st, edits, cfg), f, cfg)) <==>
            Gives(f.loaded, f.now, st.events, cfg, f.day)
  {
    hide EndsRight; hide Edited; hide WellFormed; hide Gives; hide OnlyEdits;
    forall edits | OnlyEdits(edits) && Gives(f.loaded, f.now, st.events, cfg, f.day)
      ensures EndsRight(Edited(st, edits, cfg), f, cfg)
    {
      EditsKeep(st, edits, cfg);
      SealIsRecomputation(f.loaded, f.now, Edited(st, edits, cfg), cfg, f.day);
      EndsRightWhen(Edited(st, edits, cfg), f, cfg);
    }
    if !Gives(f.loaded, f.now, st.events, cfg, f.day) {
      var edits := EditsThatShow(st, f, cfg);
      assert OnlyEdits(edits) && !EndsRight(Edited(st, edits, cfg), f, cfg);
    }
  }

  /** An instant that only one of them claims, shown by edits. */
  lemma EditsThatShow(st: State, f: Flight, cfg: Config) returns (edits: seq<Call>)
    requires WellFormed(st.table) && !Gives(f.loaded, f.now, st.events, cfg, f.day)
    ensures OnlyEdits(edits) && !EndsRight(Edited(st, edits, cfg), f, cfg)
  {
    hide *;
    var l, x := ClaimsDiffer(f.loaded, f.now, st.events, cfg, f.day);
    var win := Window(f.day, cfg.settings);
    edits := ShowOnly(st, x, win, l);
    ShowOnlyShows(st, x, win, l, cfg);
    ShownWrong(st.events, Edited(st, edits, cfg), f, cfg, l, x);
  }

  lemma ShownWrong(log: seq<RawEvent>, st: State, f: Flight, cfg: Config, l: Ledger, x: int)
    requires st.events == log && st.table == OnlyInstant(x, Window(f.day, cfg.settings), l, st.table.nextId - 2)
    requires x in Measured(ForLedger(f.loaded, cfg.roles, l), f.day, cfg.settings, l, f.now) <==>
             x !in Measured(ForLedger(log, cfg.roles, l), f.day, cfg.settings, l, Window(f.day, cfg.settings).end)
    ensures !EndsRight(st, f, cfg)
  {
    hide *;
    DifferenceShows(ForLedger(f.loaded, cfg.roles, l), f.now, ForLedger(log, cfg.roles, l),
                    Window(f.day, cfg.settings).end, f.day, cfg.settings, l, x, st.table.nextId - 2);
    RollupShows(f.loaded, f.now, st, cfg, f.day, l);
    EndsRightWhen(st, f, cfg);
  }

  lemma ClaimsDiffer(loaded: seq<RawEvent>, now: int, log: seq<RawEvent>, cfg: Config, d: int)
    returns (l: Ledger, x: int)
    requires !Gives(loaded, now, log, cfg, d)
    ensures x in Measured(ForLedger(loaded, cfg.roles, l), d, cfg.settings, l, now) <==>
            x !in Measured(ForLedger(log, cfg.roles, l), d, cfg.settings, l, Window(d, cfg.settings).end)
    ensures x in Range(Window(d, cfg.settings))
  {
    hide Measured; hide ForLedger; hide Window; hide Range;
    l :| SealClaims(loaded, cfg, d, l, now) != Claims(log, cfg, d, l);
    var a, b := SealClaims(loaded, cfg, d, l, now), Claims(log, cfg, d, l);
    SetsDiffer(a, b);
    x :| x in a <==> x !in b;
    MeasuredInside(ForLedger(loaded, cfg.roles, l), d, cfg.settings, l, now);
    MeasuredInside(ForLedger(log, cfg.roles, l), d, cfg.settings, l, Window(d, cfg.settings).end);
  }

  lemma RollupShows(loaded: seq<RawEvent>, now: int, st: State, cfg: Config, d: int, l: Ledger)
    requires var s, end := cfg.settings, Window(d, cfg.settings).end;
             LedgerDay(ForLedger(loaded, cfg.roles, l), st.table, d, s, l, now).grossMs
             != LedgerDay(ForLedger(st.events, cfg.roles, l), st.table, d, s, l, end).grossMs
    ensures SealedFrom(loaded, st.table, cfg, d, now) != Recomputed(st, cfg, d)
  {
    SealedAsRollup(loaded, st.table, cfg, d, now);
    RecomputedAsRollup(st, cfg, d);
    hide SealedFrom; hide Recomputed; hide LedgerDay; hide ForLedger; hide Window;
  }

  // ---- runs ----------------------------------------------------------------

  /** Every sealing that ends has loaded what gives its day by then, and every call is allowed. */
  ghost predicate Answered(w: Live, m: Move, cfg: Config) {
    match m
    case Do(call) => Allowed(w.st, call, cfg)
    case Finish(i) =>
      i < |w.flights| ==> var f := w.flights[i]; Gives(f.loaded, f.now, w.st.events, cfg, f.day)
    case _ => true
  }

  ghost predicate AllAnswered(ms: seq<Move>, cfg: Config) {
    ms == [] ||
    (AllAnswered(ms[..|ms| - 1], cfg)
     && Answered(RunMoves(IDLE_STORE, ms[..|ms| - 1], cfg), ms[|ms| - 1], cfg))
  }

  ghost predicate Steady(w: Live, cfg: Config) {
    && Coherent(w.st, cfg)
    && (forall d :: d in w.listed ==> IsMidnight(d, cfg.settings.zone))
    && (forall f :: f in w.flights ==> IsMidnight(f.day, cfg.settings.zone))
  }

  lemma FinishKeeps(st: State, f: Flight, cfg: Config)
    requires Coherent(st, cfg) && IsMidnight(f.day, cfg.settings.zone)
    requires Gives(f.loaded, f.now, st.events, cfg, f.day)
    ensures Coherent(Finished(st, f, cfg), cfg)
  {
    hide SealedFrom; hide SpansFrom; hide Recomputed; hide Gives; hide IsMidnight; hide WellFormed;
    var done := Finished(st, f, cfg);
    SealIsRecomputation(f.loaded, f.now, st, cfg, f.day);
    forall d | d in done.rollups ensures Recomputed(done, cfg, d) == Recomputed(st, cfg, d) {
      SameLogSameDay(st, done, cfg, d);
    }
  }

  lemma MoveIsSteady(w: Live, m: Move, cfg: Config, off: int)
    requires Fixed(cfg.settings.zone, off) && Steady(w, cfg) && Answered(w, m, cfg)
    ensures Steady(Moved(w, m, cfg), cfg)
  {
    hide Coherent; hide Called; hide Allowed; hide IsMidnight; hide Elapsed; hide LoadDay; hide Finished; hide Gives;
    match m
    case Do(call) => CallKeeps(w.st, call, cfg, off);
    case ListDirty => DirtyAreMidnights(w.st, cfg);
    case Load(_, _) =>
    case Finish(i) =>
      if i < |w.flights| {
        assert w.flights[i] in w.flights;
        FinishKeeps(w.st, w.flights[i], cfg);
        assert forall g :: g in w.flights[..i] + w.flights[i + 1..] ==> g in w.flights;
      }
  }

  lemma DirtyAreMidnights(st: State, cfg: Config)
    requires Coherent(st, cfg)
    ensures forall d :: d in st.dirty ==> IsMidnight(d, cfg.settings.zone)
  {
    hide Recomputed; hide WellFormed; hide IsMidnight;
  }

  lemma {:induction false} RunIsSteady(ms: seq<Move>, cfg: Config, off: int)
    requires Fixed(cfg.settings.zone, off) && AllAnswered(ms, cfg)
    ensures Steady(RunMoves(IDLE_STORE, ms, cfg), cfg)
  {
    if ms == [] {
      EmptyIsCoherent(cfg);
      hide Coherent;
    } else {
      hide Steady; hide Answered; hide Moved;
      RunIsSteady(ms[..|ms| - 1], cfg, off);
      MoveIsSteady(RunMoves(IDLE_STORE, ms[..|ms| - 1], cfg), ms[|ms| - 1], cfg, off);
    }
  }

  /**
   * Sealing that waits: over every interleaving of ingests, edits and any number of
   * maintenance runs, clean rollups are right as long as each batch marks what it
   * changes and each sealing that ends has loaded what gives its day by then.
   */
  lemma {:induction false} WaitingSealsStayCoherent(ms: seq<Move>, cfg: Config, off: int)
    requires Fixed(cfg.settings.zone, off) && AllAnswered(ms, cfg)
    ensures var st := RunMoves(IDLE_STORE, ms, cfg).st;
            forall d :: d in st.rollups && d !in st.dirty ==> st.rollups[d] == Recomputed(st, cfg, d)
  {
    RunIsSteady(ms, cfg, off);
    SteadyIsCoherent(RunMoves(IDLE_STORE, ms, cfg), cfg);
    hide *;
  }

  lemma SteadyIsCoherent(w: Live, cfg: Config)
    requires Steady(w, cfg)
    ensures forall d :: d in w.st.rollups && d !in w.st.dirty ==> w.st.rollups[d] == Recomputed(w.st, cfg, d)
    ensures WellFormed(w.st.table)
  {
    hide Recomputed; hide WellFormed; hide IsMidnight;
  }

  function AsMoves(calls: seq<Call>): seq<Move> {
    if calls == [] then [] else AsMoves(calls[..|calls| - 1]) + [Do(calls[|calls| - 1])]
  }

  lemma {:induction false} RunEdits(w: Live, calls: seq<Call>, cfg: Config)
    ensures RunMoves(w, AsMoves(calls), cfg) == w.(st := Edited(w.st, calls, cfg))
  {
    hide Called;
    if calls != [] {
      RunEdits(w, calls[..|calls| - 1], cfg);
      RunMove(w, AsMoves(calls[..|calls| - 1]), Do(calls[|calls| - 1]), cfg);
      hide RunMoves; hide AsMoves;
    }
  }

  /** The day of the `i`-th waiting sealing is clean and right once these edits and its answer have come. */
  ghost predicate EndsRightAfter(w: Live, edits: seq<Call>, i: nat, cfg: Config)
    requires i < |w.flights|
  {
    var d := w.flights[i].day;
    var st := RunMoves(w, AsMoves(edits) + [Finish(i)], cfg).st;
    d !in st.dirty && d in st.rollups && st.rollups[d] == Recomputed(st, cfg, d)
  }

  lemma EndsRightInRun(w: Live, edits: seq<Call>, i: nat, cfg: Config)
    requires i < |w.flights|
    ensures EndsRightAfter(w, edits, i, cfg) <==> EndsRight(Edited(w.st, edits, cfg), w.flights[i], cfg)
  {
    hide RunMoves; hide AsMoves; hide Edited; hide Finished; hide Recomputed;
    RunEdits(w, edits, cfg);
    RunMove(w, AsMoves(edits), Finish(i), cfg);
  }

  lemma AnsweredIs(w: Live, i: nat, cfg: Config)
    requires i < |w.flights|
    ensures var f := w.flights[i];
            Answered(w, Finish(i), cfg) <==> Gives(f.loaded, f.now, w.st.events, cfg, f.day)
  {
    hide Gives;
  }

  /**
   * And the condition is needed, in every run that has met it so far: a waiting
   * sealing ends right whatever is edited until the registry answers, if and only if
   * what it has loaded gives its day.
   */
  lemma {:induction false} WaitingSealExact(ms: seq<Move>, i: nat, cfg: Config, off: int)
    requires Fixed(cfg.settings.zone, off) && AllAnswered(ms, cfg)
    requires i < |RunMoves(IDLE_STORE, ms, cfg).flights|
    ensures var w := RunMoves(IDLE_STORE, ms, cfg);
            (forall edits | OnlyEdits(edits) :: EndsRightAfter(w, edits, i, cfg)) <==>
            Answered(w, Finish(i), cfg)
  {
    var w := RunMoves(IDLE_STORE, ms, cfg);
    RunIsSteady(ms, cfg, off);
    AnsweredIs(w, i, cfg);
    hide *;
    SteadyIsCoherent(w, cfg);
    FinishExact(w.st, w.flights[i], cfg);
    forall edits ensures EndsRightAfter(w, edits, i, cfg) <==> EndsRight(Edited(w.st, edits, cfg), w.flights[i], cfg) {
      EndsRightInRun(w, edits, i, cfg);
    }
  }

  // ---- undisturbed runs ----------------------------------------------------

  /** What is loaded gives its day when it is loaded, and no batch marks a day whose sealing waits. */
  ghost predicate Undisturbed(w: Live, m: Move, cfg: Config) {
    match m
    case Do(call) =>
      && Allowed(w.st, call, cfg)
      && (call.DoIngest? && (call.machine, call.batch.batchSeq) !in w.st.batchSeen ==>
            forall f :: f in w.flights ==>
              f.day !in MarkedDays(EventsOf(w.st.events, call.machine), call.batch.events, cfg.settings.zone, GRACE_MS))
    case Load(d, now) => Gives(LoadDay(w.st.events, cfg, d), now, w.st.events, cfg, d)
    case _ => true
  }

  ghost predicate AllUndisturbed(ms: seq<Move>, cfg: Config) {
    ms == [] ||
    (AllUndisturbed(ms[..|ms| - 1], cfg)
     && Undisturbed(RunMoves(IDLE_STORE, ms[..|ms| - 1], cfg), ms[|ms| - 1], cfg))
  }

  ghost predicate AllGive(w: Live, cfg: Config) {
    forall f :: f in w.flights ==> Gives(f.loaded, f.now, w.st.events, cfg, f.day)
  }

  /** A call that marks no waiting day leaves the claims of all of them alone. */
  lemma CallKeepsGives(st: State, call: Call, cfg: Config, off: int, f: Flight)
    requires Fixed(cfg.settings.zone, off) && IsMidnight(f.day, cfg.settings.zone) && Allowed(st, call, cfg)
    requires Gives(f.loaded, f.now, st.events, cfg, f.day)
    requires call.DoIngest? && (call.machine, call.batch.batchSeq) !in st.batchSeen ==>
               f.day !in MarkedDays(EventsOf(st.events, call.machine), call.batch.events, cfg.settings.zone, GRACE_MS)
    ensures Gives(f.loaded, f.now, Called(st, call, cfg).events, cfg, f.day)
  {
    hide Claims; hide SealClaims; hide MarkedDays; hide EventsOf; hide IngestMarks; hide IsMidnight; hide DaysFrom;
    match call
    case DoIngest(m, batch) =>
      if (m, batch.batchSeq) !in st.batchSeen {
        UnmarkedSameClaims(st, m, batch, cfg, off, f.day);
        hide Ingested;
      }
    case DoAdd(_, _, _, _) =>
    case DoDelete(_) =>
    case DoMaintain(now) => NothingPruned(st.events, Cutoff(now));
  }

  lemma UndisturbedStep(w: Live, m: Move, cfg: Config, off: int)
    requires Fixed(cfg.settings.zone, off) && Steady(w, cfg) && AllGive(w, cfg) && Undisturbed(w, m, cfg)
    ensures Answered(w, m, cfg) && AllGive(Moved(w, m, cfg), cfg)
  {
    hide Coherent; hide Gives; hide IsMidnight; hide LoadDay; hide Elapsed; hide MarkedDays; hide EventsOf;
    match m
    case Do(call) =>
      hide Called; hide Allowed;
      forall f | f in w.flights ensures Gives(f.loaded, f.now, Called(w.st, call, cfg).events, cfg, f.day) {
        CallKeepsGives(w.st, call, cfg, off, f);
      }
    case ListDirty =>
    case Load(_, _) =>
    case Finish(i) =>
      hide SealedFrom; hide SpansFrom;
      if i < |w.flights| {
        assert w.flights[i] in w.flights;
        assert forall g :: g in w.flights[..i] + w.flights[i + 1..] ==> g in w.flights;
      }
  }

  /** It is enough that no batch marks a day while its sealing waits. */
  lemma {:induction false} UndisturbedIsAnswered(ms: seq<Move>, cfg: Config, off: int)
    requires Fixed(cfg.settings.zone, off) && AllUndisturbed(ms, cfg)
    ensures AllAnswered(ms, cfg) && AllGive(RunMoves(IDLE_STORE, ms, cfg), cfg)
  {
    if ms != [] {
      var front := ms[..|ms| - 1];
      hide Steady; hide Answered; hide Moved; hide Undisturbed; hide AllGive;
      UndisturbedIsAnswered(front, cfg, off);
      RunIsSteady(front, cfg, off);
      UndisturbedStep(RunMoves(IDLE_STORE, front, cfg), ms[|ms| - 1], cfg, off);
    }
  }
}
