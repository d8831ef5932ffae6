/** The correction table: rows with unique ids, each belonging to one ledger. */
module Corrections {
  import opened Events
  import opened Intervals
  import opened Day
  import opened DayLaws

  datatype Table = Table(rows: seq<Correction>, nextId: int)

  function Other(l: Ledger): Ledger { if l == Work then Personal else Work }

  function InsertRow(t: Table, kind: CorrectionKind, start: int, end: int, ledger: Ledger): Table {
    Table(t.rows + [Correction(kind, start, end, Some(t.nextId), ledger)], t.nextId + 1)
  }

  function Without(rows: seq<Correction>, id: int): seq<Correction> {
    if rows == [] then [] else (if rows[0].id == Some(id) then [] else [rows[0]]) + Without(rows[1..], id)
  }

  function DeleteRow(t: Table, id: int): Table { t.(rows := Without(t.rows, id)) }

  function DeleteRows(t: Table, ids: seq<int>): Table {
    if ids == [] then t else DeleteRow(DeleteRows(t, ids[..|ids| - 1]), ids[|ids| - 1])
  }

  function OfLedger(rows: seq<Correction>, ledger: Ledger): seq<Correction> {
    if rows == [] then []
    else (if rows[0].ledger == ledger then [rows[0]] else []) + OfLedger(rows[1..], ledger)
  }

  /** Every row has its own id, below the next one, and covers something. */
  ghost predicate WellFormed(t: Table) {
    && (forall c :: c in t.rows ==> c.id.Some? && c.id.value < t.nextId && c.start < c.end)
    && (forall c, d :: c in t.rows && d in t.rows && c.id == d.id ==> c == d)
  }

  /** A row of this ledger and kind covers `x`. */
  ghost predicate Has(rows: seq<Correction>, ledger: Ledger, kind: CorrectionKind, x: int) {
    exists c :: c in rows && c.ledger == ledger && c.kind == kind && c.start <= x < c.end
  }

  lemma {:induction false} OfLedgerMeaning(rows: seq<Correction>, ledger: Ledger, c: Correction)
    ensures c in OfLedger(rows, ledger) <==> c in rows && c.ledger == ledger
  {
    if rows != [] {
      OfLedgerMeaning(rows[1..], ledger, c);
      assert c in rows <==> c == rows[0] || c in rows[1..];
    }
  }

  lemma {:induction false} WithoutMeaning(rows: seq<Correction>, id: int, c: Correction)
    ensures c in Without(rows, id) <==> c in rows && c.id != Some(id)
  {
    if rows != [] {
      WithoutMeaning(rows[1..], id, c);
      assert c in rows <==> c == rows[0] || c in rows[1..];
    }
  }

  lemma {:induction false} DeleteMeaning(t: Table, ids: seq<int>, c: Correction)
    requires c.id.Some?
    ensures c in DeleteRows(t, ids).rows <==> c in t.rows && c.id.value !in ids
    ensures DeleteRows(t, ids).nextId == t.nextId
  {
    if ids != [] {
      var front, id := ids[..|ids| - 1], ids[|ids| - 1];
      assert ids == front + [id];
      DeleteMeaning(t, front, c);
      WithoutMeaning(DeleteRows(t, front).rows, id, c);
    }
  }

  lemma {:induction false} DeletedRowsWereThere(t: Table, ids: seq<int>, c: Correction)
    requires c in DeleteRows(t, ids).rows
    ensures c in t.rows
  {
    if ids != [] {
      WithoutMeaning(DeleteRows(t, ids[..|ids| - 1]).rows, ids[|ids| - 1], c);
      DeletedRowsWereThere(t, ids[..|ids| - 1], c);
    }
  }

  lemma InsertKeeps(t: Table, kind: CorrectionKind, start: int, end: int, ledger: Ledger)
    requires WellFormed(t) && start < end
    ensures WellFormed(InsertRow(t, kind, start, end, ledger))
  {
  }

  lemma DeleteKeeps(t: Table, ids: seq<int>)
    requires WellFormed(t)
    ensures WellFormed(DeleteRows(t, ids))
  {
    var u := DeleteRows(t, ids);
    forall c | c in u.rows ensures c in t.rows { DeletedRowsWereThere(t, ids, c); }
    DeleteMeaning(t, ids, Correction(AddWork, 0, 0, Some(0), Work));
  }

  lemma HasAfterInsert(t: Table, kind: CorrectionKind, start: int, end: int, ledger: Ledger,
                       l: Ledger, k: CorrectionKind, x: int)
    ensures Has(InsertRow(t, kind, start, end, ledger).rows, l, k, x) <==>
            Has(t.rows, l, k, x) || (l == ledger && k == kind && start <= x < end)
  {
    var rows := InsertRow(t, kind, start, end, ledger).rows;
    var row := Correction(kind, start, end, Some(t.nextId), ledger);
    assert row in rows;
    assert forall c :: c in rows <==> c in t.rows || c == row;
  }

  lemma HasAfterDelete(t: Table, ids: seq<int>, l: Ledger, k: CorrectionKind, x: int)
    requires WellFormed(t)
    ensures Has(DeleteRows(t, ids).rows, l, k, x) <==>
            exists c :: c in t.rows && c.ledger == l && c.kind == k && c.start <= x < c.end && c.id.value !in ids
  {
    var u := DeleteRows(t, ids);
    forall c | c in t.rows ensures c in u.rows <==> c.id.value !in ids { DeleteMeaning(t, ids, c); }
    forall c | c in u.rows ensures c in t.rows { DeletedRowsWereThere(t, ids, c); }
  }

  /** Counting in terms of the rows of a ledger. */
  lemma {:induction false} CountsByRows(
    active: seq<Interval>, rows: seq<Correction>, win: Interval, s: Settings, ledger: Ledger, x: int)
    requires x in Range(win)
    ensures var l := LayersOf(active, OfLedger(rows, ledger), win, s, ledger);
            && (x in Points(l.adds) <==> Has(rows, ledger, AddWork, x))
            && (x in Points(l.removes) <==> Has(rows, ledger, RemoveWork, x))
  {
    var cs := OfLedger(rows, ledger);
    forall c ensures c in cs <==> c in rows && c.ledger == ledger { OfLedgerMeaning(rows, ledger, c); }
    CorrectionPoints(cs, AddWork, win, x);
    CorrectionPoints(cs, RemoveWork, win, x);
    hide Points; hide ClampAll; hide OfKind; hide OfLedger; hide Range;
  }
}
