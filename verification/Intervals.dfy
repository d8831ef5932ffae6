/**
 * Half-open interval algebra over epoch milliseconds (worktime/interval.ts).
 *
 * A list of intervals denotes the finite set of instants it covers, `Points`.
 * A list is canonical when its intervals are non-empty, sorted and strictly
 * separated. Canonical lists and point sets are in bijection, and every
 * operation below is characterised by the set it denotes.
 */
module Intervals {
  import opened Sorting

  datatype Interval = Interval(start: int, end: int) {
    predicate IsEmpty() { end <= start }
    predicate Has(t: int) { start <= t < end }
    function Duration(): int { Max(0, end - start) }
  }

  function Max(a: int, b: int): int { if a > b then a else b }
  function Min(a: int, b: int): int { if a < b then a else b }
  function StartOf(i: Interval): int { i.start }

  ghost function Range(i: Interval): set<int> {
    set t | i.start <= t < i.end && i.Has(t)
  }

  ghost function Points(s: seq<Interval>): set<int> {
    if s == [] then {} else Range(s[0]) + Points(s[1..])
  }

  ghost predicate Canonical(s: seq<Interval>) {
    s != [] ==>
      && s[0].start < s[0].end
      && (|s| > 1 ==> s[0].end < s[1].start)
      && Canonical(s[1..])
  }

  /** Non-empty intervals no two of which share an instant, in any order. */
  ghost predicate Disjoint(s: seq<Interval>) {
    && (forall i :: 0 <= i < |s| ==> s[i].start < s[i].end)
    && (forall i, j :: 0 <= i < j < |s| ==> s[i].end <= s[j].start || s[j].end <= s[i].start)
  }

  function Total(s: seq<Interval>): int {
    if s == [] then 0 else s[0].Duration() + Total(s[1..])
  }

  // ---- the denotation ------------------------------------------------------

  lemma {:induction false} InPoints(s: seq<Interval>, t: int)
    ensures t in Points(s) <==> exists i :: 0 <= i < |s| && s[i].start <= t < s[i].end
  {
    if s != [] {
      InPoints(s[1..], t);
      if t in Points(s[1..]) {
        var i :| 0 <= i < |s[1..]| && s[1..][i].start <= t < s[1..][i].end;
        assert s[i + 1].start <= t < s[i + 1].end;
      }
      if i :| 0 <= i < |s| && s[i].start <= t < s[i].end {
        if i > 0 { assert s[1..][i - 1].start <= t < s[1..][i - 1].end; }
      }
    }
  }

  lemma {:induction false} PointsOfConcat(a: seq<Interval>, b: seq<Interval>)
    ensures Points(a + b) == Points(a) + Points(b)
  {
    if a == [] {
      assert a + b == b;
    } else {
      assert (a + b)[1..] == a[1..] + b;
      PointsOfConcat(a[1..], b);
    }
  }

  lemma PointsOfOne(i: Interval)
    ensures Points([i]) == Range(i)
  {
    assert [i][1..] == [];
  }

  lemma PointsOfSnoc(s: seq<Interval>, i: Interval)
    ensures Points(s + [i]) == Points(s) + Range(i)
  {
    PointsOfConcat(s, [i]);
    PointsOfOne(i);
  }

  /** What the first `k` intervals cover. */
  ghost function PointsUpTo(s: seq<Interval>, k: nat): set<int>
    requires k <= |s|
  {
    if k == 0 then {} else PointsUpTo(s, k - 1) + Range(s[k - 1])
  }

  lemma {:induction false} PointsUpToPrefix(s: seq<Interval>, k: nat)
    requires k <= |s|
    ensures PointsUpTo(s, k) == Points(s[..k])
  {
    if k > 0 {
      PointsUpToPrefix(s, k - 1);
      assert s[..k] == s[..k - 1] + [s[k - 1]];
      PointsOfSnoc(s[..k - 1], s[k - 1]);
    }
  }

  lemma PointsUpToAll(s: seq<Interval>)
    ensures PointsUpTo(s, |s|) == Points(s)
  {
    PointsUpToPrefix(s, |s|);
    assert s[..|s|] == s;
  }

  /** The denotation does not look at the order of the list. */
  lemma PointsOfPermutation(a: seq<Interval>, b: seq<Interval>)
    requires multiset(a) == multiset(b)
    ensures Points(a) == Points(b)
  {
    forall t ensures t in Points(a) <==> t in Points(b) {
      InPoints(a, t);
      InPoints(b, t);
      if i :| 0 <= i < |a| && a[i].start <= t < a[i].end {
        assert a[i] in multiset(b);
        assert a[i] in b;
      }
      if i :| 0 <= i < |b| && b[i].start <= t < b[i].end {
        assert b[i] in multiset(a);
        assert b[i] in a;
      }
    }
  }

  lemma {:induction false} CanonicalTail(s: seq<Interval>)
    requires Canonical(s) && s != []
    ensures Canonical(s[1..])
    ensures forall t :: t in Points(s[1..]) ==> s[0].end < t
    ensures s[0].start in Points(s) && s[0].end !in Points(s)
  {
    assert s[0].start in Range(s[0]);
    if |s| > 1 {
      CanonicalTail(s[1..]);
      assert s[1..][0] == s[1];
    } else {
      assert s[1..] == [];
    }
  }

  lemma CanonicalCons(x: Interval, s: seq<Interval>)
    requires !x.IsEmpty() && Canonical(s)
    requires forall t :: t in Points(s) ==> x.end < t
    ensures Canonical([x] + s) && Points([x] + s) == Range(x) + Points(s)
  {
    assert ([x] + s)[1..] == s;
    if s != [] {
      CanonicalTail(s);
      assert ([x] + s)[1] == s[0];
    }
  }

  lemma {:induction false} CanonicalConcat(a: seq<Interval>, b: seq<Interval>)
    requires Canonical(a) && Canonical(b)
    requires forall x, y :: x in Points(a) && y in Points(b) ==> x + 1 < y
    ensures Canonical(a + b)
  {
    if a == [] {
      assert a + b == b;
    } else {
      CanonicalTail(a);
      CanonicalConcat(a[1..], b);
      assert (a + b)[1..] == a[1..] + b;
      assert a[0].end - 1 in Range(a[0]);
      if b != [] { CanonicalTail(b); }
      if |a + b| > 1 { assert (a + b)[1] == if |a| > 1 then a[1] else b[0]; }
    }
  }

  lemma {:induction false} CanonicalSplit(a: seq<Interval>, b: seq<Interval>)
    requires Canonical(a + b)
    ensures Canonical(a) && Canonical(b)
    ensures forall x, y :: x in Points(a) && y in Points(b) ==> x + 1 < y
  {
    if a == [] {
      assert a + b == b;
    } else {
      CanonicalTail(a + b);
      assert (a + b)[1..] == a[1..] + b;
      CanonicalSplit(a[1..], b);
      PointsOfConcat(a[1..], b);
    }
  }

  /** The pairwise reading of the recursive definition. */
  lemma {:induction false} CanonicalPairs(s: seq<Interval>)
    requires Canonical(s)
    ensures forall i :: 0 <= i < |s| ==> s[i].start < s[i].end
    ensures forall i, j :: 0 <= i < j < |s| ==> s[i].end < s[j].start
  {
    if s != [] {
      CanonicalPairs(s[1..]);
      CanonicalTail(s);
      forall j | 0 < j < |s| ensures s[0].end < s[j].start {
        assert s[j] == s[1..][j - 1];
        InPoints(s[1..], s[j].start);
      }
      forall i, j | 0 <= i < j < |s| ensures s[i].end < s[j].start {
        if i > 0 { assert s[i] == s[1..][i - 1] && s[j] == s[1..][j - 1]; }
      }
      forall i | 0 <= i < |s| ensures s[i].start < s[i].end {
        if i > 0 { assert s[i] == s[1..][i - 1]; }
      }
    }
  }

  /** A point set has exactly one canonical list. */
  lemma {:induction false} CanonicalUnique(a: seq<Interval>, b: seq<Interval>)
    requires Canonical(a) && Canonical(b) && Points(a) == Points(b)
    ensures a == b
  {
    if a == [] {
      if b != [] { CanonicalTail(b); }
    } else {
      CanonicalTail(a);
      assert b != [];
      CanonicalTail(b);
      var x, y := a[0], b[0];
      assert x.start == y.start;
      assert x.end in Range(y) <==> y.start <= x.end < y.end;
      assert y.end in Range(x) <==> x.start <= y.end < x.end;
      assert x == y;
      assert Points(a[1..]) == Points(a) - Range(a[0]);
      assert Points(b[1..]) == Points(b) - Range(b[0]);
      CanonicalUnique(a[1..], b[1..]);
      assert a == [a[0]] + a[1..] && b == [b[0]] + b[1..];
    }
  }

  // ---- measure -------------------------------------------------------------

  lemma {:induction false} RangeSize(i: Interval)
    ensures |Range(i)| == i.Duration()
    decreases i.Duration()
  {
    if i.start < i.end {
      var k := Interval(i.start, i.end - 1);
      RangeSize(k);
      assert Range(i) == Range(k) + {i.end - 1};
    } else {
      assert Range(i) == {};
    }
  }

  /** Summing durations of pairwise disjoint intervals counts the instants covered. */
  lemma {:induction false} DisjointMeasure(s: seq<Interval>)
    requires Disjoint(s)
    ensures Total(s) == |Points(s)|
  {
    if s != [] {
      DisjointMeasure(s[1..]);
      RangeSize(s[0]);
      forall t | t in Points(s[1..]) ensures t !in Range(s[0]) { InPoints(s[1..], t); }
      assert Range(s[0]) !! Points(s[1..]);
    }
  }

  // ---- mergeIntervals ------------------------------------------------------

  /** Add one interval to a canonical list, absorbing whatever it touches. */
  function Insert(i: Interval, c: seq<Interval>): (r: seq<Interval>)
    requires !i.IsEmpty() && Canonical(c)
    ensures Canonical(r) && Points(r) == Range(i) + Points(c)
    decreases |c|
  {
    if c == [] then
      PointsOfOne(i);
      [i]
    else
      CanonicalTail(c);
      if i.end < c[0].start then
        assert forall t :: t in Points(c) ==> i.end < t;
        CanonicalCons(i, c);
        [i] + c
      else if c[0].end < i.start then
        var r := Insert(i, c[1..]);
        CanonicalCons(c[0], r);
        [c[0]] + r
      else
        var k := Interval(Min(i.start, c[0].start), Max(i.end, c[0].end));
        assert Range(k) == Range(i) + Range(c[0]);
        Insert(k, c[1..])
  }

  /** The canonical list of everything `s` covers. */
  function Merge(s: seq<Interval>): (r: seq<Interval>)
    ensures Canonical(r) && Points(r) == Points(s)
  {
    if s == [] then []
    else if s[0].IsEmpty() then
      assert Range(s[0]) == {};
      Merge(s[1..])
    else Insert(s[0], Merge(s[1..]))
  }

  lemma {:induction false} MergeOfCanonical(s: seq<Interval>)
    requires Canonical(s)
    ensures Merge(s) == s
  {
    CanonicalUnique(Merge(s), s);
  }

  function NonEmpty(s: seq<Interval>): (r: seq<Interval>)
    ensures forall i :: 0 <= i < |r| ==> !r[i].IsEmpty()
    ensures Points(r) == Points(s)
  {
    if s == [] then []
    else if s[0].IsEmpty() then
      assert Range(s[0]) == {};
      NonEmpty(s[1..])
    else
      var r := NonEmpty(s[1..]);
      assert ([s[0]] + r)[1..] == r;
      [s[0]] + r
  }

  /** `filter` and `sort`, as the sweep receives them. */
  function SweepOrder(s: seq<Interval>): (r: seq<Interval>)
    ensures Points(r) == Points(s)
    ensures forall i :: 0 <= i < |r| ==> !r[i].IsEmpty()
    ensures forall i, j :: 0 <= i < j < |r| ==> r[i].start <= r[j].start
  {
    var kept := NonEmpty(s);
    var r := SortBy(kept, StartOf);
    PointsOfPermutation(r, kept);
    assert forall i :: 0 <= i < |r| ==> !r[i].IsEmpty() by {
      forall i | 0 <= i < |r| ensures !r[i].IsEmpty() { SortByElements(kept, StartOf, r[i]); }
    }
    assert forall i, j :: 0 <= i < j < |r| ==> r[i].start <= r[j].start by {
      forall i, j | 0 <= i < j < |r| ensures r[i].start <= r[j].start { SortedAt(r, StartOf, i, j); }
    }
    r
  }

  lemma SweepExtend(out: seq<Interval>, i: Interval)
    requires Canonical(out) && out != [] && !i.IsEmpty()
    requires out[|out| - 1].start <= i.start <= out[|out| - 1].end
    ensures var last := out[|out| - 1];
            var grown := out[|out| - 1 := Interval(last.start, Max(last.end, i.end))];
            Canonical(grown) && Points(grown) == Points(out) + Range(i)
  {
    var front, last := out[..|out| - 1], out[|out| - 1];
    var grown := Interval(last.start, Max(last.end, i.end));
    assert out == front + [last];
    assert out[|out| - 1 := grown] == front + [grown];
    PointsOfSnoc(front, last);
    PointsOfSnoc(front, grown);
    CanonicalSplit(front, [last]);
    PointsOfOne(last);
    PointsOfOne(grown);
    assert last.start in Points([last]);
    assert Range(grown) == Range(last) + Range(i);
    assert forall y :: y in Range(grown) ==> last.start <= y;
    CanonicalConcat(front, [grown]);
  }

  lemma SweepPush(out: seq<Interval>, i: Interval)
    requires Canonical(out) && !i.IsEmpty()
    requires out != [] ==> out[|out| - 1].end < i.start
    ensures Canonical(out + [i]) && Points(out + [i]) == Points(out) + Range(i)
  {
    PointsOfSnoc(out, i);
    PointsOfOne(i);
    forall x | x in Points(out) ensures x + 1 < i.start {
      CanonicalPairs(out);
      InPoints(out, x);
    }
    CanonicalConcat(out, [i]);
  }

  /** Sort by start, then sweep once: the one-pass form of `Merge`. */
  method MergeIntervals(intervals: seq<Interval>) returns (out: seq<Interval>)
    ensures out == Merge(intervals)
  {
    var sorted := SweepOrder(intervals);
    out := [];
    assert Points(out) == {} && Canonical(out);
    hide Points; hide Canonical; hide Range;
    for k := 0 to |sorted|
      invariant Canonical(out)
      invariant Points(out) == PointsUpTo(sorted, k)
      invariant out != [] && k < |sorted| ==> out[|out| - 1].start <= sorted[k].start
    {
      var i := sorted[k];
      if out != [] && i.start <= out[|out| - 1].end {
        SweepExtend(out, i);
        var last := out[|out| - 1];
        out := out[|out| - 1 := Interval(last.start, Max(last.end, i.end))];
      } else {
        SweepPush(out, i);
        out := out + [i];
      }
    }
    PointsUpToAll(sorted);
    CanonicalUnique(out, Merge(intervals));
  }

  /** Total covered time, overlaps counted once. */
  function TotalDuration(s: seq<Interval>): (n: int)
    ensures n == |Points(s)|
  {
    CanonicalPairs(Merge(s));
    DisjointMeasure(Merge(s));
    Total(Merge(s))
  }

  // ---- clamp ---------------------------------------------------------------

  /** Zero or one interval: the part of `i` inside the window. */
  function Clamp(i: Interval, win: Interval): (r: seq<Interval>)
    ensures Points(r) == Range(i) * Range(win)
    ensures |r| <= 1 && (r != [] ==> !r[0].IsEmpty() && i.start <= r[0].start && r[0].end <= i.end)
  {
    var c := Interval(Max(i.start, win.start), Min(i.end, win.end));
    assert Range(c) == Range(i) * Range(win);
    PointsOfOne(c);
    if c.end > c.start then [c] else []
  }

  function ClampEach(s: seq<Interval>, win: Interval): (r: seq<Interval>)
    ensures Points(r) == Points(s) * Range(win)
    ensures forall i :: 0 <= i < |r| ==> !r[i].IsEmpty()
  {
    if s == [] then []
    else
      PointsOfConcat(Clamp(s[0], win), ClampEach(s[1..], win));
      Clamp(s[0], win) + ClampEach(s[1..], win)
  }

  lemma {:induction false} ClampEachKeepsCanonical(s: seq<Interval>, win: Interval)
    requires Canonical(s)
    ensures Canonical(ClampEach(s, win))
  {
    if s != [] {
      CanonicalTail(s);
      ClampEachKeepsCanonical(s[1..], win);
      var c, r := Clamp(s[0], win), ClampEach(s[1..], win);
      if c != [] {
        assert c == [c[0]];
        CanonicalCons(c[0], r);
      } else {
        assert c + r == r;
      }
    }
  }

  // ---- subtract ------------------------------------------------------------

  function CutPiece(p: Interval, c: Interval): (r: seq<Interval>)
    requires !p.IsEmpty() && !c.IsEmpty()
    ensures Canonical(r) && Points(r) == Range(p) - Range(c)
  {
    if c.end <= p.start || c.start >= p.end then
      PointsOfOne(p);
      [p]
    else
      var left := if c.start > p.start then [Interval(p.start, c.start)] else [];
      var right := if c.end < p.end then [Interval(c.end, p.end)] else [];
      PointsOfOne(Interval(p.start, c.start));
      PointsOfOne(Interval(c.end, p.end));
      PointsOfConcat(left, right);
      left + right
  }

  function CutOne(pieces: seq<Interval>, c: Interval): (r: seq<Interval>)
    requires Canonical(pieces) && !c.IsEmpty()
    ensures Canonical(r) && Points(r) == Points(pieces) - Range(c)
  {
    if pieces == [] then []
    else
      CanonicalTail(pieces);
      var a, b := CutPiece(pieces[0], c), CutOne(pieces[1..], c);
      PointsOfConcat(a, b);
      CanonicalConcat(a, b);
      a + b
  }

  function CutAll(pieces: seq<Interval>, cuts: seq<Interval>): (r: seq<Interval>)
    requires Canonical(pieces) && Canonical(cuts)
    ensures Canonical(r) && Points(r) == Points(pieces) - Points(cuts)
    decreases |cuts|
  {
    if cuts == [] then pieces else CutAll(CutOne(pieces, cuts[0]), cuts[1..])
  }

  /** The canonical list of what `base` covers and `cut` does not. */
  function Subtract(base: seq<Interval>, cut: seq<Interval>): (r: seq<Interval>)
    ensures Canonical(r) && Points(r) == Points(base) - Points(cut)
  {
    CutAll(Merge(base), Merge(cut))
  }

  lemma CutShift(done: seq<Interval>, pieces: seq<Interval>, j: nat, c: Interval)
    requires j < |pieces| && Canonical(pieces[j..]) && !c.IsEmpty()
    ensures !pieces[j].IsEmpty() && Canonical(pieces[j + 1..])
    ensures done + CutOne(pieces[j..], c) == (done + CutPiece(pieces[j], c)) + CutOne(pieces[j + 1..], c)
  {
    assert pieces[j..][0] == pieces[j] && pieces[j..][1..] == pieces[j + 1..];
  }

  lemma CutPieceParts(p: Interval, c: Interval)
    requires !p.IsEmpty() && !c.IsEmpty()
    ensures CutPiece(p, c) ==
            if c.end <= p.start || c.start >= p.end then [p]
            else (if c.start > p.start then [Interval(p.start, c.start)] else [])
                 + (if c.end < p.end then [Interval(c.end, p.end)] else [])
  {
  }

  /** The inner loop of `subtract`: one cut through every piece. */
  method CutPieces(pieces: seq<Interval>, c: Interval) returns (next: seq<Interval>)
    requires Canonical(pieces) && !c.IsEmpty()
    ensures next == CutOne(pieces, c)
  {
    next := [];
    assert pieces[0..] == pieces && pieces[|pieces|..] == [] && CutOne([], c) == [];
    hide Points; hide Canonical; hide CutOne; hide CutPiece;
    for j := 0 to |pieces|
      invariant Canonical(pieces[j..])
      invariant next + CutOne(pieces[j..], c) == CutOne(pieces, c)
    {
      var p := pieces[j];
      CutShift(next, pieces, j, c);
      CutPieceParts(p, c);
      var kept: seq<Interval> := [];
      if c.end <= p.start || c.start >= p.end {
        kept := [p];
      } else {
        if c.start > p.start { kept := kept + [Interval(p.start, c.start)]; }
        if c.end < p.end { kept := kept + [Interval(c.end, p.end)]; }
      }
      assert kept == CutPiece(p, c);
      next := next + kept;
    }
  }

  /** The outer loop of `subtract`. */
  method SubtractIntervals(base: seq<Interval>, cut: seq<Interval>) returns (pieces: seq<Interval>)
    ensures pieces == Subtract(base, cut)
  {
    hide Points; hide Canonical; hide Range;
    var cuts := MergeIntervals(cut);
    pieces := MergeIntervals(base);
    CanonicalPairs(cuts);
    for k := 0 to |cuts|
      invariant Canonical(pieces)
      invariant Points(pieces) == Points(base) - PointsUpTo(cuts, k)
    {
      pieces := CutPieces(pieces, cuts[k]);
    }
    PointsUpToAll(cuts);
    CanonicalUnique(pieces, Subtract(base, cut));
  }

  // ---- gaps ----------------------------------------------------------------

  function GapsOf(m: seq<Interval>): (r: seq<Interval>)
    requires Canonical(m)
    ensures Canonical(r)
    ensures forall t :: t in Points(r) ==> m != [] && m[0].end <= t
    ensures forall t :: t in Points(r) <==> Hole(Points(m), t)
  {
    if |m| < 2 then
      if m == [] then [] else
        assert m == [m[0]];
        PointsOfOne(m[0]);
        []
    else
      CanonicalTail(m);
      var g, r := Interval(m[0].end, m[1].start), GapsOf(m[1..]);
      HolesOfCons(m, g, r);
      [g] + r
  }

  /** `t` is not covered but something earlier and something later is. */
  ghost predicate Hole(p: set<int>, t: int) {
    t !in p && (exists a :: a in p && a < t) && (exists b :: b in p && t < b)
  }

  lemma HolesOfCons(m: seq<Interval>, g: Interval, r: seq<Interval>)
    requires Canonical(m) && |m| >= 2 && g == Interval(m[0].end, m[1].start)
    requires Canonical(r) && Canonical(m[1..])
    requires forall t :: t in Points(r) ==> m[1].end <= t
    requires forall t :: t in Points(r) <==> Hole(Points(m[1..]), t)
    ensures Canonical([g] + r) && Points([g] + r) == Range(g) + Points(r)
    ensures forall t :: t in Points([g] + r) <==> Hole(Points(m), t)
  {
    CanonicalTail(m);
    CanonicalTail(m[1..]);
    CanonicalCons(g, r);
    assert m[0].end - 1 in Range(m[0]) && m[1].start in Range(m[1]);
    forall t ensures t in Points([g] + r) <==> Hole(Points(m), t) {
      if t in Range(g) {
        assert m[0].end - 1 in Points(m) && m[1].start in Points(m);
      } else {
        HoleBehind(m, t);
      }
    }
  }

  /** Past the first hole, a hole of the list is a hole of its tail. */
  lemma HoleBehind(m: seq<Interval>, t: int)
    requires |m| >= 2 && Canonical(m) && Canonical(m[1..]) && !(m[0].end <= t < m[1].start)
    ensures Hole(Points(m), t) <==> Hole(Points(m[1..]), t)
  {
    CanonicalTail(m);
    CanonicalTail(m[1..]);
    assert m[1].start in Range(m[1]);
    if Hole(Points(m), t) {
      assert m[1].start < t;
    }
    if Hole(Points(m[1..]), t) {
      assert forall x :: x in Range(m[0]) ==> x < m[1].start;
    }
  }

  function Gaps(s: seq<Interval>): (r: seq<Interval>)
    ensures Canonical(r)
    ensures forall t :: t in Points(r) <==> Hole(Points(s), t)
  {
    GapsOf(Merge(s))
  }

  method GapsBetween(intervals: seq<Interval>) returns (out: seq<Interval>)
    ensures out == Gaps(intervals)
  {
    var merged := MergeIntervals(intervals);
    out := [];
    var i := 1;
    while i < |merged|
      invariant 1 <= i && (i <= |merged| || merged == [])
      invariant merged != [] ==> Canonical(merged[i - 1..])
      invariant merged != [] ==> out + GapsOf(merged[i - 1..]) == GapsOf(merged)
      invariant merged == [] ==> out == []
    {
      var prev, cur := merged[i - 1], merged[i];
      assert merged[i - 1..][0] == prev && merged[i - 1..][1] == cur;
      assert merged[i - 1..][1..] == merged[i..];
      if cur.start > prev.end { out := out + [Interval(prev.end, cur.start)]; }
      i := i + 1;
    }
  }
}
