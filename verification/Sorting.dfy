/** JavaScript's `Array.prototype.sort` on a numeric key: a stable sort. */
module Sorting {

  ghost predicate SortedBy<T>(s: seq<T>, key: T -> int) {
    |s| < 2 || (SortedBy(s[..|s| - 1], key) && key(s[|s| - 2]) <= key(s[|s| - 1]))
  }

  /** Put `x` behind every element of the sorted `c` whose key is not larger. */
  function InsertBy<T>(c: seq<T>, x: T, key: T -> int): (r: seq<T>)
    ensures |r| == |c| + 1
    ensures multiset(r) == multiset(c) + multiset{x}
    ensures r[|r| - 1] == x || (c != [] && r[|r| - 1] == c[|c| - 1] && key(c[|c| - 1]) > key(x))
    ensures SortedBy(c, key) ==> SortedBy(r, key)
  {
    if c == [] || key(c[|c| - 1]) <= key(x) then
      assert (c + [x])[..|c|] == c;
      c + [x]
    else
      var front, l := c[..|c| - 1], c[|c| - 1];
      var r := InsertBy(front, x, key);
      assert c == front + [l];
      assert (r + [l])[..|r|] == r;
      assert front != [] ==> front[|front| - 1] == c[|c| - 2];
      r + [l]
  }

  function SortBy<T>(s: seq<T>, key: T -> int): (r: seq<T>)
    ensures |r| == |s|
    ensures multiset(r) == multiset(s)
    ensures SortedBy(r, key)
  {
    if s == [] then []
    else
      assert s == s[..|s| - 1] + [s[|s| - 1]];
      InsertBy(SortBy(s[..|s| - 1], key), s[|s| - 1], key)
  }

  /** A list already in order is left exactly as it is. */
  lemma {:induction false} SortByIdentity<T>(s: seq<T>, key: T -> int)
    requires SortedBy(s, key)
    ensures SortBy(s, key) == s
  {
    if s != [] {
      var front := s[..|s| - 1];
      SortByIdentity(front, key);
      assert s == front + [s[|s| - 1]];
      assert front != [] ==> front[|front| - 1] == s[|s| - 2];
    }
  }

  /** The elements of the sorted list are those of the list. */
  lemma SortByElements<T>(s: seq<T>, key: T -> int, x: T)
    ensures x in SortBy(s, key) <==> x in s
  {
    assert x in SortBy(s, key) <==> x in multiset(SortBy(s, key));
    assert x in s <==> x in multiset(s);
  }

  lemma {:induction false} SortedAt<T>(s: seq<T>, key: T -> int, i: nat, j: nat)
    requires SortedBy(s, key) && i <= j < |s|
    ensures key(s[i]) <= key(s[j])
  {
    if j < |s| - 1 {
      SortedAt(s[..|s| - 1], key, i, j);
    } else if i < j {
      SortedAt(s[..|s| - 1], key, i, j - 1);
    }
  }

  /** The last element of a sorted list has the largest key. */
  lemma SortedLast<T>(s: seq<T>, key: T -> int, x: T)
    requires s != [] && SortedBy(s, key) && x in s
    ensures key(x) <= key(s[|s| - 1])
  {
    var i :| 0 <= i < |s| && s[i] == x;
    SortedAt(s, key, i, |s| - 1);
  }

  function SumBy<T>(s: seq<T>, w: T -> int): int {
    if s == [] then 0 else SumBy(s[..|s| - 1], w) + w(s[|s| - 1])
  }

  lemma {:induction false} SumByConcat<T>(a: seq<T>, b: seq<T>, w: T -> int)
    ensures SumBy(a + b, w) == SumBy(a, w) + SumBy(b, w)
  {
    if b == [] {
      assert a + b == a;
    } else {
      assert (a + b)[..|a + b| - 1] == a + b[..|b| - 1];
      SumByConcat(a, b[..|b| - 1], w);
    }
  }

  lemma SumBySnoc<T>(s: seq<T>, x: T, w: T -> int)
    ensures SumBy(s + [x], w) == SumBy(s, w) + w(x)
  {
    assert (s + [x])[..|s + [x]| - 1] == s;
  }

  lemma {:induction false} SumByInsert<T>(c: seq<T>, x: T, key: T -> int, w: T -> int)
    ensures SumBy(InsertBy(c, x, key), w) == SumBy(c, w) + w(x)
  {
    if c == [] || key(c[|c| - 1]) <= key(x) {
      assert (c + [x])[..|c|] == c;
    } else {
      var r, l := InsertBy(c[..|c| - 1], x, key), c[|c| - 1];
      assert (r + [l])[..|r|] == r;
      SumByInsert(c[..|c| - 1], x, key, w);
    }
  }

  /** Sorting keeps every sum. */
  lemma {:induction false} SumBySorted<T>(s: seq<T>, key: T -> int, w: T -> int)
    ensures SumBy(SortBy(s, key), w) == SumBy(s, w)
  {
    if s != [] {
      SumBySorted(s[..|s| - 1], key, w);
      SumByInsert(SortBy(s[..|s| - 1], key), s[|s| - 1], key, w);
    }
  }
}
