/**
 * The relational pieces the repositories' SELECT statements are built
 * from: WHERE as a filter, ORDER BY <time> DESC as a stable sort, and
 * LIMIT/OFFSET as a page of the ordered rows.
 */
module Paging {

  function Min(a: int, b: int): int {
    if a <= b then a else b
  }

  /** The rows of s that satisfy keep, in their order. */
  function Filter<T(!new)>(s: seq<T>, keep: T -> bool): (r: seq<T>)
    ensures |r| <= |s|
    ensures forall x :: x in r <==> x in s && keep(x)
    ensures multiset(r) <= multiset(s)
  {
    if s == [] then []
    else if keep(s[0]) then
      assert s == [s[0]] + s[1..];
      [s[0]] + Filter(s[1..], keep)
    else
      assert s == [s[0]] + s[1..];
      Filter(s[1..], keep)
  }

  /** No two rows of s have the same key. */
  predicate DistinctKeys<T, K(==)>(s: seq<T>, key: T -> K) {
    forall i, j :: 0 <= i < j < |s| ==> key(s[i]) != key(s[j])
  }

  /** Removing rows keeps the keys of the remaining ones distinct. */
  lemma {:induction false} FilterDistinctKeys<T(!new), K>(s: seq<T>, keep: T -> bool, key: T -> K)
    requires DistinctKeys(s, key)
    ensures DistinctKeys(Filter(s, keep), key)
  {
    if s != [] {
      var t := s[1..];
      assert DistinctKeys(t, key) by {
        forall i, j | 0 <= i < j < |t|
          ensures key(t[i]) != key(t[j])
        {
          assert t[i] == s[i + 1] && t[j] == s[j + 1];
        }
      }
      FilterDistinctKeys(t, keep, key);
      if keep(s[0]) {
        var r, rest := Filter(s, keep), Filter(t, keep);
        forall i, j | 0 <= i < j < |r|
          ensures key(r[i]) != key(r[j])
        {
          if i == 0 {
            assert r[j] == rest[j - 1] && r[j] in t;
            var k :| 0 <= k < |t| && t[k] == r[j];
            assert s[k + 1] == r[j];
          } else {
            assert r[i] == rest[i - 1] && r[j] == rest[j - 1];
          }
        }
      }
    }
  }

  /** Appending a row whose key is new keeps the keys distinct. */
  lemma AppendDistinctKeys<T, K>(s: seq<T>, x: T, key: T -> K)
    requires DistinctKeys(s, key)
    requires forall y :: y in s ==> key(y) != key(x)
    ensures DistinctKeys(s + [x], key)
  {
    var r := s + [x];
    forall i, j | 0 <= i < j < |r|
      ensures key(r[i]) != key(r[j])
    {
      assert r[i] == s[i] || i == |s|;
      if j == |s| {
        assert r[i] in s;
      } else {
        assert r[j] == s[j];
      }
    }
  }

  /** A page of an ordered sequence is ordered. */
  lemma PageNewestFirst<T>(s: seq<T>, time: T -> int, limit: nat, offset: nat)
    requires NewestFirst(s, time)
    ensures NewestFirst(Page(s, limit, offset), time)
  {
    var r := Page(s, limit, offset);
    forall i, j | 0 <= i < j < |r|
      ensures time(r[i]) >= time(r[j])
    {
      assert r[i] == s[offset + i] && r[j] == s[offset + j];
    }
  }

  /** A filter that keeps every row returns the rows unchanged. */
  lemma {:induction false} FilterKeepsAll<T(!new)>(s: seq<T>, keep: T -> bool)
    requires forall x :: x in s ==> keep(x)
    ensures Filter(s, keep) == s
  {
    if s != [] {
      FilterKeepsAll(s[1..], keep);
    }
  }

  /** A filter that keeps no row returns nothing. */
  lemma {:induction false} FilterKeepsNone<T(!new)>(s: seq<T>, keep: T -> bool)
    requires forall x :: x in s ==> !keep(x)
    ensures Filter(s, keep) == []
  {
    if s != [] {
      FilterKeepsNone(s[1..], keep);
    }
  }

  /** Filtering twice with the same condition changes nothing the second time. */
  lemma FilterTwice<T(!new)>(s: seq<T>, keep: T -> bool)
    ensures Filter(Filter(s, keep), keep) == Filter(s, keep)
  {
    FilterKeepsAll(Filter(s, keep), keep);
  }

  /** Filtering by a condition that implies the first filter's makes the first one redundant. */
  lemma {:induction false} FilterOfFilter<T(!new)>(s: seq<T>, first: T -> bool, second: T -> bool)
    requires forall x :: second(x) ==> first(x)
    ensures Filter(Filter(s, first), second) == Filter(s, second)
  {
    if s != [] {
      FilterOfFilter(s[1..], first, second);
    }
  }

  /** Appending a row the filter rejects does not change its result. */
  lemma {:induction false} FilterAppendRejected<T(!new)>(s: seq<T>, x: T, keep: T -> bool)
    requires !keep(x)
    ensures Filter(s + [x], keep) == Filter(s, keep)
  {
    if s == [] {
      assert s + [x] == [x];
    } else {
      assert (s + [x])[1..] == s[1..] + [x];
      FilterAppendRejected(s[1..], x, keep);
    }
  }

  /** The keys of the kept rows. */
  ghost function KeysOf<T(!new), K>(s: seq<T>, keep: T -> bool, key: T -> K): set<K> {
    set x | x in s && keep(x) :: key(x)
  }

  /**
   * COUNT(*) over the kept rows equals the number of distinct keys among
   * them when no two kept rows share a key.
   */
  lemma {:induction false} FilterCountDistinct<T(!new), K>(s: seq<T>, keep: T -> bool, key: T -> K)
    requires forall i, j :: 0 <= i < j < |s| && keep(s[i]) && keep(s[j]) ==> key(s[i]) != key(s[j])
    ensures |Filter(s, keep)| == |KeysOf(s, keep, key)|
  {
    if s == [] {
      assert KeysOf(s, keep, key) == {};
    } else {
      var h, t := s[0], s[1..];
      forall i, j | 0 <= i < j < |t| && keep(t[i]) && keep(t[j])
        ensures key(t[i]) != key(t[j])
      {
        assert t[i] == s[i + 1] && t[j] == s[j + 1];
      }
      FilterCountDistinct(t, keep, key);
      var all := KeysOf(s, keep, key);
      var rest := KeysOf(t, keep, key);
      assert s == [h] + t;
      if keep(h) {
        forall x | x in t && keep(x)
          ensures key(x) != key(h)
        {
          var k :| 0 <= k < |t| && t[k] == x;
          assert s[k + 1] == x;
        }
        assert all == rest + {key(h)};
        assert key(h) !in rest;
      } else {
        assert all == rest;
      }
    }
  }

  /** Every row is at least as new as every row after it. */
  predicate NewestFirst<T>(s: seq<T>, time: T -> int) {
    forall i, j :: 0 <= i < j < |s| ==> time(s[i]) >= time(s[j])
  }

  /** Puts x in front of the first row that is not newer than it. */
  function Insert<T>(x: T, s: seq<T>, time: T -> int): (r: seq<T>)
    ensures multiset(r) == multiset(s) + multiset{x}
  {
    if s == [] || time(s[0]) <= time(x) then [x] + s
    else
      assert s == [s[0]] + s[1..];
      [s[0]] + Insert(x, s[1..], time)
  }

  /**
   * ORDER BY time DESC. Rows with equal times keep their relative order,
   * the order the table gives them.
   */
  function SortNewestFirst<T>(s: seq<T>, time: T -> int): (r: seq<T>)
    ensures multiset(r) == multiset(s)
  {
    if s == [] then []
    else
      assert s == [s[0]] + s[1..];
      Insert(s[0], SortNewestFirst(s[1..], time), time)
  }

  /** A row no older than the head of an ordered sequence can go in front of it. */
  lemma ConsNewestFirst<T>(x: T, s: seq<T>, time: T -> int)
    requires NewestFirst(s, time)
    requires s != [] ==> time(x) >= time(s[0])
    ensures NewestFirst([x] + s, time)
  {
    var r := [x] + s;
    forall i, j | 0 <= i < j < |r|
      ensures time(r[i]) >= time(r[j])
    {
      if i == 0 {
        assert r[j] == s[j - 1];
      } else {
        assert r[i] == s[i - 1] && r[j] == s[j - 1];
      }
    }
  }

  lemma {:induction false} InsertNewestFirst<T>(x: T, s: seq<T>, time: T -> int)
    requires NewestFirst(s, time)
    ensures NewestFirst(Insert(x, s, time), time)
  {
    if s == [] || time(s[0]) <= time(x) {
      ConsNewestFirst(x, s, time);
    } else {
      var tail := s[1..];
      assert NewestFirst(tail, time) by {
        forall i, j | 0 <= i < j < |tail|
          ensures time(tail[i]) >= time(tail[j])
        {
          assert tail[i] == s[i + 1] && tail[j] == s[j + 1];
        }
      }
      InsertNewestFirst(x, tail, time);
      var rest := Insert(x, tail, time);
      assert rest[0] == x || rest[0] == s[1];
      ConsNewestFirst(s[0], rest, time);
    }
  }

  /** The sort's result is ordered newest first. */
  lemma {:induction false} SortIsNewestFirst<T>(s: seq<T>, time: T -> int)
    ensures NewestFirst(SortNewestFirst(s, time), time)
  {
    if s != [] {
      SortIsNewestFirst(s[1..], time);
      InsertNewestFirst(s[0], SortNewestFirst(s[1..], time), time);
    }
  }

  /**
   * LIMIT limit OFFSET offset: the rows from position offset on, at most
   * limit of them; an offset past the end gives no rows.
   */
  function Page<T>(s: seq<T>, limit: nat, offset: nat): (r: seq<T>)
    ensures |r| <= limit
    ensures offset + |r| <= |s| || r == []
    ensures |r| == limit || offset + |r| >= |s|
    ensures forall i :: 0 <= i < |r| ==> r[i] == s[offset + i]
  {
    if offset >= |s| then [] else s[offset .. offset + Min(limit, |s| - offset)]
  }

  /** Two consecutive pages are together the page that spans both. */
  lemma PagesContiguous<T>(s: seq<T>, limit1: nat, limit2: nat, offset: nat)
    ensures Page(s, limit1, offset) + Page(s, limit2, offset + limit1)
         == Page(s, limit1 + limit2, offset)
  {
    var a, b := Page(s, limit1, offset), Page(s, limit2, offset + limit1);
    var c := Page(s, limit1 + limit2, offset);
    assert |a + b| == |c|;
    forall i | 0 <= i < |c|
      ensures (a + b)[i] == c[i]
    {
      if i >= |a| {
        assert |a| == limit1;
      }
    }
  }

  /** Pages that do not overlap as ranges share no row when the rows are distinct. */
  lemma PagesDisjoint<T>(s: seq<T>, limit1: nat, offset1: nat, limit2: nat, offset2: nat, x: T)
    requires forall i, j :: 0 <= i < j < |s| ==> s[i] != s[j]
    requires offset1 + limit1 <= offset2
    ensures x in Page(s, limit1, offset1) ==> x !in Page(s, limit2, offset2)
  {
    var a, b := Page(s, limit1, offset1), Page(s, limit2, offset2);
    if x in a {
      var i :| 0 <= i < |a| && a[i] == x;
      forall j | 0 <= j < |b|
        ensures b[j] != x
      {
        assert b[j] == s[offset2 + j] && offset1 + i < offset2 + j;
      }
    }
  }
}
