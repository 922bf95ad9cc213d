/** Stable insertion sort under a caller-given order, standing for SQL
    `ORDER BY` and pandas `sort_values`.  Elements the order ranks equal keep
    their arrival order. */
module Sorting {
  /** `le` is total and transitive: an order by one or more columns. */
  ghost predicate TotalPreorder<T(!new)>(le: (T, T) -> bool) {
    (forall a, b :: le(a, b) || le(b, a)) &&
    (forall a, b, c :: le(a, b) && le(b, c) ==> le(a, c))
  }

  ghost predicate SortedBy<T>(s: seq<T>, le: (T, T) -> bool) {
    forall i, j :: 0 <= i < j < |s| ==> le(s[i], s[j])
  }

  /** Inserts `x` after the leading elements that `le` ranks at or below it. */
  function InsertBy<T>(x: T, s: seq<T>, le: (T, T) -> bool): (r: seq<T>)
    ensures multiset(r) == multiset(s) + multiset{x}
  {
    if s == [] then [x]
    else if le(s[0], x) then
      assert s == [s[0]] + s[1..];
      [s[0]] + InsertBy(x, s[1..], le)
    else [x] + s
  }

  /** `s` sorted by `le`; a permutation of `s` whatever `le` is. */
  function SortBy<T>(s: seq<T>, le: (T, T) -> bool): (r: seq<T>)
    ensures multiset(r) == multiset(s)
    ensures |r| == |s|
  {
    if s == [] then []
    else
      var init, last := s[..|s| - 1], s[|s| - 1];
      assert s == init + [last];
      var r := InsertBy(last, SortBy(init, le), le);
      assert multiset(r) == multiset(init) + multiset{last} == multiset(s);
      assert |r| == |multiset(r)| == |multiset(s)| == |s|;
      r
  }

  lemma {:induction false} InsertBySorted<T(!new)>(x: T, s: seq<T>, le: (T, T) -> bool)
    requires TotalPreorder(le)
    requires SortedBy(s, le)
    ensures SortedBy(InsertBy(x, s, le), le)
  {
    if s != [] {
      var r := InsertBy(x, s, le);
      if le(s[0], x) {
        var rest := InsertBy(x, s[1..], le);
        InsertBySorted(x, s[1..], le);
        forall j | 0 <= j < |rest| ensures le(s[0], rest[j]) {
          assert rest[j] in multiset(rest);
          if rest[j] != x {
            assert rest[j] in multiset(s[1..]);
            var k :| 0 <= k < |s[1..]| && s[1..][k] == rest[j];
            assert s[k + 1] == rest[j];
          }
        }
        assert r == [s[0]] + rest;
      } else {
        assert le(x, s[0]);
        forall j | 0 <= j < |s| ensures le(x, s[j]) {
          if j > 0 { assert le(s[0], s[j]); }
        }
      }
    }
  }

  /** SortBy's result is ordered by `le` whenever `le` is a total preorder. */
  lemma {:induction false} SortBySorted<T(!new)>(s: seq<T>, le: (T, T) -> bool)
    requires TotalPreorder(le)
    ensures SortedBy(SortBy(s, le), le)
  {
    if s != [] {
      SortBySorted(s[..|s| - 1], le);
      InsertBySorted(s[|s| - 1], SortBy(s[..|s| - 1], le), le);
    }
  }

  /** A contiguous run of a sorted listing is sorted. */
  lemma SortedSlice<T>(s: seq<T>, lo: nat, hi: nat, le: (T, T) -> bool)
    requires lo <= hi <= |s| && SortedBy(s, le)
    ensures SortedBy(s[lo..hi], le)
  {
    forall i, j | 0 <= i < j < hi - lo ensures le(s[lo..hi][i], s[lo..hi][j]) {
      assert s[lo..hi][i] == s[lo + i] && s[lo..hi][j] == s[lo + j];
    }
  }

  /** Descending order on an integer column (`ORDER BY c DESC`). */
  function IntDesc<T>(key: T -> int): (T, T) -> bool {
    (a: T, b: T) => key(a) >= key(b)
  }

  /** Sorting newest first by an integer column leaves the column
      non-increasing. */
  lemma SortByIntDesc<T(!new)>(s: seq<T>, key: T -> int)
    ensures var r := SortBy(s, IntDesc(key));
            forall i, j :: 0 <= i < j < |r| ==> key(r[i]) >= key(r[j])
  {
    var r := SortBy(s, IntDesc(key));
    IntDescTotal(key);
    SortBySorted(s, IntDesc(key));
    forall i, j | 0 <= i < j < |r| ensures key(r[i]) >= key(r[j]) {
      assert IntDesc(key)(r[i], r[j]);
    }
  }

  /** Ascending order on an integer column (`sort_values(c)`). */
  function IntAsc<T>(key: T -> int): (T, T) -> bool {
    (a: T, b: T) => key(a) <= key(b)
  }

  lemma IntDescTotal<T(!new)>(key: T -> int)
    ensures TotalPreorder(IntDesc(key))
  {
  }

  lemma IntAscTotal<T(!new)>(key: T -> int)
    ensures TotalPreorder(IntAsc(key))
  {
  }
}
