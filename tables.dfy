/** A database table as the sequence of its rows, and the insert-if-absent
    update (`SELECT ... WHERE key = ?`, then `INSERT` when nothing came back)
    the stores use. */
module Tables {
  import Sorting
  import Grouping

  /** Some row of `table` has key `k`. */
  predicate HasKey<T, K(==)>(table: seq<T>, key: T -> K, k: K) {
    exists i :: 0 <= i < |table| && key(table[i]) == k
  }

  /** No two rows share a key (the table's primary key). */
  ghost predicate UniqueKeys<T, K>(table: seq<T>, key: T -> K) {
    forall i, j :: 0 <= i < j < |table| ==> key(table[i]) != key(table[j])
  }

  /** Appends `x` unless a row with its key is already stored. */
  function InsertIfAbsent<T, K(==)>(table: seq<T>, key: T -> K, x: T): seq<T> {
    if HasKey(table, key, key(x)) then table else table + [x]
  }

  /** Inserts the rows of `xs` one after the other, each only if absent. */
  function InsertAllIfAbsent<T, K(==)>(table: seq<T>, key: T -> K, xs: seq<T>): seq<T>
    decreases |xs|
  {
    if xs == [] then table
    else InsertIfAbsent(InsertAllIfAbsent(table, key, xs[..|xs| - 1]), key, xs[|xs| - 1])
  }

  /** A key is in two tables together exactly when it is in one of them. */
  lemma HasKeyConcat<T, K>(a: seq<T>, b: seq<T>, key: T -> K, k: K)
    ensures HasKey(a + b, key, k) <==> HasKey(a, key, k) || HasKey(b, key, k)
  {
    if HasKey(a + b, key, k) {
      var i :| 0 <= i < |a + b| && key((a + b)[i]) == k;
      if i >= |a| {
        assert b[i - |a|] == (a + b)[i];
      }
    }
    if HasKey(a, key, k) {
      var i :| 0 <= i < |a| && key(a[i]) == k;
      assert (a + b)[i] == a[i];
    }
    if HasKey(b, key, k) {
      var i :| 0 <= i < |b| && key(b[i]) == k;
      assert (a + b)[|a| + i] == b[i];
    }
  }

  /** Stored rows are never changed or removed: the old table is a prefix of
      the new one, and everything appended comes from `xs`. */
  lemma {:induction false} InsertAllKeepsRows<T, K>(table: seq<T>, key: T -> K, xs: seq<T>)
    ensures |table| <= |InsertAllIfAbsent(table, key, xs)| <= |table| + |xs|
    ensures InsertAllIfAbsent(table, key, xs)[..|table|] == table
    ensures forall j :: |table| <= j < |InsertAllIfAbsent(table, key, xs)| ==> InsertAllIfAbsent(table, key, xs)[j] in xs
  {
    if xs != [] {
      var init := xs[..|xs| - 1];
      InsertAllKeepsRows(table, key, init);
      var mid := InsertAllIfAbsent(table, key, init);
      assert forall y :: y in init ==> y in xs;
      if !HasKey(mid, key, key(xs[|xs| - 1])) {
        assert (mid + [xs[|xs| - 1]])[..|table|] == mid[..|table|];
      }
    }
  }

  /** A key is stored afterwards exactly when it was stored before or is the
      key of some inserted row. */
  lemma {:induction false} InsertAllKeys<T, K>(table: seq<T>, key: T -> K, xs: seq<T>, k: K)
    ensures HasKey(InsertAllIfAbsent(table, key, xs), key, k) <==>
              HasKey(table, key, k) || exists i :: 0 <= i < |xs| && key(xs[i]) == k
  {
    if xs != [] {
      var init := xs[..|xs| - 1];
      InsertAllKeys(table, key, init, k);
      var mid := InsertAllIfAbsent(table, key, init);
      var x := xs[|xs| - 1];
      if !HasKey(mid, key, key(x)) {
        var r := mid + [x];
        if HasKey(r, key, k) {
          var j :| 0 <= j < |r| && key(r[j]) == k;
          if j < |mid| {
            assert key(mid[j]) == k;
          }
        }
        if HasKey(mid, key, k) {
          var j :| 0 <= j < |mid| && key(mid[j]) == k;
          assert key(r[j]) == k;
        }
        if key(x) == k {
          assert key(r[|mid|]) == k;
        }
      }
      if exists i :: 0 <= i < |xs| && key(xs[i]) == k {
        var i :| 0 <= i < |xs| && key(xs[i]) == k;
        if i < |init| {
          assert key(init[i]) == k;
        }
      }
      if exists i :: 0 <= i < |init| && key(init[i]) == k {
        var i :| 0 <= i < |init| && key(init[i]) == k;
        assert key(xs[i]) == k;
      }
    }
  }

  /** The primary key stays a key: no id is ever stored twice. */
  lemma {:induction false} InsertAllUnique<T, K>(table: seq<T>, key: T -> K, xs: seq<T>)
    requires UniqueKeys(table, key)
    ensures UniqueKeys(InsertAllIfAbsent(table, key, xs), key)
  {
    if xs != [] {
      var init := xs[..|xs| - 1];
      InsertAllUnique(table, key, init);
      var mid := InsertAllIfAbsent(table, key, init);
      var x := xs[|xs| - 1];
      if !HasKey(mid, key, key(x)) {
        var r := mid + [x];
        forall i, j | 0 <= i < j < |r| ensures key(r[i]) != key(r[j]) {
          if j == |mid| {
            assert r[i] == mid[i];
          }
        }
      }
    }
  }

  /** Rows whose keys are all stored already change nothing. */
  lemma {:induction false} InsertAllPresent<T, K>(table: seq<T>, key: T -> K, xs: seq<T>)
    requires forall i :: 0 <= i < |xs| ==> HasKey(table, key, key(xs[i]))
    ensures InsertAllIfAbsent(table, key, xs) == table
  {
    if xs != [] {
      var init := xs[..|xs| - 1];
      assert forall i :: 0 <= i < |init| ==> init[i] == xs[i];
      InsertAllPresent(table, key, init);
      assert HasKey(table, key, key(xs[|xs| - 1]));
    }
  }

  /** Saving the same rows twice adds nothing the second time. */
  lemma InsertAllIdempotent<T, K>(table: seq<T>, key: T -> K, xs: seq<T>)
    ensures InsertAllIfAbsent(InsertAllIfAbsent(table, key, xs), key, xs) == InsertAllIfAbsent(table, key, xs)
  {
    var once := InsertAllIfAbsent(table, key, xs);
    forall i | 0 <= i < |xs| ensures HasKey(once, key, key(xs[i])) {
      InsertAllKeys(table, key, xs, key(xs[i]));
    }
    InsertAllPresent(once, key, xs);
  }

  /** The rows satisfying `p`, in table order (`SELECT ... WHERE p`,
      `df[mask]`). */
  function Where<T>(xs: seq<T>, p: T -> bool): (r: seq<T>)
    ensures |r| <= |xs|
    ensures forall j :: 0 <= j < |r| ==> r[j] in xs && p(r[j])
    ensures forall i :: 0 <= i < |xs| && p(xs[i]) ==> xs[i] in r
  {
    if xs == [] then []
    else
      var init := xs[..|xs| - 1];
      var last := xs[|xs| - 1];
      assert xs == init + [last];
      Where(init, p) + (if p(last) then [last] else [])
  }

  /** WHERE keeps each satisfying row as often as the table holds it, and
      no other row. */
  lemma {:induction false} WhereCounts<T>(xs: seq<T>, p: T -> bool)
    ensures forall x :: multiset(Where(xs, p))[x] == if p(x) then multiset(xs)[x] else 0
  {
    if xs != [] {
      var init := xs[..|xs| - 1];
      var last := xs[|xs| - 1];
      assert xs == init + [last];
      WhereCounts(init, p);
      assert Where(xs, p) == Where(init, p) + (if p(last) then [last] else []);
      assert multiset(xs) == multiset(init) + multiset{last};
    }
  }

  /** The first `n` rows, as `LIMIT n` returns them from a table scanned in
      storage order. */
  function Limit<T>(xs: seq<T>, n: nat): (r: seq<T>)
    ensures |r| == if |xs| <= n then |xs| else n
    ensures r == xs[..|r|]
  {
    if |xs| <= n then xs else xs[..n]
  }

  /** A condition no row meets selects nothing. */
  lemma {:induction false} WhereNone<T>(xs: seq<T>, p: T -> bool)
    requires forall i :: 0 <= i < |xs| ==> !p(xs[i])
    ensures Where(xs, p) == []
  {
    if xs != [] {
      var init := xs[..|xs| - 1];
      assert forall i :: 0 <= i < |init| ==> init[i] == xs[i];
      WhereNone(init, p);
    }
  }

  /** Deleting rows keeps the primary key a key. */
  lemma {:induction false} WhereUnique<T, K>(xs: seq<T>, key: T -> K, p: T -> bool)
    requires UniqueKeys(xs, key)
    ensures UniqueKeys(Where(xs, p), key)
  {
    if xs != [] {
      var init := xs[..|xs| - 1];
      var last := xs[|xs| - 1];
      assert forall i :: 0 <= i < |init| ==> init[i] == xs[i];
      WhereUnique(init, key, p);
      var w := Where(init, p);
      if p(last) {
        var r := w + [last];
        forall i, j | 0 <= i < j < |r| ensures key(r[i]) != key(r[j]) {
          if j == |w| {
            assert r[i] == w[i] && w[i] in init;
          }
        }
      }
    }
  }

  /** Inserting rows that arrive in order, none ranked below a stored row,
      keeps the table in that order. */
  lemma {:induction false} InsertAllSorted<T(!new), K>(key: T -> K, xs: seq<T>, le: (T, T) -> bool)
    requires Sorting.SortedBy(xs, le)
    ensures Sorting.SortedBy(InsertAllIfAbsent([], key, xs), le)
  {
    if xs != [] {
      var init := xs[..|xs| - 1];
      var last := xs[|xs| - 1];
      assert forall i :: 0 <= i < |init| ==> init[i] == xs[i];
      InsertAllSorted(key, init, le);
      InsertAllKeepsRows([], key, init);
      var mid := InsertAllIfAbsent([], key, init);
      if !HasKey(mid, key, key(last)) {
        var r := mid + [last];
        forall i, j | 0 <= i < j < |r| ensures le(r[i], r[j]) {
          if j == |mid| {
            assert r[i] == mid[i] && mid[i] in init;
            var m :| 0 <= m < |init| && init[m] == mid[i];
            assert le(xs[m], xs[|xs| - 1]);
          } else {
            assert r[i] == mid[i] && r[j] == mid[j];
          }
        }
      }
    }
  }

  /** Keeping the first row per key over rows in order keeps, for every key,
      a row ranked at or below each row with that key. */
  lemma {:induction false} InsertAllEarliest<T(!new), K>(key: T -> K, xs: seq<T>, le: (T, T) -> bool, i: nat)
    requires Sorting.TotalPreorder(le) && Sorting.SortedBy(xs, le)
    requires i < |xs|
    ensures exists j :: 0 <= j < |InsertAllIfAbsent([], key, xs)|
              && key(InsertAllIfAbsent([], key, xs)[j]) == key(xs[i]) && le(InsertAllIfAbsent([], key, xs)[j], xs[i])
  {
    var init := xs[..|xs| - 1];
    var last := xs[|xs| - 1];
    assert forall m :: 0 <= m < |init| ==> init[m] == xs[m];
    var mid := InsertAllIfAbsent([], key, init);
    var r := InsertAllIfAbsent([], key, xs);
    InsertAllKeepsRows([], key, init);
    assert r == mid || r == mid + [last];
    if i < |init| {
      InsertAllEarliest(key, init, le, i);
      var j :| 0 <= j < |mid| && key(mid[j]) == key(init[i]) && le(mid[j], init[i]);
      assert r[j] == mid[j];
    } else if HasKey(mid, key, key(last)) {
      var j :| 0 <= j < |mid| && key(mid[j]) == key(last);
      assert mid[j] in init;
      var m :| 0 <= m < |init| && init[m] == mid[j];
      assert le(xs[m], xs[i]);
      assert r[j] == mid[j];
    } else {
      assert r[|mid|] == last;
      assert le(last, last);
    }
  }

  /** Reordering the rows keeps the set of keys present. */
  lemma PermutedHasKey<T, K>(a: seq<T>, b: seq<T>, key: T -> K, k: K)
    requires multiset(a) == multiset(b)
    ensures HasKey(a, key, k) <==> HasKey(b, key, k)
  {
    if HasKey(a, key, k) {
      var i :| 0 <= i < |a| && key(a[i]) == k;
      var j := Grouping.PermutedIndex(b, a, i);
    }
    if HasKey(b, key, k) {
      var j :| 0 <= j < |b| && key(b[j]) == k;
      var i := Grouping.PermutedIndex(a, b, j);
    }
  }
}
