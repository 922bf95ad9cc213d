/** Group-by over a batch of rows: the distinct keys in order of first
    appearance, the rows of one group, and sums over rows and over groups. */
module Grouping {
  ghost predicate NoDup<K>(s: seq<K>) {
    forall i, j :: 0 <= i < j < |s| ==> s[i] != s[j]
  }

  /** The distinct keys of `xs` in order of first appearance. */
  function Keys<T, K(==)>(xs: seq<T>, key: T -> K): (ks: seq<K>)
    ensures NoDup(ks)
    ensures |ks| <= |xs|
    ensures forall i :: 0 <= i < |xs| ==> key(xs[i]) in ks
    ensures forall j :: 0 <= j < |ks| ==> exists i :: 0 <= i < |xs| && key(xs[i]) == ks[j]
  {
    if xs == [] then []
    else
      var ks := Keys(xs[..|xs| - 1], key);
      var k := key(xs[|xs| - 1]);
      assert forall i :: 0 <= i < |xs| - 1 ==> xs[..|xs| - 1][i] == xs[i];
      if k in ks then ks else ks + [k]
  }

  /** The rows of `xs` whose key is `k`, in their original order. */
  function Members<T(==), K(==)>(xs: seq<T>, key: T -> K, k: K): (ms: seq<T>)
    ensures |ms| <= |xs|
    ensures forall j :: 0 <= j < |ms| ==> ms[j] in xs && key(ms[j]) == k
    ensures forall i :: 0 <= i < |xs| && key(xs[i]) == k ==> xs[i] in ms
  {
    if xs == [] then []
    else
      var ms := Members(xs[..|xs| - 1], key, k);
      var last := xs[|xs| - 1];
      assert xs == xs[..|xs| - 1] + [last];
      if key(last) == k then ms + [last] else ms
  }

  /** One column of a batch, `df[c]`. */
  function Column<T, U>(xs: seq<T>, f: T -> U): (c: seq<U>)
    ensures |c| == |xs|
    ensures forall i :: 0 <= i < |xs| ==> c[i] == f(xs[i])
  {
    seq(|xs|, i requires 0 <= i < |xs| => f(xs[i]))
  }

  /** Sum of `f` over the rows, as pandas' `sum`. */
  function Sum<T>(xs: seq<T>, f: T -> real): real {
    if xs == [] then 0.0 else Sum(xs[..|xs| - 1], f) + f(xs[|xs| - 1])
  }

  function One<T>(x: T): real { 1.0 }

  /** The sum of the per-group sums for the keys `ks`. */
  function GroupSums<T(==), K(==)>(ks: seq<K>, xs: seq<T>, key: T -> K, f: T -> real): real {
    if ks == [] then 0.0
    else GroupSums(ks[..|ks| - 1], xs, key, f) + Sum(Members(xs, key, ks[|ks| - 1]), f)
  }

  lemma SumSnoc<T>(xs: seq<T>, y: T, f: T -> real)
    ensures Sum(xs + [y], f) == Sum(xs, f) + f(y)
  {
    assert (xs + [y])[..|xs|] == xs;
  }

  lemma MembersSnoc<T, K>(xs: seq<T>, y: T, key: T -> K, k: K)
    ensures Members(xs + [y], key, k) == Members(xs, key, k) + (if key(y) == k then [y] else [])
  {
    assert (xs + [y])[..|xs|] == xs;
  }

  lemma {:induction false} SumOnes<T>(xs: seq<T>)
    ensures Sum(xs, One) == |xs| as real
  {
    if xs != [] {
      SumOnes(xs[..|xs| - 1]);
    }
  }

  /** Adding one row changes the group sums only in that row's group. */
  lemma {:induction false} GroupSumsSnoc<T, K>(ks: seq<K>, xs: seq<T>, y: T, key: T -> K, f: T -> real)
    requires NoDup(ks)
    ensures GroupSums(ks, xs + [y], key, f)
         == GroupSums(ks, xs, key, f) + (if key(y) in ks then f(y) else 0.0)
  {
    if ks != [] {
      var init, k := ks[..|ks| - 1], ks[|ks| - 1];
      assert ks == init + [k];
      assert NoDup(init);
      GroupSumsSnoc(init, xs, y, key, f);
      MembersSnoc(xs, y, key, k);
      if key(y) == k {
        SumSnoc(Members(xs, key, k), y, f);
        assert key(y) !in init;
      }
    }
  }

  lemma MembersOfAbsentKey<T, K>(xs: seq<T>, key: T -> K, k: K)
    requires k !in Keys(xs, key)
    ensures Members(xs, key, k) == []
  {
  }

  /** A row that opens a new group adds its key at the end of the keys. */
  lemma KeysSnocNew<T, K>(xs: seq<T>, y: T, key: T -> K)
    requires key(y) !in Keys(xs, key)
    ensures Keys(xs + [y], key) == Keys(xs, key) + [key(y)]
  {
    assert (xs + [y])[..|xs|] == xs;
  }

  /** A row that opens a new group is that group's only member. */
  lemma MembersSnocNew<T, K>(xs: seq<T>, y: T, key: T -> K)
    requires key(y) !in Keys(xs, key)
    ensures Members(xs + [y], key, key(y)) == [y]
  {
    MembersSnoc(xs, y, key, key(y));
    MembersOfAbsentKey(xs, key, key(y));
    assert [] + [y] == [y];
  }

  /** The step of the partition proof for a row that opens a new group. */
  lemma GroupSumsNewKey<T, K>(xs: seq<T>, y: T, key: T -> K, f: T -> real)
    requires key(y) !in Keys(xs, key)
    ensures GroupSums(Keys(xs + [y], key), xs + [y], key, f)
         == GroupSums(Keys(xs, key), xs, key, f) + f(y)
  {
    var ks, k, ys := Keys(xs, key), key(y), xs + [y];
    KeysSnocNew(xs, y, key);
    MembersSnocNew(xs, y, key);
    GroupSumsSnoc(ks, xs, y, key, f);
    SumSnoc([], y, f);
    assert [] + [y] == [y];
    assert (ks + [k])[..|ks|] == ks;
  }

  /** The groups of a batch partition it: summed over all groups, any per-row
      quantity adds up to its sum over the whole batch. */
  lemma {:induction false} GroupSumsPartition<T, K>(xs: seq<T>, key: T -> K, f: T -> real)
    ensures GroupSums(Keys(xs, key), xs, key, f) == Sum(xs, f)
  {
    if xs != [] {
      var init, y := xs[..|xs| - 1], xs[|xs| - 1];
      assert xs == init + [y];
      GroupSumsPartition(init, key, f);
      SumSnoc(init, y, f);
      if key(y) in Keys(init, key) {
        assert (init + [y])[..|init|] == init;
        assert Keys(xs, key) == Keys(init, key);
        GroupSumsSnoc(Keys(init, key), init, y, key, f);
      } else {
        GroupSumsNewKey(init, y, key, f);
      }
    }
  }

  /** The groups partition the rows: the group sizes add up to the batch size. */
  lemma GroupSizesPartition<T, K>(xs: seq<T>, key: T -> K)
    ensures GroupSums(Keys(xs, key), xs, key, One) == |xs| as real
  {
    GroupSumsPartition(xs, key, One);
    SumOnes(xs);
  }

  /** The set of distinct key values in `xs` (pandas `nunique`, SQL `COUNT(DISTINCT ...)`). */
  ghost function Distinct<T, K>(xs: seq<T>, key: T -> K): set<K> {
    set i | 0 <= i < |xs| :: key(xs[i])
  }

  ghost function Elements<K>(s: seq<K>): set<K> {
    set i | 0 <= i < |s| :: s[i]
  }

  lemma {:induction false} NoDupCard<K>(s: seq<K>)
    requires NoDup(s)
    ensures |Elements(s)| == |s|
  {
    if s != [] {
      var init := s[..|s| - 1];
      assert NoDup(init);
      NoDupCard(init);
      assert Elements(s) == Elements(init) + {s[|s| - 1]};
      assert s[|s| - 1] !in Elements(init);
    }
  }

  /** The number of groups is the number of distinct keys. */
  lemma KeysCount<T, K>(xs: seq<T>, key: T -> K)
    ensures |Keys(xs, key)| == |Distinct(xs, key)|
  {
    var ks := Keys(xs, key);
    NoDupCard(ks);
    assert Elements(ks) == Distinct(xs, key);
  }

  /** When every row of group `a` under `key1` lies in group `b` under `key2`
      and no row contributes a negative value, the first group is no larger
      than the second, in rows and in sum. */
  lemma {:induction false} MembersRefine<T, K1, K2>(xs: seq<T>, key1: T -> K1, a: K1, key2: T -> K2, b: K2, f: T -> real)
    requires forall i :: 0 <= i < |xs| && key1(xs[i]) == a ==> key2(xs[i]) == b
    requires forall i :: 0 <= i < |xs| ==> f(xs[i]) >= 0.0
    ensures Sum(Members(xs, key1, a), f) <= Sum(Members(xs, key2, b), f)
    ensures |Members(xs, key1, a)| <= |Members(xs, key2, b)|
  {
    if xs != [] {
      var init := xs[..|xs| - 1];
      var y := xs[|xs| - 1];
      assert xs == init + [y];
      MembersRefine(init, key1, a, key2, b, f);
      MembersSnoc(init, y, key1, a);
      MembersSnoc(init, y, key2, b);
      SumSnoc(Members(init, key1, a), y, f);
      SumSnoc(Members(init, key2, b), y, f);
    }
  }

  /** A sum of values within [lo, hi] lies within lo and hi times the row count. */
  lemma {:induction false} SumBounds<T>(xs: seq<T>, f: T -> real, lo: real, hi: real)
    requires forall i :: 0 <= i < |xs| ==> lo <= f(xs[i]) <= hi
    ensures lo * |xs| as real <= Sum(xs, f) <= hi * |xs| as real
  {
    if xs != [] {
      var init := xs[..|xs| - 1];
      assert forall i :: 0 <= i < |init| ==> init[i] == xs[i];
      SumBounds(init, f, lo, hi);
      assert lo * |xs| as real == lo * |init| as real + lo;
      assert hi * |xs| as real == hi * |init| as real + hi;
    }
  }

  lemma NoDupOfMultiplicity<T>(r: seq<T>)
    requires forall x :: multiset(r)[x] <= 1
    ensures NoDup(r)
  {
    forall i, j | 0 <= i < j < |r| ensures r[i] != r[j] {
      assert r == r[..j] + r[j..];
      assert r[i] in r[..j] && r[j] in r[j..];
      assert multiset(r)[r[i]] == multiset(r[..j])[r[i]] + multiset(r[j..])[r[i]];
    }
  }

  lemma {:induction false} MultiplicityOne<T>(s: seq<T>, x: T)
    requires NoDup(s)
    ensures multiset(s)[x] <= 1
  {
    if s != [] {
      var init := s[..|s| - 1];
      assert s == init + [s[|s| - 1]];
      assert NoDup(init);
      MultiplicityOne(init, x);
      if s[|s| - 1] == x {
        assert x !in init;
      }
    }
  }

  /** A rearrangement of a sequence without repeats has none either. */
  lemma NoDupPermutation<T>(a: seq<T>, b: seq<T>)
    requires NoDup(a)
    requires multiset(a) == multiset(b)
    ensures NoDup(b)
  {
    forall x ensures multiset(b)[x] <= 1 { MultiplicityOne(a, x); }
    NoDupOfMultiplicity(b);
  }

  /** Where an element of a rearrangement sits in the original. */
  lemma PermutedIndex<T>(a: seq<T>, b: seq<T>, k: nat) returns (j: nat)
    requires multiset(a) == multiset(b) && k < |b|
    ensures j < |a| && a[j] == b[k]
  {
    assert b[k] in multiset(a);
    j :| 0 <= j < |a| && a[j] == b[k];
  }

  /** A mean, 0 over no rows (the pages' `if not df.empty else 0`). */
  function Mean(total: real, n: nat): real {
    if n == 0 then 0.0 else total / n as real
  }

  /** A share of `whole` as a percentage, 0 when there is nothing to divide by. */
  function Percent(part: real, whole: nat): real {
    if whole == 0 then 0.0 else part / whole as real * 100.0
  }

  /** A mean of values within [lo, hi] lies within [lo, hi]. */
  lemma MeanBounds(total: real, n: nat, lo: real, hi: real)
    requires n > 0 && lo * n as real <= total <= hi * n as real
    ensures lo <= Mean(total, n) <= hi
  {
  }

  /** A part of a whole is between 0 and 100 percent of it, and the
      percentage scales back to the part. */
  lemma PercentBounds(part: real, whole: nat)
    requires 0.0 <= part <= whole as real
    ensures 0.0 <= Percent(part, whole) <= 100.0
    ensures whole > 0 ==> Percent(part, whole) * whole as real == part * 100.0
    ensures Percent(part, whole) == 0.0 <==> whole == 0 || part == 0.0
    ensures Percent(part, whole) == 100.0 <==> whole > 0 && part == whole as real
  {
  }

  /** The mean of values within [lo, hi] over some rows is within [lo, hi]. */
  lemma MeanOfBounded<T>(xs: seq<T>, f: T -> real, lo: real, hi: real)
    requires xs != []
    requires forall i :: 0 <= i < |xs| ==> lo <= f(xs[i]) <= hi
    ensures lo <= Mean(Sum(xs, f), |xs|) <= hi
  {
    SumBounds(xs, f, lo, hi);
    MeanBounds(Sum(xs, f), |xs|, lo, hi);
  }
}
