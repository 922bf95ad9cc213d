/** `LIMIT size OFFSET page*size` windows and the ceiling page count used by
    every paginated listing. */
module Paging {
  function Min(a: int, b: int): int { if a <= b then a else b }

  /** `(total + size - 1) // size`. */
  function TotalPages(total: nat, size: nat): nat
    requires size > 0
  {
    (total + size - 1) / size
  }

  /** The page count is the ceiling of total / size. */
  lemma TotalPagesIsCeiling(total: nat, size: nat)
    requires size > 0
    ensures TotalPages(total, size) * size >= total
    ensures total > 0 ==> (TotalPages(total, size) - 1) * size < total
    ensures total == 0 ==> TotalPages(total, size) == 0
  {
    var q, r := (total + size - 1) / size, (total + size - 1) % size;
    assert total + size - 1 == q * size + r;
    assert q * size - size == (q - 1) * size;
  }

  /** The rows `LIMIT size OFFSET page * size` selects from `xs`. */
  function Page<T>(xs: seq<T>, page: nat, size: nat): (r: seq<T>)
    ensures |r| <= size
    ensures page * size + |r| <= |xs| || r == []
    ensures page * size < |xs| ==> |r| == Min(size, |xs| - page * size)
    ensures forall k :: 0 <= k < |r| ==> r[k] == xs[page * size + k]
  {
    var start := page * size;
    var lo := Min(start, |xs|);
    var hi := Min(lo + size, |xs|);
    assert hi - lo <= size;
    assert lo < hi ==> lo == start;
    xs[lo..hi]
  }

  /** A page is a contiguous run of the listing, starting at `lo`. */
  lemma PageSlice<T>(xs: seq<T>, page: nat, size: nat) returns (lo: nat)
    ensures lo + |Page(xs, page, size)| <= |xs|
    ensures Page(xs, page, size) == xs[lo..lo + |Page(xs, page, size)|]
  {
    var r := Page(xs, page, size);
    if r == [] {
      lo := 0;
    } else {
      lo := page * size;
      assert lo + |r| <= |xs|;
      forall k | 0 <= k < |r| ensures r[k] == xs[lo..lo + |r|][k] {
        assert r[k] == xs[lo + k];
      }
    }
  }

  /** Every row of a page is a row of the listing. */
  lemma PageElements<T>(xs: seq<T>, page: nat, size: nat)
    ensures forall k :: 0 <= k < |Page(xs, page, size)| ==> Page(xs, page, size)[k] in xs
  {
    var r := Page(xs, page, size);
    var lo := PageSlice(xs, page, size);
    forall k | 0 <= k < |r| ensures r[k] in xs {
      assert r[k] == xs[lo + k];
    }
  }

  /** A page of a listing ordered by a key, largest first, is ordered the
      same way. */
  lemma PageOrdered<T>(xs: seq<T>, page: nat, size: nat, key: T -> int)
    requires forall k, l :: 0 <= k < l < |xs| ==> key(xs[k]) >= key(xs[l])
    ensures var r := Page(xs, page, size);
            forall k, l :: 0 <= k < l < |r| ==> key(r[k]) >= key(r[l])
  {
    var r := Page(xs, page, size);
    var lo := PageSlice(xs, page, size);
    forall k, l | 0 <= k < l < |r| ensures key(r[k]) >= key(r[l]) {
      assert r[k] == xs[lo + k] && r[l] == xs[lo + l];
    }
  }

  lemma MulMono(a: nat, b: nat, s: nat)
    requires a <= b
    ensures a * s <= b * s
  {
    assert b * s == a * s + (b - a) * s;
  }

  /** The page holding row `i` is among the first TotalPages pages. */
  lemma RowPageInRange(total: nat, size: nat, i: nat)
    requires size > 0 && i < total
    ensures i / size < TotalPages(total, size)
  {
    var p := i / size;
    var tp := TotalPages(total, size);
    TotalPagesIsCeiling(total, size);
    if p >= tp {
      MulMono(tp, p, size);
    }
  }

  /** A row lies in the window of page `p` only for `p == i / size`. */
  lemma RowPageUnique(size: nat, i: nat, q: nat)
    requires size > 0
    requires q * size <= i < q * size + size
    ensures q == i / size
  {
    var p, m := i / size, i % size;
    assert i == p * size + m;
    if q < p {
      MulMono(q + 1, p, size);
    } else if q > p {
      MulMono(p + 1, q, size);
    }
  }

  /** Every row of an ordered listing is shown on exactly one page, at
      position `i % size`, and that page is among the first TotalPages. */
  lemma RowOnPage<T>(xs: seq<T>, size: nat, i: nat)
    requires size > 0 && i < |xs|
    ensures i / size < TotalPages(|xs|, size)
    ensures Page(xs, i / size, size)[i % size] == xs[i]
    ensures forall q: nat :: q * size <= i < q * size + size ==> q == i / size
  {
    RowPageInRange(|xs|, size, i);
    var p, m := i / size, i % size;
    assert i == p * size + m;
    var r := Page(xs, p, size);
    assert |r| == Min(size, |xs| - p * size);
    forall q: nat | q * size <= i < q * size + size ensures q == p {
      RowPageUnique(size, i, q);
    }
  }
}
