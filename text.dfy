/** Character classes, Python's string order, `', '.join`, `str.count` and
    decimal rendering of integers. */
module Text {
  import Grouping
  import Sorting

  predicate IsUpper(c: char) { 'A' <= c <= 'Z' }
  predicate IsLower(c: char) { 'a' <= c <= 'z' }
  predicate IsDigit(c: char) { '0' <= c <= '9' }
  /** `[a-zA-Z0-9_]`. */
  predicate IsWordChar(c: char) { IsUpper(c) || IsLower(c) || IsDigit(c) || c == '_' }

  /** Python's `<=` on strings: lexicographic by code point. */
  predicate StrLe(a: string, b: string) {
    if |a| == 0 then true
    else if |b| == 0 then false
    else if a[0] != b[0] then a[0] < b[0]
    else StrLe(a[1..], b[1..])
  }

  lemma {:induction false} StrLeTotal(a: string, b: string)
    ensures StrLe(a, b) || StrLe(b, a)
  {
    if |a| > 0 && |b| > 0 && a[0] == b[0] {
      StrLeTotal(a[1..], b[1..]);
    }
  }

  lemma {:induction false} StrLeTrans(a: string, b: string, c: string)
    requires StrLe(a, b) && StrLe(b, c)
    ensures StrLe(a, c)
  {
    if |a| > 0 && |b| > 0 && |c| > 0 && a[0] == b[0] && b[0] == c[0] {
      StrLeTrans(a[1..], b[1..], c[1..]);
    }
  }

  lemma {:induction false} StrLeAntisym(a: string, b: string)
    requires StrLe(a, b) && StrLe(b, a)
    ensures a == b
  {
    if |a| > 0 && |b| > 0 {
      StrLeAntisym(a[1..], b[1..]);
      assert a == [a[0]] + a[1..] && b == [b[0]] + b[1..];
    }
  }

  lemma StrOrderTotal()
    ensures Sorting.TotalPreorder(StrLe)
  {
    forall a, b ensures StrLe(a, b) || StrLe(b, a) { StrLeTotal(a, b); }
    forall a, b, c | StrLe(a, b) && StrLe(b, c) ensures StrLe(a, c) { StrLeTrans(a, b, c); }
  }

  /** A string sorts at or before every extension of it. */
  lemma {:induction false} PrefixLe(p: string, q: string)
    ensures StrLe(p, p + q)
  {
    if |p| > 0 {
      assert (p + q)[1..] == p[1..] + q;
      PrefixLe(p[1..], q);
    }
  }

  /** A proper extension of a string sorts after it. */
  lemma {:induction false} ExtensionNotLe(p: string, q: string)
    requires q != []
    ensures !StrLe(p + q, p)
  {
    if |p| > 0 {
      assert (p + q)[1..] == p[1..] + q;
      ExtensionNotLe(p[1..], q);
    }
  }

  function Identity(s: string): string { s }

  /** `sorted(set(xs))`. */
  function SortedDistinct(xs: seq<string>): (r: seq<string>)
    ensures |r| == |Grouping.Distinct(xs, Identity)|
    ensures forall i :: 0 <= i < |xs| ==> xs[i] in r
    ensures forall j :: 0 <= j < |r| ==> r[j] in xs
    ensures forall i, j :: 0 <= i < j < |r| ==> StrLe(r[i], r[j]) && r[i] != r[j]
  {
    var ks := Grouping.Keys(xs, Identity);
    var r := Sorting.SortBy(ks, StrLe);
    StrOrderTotal();
    Sorting.SortBySorted(ks, StrLe);
    Grouping.KeysCount(xs, Identity);
    SortedDistinctFacts(xs, ks, r);
    r
  }

  lemma SortedDistinctFacts(xs: seq<string>, ks: seq<string>, r: seq<string>)
    requires ks == Grouping.Keys(xs, Identity)
    requires multiset(r) == multiset(ks)
    ensures forall i :: 0 <= i < |xs| ==> xs[i] in r
    ensures forall j :: 0 <= j < |r| ==> r[j] in xs
    ensures Grouping.NoDup(r)
  {
    KeysPermutedCover(xs, ks, r);
    KeysPermutedFrom(xs, ks, r);
    Grouping.NoDupPermutation(ks, r);
  }

  lemma KeysPermutedCover(xs: seq<string>, ks: seq<string>, r: seq<string>)
    requires ks == Grouping.Keys(xs, Identity)
    requires multiset(r) == multiset(ks)
    ensures forall i :: 0 <= i < |xs| ==> xs[i] in r
  {
    forall i | 0 <= i < |xs| ensures xs[i] in r {
      assert Identity(xs[i]) in ks;
      assert xs[i] in multiset(ks);
    }
  }

  lemma KeysPermutedFrom(xs: seq<string>, ks: seq<string>, r: seq<string>)
    requires ks == Grouping.Keys(xs, Identity)
    requires multiset(r) == multiset(ks)
    ensures forall j :: 0 <= j < |r| ==> r[j] in xs
  {
    forall j | 0 <= j < |r| ensures r[j] in xs {
      assert r[j] in multiset(ks);
      var m :| 0 <= m < |ks| && ks[m] == r[j];
      var i :| 0 <= i < |xs| && Identity(xs[i]) == ks[m];
    }
  }

  /** `sep.join(xs)`. */
  function Join(xs: seq<string>, sep: string): string {
    if xs == [] then ""
    else if |xs| == 1 then xs[0]
    else xs[0] + sep + Join(xs[1..], sep)
  }

  /** `s.count(c)` for a single character. */
  function CountChar(s: string, c: char): nat {
    if s == [] then 0 else (if s[0] == c then 1 else 0) + CountChar(s[1..], c)
  }

  lemma {:induction false} CountCharConcat(a: string, b: string, c: char)
    ensures CountChar(a + b, c) == CountChar(a, c) + CountChar(b, c)
  {
    if a != [] {
      assert (a + b)[1..] == a[1..] + b;
      CountCharConcat(a[1..], b, c);
    } else {
      assert a + b == b;
    }
  }

  /** When no element contains a comma, the commas of a `", "` join are exactly
      the separators: one fewer than the number of elements. */
  lemma {:induction false} CommasOfJoin(xs: seq<string>)
    requires |xs| > 0
    requires forall i :: 0 <= i < |xs| ==> CountChar(xs[i], ',') == 0
    ensures CountChar(Join(xs, ", "), ',') == |xs| - 1
  {
    if |xs| > 1 {
      CommasOfJoin(xs[1..]);
      CountCharConcat(xs[0] + ", ", Join(xs[1..], ", "), ',');
      CountCharConcat(xs[0], ", ", ',');
      assert CountChar(", ", ',') == 1 by {
        assert ", "[1..] == " ";
        assert " "[1..] == "";
      }
    }
  }

  function DigitChar(d: nat): char
    requires d < 10
  {
    "0123456789"[d]
  }

  /** Python's `str(n)` for a non-negative integer. */
  function NatToString(n: nat): (s: string)
    ensures |s| > 0
    ensures forall i :: 0 <= i < |s| ==> IsDigit(s[i])
  {
    if n < 10 then [DigitChar(n)] else NatToString(n / 10) + [DigitChar(n % 10)]
  }

  /** Python's `str(i)` for any integer. */
  function IntToString(i: int): string {
    if i < 0 then "-" + NatToString(-i) else NatToString(i)
  }

  /** `f"{n:02d}"`-style zero padding to `width` digits. */
  function PadNat(n: nat, width: nat): (s: string)
    ensures |s| >= width
    ensures forall i :: 0 <= i < |s| ==> IsDigit(s[i])
  {
    var d := NatToString(n);
    if |d| >= width then d else seq(width - |d|, _ => '0') + d
  }

  function DigitValue(c: char): nat {
    if IsDigit(c) then (c as int - '0' as int) else 0
  }

  /** The value of a string of decimal digits, leading zeros allowed (`int(s)`). */
  function DigitsValue(s: string): nat {
    if s == [] then 0 else DigitsValue(s[..|s| - 1]) * 10 + DigitValue(s[|s| - 1])
  }

  /** Decimal rendering round-trips through `int(...)`. */
  lemma {:induction false} NatToStringValue(n: nat)
    ensures DigitsValue(NatToString(n)) == n
  {
    if n >= 10 {
      NatToStringValue(n / 10);
      var s := NatToString(n);
      assert s[..|s| - 1] == NatToString(n / 10);
    }
  }

  lemma {:induction false} LeadingZerosValue(k: nat, s: string)
    ensures DigitsValue(seq(k, _ => '0') + s) == DigitsValue(s)
  {
    var z := seq(k, _ => '0');
    if s == [] {
      assert z + s == z;
      ZerosValue(k);
    } else {
      LeadingZerosValue(k, s[..|s| - 1]);
      assert (z + s)[..|z + s| - 1] == z + s[..|s| - 1];
    }
  }

  lemma {:induction false} ZerosValue(k: nat)
    ensures DigitsValue(seq(k, _ => '0')) == 0
  {
    if k > 0 {
      ZerosValue(k - 1);
      assert seq(k, _ => '0')[..k - 1] == seq(k - 1, _ => '0');
    }
  }

  /** Zero-padded rendering round-trips through `int(...)`. */
  lemma PadNatValue(n: nat, width: nat)
    ensures DigitsValue(PadNat(n, width)) == n
  {
    NatToStringValue(n);
    var d := NatToString(n);
    if |d| < width {
      LeadingZerosValue(width - |d|, d);
    }
  }

  ghost predicate AllDigits(s: string) {
    forall i :: 0 <= i < |s| ==> IsDigit(s[i])
  }

  /** Length of the leading run of digits. */
  function DigitRun(s: string): nat {
    if s == [] || !IsDigit(s[0]) then 0 else 1 + DigitRun(s[1..])
  }

  lemma {:induction false} DigitRunOf(a: string, rest: string)
    requires AllDigits(a)
    requires |rest| > 0 && !IsDigit(rest[0])
    ensures DigitRun(a + rest) == |a|
  {
    if a == [] {
      assert a + rest == rest;
    } else {
      assert (a + rest)[1..] == a[1..] + rest;
      DigitRunOf(a[1..], rest);
    }
  }

  /** A digit string followed by a separator that starts with a non-digit can
      be split back unambiguously. */
  lemma SplitAfterDigits(a: string, b: string, c: string, d: string, sep: string)
    requires AllDigits(a) && AllDigits(c)
    requires |sep| > 0 && !IsDigit(sep[0])
    requires a + sep + b == c + sep + d
    ensures a == c && b == d
  {
    assert a + sep + b == a + (sep + b);
    assert c + sep + d == c + (sep + d);
    DigitRunOf(a, sep + b);
    DigitRunOf(c, sep + d);
    assert a == (a + sep + b)[..|a|];
    assert c == (c + sep + d)[..|c|];
    assert b == (a + sep + b)[|a| + |sep|..];
    assert d == (c + sep + d)[|c| + |sep|..];
  }
}
