/** Ordering report rows: an insertion sort by a total preorder (LINQ's
    `OrderBy(...).ThenBy...`, whose order among equal keys the model leaves
    to the sort), and the ordinal string order used for names. */
module Sorting {
  import opened Common

  /** `le` is total and transitive, so it orders every pair of values. */
  ghost predicate IsTotalPreorder<T(!new)>(le: (T, T) -> bool) {
    && (forall a, b :: le(a, b) || le(b, a))
    && (forall a, b, c :: le(a, b) && le(b, c) ==> le(a, c))
  }

  ghost predicate SortedBy<T>(s: seq<T>, le: (T, T) -> bool) {
    forall i, j :: 0 <= i < j < |s| ==> le(s[i], s[j])
  }

  /** Puts `x` before the first element it may precede. */
  function Insert<T>(x: T, s: seq<T>, le: (T, T) -> bool): (r: seq<T>)
    ensures multiset(r) == multiset(s) + multiset{x}
    decreases |s|
  {
    if s == [] then [x]
    else if le(x, s[0]) then [x] + s
    else
      assert s == [s[0]] + s[1..];
      [s[0]] + Insert(x, s[1..], le)
  }

  lemma {:induction false} InsertSorted<T(!new)>(x: T, s: seq<T>, le: (T, T) -> bool)
    requires IsTotalPreorder(le) && SortedBy(s, le)
    ensures SortedBy(Insert(x, s, le), le)
    decreases |s|
  {
    if s != [] && !le(x, s[0]) {
      var tail := Insert(x, s[1..], le);
      InsertSorted(x, s[1..], le);
      assert le(s[0], x);
      forall y | y in tail ensures le(s[0], y) {
        assert y in multiset(tail);
        assert y == x || y in multiset(s[1..]);
      }
      var r := [s[0]] + tail;
      forall i, j | 0 <= i < j < |r| ensures le(r[i], r[j]) {
        if i > 0 {
          assert r[i] == tail[i-1] && r[j] == tail[j-1];
        } else {
          assert r[j] in tail;
        }
      }
    }
  }

  /** The rows ordered by `le`: a permutation of the input that is sorted. */
  function SortBy<T(!new)>(s: seq<T>, le: (T, T) -> bool): (r: seq<T>)
    requires IsTotalPreorder(le)
    ensures multiset(r) == multiset(s) && |r| == |s|
    ensures SortedBy(r, le)
    decreases |s|
  {
    if s == [] then []
    else
      assert s == [s[0]] + s[1..];
      var rest := SortBy(s[1..], le);
      InsertSorted(s[0], rest, le);
      Insert(s[0], rest, le)
  }

  /** Sorting keeps every element and adds none. */
  lemma SortKeepsElements<T(!new)>(s: seq<T>, le: (T, T) -> bool, x: T)
    requires IsTotalPreorder(le)
    ensures x in SortBy(s, le) <==> x in s
  {
    assert x in SortBy(s, le) <==> x in multiset(SortBy(s, le));
    assert x in s <==> x in multiset(s);
  }

  lemma {:induction false} InsertSum<T>(x: T, s: seq<T>, le: (T, T) -> bool, f: T -> int)
    ensures SumBy(Insert(x, s, le), f) == f(x) + SumBy(s, f)
    decreases |s|
  {
    if s != [] && !le(x, s[0]) {
      InsertSum(x, s[1..], le, f);
      var r := Insert(x, s, le);
      assert r[1..] == Insert(x, s[1..], le);
    }
  }

  /** Sorting neither adds nor drops anything that a sum would notice. */
  lemma {:induction false} SortPreservesSum<T(!new)>(s: seq<T>, le: (T, T) -> bool, f: T -> int)
    requires IsTotalPreorder(le)
    ensures SumBy(SortBy(s, le), f) == SumBy(s, f)
    decreases |s|
  {
    if s != [] {
      SortPreservesSum(s[1..], le, f);
      InsertSum(s[0], SortBy(s[1..], le), le, f);
    }
  }

  /** Ordinal (code point by code point) lexicographic order on strings. */
  predicate StrLe(a: string, b: string)
    decreases |a|
  {
    |a| == 0 || (|b| > 0 && (a[0] < b[0] || (a[0] == b[0] && StrLe(a[1..], b[1..]))))
  }

  lemma {:induction false} StrLeTotal(a: string, b: string)
    ensures StrLe(a, b) || StrLe(b, a)
    decreases |a|
  {
    if |a| > 0 && |b| > 0 && a[0] == b[0] {
      StrLeTotal(a[1..], b[1..]);
    }
  }

  lemma {:induction false} StrLeTransitive(a: string, b: string, c: string)
    requires StrLe(a, b) && StrLe(b, c)
    ensures StrLe(a, c)
    decreases |a|
  {
    if |a| > 0 && a[0] == b[0] && b[0] == c[0] {
      StrLeTransitive(a[1..], b[1..], c[1..]);
    }
  }

  lemma {:induction false} StrLeAntisymmetric(a: string, b: string)
    requires StrLe(a, b) && StrLe(b, a)
    ensures a == b
    decreases |a|
  {
    if |a| > 0 {
      StrLeAntisymmetric(a[1..], b[1..]);
      assert a == [a[0]] + a[1..] && b == [b[0]] + b[1..];
    }
  }

  lemma StrLeReflexive(a: string)
    ensures StrLe(a, a)
  {
    StrLeTotal(a, a);
  }

  /** The two-key order of a report: `name` ascending, then `value`
      descending among rows with the same name. */
  predicate NameThenDescending(n1: string, v1: int, n2: string, v2: int) {
    (n1 != n2 && StrLe(n1, n2)) || (n1 == n2 && v1 >= v2)
  }

  lemma NameThenDescendingTotal(n1: string, v1: int, n2: string, v2: int)
    ensures NameThenDescending(n1, v1, n2, v2) || NameThenDescending(n2, v2, n1, v1)
  {
    StrLeTotal(n1, n2);
  }

  lemma NameThenDescendingTransitive(n1: string, v1: int, n2: string, v2: int, n3: string, v3: int)
    requires NameThenDescending(n1, v1, n2, v2) && NameThenDescending(n2, v2, n3, v3)
    ensures NameThenDescending(n1, v1, n3, v3)
  {
    if n1 != n2 && n2 != n3 {
      StrLeTransitive(n1, n2, n3);
      if n1 == n3 {
        StrLeAntisymmetric(n1, n2);
      }
    }
  }
}
