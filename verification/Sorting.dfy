/**
 * The library sort that the source calls. It is not stable, so its contract promises
 * an ordered permutation and nothing about elements that compare equal.
 */
module Sorting {
  ghost predicate TotalPreorder<T(!new)>(leq: (T, T) -> bool) {
    && (forall x, y :: leq(x, y) || leq(y, x))
    && (forall x, y, z :: leq(x, y) && leq(y, z) ==> leq(x, z))
  }

  ghost predicate Ordered<T>(leq: (T, T) -> bool, s: seq<T>) {
    forall i, j :: 0 <= i < j < |s| ==> leq(s[i], s[j])
  }

  /** t lists the elements of s, each as often, in an order that leq allows. */
  ghost predicate Arrangement<T>(leq: (T, T) -> bool, t: seq<T>, s: seq<T>) {
    Ordered(leq, t) && multiset(t) == multiset(s)
  }

  function Insert<T>(leq: (T, T) -> bool, x: T, s: seq<T>): seq<T> {
    if s == [] || leq(x, s[0]) then [x] + s else [s[0]] + Insert(leq, x, s[1..])
  }

  function InsertionSort<T>(leq: (T, T) -> bool, s: seq<T>): seq<T> {
    if s == [] then [] else Insert(leq, s[0], InsertionSort(leq, s[1..]))
  }

  lemma {:induction false} InsertElements<T>(leq: (T, T) -> bool, x: T, s: seq<T>)
    ensures multiset(Insert(leq, x, s)) == multiset{x} + multiset(s)
  {
    if s == [] || leq(x, s[0]) {
    } else {
      InsertElements(leq, x, s[1..]);
      assert s == [s[0]] + s[1..];
    }
  }

  lemma PrependOrdered<T>(leq: (T, T) -> bool, x: T, s: seq<T>)
    requires Ordered(leq, s)
    requires forall y :: y in s ==> leq(x, y)
    ensures Ordered(leq, [x] + s)
  {
  }

  lemma {:induction false} InsertOrdered<T(!new)>(leq: (T, T) -> bool, x: T, s: seq<T>)
    requires TotalPreorder(leq) && Ordered(leq, s)
    ensures Ordered(leq, Insert(leq, x, s))
  {
    if s == [] {
    } else if leq(x, s[0]) {
      forall j | 0 <= j < |s| ensures leq(x, s[j]) {
        if j > 0 { assert leq(s[0], s[j]); }
      }
      PrependOrdered(leq, x, s);
    } else {
      InsertOrdered(leq, x, s[1..]);
      var t := Insert(leq, x, s[1..]);
      InsertElements(leq, x, s[1..]);
      forall y | y in t ensures leq(s[0], y) {
        assert y in multiset(t);
        assert y == x || y in s[1..];
      }
      PrependOrdered(leq, s[0], t);
    }
  }

  lemma {:induction false} InsertionSortArranges<T(!new)>(leq: (T, T) -> bool, s: seq<T>)
    requires TotalPreorder(leq)
    ensures Arrangement(leq, InsertionSort(leq, s), s)
  {
    if s == [] {
    } else {
      InsertionSortArranges(leq, s[1..]);
      InsertOrdered(leq, s[0], InsertionSort(leq, s[1..]));
      InsertElements(leq, s[0], InsertionSort(leq, s[1..]));
      assert s == [s[0]] + s[1..];
    }
  }

  /** Membership and length carry over between a list and its arrangement. */
  lemma ArrangementMembers<T>(leq: (T, T) -> bool, t: seq<T>, s: seq<T>)
    requires Arrangement(leq, t, s)
    ensures |t| == |s|
    ensures forall x :: x in t <==> x in s
  {
    assert |multiset(t)| == |t| && |multiset(s)| == |s|;
    forall x ensures x in t <==> x in s {
      assert x in t <==> x in multiset(t);
      assert x in s <==> x in multiset(s);
    }
  }

  method SortSlice<T(!new)>(a: array<T>, leq: (T, T) -> bool)
    requires TotalPreorder(leq)
    modifies a
    ensures Arrangement(leq, a[..], old(a[..]))
  {
    var s := a[..];
    var t := InsertionSort(leq, s);
    InsertionSortArranges(leq, s);
    assert |multiset(t)| == |t| && |multiset(s)| == |s|;
    forall i | 0 <= i < a.Length {
      a[i] := t[i];
    }
    assert a[..] == t;
  }

  // ---- the bytewise order of strings ----

  predicate StringLeq(a: string, b: string) {
    a == "" || (b != "" && (a[0] < b[0] || (a[0] == b[0] && StringLeq(a[1..], b[1..]))))
  }

  lemma {:induction false} StringLeqTotal(a: string, b: string)
    ensures StringLeq(a, b) || StringLeq(b, a)
  {
    if a == "" || b == "" {
    } else {
      StringLeqTotal(a[1..], b[1..]);
    }
  }

  lemma {:induction false} StringLeqTransitive(a: string, b: string, c: string)
    requires StringLeq(a, b) && StringLeq(b, c)
    ensures StringLeq(a, c)
  {
    if a == "" || b == "" || c == "" {
    } else if a[0] == b[0] == c[0] {
      StringLeqTransitive(a[1..], b[1..], c[1..]);
    }
  }

  lemma StringLeqPreorder()
    ensures TotalPreorder(StringLeq)
  {
    forall a, b ensures StringLeq(a, b) || StringLeq(b, a) { StringLeqTotal(a, b); }
    forall a, b, c | StringLeq(a, b) && StringLeq(b, c) ensures StringLeq(a, c) { StringLeqTransitive(a, b, c); }
  }
}
