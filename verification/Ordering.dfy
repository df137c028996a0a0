/**
  Sorting under a comparator, standing for Go's `sort` package: a stable sort as a function, and the
  fact that a strict total order leaves only one sorted arrangement, whatever algorithm finds it.
  */
module Ordering {

  /** The comparator orders the elements of `s` strictly and totally. */
  ghost predicate StrictTotal<T(!new)>(less: (T, T) -> bool, s: set<T>) {
    && (forall a :: a in s ==> !less(a, a))
    && (forall a, b :: a in s && b in s && a != b ==> less(a, b) || less(b, a))
    && (forall a, b, c :: a in s && b in s && c in s && less(a, b) && less(b, c) ==> less(a, c))
  }

  ghost predicate Sorted<T(!new)>(less: (T, T) -> bool, s: seq<T>) {
    forall i, j :: 0 <= i < j < |s| ==> less(s[i], s[j])
  }

  ghost predicate Distinct<T(!new)>(s: seq<T>) {
    forall i, j :: 0 <= i < j < |s| ==> s[i] != s[j]
  }

  ghost function Elements<T(!new)>(s: seq<T>): set<T> {
    set x | x in s
  }

  /** After every element that is not greater. */
  function Insert<T>(less: (T, T) -> bool, x: T, s: seq<T>): seq<T> {
    if s == [] then [x]
    else if less(x, s[0]) then [x] + s
    else [s[0]] + Insert(less, x, s[1..])
  }

  /** sort.SliceStable. */
  function SortBy<T>(less: (T, T) -> bool, s: seq<T>): seq<T> {
    if s == [] then [] else Insert(less, s[|s| - 1], SortBy(less, s[..|s| - 1]))
  }

  lemma {:induction false} InsertKeeps<T(!new)>(less: (T, T) -> bool, x: T, s: seq<T>)
    ensures multiset(Insert(less, x, s)) == multiset(s) + multiset{x}
  {
    if s == [] || less(x, s[0]) {
    } else {
      InsertKeeps(less, x, s[1..]);
      assert s == [s[0]] + s[1..];
    }
  }

  lemma {:induction false} SortKeeps<T(!new)>(less: (T, T) -> bool, s: seq<T>)
    ensures multiset(SortBy(less, s)) == multiset(s)
  {
    hide Insert;
    if s == [] {
    } else {
      var front, last := s[..|s| - 1], s[|s| - 1];
      SortKeeps(less, front);
      InsertKeeps(less, last, SortBy(less, front));
      assert multiset(front + [last]) == multiset(front) + multiset{last};
      assert s == front + [last];
    }
  }

  lemma SameElements<T(!new)>(a: seq<T>, b: seq<T>)
    requires multiset(a) == multiset(b)
    ensures Elements(a) == Elements(b) && |a| == |b|
  {
    forall x ensures x in a <==> x in b {
      assert x in a <==> x in multiset(a);
      assert x in b <==> x in multiset(b);
    }
    assert |multiset(a)| == |a| && |multiset(b)| == |b|;
  }

  lemma {:induction false} InsertSorts<T(!new)>(less: (T, T) -> bool, x: T, s: seq<T>)
    requires StrictTotal(less, Elements(s) + {x}) && x !in s && Sorted(less, s)
    ensures Sorted(less, Insert(less, x, s))
  {
    if s == [] {
    } else {
      var r := Insert(less, x, s);
      if less(x, s[0]) {
        forall j | 0 < j < |r| ensures less(r[0], r[j]) {
          assert s[0] in Elements(s) && s[j - 1] in Elements(s);
          assert j - 1 == 0 || less(s[0], s[j - 1]);
        }
      } else {
        var tail := s[1..];
        assert Elements(tail) + {x} <= Elements(s) + {x};
        InsertSorts(less, x, tail);
        InsertKeeps(less, x, tail);
        forall j | 0 < j < |r| ensures less(r[0], r[j]) {
          assert r[j] in multiset(Insert(less, x, tail));
          assert r[j] == x || r[j] in tail;
        }
      }
    }
  }

  lemma SortElements<T(!new)>(less: (T, T) -> bool, s: seq<T>)
    ensures Elements(SortBy(less, s)) == Elements(s) && |SortBy(less, s)| == |s|
  {
    hide SortBy, Elements;
    SortKeeps(less, s);
    SameElements(SortBy(less, s), s);
  }

  lemma LastApart<T(!new)>(s: seq<T>)
    requires s != [] && Distinct(s)
    ensures Distinct(s[..|s| - 1]) && s[|s| - 1] !in Elements(s[..|s| - 1])
    ensures Elements(s[..|s| - 1]) + {s[|s| - 1]} == Elements(s)
  {
    var front, last := s[..|s| - 1], s[|s| - 1];
    assert s == front + [last];
  }

  lemma NotIn<T(!new)>(x: T, s: seq<T>)
    ensures x in Elements(s) <==> x in s
  {
  }

  lemma {:induction false} SortSorts<T(!new)>(less: (T, T) -> bool, s: seq<T>)
    requires StrictTotal(less, Elements(s)) && Distinct(s)
    ensures Sorted(less, SortBy(less, s))
  {
    hide Sorted, Distinct, Elements, Insert;
    if s == [] {
      NothingToSort(less, SortBy(less, s));
    } else {
      var front, last := s[..|s| - 1], s[|s| - 1];
      LastApart(s);
      FewerOrdered(less, Elements(front), Elements(s));
      SortSorts(less, front);
      SortElements(less, front);
      NotIn(last, SortBy(less, front));
      InsertSorts(less, last, SortBy(less, front));
    }
  }

  lemma NothingToSort<T(!new)>(less: (T, T) -> bool, s: seq<T>)
    ensures s == [] ==> Sorted(less, s)
  {
  }

  lemma FewerOrdered<T(!new)>(less: (T, T) -> bool, few: set<T>, s: set<T>)
    requires StrictTotal(less, s) && few <= s
    ensures StrictTotal(less, few)
  {
  }

  /** Two sorted arrangements of the same elements start with the same one. */
  lemma HeadsEqual<T(!new)>(less: (T, T) -> bool, a: seq<T>, b: seq<T>)
    requires a != [] && StrictTotal(less, Elements(a)) && Elements(a) == Elements(b)
    requires Sorted(less, a) && Sorted(less, b)
    ensures b != [] && a[0] == b[0]
  {
    var x := a[0];
    assert x in Elements(a);
    assert x in b;
    var y := b[0];
    assert y in Elements(b);
    assert y in a;
    LeastInFront(less, a, y);
    LeastInFront(less, b, x);
  }

  lemma LeastInFront<T(!new)>(less: (T, T) -> bool, s: seq<T>, x: T)
    requires x in s && Sorted(less, s)
    ensures x == s[0] || less(s[0], x)
  {
    var i :| 0 <= i < |s| && s[i] == x;
    assert i == 0 || less(s[0], s[i]);
  }

  lemma NoElements<T(!new)>(s: seq<T>)
    ensures Elements(s) == {} ==> s == []
  {
    if s != [] {
      assert s[0] in Elements(s);
    }
  }

  /** Under a strict total order two sorted arrangements of the same elements are the same. */
  lemma {:induction false} SortedUnique<T(!new)>(less: (T, T) -> bool, a: seq<T>, b: seq<T>)
    requires StrictTotal(less, Elements(a)) && Elements(a) == Elements(b)
    requires Sorted(less, a) && Sorted(less, b)
    ensures a == b
  {
    if a == [] {
      assert Elements(b) == {};
      NoElements(b);
    } else {
      hide Sorted, Elements, StrictTotal;
      HeadsEqual(less, a, b);
      Tails(less, a, b);
      FewerOrdered(less, Elements(a[1..]), Elements(a));
      TailSorted(less, a);
      TailSorted(less, b);
      SortedUnique(less, a[1..], b[1..]);
      assert a == [a[0]] + a[1..] && b == [b[0]] + b[1..];
    }
  }

  lemma TailSorted<T(!new)>(less: (T, T) -> bool, s: seq<T>)
    requires s != [] && Sorted(less, s)
    ensures Sorted(less, s[1..])
  {
  }

  lemma Tails<T(!new)>(less: (T, T) -> bool, a: seq<T>, b: seq<T>)
    requires a != [] && b != [] && a[0] == b[0]
    requires StrictTotal(less, Elements(a)) && Elements(a) == Elements(b)
    requires Sorted(less, a) && Sorted(less, b)
    ensures Elements(a[1..]) == Elements(b[1..]) == Elements(a) - {a[0]}
  {
    HeadApart(less, a);
    HeadApart(less, b);
  }

  lemma HeadApart<T(!new)>(less: (T, T) -> bool, a: seq<T>)
    requires a != [] && StrictTotal(less, Elements(a)) && Sorted(less, a)
    ensures Elements(a[1..]) == Elements(a) - {a[0]}
  {
    assert a[0] in Elements(a);
    forall k | 0 < k < |a| ensures a[k] != a[0] {
      assert less(a[0], a[k]);
    }
    forall x | x in Elements(a) - {a[0]} ensures x in a[1..] {
      var k :| 0 <= k < |a| && a[k] == x;
      assert a[1..][k - 1] == x;
    }
  }

  /** Hence the outcome of a sort depends only on which elements go in. */
  lemma SortDetermined<T(!new)>(less: (T, T) -> bool, s: seq<T>, t: seq<T>)
    requires StrictTotal(less, Elements(s)) && Distinct(s) && Distinct(t) && Elements(s) == Elements(t)
    ensures SortBy(less, s) == SortBy(less, t)
  {
    SortSorts(less, s);
    SortSorts(less, t);
    SortKeeps(less, s);
    SortKeeps(less, t);
    SameElements(SortBy(less, s), s);
    SameElements(SortBy(less, t), t);
    SortedUnique(less, SortBy(less, s), SortBy(less, t));
  }

  /** A sorted list keeps its order, and stays sorted, when elements are left out. */
  function Filter<T>(keep: T -> bool, s: seq<T>): seq<T> {
    if s == [] then []
    else (if keep(s[0]) then [s[0]] else []) + Filter(keep, s[1..])
  }

  lemma {:induction false} FilterElements<T(!new)>(keep: T -> bool, s: seq<T>)
    ensures forall x :: x in Filter(keep, s) <==> x in s && keep(x)
  {
    if s == [] {
    } else {
      FilterElements(keep, s[1..]);
    }
  }

  lemma {:induction false} FilterSorted<T(!new)>(less: (T, T) -> bool, keep: T -> bool, s: seq<T>)
    requires Sorted(less, s)
    ensures Sorted(less, Filter(keep, s))
  {
    if s == [] {
    } else {
      FilterSorted(less, keep, s[1..]);
      FilterElements(keep, s[1..]);
      var r, tail := Filter(keep, s), Filter(keep, s[1..]);
      if keep(s[0]) {
        forall j | 0 < j < |r| ensures less(r[0], r[j]) {
          assert tail[j - 1] in tail;
          var k :| 0 <= k < |s[1..]| && s[1..][k] == r[j];
          assert s[k + 1] == r[j];
        }
      }
    }
  }

  /** The order of Go's strings. */
  predicate StringBefore(a: string, b: string) {
    if b == "" then false
    else if a == "" then true
    else if a[0] != b[0] then a[0] < b[0]
    else StringBefore(a[1..], b[1..])
  }

  /** One string goes before another when it is the front of it, or is smaller where they first differ. */
  lemma {:induction false} StringBeforeMeans(front: string, a: string, b: string)
    ensures a == "" && b != "" ==> StringBefore(front + a, front + b)
    ensures a != "" && b != "" && a[0] < b[0] ==>
              StringBefore(front + a, front + b) && !StringBefore(front + b, front + a)
  {
    if front == "" {
      assert front + a == a && front + b == b;
    } else {
      StringBeforeMeans(front[1..], a, b);
      assert (front + a)[1..] == front[1..] + a && (front + b)[1..] == front[1..] + b;
    }
  }

  lemma {:induction false} StringBeforeTotal(a: string, b: string)
    ensures !StringBefore(a, a) && (a != b ==> StringBefore(a, b) || StringBefore(b, a))
    decreases |a|
  {
    if a == "" {
    } else {
      StringBeforeTotal(a[1..], if b == "" then "" else b[1..]);
      assert b != "" && a[0] == b[0] && a != b ==> a[1..] != b[1..] by {
        assert a == [a[0]] + a[1..] && (b != "" ==> b == [b[0]] + b[1..]);
      }
    }
  }

  lemma {:induction false} StringBeforeTransitive(a: string, b: string, c: string)
    requires StringBefore(a, b) && StringBefore(b, c)
    ensures StringBefore(a, c)
    decreases |a|
  {
    if a == "" || a[0] != b[0] || b[0] != c[0] {
    } else {
      StringBeforeTransitive(a[1..], b[1..], c[1..]);
    }
  }

  lemma StringsOrdered(s: set<string>)
    ensures StrictTotal(StringBefore, s)
  {
    forall a, b ensures !StringBefore(a, a) && (a != b ==> StringBefore(a, b) || StringBefore(b, a)) {
      StringBeforeTotal(a, b);
    }
    forall a, b, c | StringBefore(a, b) && StringBefore(b, c) ensures StringBefore(a, c) {
      StringBeforeTransitive(a, b, c);
    }
  }

  /** The keys of a map in whatever order the runtime gives them. */
  method RangeOver(s: set<string>) returns (r: seq<string>)
    ensures Distinct(r) && Elements(r) == s
  {
    r := [];
    var rest := s;
    while rest != {}
      invariant rest <= s && Distinct(r) && Elements(r) == s - rest
      decreases |rest|
    {
      var k :| k in rest;
      assert k !in Elements(r);
      assert Elements(r + [k]) == Elements(r) + {k};
      r := r + [k];
      rest := rest - {k};
    }
  }
}
