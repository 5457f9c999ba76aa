/**
 * A stable sort over an arbitrary total preorder. Data-frame sorts on several
 * columns (sort_values with a list of keys) are stable, and the rankings sort
 * group means; both are modelled as this insertion sort.
 */
module Sorting {

  /** Every two elements are comparable. */
  ghost predicate Total<T(!new)>(le: (T, T) -> bool) {
    forall a, b :: le(a, b) || le(b, a)
  }

  ghost predicate Transitive<T(!new)>(le: (T, T) -> bool) {
    forall a, b, c :: le(a, b) && le(b, c) ==> le(a, c)
  }

  ghost predicate TotalPreorder<T(!new)>(le: (T, T) -> bool) {
    Total(le) && Transitive(le)
  }

  /** Two elements sort as equals: neither may be moved past the other. */
  predicate Equiv<T>(le: (T, T) -> bool, a: T, b: T) {
    le(a, b) && le(b, a)
  }

  predicate SortedBy<T>(s: seq<T>, le: (T, T) -> bool) {
    forall i, j :: 0 <= i < j < |s| ==> le(s[i], s[j])
  }

  /** The elements of `s` that sort as equals of `k`, in the order of `s`. */
  function Class<T>(s: seq<T>, le: (T, T) -> bool, k: T): (r: seq<T>)
    ensures |r| <= |s|
    ensures forall x :: x in r ==> x in s && Equiv(le, k, x)
  {
    if |s| == 0 then []
    else (if Equiv(le, k, s[0]) then [s[0]] else []) + Class(s[1..], le, k)
  }

  /** Places `x` in front of the first element it may precede. */
  function Insert<T>(x: T, s: seq<T>, le: (T, T) -> bool): (r: seq<T>)
    ensures |r| == |s| + 1
    ensures multiset(r) == multiset(s) + multiset{x}
  {
    if |s| == 0 then [x]
    else if le(x, s[0]) then [x] + s
    else
      assert s == [s[0]] + s[1..];
      [s[0]] + Insert(x, s[1..], le)
  }

  /** Stable insertion sort: equals keep their input order. */
  function Sort<T(!new)>(s: seq<T>, le: (T, T) -> bool): (r: seq<T>)
    ensures |r| == |s|
    ensures multiset(r) == multiset(s)
    ensures TotalPreorder(le) ==> SortedBy(r, le)
  {
    if |s| == 0 then []
    else
      var rest := Sort(s[1..], le);
      assert s == [s[0]] + s[1..];
      InsertSorted(s[0], rest, le);
      Insert(s[0], rest, le)
  }

  lemma InsertSorted<T(!new)>(x: T, s: seq<T>, le: (T, T) -> bool)
    ensures TotalPreorder(le) && SortedBy(s, le) ==> SortedBy(Insert(x, s, le), le)
  {
    if TotalPreorder(le) && SortedBy(s, le) && |s| > 0 && !le(x, s[0]) {
      InsertSorted(x, s[1..], le);
      var r := Insert(x, s, le);
      forall j | 0 < j < |r|
        ensures le(s[0], r[j])
      {
        assert r[j] in multiset(s[1..]) + multiset{x};
        if r[j] != x {
          assert r[j] in s[1..];
        }
      }
    }
  }

  /** Inserting `x` only adds `x` to its own class, at the front. */
  lemma {:induction false} InsertClass<T(!new)>(x: T, s: seq<T>, le: (T, T) -> bool, k: T)
    requires TotalPreorder(le)
    requires SortedBy(s, le)
    ensures Class(Insert(x, s, le), le, k)
         == (if Equiv(le, k, x) then [x] else []) + Class(s, le, k)
  {
    if |s| == 0 {
      ClassCons(x, s, le, k);
    } else if le(x, s[0]) {
      ClassCons(x, s, le, k);
    } else {
      var rest := Insert(x, s[1..], le);
      assert SortedBy(s[1..], le);
      InsertClass(x, s[1..], le, k);
      ClassCons(s[0], rest, le, k);
      ClassCons(s[0], s[1..], le, k);
      assert s == [s[0]] + s[1..];
      // s[0] sorts strictly before x, so the two are never in one class
      OneClassOrdered(le, k, x, s[0]);
      Swap(if Equiv(le, k, s[0]) then [s[0]] else [], if Equiv(le, k, x) then [x] else [], Class(s[1..], le, k));
    }
  }

  /** The class of a sequence with `x` in front. */
  lemma ClassCons<T>(x: T, s: seq<T>, le: (T, T) -> bool, k: T)
    ensures Class([x] + s, le, k) == (if Equiv(le, k, x) then [x] else []) + Class(s, le, k)
  {
    assert ([x] + s)[1..] == s;
  }

  /** Two sequences of which one is empty may trade places. */
  lemma Swap<T>(a: seq<T>, b: seq<T>, c: seq<T>)
    requires a == [] || b == []
    ensures a + (b + c) == b + (a + c)
  {
  }

  /** Elements of one class may precede each other. */
  lemma OneClassOrdered<T(!new)>(le: (T, T) -> bool, k: T, x: T, y: T)
    requires TotalPreorder(le)
    ensures Equiv(le, k, x) && Equiv(le, k, y) ==> le(x, y)
  {
    if Equiv(le, k, x) && Equiv(le, k, y) {
      assert le(x, k) && le(k, y);
    }
  }

  /** Sort is stable: each class of equals keeps its input order. */
  lemma {:induction false} SortStable<T(!new)>(s: seq<T>, le: (T, T) -> bool, k: T)
    requires TotalPreorder(le)
    ensures Class(Sort(s, le), le, k) == Class(s, le, k)
  {
    if |s| > 0 {
      SortStable(s[1..], le, k);
      InsertClass(s[0], Sort(s[1..], le), le, k);
    }
  }

  /** An already sorted sequence is left as it is. */
  lemma {:induction false} SortOfSorted<T(!new)>(s: seq<T>, le: (T, T) -> bool)
    requires SortedBy(s, le)
    ensures Sort(s, le) == s
  {
    if |s| > 0 {
      assert SortedBy(s[1..], le);
      SortOfSorted(s[1..], le);
      if |s| > 1 {
        assert le(s[0], s[1]);
      }
    }
  }
}
