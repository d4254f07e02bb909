/** Sorting as Go's libraries promise it: some ordered permutation, unique only under a total order. */
module Sorting {

  /** What the sorting functions demand of the comparison. */
  ghost predicate StrictWeakOrder<T(!new)>(less: (T, T) -> bool) {
    && (forall a, b :: less(a, b) ==> !less(b, a))
    && (forall a, b, c :: less(a, c) ==> less(a, b) || less(b, c))
  }

  ghost predicate Distinguishes<T(!new)>(less: (T, T) -> bool) {
    forall a, b :: !less(a, b) && !less(b, a) ==> a == b
  }

  predicate SortedBy<T>(less: (T, T) -> bool, s: seq<T>) {
    forall i, j :: 0 <= i < j < |s| ==> !less(s[j], s[i])
  }

  predicate Sorts<T(==)>(less: (T, T) -> bool, s: seq<T>, t: seq<T>) {
    multiset(t) == multiset(s) && SortedBy(less, t)
  }

  function Insert<T>(less: (T, T) -> bool, x: T, s: seq<T>): (t: seq<T>)
    ensures multiset(t) == multiset(s) + multiset{x}
  {
    if s == [] || !less(s[0], x) then [x] + s
    else
      assert s == [s[0]] + s[1..];
      [s[0]] + Insert(less, x, s[1..])
  }

  lemma {:induction false} InsertSorted<T(!new)>(less: (T, T) -> bool, x: T, s: seq<T>)
    requires StrictWeakOrder(less) && SortedBy(less, s)
    ensures SortedBy(less, Insert(less, x, s))
  {
    if s != [] && less(s[0], x) {
      InsertSorted(less, x, s[1..]);
      var rest := Insert(less, x, s[1..]);
      forall j | 0 <= j < |rest|
        ensures !less(rest[j], s[0])
      {
        assert rest[j] in multiset(rest);
        assert rest[j] == x || rest[j] in s[1..];
      }
    }
  }

  function InsertionSort<T>(less: (T, T) -> bool, s: seq<T>): (t: seq<T>)
    ensures multiset(t) == multiset(s)
  {
    if s == [] then []
    else
      assert s == [s[0]] + s[1..];
      Insert(less, s[0], InsertionSort(less, s[1..]))
  }

  lemma {:induction false} SortingSucceeds<T(!new)>(less: (T, T) -> bool, s: seq<T>)
    requires StrictWeakOrder(less)
    ensures Sorts(less, s, InsertionSort(less, s))
  {
    if s == [] {
    } else {
      SortingSucceeds(less, s[1..]);
      InsertSorted(less, s[0], InsertionSort(less, s[1..]));
    }
  }

  /** Under a total order the sorted permutation is unique, whatever the algorithm. */
  lemma {:induction false} SortedOnce<T(!new)>(less: (T, T) -> bool, s: seq<T>, t: seq<T>)
    requires StrictWeakOrder(less) && Distinguishes(less)
    requires SortedBy(less, s) && SortedBy(less, t) && multiset(s) == multiset(t)
    ensures s == t
  {
    if s == [] {
      assert |multiset(t)| == 0;
    } else {
      assert |t| == |multiset(t)| == |multiset(s)| == |s|;
      FirstIsLeast(less, s, t);
      FirstIsLeast(less, t, s);
      assert s == [s[0]] + s[1..] && t == [t[0]] + t[1..];
      assert multiset(s[1..]) == multiset(s) - multiset{s[0]};
      assert multiset(t[1..]) == multiset(t) - multiset{t[0]};
      SortedOnce(less, s[1..], t[1..]);
    }
  }

  lemma FirstIsLeast<T(!new)>(less: (T, T) -> bool, s: seq<T>, t: seq<T>)
    requires StrictWeakOrder(less) && SortedBy(less, s) && multiset(s) == multiset(t) && s != [] && t != []
    ensures !less(t[0], s[0])
  {
    assert t[0] in multiset(s);
    var i :| 0 <= i < |s| && s[i] == t[0];
    if i == 0 {
      assert !less(s[0], s[0]);
    }
  }

  // ---------- Strings in Go's order ----------

  predicate Before(a: string, b: string) {
    b != "" && (a == "" || a[0] < b[0] || (a[0] == b[0] && Before(a[1..], b[1..])))
  }

  lemma {:induction false} BeforeLaws(a: string, b: string, c: string)
    ensures Before(a, b) ==> !Before(b, a)
    ensures Before(a, c) ==> Before(a, b) || Before(b, c)
    ensures !Before(a, b) && !Before(b, a) ==> a == b
    decreases |a| + |b| + |c|
  {
    if a != "" && b != "" && c != "" {
      BeforeLaws(a[1..], b[1..], c[1..]);
      if a[0] == b[0] && a[1..] == b[1..] {
        assert a == [a[0]] + a[1..] && b == [b[0]] + b[1..];
      }
    } else if a != "" && b != "" {
      BeforeLaws(a[1..], b[1..], c);
      if a[0] == b[0] && a[1..] == b[1..] {
        assert a == [a[0]] + a[1..] && b == [b[0]] + b[1..];
      }
    }
  }

  lemma StringsAreOrdered()
    ensures StrictWeakOrder(Before) && Distinguishes(Before)
  {
    forall a, b, c
      ensures Before(a, b) ==> !Before(b, a)
      ensures Before(a, c) ==> Before(a, b) || Before(b, c)
      ensures !Before(a, b) && !Before(b, a) ==> a == b
    {
      BeforeLaws(a, b, c);
    }
  }

  /** The strings agree before position k, where the first one ends or has the smaller character. */
  ghost predicate SmallerAt(a: string, b: string, k: nat) {
    k <= |a| && k < |b| && (forall i :: 0 <= i < k ==> a[i] == b[i]) && (k == |a| || a[k] < b[k])
  }

  /** The order of strings is decided where they first differ. */
  lemma {:induction false} BeforeIff(a: string, b: string)
    ensures Before(a, b) <==> exists k: nat :: SmallerAt(a, b, k)
  {
    if a == "" || b == "" || a[0] != b[0] {
      if Before(a, b) {
        assert SmallerAt(a, b, 0);
      }
      assert forall k: nat :: SmallerAt(a, b, k) && a != "" ==> k > 0 ==> a[0] == b[0];
    } else {
      BeforeIff(a[1..], b[1..]);
      SmallerBehind(a, b);
    }
  }

  lemma SmallerBehind(a: string, b: string)
    requires a != "" && b != "" && a[0] == b[0]
    ensures (exists k: nat :: SmallerAt(a, b, k)) <==> exists k: nat :: SmallerAt(a[1..], b[1..], k)
  {
    if k: nat :| SmallerAt(a[1..], b[1..], k) {
      forall i | 0 <= i < k + 1
        ensures a[i] == b[i]
      {
        if i > 0 {
          assert a[1..][i - 1] == b[1..][i - 1];
        }
      }
      assert SmallerAt(a, b, k + 1);
    }
    if k: nat :| SmallerAt(a, b, k) {
      assert SmallerAt(a[1..], b[1..], k - 1);
    }
  }
}
