/**
  Stable insertion by a strict order, standing for the library sort the program calls,
  and the fact every caller relies on: a list sorted by a strict order is determined by
  the elements it holds.
*/
module Sorting {

  ghost predicate StrictOrder<T(!new)>(before: (T, T) -> bool) {
    && (forall a :: !before(a, a))
    && (forall a, b, c :: before(a, b) && before(b, c) ==> before(a, c))
  }

  /** Any two different positions hold comparable elements. */
  ghost predicate Comparable<T(!new)>(s: seq<T>, before: (T, T) -> bool) {
    forall i, j | 0 <= i < j < |s| :: before(s[i], s[j]) || before(s[j], s[i])
  }

  ghost predicate Sorted<T(!new)>(s: seq<T>, before: (T, T) -> bool) {
    forall i, j | 0 <= i < j < |s| :: before(s[i], s[j])
  }

  /** Places x behind every element that is not after it. */
  function Insert<T>(x: T, s: seq<T>, before: (T, T) -> bool): (r: seq<T>)
    ensures multiset(r) == multiset(s) + multiset{x}
    ensures |r| == |s| + 1
  {
    if s == [] then [x]
    else if before(x, s[0]) then [x] + s
    else
      assert s == [s[0]] + s[1..];
      [s[0]] + Insert(x, s[1..], before)
  }

  /** Stable: equal elements keep their input order. */
  function Sort<T>(s: seq<T>, before: (T, T) -> bool): (r: seq<T>)
    ensures multiset(r) == multiset(s)
    ensures |r| == |s|
  {
    if s == [] then []
    else
      assert s == s[..|s| - 1] + [s[|s| - 1]];
      Insert(s[|s| - 1], Sort(s[..|s| - 1], before), before)
  }

  lemma SameElements<T>(s: seq<T>, t: seq<T>)
    requires multiset(s) == multiset(t)
    ensures forall x :: x in s <==> x in t
  {
    forall x ensures x in s <==> x in t {
      assert x in s <==> x in multiset(s);
      assert x in t <==> x in multiset(t);
    }
  }

  lemma {:induction false} InsertSorted<T(!new)>(x: T, s: seq<T>, before: (T, T) -> bool)
    requires StrictOrder(before) && Sorted(s, before)
    requires forall y | y in s :: before(x, y) || before(y, x)
    ensures Sorted(Insert(x, s, before), before)
  {
    if s == [] {
    } else if before(x, s[0]) {
      forall j | 0 <= j < |s| ensures before(x, s[j]) {
        if j > 0 { assert before(s[0], s[j]); }
      }
    } else {
      InsertSorted(x, s[1..], before);
      var t := Insert(x, s[1..], before);
      InsertMembers(x, s[1..], before);
      assert s[0] in s;
      forall j | 0 <= j < |t| ensures before(s[0], t[j]) {
        if t[j] != x {
          var k :| 0 <= k < |s[1..]| && s[1..][k] == t[j];
          assert before(s[0], s[k + 1]);
        }
      }
      SortedCons(s[0], t, before);
    }
  }

  lemma {:induction false} InsertMembers<T>(x: T, s: seq<T>, before: (T, T) -> bool)
    ensures forall i | 0 <= i < |Insert(x, s, before)| :: Insert(x, s, before)[i] == x || Insert(x, s, before)[i] in s
  {
    var t := Insert(x, s, before);
    forall i | 0 <= i < |t| ensures t[i] == x || t[i] in s {
      assert t[i] in multiset(t);
    }
  }

  lemma {:induction false} SortedCons<T(!new)>(x: T, s: seq<T>, before: (T, T) -> bool)
    requires Sorted(s, before) && forall j | 0 <= j < |s| :: before(x, s[j])
    ensures Sorted([x] + s, before)
  {
  }

  lemma {:induction false} SortSorted<T(!new)>(s: seq<T>, before: (T, T) -> bool)
    requires StrictOrder(before) && Comparable(s, before)
    ensures Sorted(Sort(s, before), before)
  {
    if s != [] {
      var last := |s| - 1;
      SortSorted(s[..last], before);
      SameElements(Sort(s[..last], before), s[..last]);
      forall y | y in s[..last] ensures before(s[last], y) || before(y, s[last]) {
        var k :| 0 <= k < last && s[k] == y;
      }
      InsertSorted(s[last], Sort(s[..last], before), before);
    }
  }

  lemma SameEmptiness<T(!new)>(s: seq<T>, t: seq<T>)
    requires forall x :: x in s ==> x in t
    ensures t == [] ==> s == []
  {
    if s != [] { assert s[0] in t; }
  }

  /** Two sorted lists with the same elements are the same list. */
  lemma {:induction false} SortedUnique<T(!new)>(s: seq<T>, t: seq<T>, before: (T, T) -> bool)
    requires StrictOrder(before) && Sorted(s, before) && Sorted(t, before)
    requires forall x :: x in s <==> x in t
    ensures s == t
  {
    SameEmptiness(s, t);
    SameEmptiness(t, s);
    if s != [] {
      assert s[0] in t && t[0] in s;
      assert s[0] == t[0];
      forall x ensures x in s[1..] <==> x in t[1..] {
        TailElements(s, before, x);
        TailElements(t, before, x);
      }
      SortedUnique(s[1..], t[1..], before);
      assert s == [s[0]] + s[1..] && t == [t[0]] + t[1..];
    }
  }

  lemma TailElements<T(!new)>(s: seq<T>, before: (T, T) -> bool, x: T)
    requires StrictOrder(before) && Sorted(s, before) && s != []
    ensures x in s[1..] <==> x in s && x != s[0]
  {
    if x in s && x != s[0] {
      var k :| 0 <= k < |s| && s[k] == x;
      assert s[1..][k - 1] == x;
    }
  }

  /** The elements that satisfy a test, in order. */
  function Filter<T(!new)>(s: seq<T>, keep: T -> bool): (r: seq<T>)
    ensures forall x :: x in r <==> x in s && keep(x)
  {
    if s == [] then []
    else if keep(s[0]) then [s[0]] + Filter(s[1..], keep)
    else Filter(s[1..], keep)
  }

  lemma {:induction false} FilterAppend<T(!new)>(s: seq<T>, t: seq<T>, keep: T -> bool)
    ensures Filter(s + t, keep) == Filter(s, keep) + Filter(t, keep)
  {
    if s == [] {
      assert s + t == t;
    } else {
      assert (s + t)[1..] == s[1..] + t;
      FilterAppend(s[1..], t, keep);
    }
  }

  lemma {:induction false} FilterSorted<T(!new)>(s: seq<T>, keep: T -> bool, before: (T, T) -> bool)
    requires Sorted(s, before)
    ensures Sorted(Filter(s, keep), before)
  {
    if s != [] {
      FilterSorted(s[1..], keep, before);
      var t := Filter(s[1..], keep);
      forall j | 0 <= j < |t| ensures before(s[0], t[j]) {
        assert t[j] in s[1..];
      }
    }
  }

  lemma {:induction false} FilterMultiset<T(!new)>(s: seq<T>, keep: T -> bool)
    ensures forall x :: multiset(Filter(s, keep))[x] == if keep(x) then multiset(s)[x] else 0
  {
    if s != [] {
      FilterMultiset(s[1..], keep);
      assert s == [s[0]] + s[1..];
    }
  }
}
