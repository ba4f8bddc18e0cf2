/**
  Opaque identifiers, their key order, and the contract of every paged read:
  the first `limit` rows whose key is strictly greater than the cursor, in key order.
  The empty string is the start sentinel; no stored key is empty.
*/
module Ids {
  import opened Wrappers

  type Id = string

  /** Strict lexicographic order on ids. */
  predicate Less(a: Id, b: Id) {
    b != "" && (a == "" || a[0] < b[0] || (a[0] == b[0] && Less(a[1..], b[1..])))
  }

  /** A proper beginning comes first, else the smaller character at the first difference. */
  lemma {:induction false} LessMeaning(a: Id, b: Id)
    ensures Less(a, b) <==>
      || (|a| < |b| && a == b[..|a|])
      || exists k: nat :: k < |a| && k < |b| && a[..k] == b[..k] && a[k] < b[k]
  {
    forall k: nat | 0 < k < |a| && k < |b| && a[..k] == b[..k] ensures a[0] == b[0] {
      SameStart(a, b, k);
    }
    if a != "" && b != "" && a[0] == b[0] {
      LessMeaning(a[1..], b[1..]);
      assert a == [a[0]] + a[1..] && b == [b[0]] + b[1..];
      if |a| < |b| && a == b[..|a|] {
        assert a[1..] == b[1..][..|a| - 1];
      }
      if k: nat :| k < |a| && k < |b| && a[..k] == b[..k] && a[k] < b[k] {
        assert a[1..][..k - 1] == a[..k][1..] && b[1..][..k - 1] == b[..k][1..];
        assert a[1..][k - 1] < b[1..][k - 1];
      }
      if k: nat :| k < |a| - 1 && k < |b| - 1 && a[1..][..k] == b[1..][..k] && a[1..][k] < b[1..][k] {
        assert a[..k + 1] == [a[0]] + a[1..][..k] && b[..k + 1] == [b[0]] + b[1..][..k];
        assert a[k + 1] < b[k + 1];
      }
      if |a| - 1 < |b| - 1 && a[1..] == b[1..][..|a| - 1] {
        assert b[..|a|] == [b[0]] + b[1..][..|a| - 1];
      }
    } else if a != "" && b != "" {
      if a[0] < b[0] { assert a[..0] == b[..0]; }
    }
  }

  lemma {:induction false} SameStart(a: Id, b: Id, k: nat)
    requires 0 < k <= |a| && k <= |b| && a[..k] == b[..k]
    ensures a[0] == b[0]
  {
    assert a[..k][0] == a[0] && b[..k][0] == b[0];
  }

  lemma {:induction false} LessAsymmetric(a: Id, b: Id)
    requires Less(a, b)
    ensures !Less(b, a) && a != b
  {
    if a != "" && a[0] == b[0] {
      LessAsymmetric(a[1..], b[1..]);
    }
  }

  lemma {:induction false} LessTransitive(a: Id, b: Id, c: Id)
    requires Less(a, b) && Less(b, c)
    ensures Less(a, c)
  {
    if a != "" && a[0] == b[0] == c[0] {
      LessTransitive(a[1..], b[1..], c[1..]);
    }
  }

  lemma {:induction false} LessTotal(a: Id, b: Id)
    ensures a == b || Less(a, b) || Less(b, a)
  {
    if a != "" && b != "" && a[0] == b[0] {
      LessTotal(a[1..], b[1..]);
      assert a == [a[0]] + a[1..] && b == [b[0]] + b[1..];
    }
  }

  ghost predicate IsMinimum(m: Id, s: set<Id>) {
    m in s && forall x | x in s :: x == m || Less(m, x)
  }

  lemma {:induction false} MinimumExists(s: set<Id>) returns (m: Id)
    requires s != {}
    ensures IsMinimum(m, s)
    decreases |s|
  {
    var x :| x in s;
    if s == {x} {
      return x;
    }
    var rest := s - {x};
    var r := MinimumExists(rest);
    LessTotal(x, r);
    m := if Less(x, r) then x else r;
    forall y | y in s ensures y == m || Less(m, y) {
      if y in rest && m == x && y != r {
        LessTransitive(x, r, y);
      }
    }
  }

  lemma MinimumUnique(s: set<Id>)
    requires s != {}
    ensures exists m :: IsMinimum(m, s)
    ensures forall m, n | IsMinimum(m, s) && IsMinimum(n, s) :: m == n
  {
    var w := MinimumExists(s);
    forall m, n | IsMinimum(m, s) && IsMinimum(n, s) ensures m == n {
      if m != n { LessAsymmetric(m, n); }
    }
  }

  function Minimum(s: set<Id>): (m: Id)
    requires s != {}
    ensures IsMinimum(m, s)
  {
    MinimumUnique(s);
    assert forall m | m in s && (forall x | x in s :: x == m || Less(m, x)) :: IsMinimum(m, s);
    var m :| m in s && forall x | x in s :: x == m || Less(m, x);
    m
  }

  /** The keys of a table in key order. */
  function SortedIds(s: set<Id>): (q: seq<Id>)
    ensures |q| == |s|
    decreases |s|
  {
    if s == {} then []
    else
      var m := Minimum(s);
      [m] + SortedIds(s - {m})
  }

  lemma {:induction false} SortedIdsMembers(s: set<Id>, x: Id)
    ensures x in SortedIds(s) <==> x in s
    decreases |s|
  {
    if s != {} {
      SortedIdsMembers(s - {Minimum(s)}, x);
    }
  }

  lemma {:induction false} SortedIdsOrder(s: set<Id>)
    ensures Ascending(SortedIds(s))
    ensures forall x :: x in SortedIds(s) <==> x in s
    decreases |s|
  {
    forall x ensures x in SortedIds(s) <==> x in s {
      SortedIdsMembers(s, x);
    }
    if s != {} {
      var m := Minimum(s);
      var rest := SortedIds(s - {m});
      SortedIdsOrder(s - {m});
      forall x | x in rest ensures Less(m, x) {
        SortedIdsMembers(s - {m}, x);
      }
      PrependAscending(m, rest);
    }
  }

  lemma {:induction false} PrependAscending(m: Id, rest: seq<Id>)
    requires Ascending(rest) && forall x | x in rest :: Less(m, x)
    ensures Ascending([m] + rest)
  {
  }

  ghost predicate Ascending(q: seq<Id>) {
    forall i, j | 0 <= i < j < |q| :: Less(q[i], q[j])
  }

  lemma AscendingDistinct(q: seq<Id>)
    requires Ascending(q)
    ensures forall i, j | 0 <= i < j < |q| :: q[i] != q[j]
  {
    forall i, j | 0 <= i < j < |q| ensures q[i] != q[j] {
      LessAsymmetric(q[i], q[j]);
    }
  }

  /** The rows strictly after the cursor. */
  function After(q: seq<Id>, cursor: Id): (r: seq<Id>)
    ensures forall x | x in r :: x in q
  {
    if q == [] then []
    else if Less(cursor, q[0]) then [q[0]] + After(q[1..], cursor)
    else After(q[1..], cursor)
  }

  /** One paged read over the key set of a table. */
  function Page(keys: set<Id>, cursor: Id, limit: nat): (page: seq<Id>)
    ensures forall x | x in page :: x in keys
  {
    SortedIdsOrder(keys);
    Take(After(SortedIds(keys), cursor), limit)
  }

  function Take(q: seq<Id>, limit: nat): (r: seq<Id>)
    ensures r <= q
  {
    q[..Min(|q|, limit)]
  }

  lemma {:induction false} AfterAscending(q: seq<Id>, cursor: Id)
    requires Ascending(q)
    ensures Ascending(After(q, cursor))
  {
    if q != [] {
      AfterAscending(q[1..], cursor);
      var rest := After(q[1..], cursor);
      assert forall j | 0 <= j < |rest| :: rest[j] in q[1..];
    }
  }

  lemma {:induction false} PageAscending(keys: set<Id>, cursor: Id, limit: nat)
    ensures Ascending(Page(keys, cursor, limit))
  {
    SortedIdsOrder(keys);
    AfterAscending(SortedIds(keys), cursor);
  }

  /** The cursor after `n` rows were consumed: empty at the start, then the last key read. */
  function CursorAt(q: seq<Id>, n: nat): Id
    requires n <= |q|
  {
    if n == 0 then "" else q[n - 1]
  }

  lemma {:induction false} AfterKeepsAll(q: seq<Id>, cursor: Id)
    requires forall i | 0 <= i < |q| :: Less(cursor, q[i])
    ensures After(q, cursor) == q
  {
    if q != [] {
      AfterKeepsAll(q[1..], cursor);
    }
  }

  lemma {:induction false} AfterDropsFrom(q: seq<Id>, cursor: Id, n: nat)
    requires Ascending(q) && n <= |q|
    requires forall i | 0 <= i < n :: !Less(cursor, q[i])
    requires forall i | n <= i < |q| :: Less(cursor, q[i])
    ensures After(q, cursor) == q[n..]
    decreases |q|
  {
    if n == 0 {
      AfterKeepsAll(q, cursor);
    } else {
      AfterDropsFrom(q[1..], cursor, n - 1);
    }
  }

  lemma AfterCursor(q: seq<Id>, n: nat)
    requires Ascending(q) && n <= |q| && "" !in q
    ensures After(q, CursorAt(q, n)) == q[n..]
  {
    if n == 0 {
      AfterKeepsAll(q, "");
    } else {
      forall i | 0 <= i < n ensures !Less(q[n - 1], q[i]) {
        if Less(q[n - 1], q[i]) { LessAsymmetric(q[n - 1], q[i]); }
      }
      AfterDropsFrom(q, q[n - 1], n);
    }
  }

  lemma {:induction false} TakeSlice(q: seq<Id>, n: nat, limit: nat)
    requires n <= |q|
    ensures Take(q[n..], limit) == q[n..Min(n + limit, |q|)]
  {
  }

  /** Walking by cursor: the page read after `n` consumed rows is the next slice of the key order. */
  lemma {:induction false} PageIsNextSlice(keys: set<Id>, n: nat, limit: nat)
    requires "" !in keys && n <= |keys|
    ensures Page(keys, CursorAt(SortedIds(keys), n), limit)
         == SortedIds(keys)[n..Min(n + limit, |keys|)]
  {
    SliceOfOrder(keys, SortedIds(keys), n, limit);
  }

  lemma {:induction false} SliceOfOrder(keys: set<Id>, q: seq<Id>, n: nat, limit: nat)
    requires "" !in keys && q == SortedIds(keys) && n <= |q|
    ensures Page(keys, CursorAt(q, n), limit) == q[n..Min(n + limit, |q|)]
  {
    SortedIdsOrder(keys);
    AfterCursor(q, n);
    TakeSlice(q, n, limit);
  }

  lemma {:induction false} SliceAppend(q: seq<Id>, n: nat, page: seq<Id>)
    requires n + |page| <= |q| && page == q[n..n + |page|]
    ensures q[..n] + page == q[..n + |page|]
  {
  }

  /** One paged read at the cursor a walk of `q` has reached: the next slice, short only at the end. */
  method NextPage(keys: set<Id>, ghost q: seq<Id>, ghost n: nat, cursor: Id, limit: nat) returns (page: seq<Id>)
    requires "" !in keys && q == SortedIds(keys) && n <= |q| && cursor == CursorAt(q, n) && limit >= 1
    ensures n + |page| <= |q| && page == q[n..n + |page|]
    ensures |page| <= limit && (|page| < limit ==> n + |page| == |q|)
    ensures page != [] ==> page[|page| - 1] == CursorAt(q, n + |page|)
    ensures forall c | c in page :: c in keys
  {
    page := Page(keys, cursor, limit);
    PageIsNextSlice(keys, n, limit);
  }

  /** The page size of a paged walk: 500 rows unless overridden. */
  function PageSize(override: int): (size: nat)
    ensures size >= 1 && (override > 0 ==> size == override) && (override <= 0 ==> size == 500)
  {
    if override > 0 then override else 500
  }

  /** A supply of ids that never repeats and from `nextId` on yields neither the empty nor a used id. */
  ghost predicate FreshFrom(mint: nat -> Id, nextId: nat, used: set<Id>) {
    && (forall m: nat, n: nat | m != n :: mint(m) != mint(n))
    && (forall n: nat | n >= nextId :: mint(n) != "" && mint(n) !in used)
  }
}
