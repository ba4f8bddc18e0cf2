/** What sweeping some certificates does to the overrides, and how two sweeps in a row add up. */
module SweepLemmas {
  import opened Wrappers
  import opened Ids
  import opened Ownership
  import opened PassLemmas

  // --- lists of ids -----------------------------------------------------------------------------

  lemma {:induction false} AfterMembers(q: seq<Id>, cursor: Id, x: Id)
    ensures x in After(q, cursor) <==> x in q && Less(cursor, x)
  {
    if q != [] {
      AfterMembers(q[1..], cursor, x);
    }
  }

  /** A key after the cursor is on the page, or the page is full and ends before it. */
  lemma {:induction false} OnPageOrBeyond(keys: set<Id>, cursor: Id, limit: nat, x: Id)
    requires x in keys && Less(cursor, x) && limit >= 1
    ensures var page := Page(keys, cursor, limit);
      x in page || (|page| == limit && Less(NextCursor(page, cursor), x))
  {
    SortedIdsOrder(keys);
    var rest, page := After(SortedIds(keys), cursor), Page(keys, cursor, limit);
    AfterMembers(SortedIds(keys), cursor, x);
    AfterAscending(SortedIds(keys), cursor);
    var i :| 0 <= i < |rest| && rest[i] == x;
    if i < |page| {
      assert page[i] == x;
    } else {
      assert page == rest[..limit] && Less(rest[limit - 1], rest[i]);
    }
  }

  lemma {:induction false} AscendingTail(q: seq<Id>, k: nat)
    requires Ascending(q) && k <= |q|
    ensures Ascending(q[k..])
  {
  }

  /** Only one ascending list has these members. */
  lemma {:induction false} AscendingUnique(a: seq<Id>, b: seq<Id>)
    requires Ascending(a) && Ascending(b) && forall x :: x in a <==> x in b
    ensures a == b
  {
    if a == [] {
      if b != [] { SameHead(b, a); }
    } else {
      SameHead(a, b);
      forall x ensures x in a[1..] <==> x in b[1..] {
        TailMembers(a, x);
        TailMembers(b, x);
      }
      AscendingTail(a, 1);
      AscendingTail(b, 1);
      AscendingUnique(a[1..], b[1..]);
      assert a == [a[0]] + a[1..] && b == [b[0]] + b[1..];
    }
  }

  lemma {:induction false} TailMembers(a: seq<Id>, x: Id)
    requires Ascending(a) && a != []
    ensures x in a[1..] <==> x in a && x != a[0]
  {
    AscendingDistinct(a);
    if x in a && x != a[0] {
      var i :| 0 <= i < |a| && a[i] == x;
      assert a[1..][i - 1] == x;
    }
  }

  lemma {:induction false} SameHead(a: seq<Id>, b: seq<Id>)
    requires Ascending(a) && Ascending(b) && a != [] && forall x :: x in a <==> x in b
    ensures b != [] && a[0] == b[0]
  {
    assert a[0] in b && b[0] in a;
    if a[0] != b[0] {
      var i :| 0 <= i < |b| && b[i] == a[0];
      var j :| 0 <= j < |a| && a[j] == b[0];
      LessAsymmetric(b[0], a[0]);
    }
  }

  // --- what a sweep changes ------------------------------------------------------------------------

  /** The listed certificates have lost every override in force; nothing else about overrides changed. */
  ghost predicate Swept(a: map<Id, Override>, b: map<Id, Override>, page: seq<Id>) {
    && b.Keys == a.Keys
    && forall o | o in a ::
         && b[o].certId == a[o].certId && b[o].expiresAt == a[o].expiresAt
         && (a[o].certId !in page ==> b[o] == a[o])
         && (a[o].certId in page ==> b[o].cleared.Some?)
  }

  lemma {:induction false} ClearedStep(
      a: map<Id, Override>, m: map<Id, Override>, b: map<Id, Override>, page: seq<Id>, c: Id, id: Id, gone: Clearance)
    requires OneActive(a) && Swept(a, m, page) && id in a && a[id].certId == c && a[id].cleared.None?
    requires b == if m[id].cleared.None? then m[id := m[id].(cleared := Some(gone))] else m
    ensures Swept(a, b, page + [c])
  {
    forall o | o in a
      ensures b[o].certId == a[o].certId && b[o].expiresAt == a[o].expiresAt
      ensures a[o].certId !in page + [c] ==> b[o] == a[o]
      ensures a[o].certId in page + [c] ==> b[o].cleared.Some?
    {
      if a[o].certId == c && o != id {
        assert a[o].cleared.Some?;
      }
    }
  }

  lemma {:induction false} SweepAllClears(p: Platform, pre: State, page: seq<Id>, now: int, post: State)
    requires OneActive(pre.overrides) && (forall c | c in page :: ActiveOverride(pre.overrides, c).Some?)
    requires SweepAll(p, pre, pre, page, now) == Ok(post)
    ensures Swept(pre.overrides, post.overrides, page)
  {
    if page != [] {
      var n := |page| - 1;
      var mid := SweepAll(p, pre, pre, page[..n], now).value;
      SweepAllClears(p, pre, page[..n], now, mid);
      var id := ActiveOverride(pre.overrides, page[n]).value;
      SweepOneFrame(p, mid, page[n], id, pre.overrides[id], now);
      ClearedStep(pre.overrides, mid.overrides, post.overrides, page[..n], page[n], id,
                  Clearance(now, "system", "auto-expired"));
      assert page == page[..n] + [page[n]];
    }
  }

  lemma {:induction false} SweptActive(a: map<Id, Override>, b: map<Id, Override>, page: seq<Id>)
    requires OneActive(a) && Swept(a, b, page)
    ensures OneActive(b)
    ensures forall c | c !in page :: ActiveIds(b, c) == ActiveIds(a, c)
  {
    forall x, y | x in b && y in b && b[x].certId == b[y].certId && b[x].cleared.None? && b[y].cleared.None?
      ensures x == y
    {
      assert b[x] == a[x] && b[y] == a[y];
    }
  }

  /** What is left expired at a time is what was, without the swept certificates. */
  lemma {:induction false} SweptExpiring(pre: State, post: State, page: seq<Id>, t: int)
    requires Swept(pre.overrides, post.overrides, page)
    ensures ExpiringCerts(post, t) == set c | c in ExpiringCerts(pre, t) && c !in page
  {
    forall c ensures c in ExpiringCerts(post, t) <==> c in ExpiringCerts(pre, t) && c !in page {
      if c in ExpiringCerts(post, t) {
        var o :| o in post.overrides && post.overrides[o].cleared.None? && Expired(post.overrides[o], t)
                 && post.overrides[o].certId == c;
        assert o in pre.overrides && pre.overrides[o] == post.overrides[o];
      }
      if c in ExpiringCerts(pre, t) && c !in page {
        var o :| o in pre.overrides && pre.overrides[o].cleared.None? && Expired(pre.overrides[o], t)
                 && pre.overrides[o].certId == c;
        assert post.overrides[o] == pre.overrides[o];
      }
    }
  }

  /** A successful page: which certificates it swept and what it leaves. */
  lemma {:induction false} PageClears(p: Platform, st: State, cursor: Id, limit: nat, now: int, post: State)
    requires OneActive(st.overrides) && SweepPageTx(p, st, cursor, limit, now) == Ok(post)
    ensures var page := Page(ExpiringCerts(st, now), cursor, limit);
      && Swept(st.overrides, post.overrides, page) && OneActive(post.overrides)
      && forall t :: ExpiringCerts(post, t) == set c | c in ExpiringCerts(st, t) && c !in page
  {
    var page := Page(ExpiringCerts(st, now), cursor, limit);
    ExpiringPage(st, now, cursor, limit);
    SweepAllClears(p, st, page, now, post);
    SweptActive(st.overrides, post.overrides, page);
    forall t ensures ExpiringCerts(post, t) == set c | c in ExpiringCerts(st, t) && c !in page {
      SweptExpiring(st, post, page, t);
    }
  }

  lemma {:induction false} LaterExpiresMore(st: State, t: int, now: int)
    requires t <= now
    ensures ExpiringCerts(st, t) <= ExpiringCerts(st, now)
  {
    forall c | c in ExpiringCerts(st, t) ensures c in ExpiringCerts(st, now) {
      var o :| o in st.overrides && st.overrides[o].cleared.None? && Expired(st.overrides[o], t)
               && st.overrides[o].certId == c;
      assert Expired(st.overrides[o], now);
    }
  }

  // --- sweeping in two parts ------------------------------------------------------------------------

  lemma {:induction false} SweepSum(p: Platform, snapshot: State, st: State, a: seq<Id>, b: seq<Id>, now: int)
    requires forall c | c in a + b :: ActiveOverride(snapshot.overrides, c).Some?
    ensures (forall c | c in a :: c in a + b) && (forall c | c in b :: c in a + b)
    ensures SweepAll(p, snapshot, st, a + b, now) ==
      match SweepAll(p, snapshot, st, a, now)
      case Err(e) => Err(e)
      case Ok(mid) => SweepAll(p, snapshot, mid, b, now)
  {
    if b == [] {
      assert a + b == a;
    } else {
      var n := |b| - 1;
      assert (a + b)[..|a + b| - 1] == a + b[..n] && (a + b)[|a + b| - 1] == b[n];
      assert forall c | c in a + b[..n] :: c in a + b;
      SweepSum(p, snapshot, st, a, b[..n], now);
    }
  }

  /** Only the active override of each listed certificate is read from the listing. */
  lemma {:induction false} SweepByEntries(p: Platform, s1: State, s2: State, st: State, page: seq<Id>, now: int)
    requires forall c | c in page :: ActiveOverride(s1.overrides, c).Some? && EntryOf(s2, c) == EntryOf(s1, c)
    ensures forall c | c in page :: ActiveOverride(s2.overrides, c).Some?
    ensures SweepAll(p, s2, st, page, now) == SweepAll(p, s1, st, page, now)
  {
    assert forall c | c in page :: EntryOf(s1, c).Some?;
    if page != [] {
      var n := |page| - 1;
      SweepByEntries(p, s1, s2, st, page[..n], now);
      assert EntryOf(s2, page[n]) == EntryOf(s1, page[n]);
    }
  }

  /** Sweeping the second part from its own listing continues the sweep of the whole. */
  lemma {:induction false} SweepGoesOn(
      p: Platform, st: State, mid: State, a: seq<Id>, b: seq<Id>, ab: seq<Id>, now: int)
    requires ab == a + b && forall c | c in ab :: ActiveOverride(st.overrides, c).Some?
    requires (forall c | c in a :: c in ab) && SweepAll(p, st, st, a, now) == Ok(mid)
    requires forall c | c in b :: EntryOf(mid, c) == EntryOf(st, c)
    ensures forall c | c in b :: ActiveOverride(mid.overrides, c).Some?
    ensures SweepAll(p, mid, mid, b, now) == SweepAll(p, st, st, ab, now)
  {
    assert forall c | c in b :: c in ab;
    SweepByEntries(p, st, mid, mid, b, now);
    SweepSum(p, st, st, a, b, now);
  }
}
