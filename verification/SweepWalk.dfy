/**
  The override sweep across pages at one time: a drain that nothing disturbs clears every override expired
  then, once and in order, although swept rows leave the listing.
*/
module SweepWalk {
  import opened Wrappers
  import opened Ids
  import opened Engine
  import opened Ownership
  import opened OwnershipInvariants
  import opened PassLemmas
  import opened SweepLemmas
  import opened MaintenanceJobs
  import opened Runner
  import opened RunnerTheorems
  import opened RunnerChains

  // --- a drain that nothing disturbs ------------------------------------------------------------------

  /** The certificates to sweep, in key order. */
  ghost predicate Sweepable(st: State, now: int, e: seq<Id>) {
    OneActive(st.overrides) && "" !in e && e == SortedIds(ExpiringCerts(st, now))
  }

  /** After m of the listed certificates, in order: the tables, and the cursor at the last of them. */
  ghost predicate OnSweep(p: Platform, st: State, now: int, e: seq<Id>, m: nat, at: Place<Clocked>) {
    && m <= |e| && at.cursor == CursorAt(e, m) && at.store.now == now
    && (forall c | c in e :: ActiveOverride(st.overrides, c).Some?)
    && SweepAll(p, st, st, e[..m], now) == Ok(at.store.tables)
  }

  /** The certificates still to sweep are the rest of the list. */
  lemma {:induction false} RestToSweep(p: Platform, st: State, now: int, e: seq<Id>, m: nat, at: Place<Clocked>)
    requires Sweepable(st, now, e) && OnSweep(p, st, now, e, m, at)
    ensures OneActive(at.store.tables.overrides)
    ensures SortedIds(ExpiringCerts(at.store.tables, now)) == e[m..]
    ensures forall c | c in e[m..] :: EntryOf(at.store.tables, c) == EntryOf(st, c)
  {
    var mid := at.store.tables;
    SortedIdsOrder(ExpiringCerts(st, now));
    assert forall c | c in e[..m] :: c in e;
    SweepAllClears(p, st, e[..m], now, mid);
    SweptActive(st.overrides, mid.overrides, e[..m]);
    SweptExpiring(st, mid, e[..m], now);
    SortedIdsOrder(ExpiringCerts(mid, now));
    AscendingTail(e, m);
    AscendingDistinct(e);
    forall x ensures x in e[m..] <==> x in SortedIds(ExpiringCerts(mid, now)) {
      InTail(e, m, x);
    }
    AscendingUnique(SortedIds(ExpiringCerts(mid, now)), e[m..]);
    forall c | c in e[m..] ensures EntryOf(mid, c) == EntryOf(st, c) {
      InTail(e, m, c);
      SameEntry(st, mid, e[..m], c);
    }
  }

  lemma {:induction false} InTail(e: seq<Id>, m: nat, x: Id)
    requires m <= |e| && forall i, j | 0 <= i < j < |e| :: e[i] != e[j]
    ensures x in e[m..] <==> x in e && x !in e[..m]
  {
    if x in e && x !in e[..m] {
      var i :| 0 <= i < |e| && e[i] == x;
      assert i >= m && e[m..][i - m] == x;
    }
  }

  lemma {:induction false} SameEntry(a: State, b: State, page: seq<Id>, c: Id)
    requires OneActive(a.overrides) && Swept(a.overrides, b.overrides, page) && c !in page
    requires ActiveIds(b.overrides, c) == ActiveIds(a.overrides, c)
    ensures EntryOf(b, c) == EntryOf(a, c)
  {
  }

  lemma {:induction false} RestPage(keys: set<Id>, e: seq<Id>, m: nat, m': nat, limit: nat)
    requires Ascending(e) && "" !in e && m <= |e| && SortedIds(keys) == e[m..] && m' == Min(m + limit, |e|)
    ensures Page(keys, CursorAt(e, m), limit) == e[m..m']
  {
    AfterCursor(e, m);
    forall i | 0 <= i < |e[m..]| ensures Less(CursorAt(e, m), e[m..][i]) {
      if m > 0 { assert Less(e[m - 1], e[m + i]); }
    }
    AfterKeepsAll(e[m..], CursorAt(e, m));
    TakeSlice(e, m, limit);
  }

  /** Sweeping the next slice from its own listing continues the sweep of the whole list. */
  lemma {:induction false} SliceContinues(
      p: Platform, st: State, now: int, e: seq<Id>, m: nat, m': nat, at: Place<Clocked>, page: seq<Id>)
    requires Sweepable(st, now, e) && OnSweep(p, st, now, e, m, at) && m <= m' <= |e| && page == e[m..m']
    ensures forall c | c in page :: ActiveOverride(at.store.tables.overrides, c).Some?
    ensures forall c | c in e[..m'] :: ActiveOverride(st.overrides, c).Some?
    ensures SweepAll(p, at.store.tables, at.store.tables, page, now) == SweepAll(p, st, st, e[..m'], now)
  {
    RestToSweep(p, st, now, e, m, at);
    SliceMembers(e, m, m', page);
    SweepGoesOn(p, st, at.store.tables, e[..m], page, e[..m'], now);
  }

  lemma {:induction false} SliceMembers(e: seq<Id>, m: nat, m': nat, page: seq<Id>)
    requires m <= m' <= |e| && page == e[m..m']
    ensures e[..m'] == e[..m] + page
    ensures forall c | c in page :: c in e[m..]
    ensures forall c | c in e[..m'] :: c in e
    ensures forall c | c in e[..m] :: c in e[..m']
  {
    forall c | c in page ensures c in e[m..] {
      var i :| 0 <= i < |page| && page[i] == c;
      assert e[m..][i] == c;
    }
    forall c | c in e[..m] ensures c in e[..m'] {
      var i :| 0 <= i < m && e[i] == c;
      assert e[..m'][i] == c;
    }
  }

  lemma {:induction false} ListedSlice(
      p: Platform, st: State, now: int, e: seq<Id>, m: nat, m': nat, limit: nat, at: Place<Clocked>)
    requires Sweepable(st, now, e) && OnSweep(p, st, now, e, m, at) && m' == Min(m + limit, |e|)
    ensures Page(ExpiringCerts(at.store.tables, now), at.cursor, limit) == e[m..m']
    ensures NextCursor(e[m..m'], at.cursor) == CursorAt(e, m')
  {
    RestToSweep(p, st, now, e, m, at);
    SortedIdsOrder(ExpiringCerts(st, now));
    RestPage(ExpiringCerts(at.store.tables, now), e, m, m', limit);
    SliceCursor(e, m, m');
  }

  lemma {:induction false} PageIsSweep(
      p: Platform, found: Clocked, cursor: Id, limit: nat, page: seq<Id>, swept: Result<State, Refusal>)
    requires page == Page(ExpiringCerts(found.tables, found.now), cursor, limit)
    requires forall c | c in page :: ActiveOverride(found.tables.overrides, c).Some?
    requires swept == SweepAll(p, found.tables, found.tables, page, found.now)
    ensures SweepPage(p, limit, found, cursor) ==
      match swept
      case Err(_) => None
      case Ok(left) => Some((Clocked(left, found.now),
                             PageResult(NextCursor(page, cursor), |page| < limit, |page|, |page|)))
  {
  }

  /** One page of the drain sweeps the next slice, or fails as the sweep of that slice does. */
  lemma {:induction false} PageOfSweep(
      p: Platform, st: State, now: int, e: seq<Id>, m: nat, m': nat, limit: nat, at: Place<Clocked>)
    requires Sweepable(st, now, e) && OnSweep(p, st, now, e, m, at) && m' == Min(m + limit, |e|)
    ensures forall c | c in e[..m'] :: ActiveOverride(st.overrides, c).Some?
    ensures match SweepPage(p, limit, at.store, at.cursor)
      case None => SweepAll(p, st, st, e[..m'], now).Err?
      case Some((left, r)) =>
        && OnSweep(p, st, now, e, m', Place(left, r.nextCursor))
        && r.done == (m' - m < limit) && r.itemsScanned == m' - m
  {
    var page := e[m..m'];
    ListedSlice(p, st, now, e, m, m', limit, at);
    SliceContinues(p, st, now, e, m, m', at, page);
    PageIsSweep(p, at.store, at.cursor, limit, page, SweepAll(p, st, st, e[..m'], now));
  }

  /** The rows behind the first n pages. */
  function Rows(limit: nat, total: nat, n: nat): (m: nat)
    ensures m <= total
  {
    if n == 0 then 0 else Min(Rows(limit, total, n - 1) + limit, total)
  }

  lemma {:induction false} SweepStarts(p: Platform, st: State, now: int, e: seq<Id>)
    requires Sweepable(st, now, e)
    ensures OnSweep(p, st, now, e, 0, Place(Clocked(st, now), CURSOR_START))
  {
    SortedIdsOrder(ExpiringCerts(st, now));
    forall c | c in e ensures ActiveOverride(st.overrides, c).Some? {
      var o :| o in st.overrides && st.overrides[o].cleared.None? && st.overrides[o].certId == c;
      assert o in ActiveIds(st.overrides, c);
    }
  }

  /** As long as the pages go on, each has swept the next slice. */
  lemma {:induction false} PagesSweep(
      p: Platform, st: State, now: int, e: seq<Id>, limit: nat, n: nat, m: nat, start: Place<Clocked>)
    requires Sweepable(st, now, e) && start == Place(Clocked(st, now), CURSOR_START)
    requires m == Rows(limit, |e|, n) && GoesOn(SweepJob(p, limit), Still(), start, n)
    ensures OnSweep(p, st, now, e, m, PlaceAt(SweepJob(p, limit), Still(), start, n))
  {
    if n == 0 {
      SweepStarts(p, st, now, e);
    } else {
      var k, mk := n - 1, Rows(limit, |e|, n - 1);
      PagesSweep(p, st, now, e, limit, k, mk, start);
      PageOfSweep(p, st, now, e, mk, m, limit, PlaceAt(SweepJob(p, limit), Still(), start, k));
      AttemptNext(SweepJob(p, limit), Still<Clocked>(), start, k, n);
      assert AnswerAt(SweepJob(p, limit), Still(), start, k).Some?;
    }
  }

  lemma {:induction false} NextAnswer(
      p: Platform, st: State, now: int, e: seq<Id>, limit: nat, n: nat, m: nat, m': nat, start: Place<Clocked>)
    returns (r: PageResult)
    requires Sweepable(st, now, e) && start == Place(Clocked(st, now), CURSOR_START)
    requires GoesOn(SweepJob(p, limit), Still(), start, n) && m == Rows(limit, |e|, n) && m' == Min(m + limit, |e|)
    requires (forall c | c in e :: ActiveOverride(st.overrides, c).Some?) && SweepAll(p, st, st, e, now).Ok?
    ensures AnswerAt(SweepJob(p, limit), Still(), start, n) == Some(r) && r.done == (m' - m < limit)
  {
    var at := PlaceAt(SweepJob(p, limit), Still(), start, n);
    PagesSweep(p, st, now, e, limit, n, m, start);
    PageOfSweep(p, st, now, e, m, m', limit, at);
    if SweepAll(p, st, st, e[..m'], now).Err? {
      SweepErrorSticks(p, st, e, m', now);
    }
    AttemptNext(SweepJob(p, limit), Still<Clocked>(), start, n, n + 1);
    r := AnswerAt(SweepJob(p, limit), Still(), start, n).value;
  }

  /** If the whole list can be swept, the pages reach its end. */
  lemma {:induction false} PagesReachTheEnd(
      p: Platform, st: State, now: int, e: seq<Id>, limit: nat, n: nat, m: nat, start: Place<Clocked>)
    returns (last: nat)
    requires Sweepable(st, now, e) && start == Place(Clocked(st, now), CURSOR_START) && limit >= 1
    requires GoesOn(SweepJob(p, limit), Still(), start, n) && m == Rows(limit, |e|, n)
    requires (forall c | c in e :: ActiveOverride(st.overrides, c).Some?) && SweepAll(p, st, st, e, now).Ok?
    ensures FullDrain(SweepJob(p, limit), start, last)
    decreases |e| - m
  {
    var m', n' := Min(m + limit, |e|), n + 1;
    var r := NextAnswer(p, st, now, e, limit, n, m, m', start);
    DrainNext(SweepJob(p, limit), Still<Clocked>(), start, n, n', r);
    if r.done {
      return n';
    }
    last := PagesReachTheEnd(p, st, now, e, limit, n', m', start);
  }

  /**
    Following the next cursor from the start at one time is one sweep of the certificates whose override
    had expired, each once and in key order, whatever the page size: the drain reaches its end iff that sweep
    succeeds, leaves its tables, and leaves no expired override.
  */
  lemma {:induction false} DrainIsOneSweep(p: Platform, st: State, now: int, e: seq<Id>, limit: nat, n: nat)
    requires Sweepable(st, now, e) && limit >= 1
    ensures var job, start := SweepJob(p, limit), Place(Clocked(st, now), CURSOR_START);
      && (forall c | c in e :: ActiveOverride(st.overrides, c).Some?)
      && ((exists k: nat :: FullDrain(job, start, k)) <==> SweepAll(p, st, st, e, now).Ok?)
      && (FullDrain(job, start, n) ==>
            && SweepAll(p, st, st, e, now) == Ok(PlaceAt(job, Still(), start, n).store.tables)
            && ExpiringCerts(PlaceAt(job, Still(), start, n).store.tables, now) == {})
  {
    var job, start := SweepJob(p, limit), Place(Clocked(st, now), CURSOR_START);
    SweepStarts(p, st, now, e);
    if SweepAll(p, st, st, e, now).Ok? {
      var last := PagesReachTheEnd(p, st, now, e, limit, 0, 0, start);
    }
    forall k: nat | FullDrain(job, start, k)
      ensures SweepAll(p, st, st, e, now) == Ok(PlaceAt(job, Still(), start, k).store.tables)
              && ExpiringCerts(PlaceAt(job, Still(), start, k).store.tables, now) == {}
    {
      DrainSwept(p, st, now, e, limit, k, start);
    }
  }

  lemma {:induction false} DrainSwept(
      p: Platform, st: State, now: int, e: seq<Id>, limit: nat, n: nat, start: Place<Clocked>)
    requires Sweepable(st, now, e) && start == Place(Clocked(st, now), CURSOR_START)
    requires FullDrain(SweepJob(p, limit), start, n) && forall c | c in e :: ActiveOverride(st.overrides, c).Some?
    ensures SweepAll(p, st, st, e, now) == Ok(PlaceAt(SweepJob(p, limit), Still(), start, n).store.tables)
    ensures ExpiringCerts(PlaceAt(SweepJob(p, limit), Still(), start, n).store.tables, now) == {}
  {
    var k := n - 1;
    var m, m' := Rows(limit, |e|, k), Rows(limit, |e|, n);
    PagesSweep(p, st, now, e, limit, k, m, start);
    PageOfSweep(p, st, now, e, m, m', limit, PlaceAt(SweepJob(p, limit), Still(), start, k));
    AttemptNext(SweepJob(p, limit), Still<Clocked>(), start, k, n);
    assert AnswerAt(SweepJob(p, limit), Still(), start, k).value.done;
    SweptToTheEnd(p, st, now, e, m', PlaceAt(SweepJob(p, limit), Still(), start, n));
  }

  lemma {:induction false} SweptToTheEnd(p: Platform, st: State, now: int, e: seq<Id>, m: nat, at: Place<Clocked>)
    requires Sweepable(st, now, e) && OnSweep(p, st, now, e, m, at) && m == |e|
    ensures SweepAll(p, st, st, e, now) == Ok(at.store.tables) && ExpiringCerts(at.store.tables, now) == {}
  {
    assert e[..m] == e;
    SweepAllClears(p, st, e, now, at.store.tables);
    SweptExpiring(st, at.store.tables, e, now);
    SortedIdsOrder(ExpiringCerts(st, now));
  }
}
