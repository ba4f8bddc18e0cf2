/**
  The override sweep while the clock moves on: partial runs and a completed one are one sweep in key order,
  each certificate swept once, at the clock reading of its page.
*/
module SweepTimes {
  import opened Wrappers
  import opened Ids
  import opened Ownership
  import opened PassLemmas
  import opened SweepLemmas
  import opened MaintenanceJobs
  import opened Runner
  import opened RunnerTheorems
  import opened RunnerChains

  /** A certificate to sweep, and when. */
  datatype Stamp = Stamp(certId: Id, at: int)

  /** Sweeps one certificate: its override is cleared and the row re-derived, if it has one. */
  function SweepNow(p: Platform, st: State, s: Stamp): Result<State, Refusal> {
    match ActiveOverride(st.overrides, s.certId)
    case None => Ok(st)
    case Some(id) => SweepOne(p, st, s.certId, id, st.overrides[id], s.at)
  }

  /** Sweeps the certificates in order, each at its own time. */
  function SweepTimed(p: Platform, st: State, e: seq<Stamp>): Result<State, Refusal> {
    if e == [] then Ok(st)
    else
      match SweepTimed(p, st, e[..|e| - 1])
      case Err(r) => Err(r)
      case Ok(mid) => SweepNow(p, mid, e[|e| - 1])
  }

  function Stamped(page: seq<Id>, now: int): (e: seq<Stamp>)
    ensures |e| == |page| && forall i | 0 <= i < |e| :: e[i] == Stamp(page[i], now)
  {
    seq(|page|, i requires 0 <= i < |page| => Stamp(page[i], now))
  }

  function CertsOf(e: seq<Stamp>): (q: seq<Id>)
    ensures |q| == |e| && forall i | 0 <= i < |e| :: q[i] == e[i].certId
  {
    seq(|e|, i requires 0 <= i < |e| => e[i].certId)
  }

  lemma {:induction false} SweepTimedSum(p: Platform, st: State, a: seq<Stamp>, b: seq<Stamp>, mid: State)
    requires SweepTimed(p, st, a) == Ok(mid)
    ensures SweepTimed(p, st, a + b) == SweepTimed(p, mid, b)
  {
    if b == [] {
      assert a + b == a;
    } else {
      var n := |b| - 1;
      assert (a + b)[..|a + b| - 1] == a + b[..n] && (a + b)[|a + b| - 1] == b[n];
      SweepTimedSum(p, st, a, b[..n], mid);
    }
  }

  /** After the earlier certificates of a page, its next one still has the override it was listed with. */
  lemma {:induction false} StillListed(p: Platform, st: State, page: seq<Id>, now: int, m: nat, mid: State)
    requires OneActive(st.overrides) && (forall c | c in page :: ActiveOverride(st.overrides, c).Some?)
    requires (forall i, j | 0 <= i < j < |page| :: page[i] != page[j]) && m < |page|
    requires SweepAll(p, st, st, page[..m], now) == Ok(mid)
    ensures ActiveOverride(mid.overrides, page[m]) == ActiveOverride(st.overrides, page[m])
    ensures ActiveOverride(st.overrides, page[m]).Some?
    ensures var id := ActiveOverride(st.overrides, page[m]).value;
      id in mid.overrides && mid.overrides[id] == st.overrides[id]
  {
    SweepAllClears(p, st, page[..m], now, mid);
    SweptActive(st.overrides, mid.overrides, page[..m]);
    assert page[m] !in page[..m] && page[m] in page;
  }

  /** A page's sweep, each certificate against its override in the listing, is the sweep at the page's time. */
  lemma {:induction false} PageIsTimed(p: Platform, st: State, page: seq<Id>, now: int, n: nat, post: State)
    requires OneActive(st.overrides) && (forall c | c in page :: ActiveOverride(st.overrides, c).Some?)
    requires (forall i, j | 0 <= i < j < |page| :: page[i] != page[j]) && n <= |page|
    requires SweepAll(p, st, st, page[..n], now) == Ok(post)
    ensures SweepTimed(p, st, Stamped(page, now)[..n]) == Ok(post)
  {
    if n > 0 {
      var m := n - 1;
      assert page[..n][..m] == page[..m];
      var mid := SweepAll(p, st, st, page[..m], now).value;
      StillListed(p, st, page, now, m, mid);
      PageIsTimed(p, st, page, now, m, mid);
      assert Stamped(page, now)[..n][..m] == Stamped(page, now)[..m];
    }
  }

  // --- a walk ------------------------------------------------------------------------------------------------

  /** The tables are the same and the clock has not gone back. */
  predicate OnlyLater(a: Clocked, b: Clocked) {
    b.tables == a.tables && b.now >= a.now
  }

  /** The stamps have ascending certificates and times between the two, each override expired at its time. */
  ghost predicate InOrder(st: State, e: seq<Stamp>, from: int, to: int) {
    && (forall i, j | 0 <= i < j < |e| :: Less(e[i].certId, e[j].certId) && e[i].at <= e[j].at)
    && (forall i | 0 <= i < |e| :: from <= e[i].at <= to && e[i].certId in ExpiringCerts(st, e[i].at))
  }

  /** What is left to expire at any time is what was, without the swept certificates. */
  ghost predicate LeavesOthers(st: State, e: seq<Stamp>, left: State) {
    forall t, c :: LeavesOther(st, e, left, t, c)
  }

  ghost predicate LeavesOther(st: State, e: seq<Stamp>, left: State, t: int, c: Id) {
    c in ExpiringCerts(left, t) <==> c in ExpiringCerts(st, t) && c !in CertsOf(e)
  }

  /** The walk has swept these, ends at the last of them, and what had expired at its start lies ahead. */
  ghost predicate Walked(p: Platform, st: State, from: int, e: seq<Stamp>, at: Place<Clocked>) {
    && SweepTimed(p, st, e) == Ok(at.store.tables) && InOrder(st, e, from, at.store.now)
    && LeavesOthers(st, e, at.store.tables) && OneActive(at.store.tables.overrides) && from <= at.store.now
    && (e == [] ==> at.cursor == CURSOR_START) && (e != [] ==> at.cursor == e[|e| - 1].certId)
    && forall c | c in ExpiringCerts(at.store.tables, from) :: Less(at.cursor, c)
  }

  lemma {:induction false} AppendInOrder(
      st: State, e: seq<Stamp>, from: int, now: int, page: seq<Id>, cursor: Id, e': seq<Stamp>, later: int)
    requires InOrder(st, e, from, now) && from <= now <= later && e' == e + Stamped(page, later)
    requires (e == [] ==> cursor == CURSOR_START) && (e != [] ==> cursor == e[|e| - 1].certId)
    requires Ascending(page) && forall c | c in page :: Less(cursor, c) && c in ExpiringCerts(st, later)
    ensures InOrder(st, e', from, later)
  {
    forall i, j | 0 <= i < j < |e'| ensures Less(e'[i].certId, e'[j].certId) && e'[i].at <= e'[j].at {
      if j >= |e| {
        var c := page[j - |e|];
        assert c in page;
        if i < |e| - 1 {
          LessTransitive(e[i].certId, cursor, c);
        } else if i >= |e| {
          assert Less(page[i - |e|], c);
        }
      }
    }
    forall i | 0 <= i < |e'|
      ensures from <= e'[i].at <= later && e'[i].certId in ExpiringCerts(st, e'[i].at)
    {
      if i >= |e| { assert page[i - |e|] in page; }
    }
  }

  lemma {:induction false} AppendCerts(e: seq<Stamp>, page: seq<Id>, now: int, c: Id)
    ensures c in CertsOf(e + Stamped(page, now)) <==> c in CertsOf(e) || c in page
  {
    var e' := e + Stamped(page, now);
    if c in CertsOf(e) {
      var i :| 0 <= i < |e| && CertsOf(e)[i] == c;
      assert CertsOf(e')[i] == c;
    }
    if c in page {
      var i :| 0 <= i < |page| && page[i] == c;
      assert CertsOf(e')[|e| + i] == c;
    }
    if c in CertsOf(e') {
      var i :| 0 <= i < |e'| && CertsOf(e')[i] == c;
      if i < |e| { assert CertsOf(e)[i] == c; } else { assert page[i - |e|] == c; }
    }
  }

  lemma {:induction false} PageLeavesOthers(
      p: Platform, limit: nat, st: State, e: seq<Stamp>, mid: State, now: int, cursor: Id, page: seq<Id>, post: State)
    requires LeavesOthers(st, e, mid) && OneActive(mid.overrides)
    requires page == Page(ExpiringCerts(mid, now), cursor, limit) && SweepPageTx(p, mid, cursor, limit, now) == Ok(post)
    ensures LeavesOthers(st, e + Stamped(page, now), post) && OneActive(post.overrides)
  {
    PageClears(p, mid, cursor, limit, now, post);
    forall t, c ensures LeavesOther(st, e + Stamped(page, now), post, t, c) {
      assert LeavesOther(st, e, mid, t, c);
      AppendCerts(e, page, now, c);
    }
  }

  lemma {:induction false} PageInOrder(
      st: State, e: seq<Stamp>, from: int, mid: State, before: int, now: int, cursor: Id, limit: nat, page: seq<Id>)
    requires InOrder(st, e, from, before) && LeavesOthers(st, e, mid) && from <= before <= now
    requires page == Page(ExpiringCerts(mid, now), cursor, limit)
    requires (e == [] ==> cursor == CURSOR_START) && (e != [] ==> cursor == e[|e| - 1].certId)
    ensures InOrder(st, e + Stamped(page, now), from, now)
  {
    PageAscending(ExpiringCerts(mid, now), cursor, limit);
    PageMembers(ExpiringCerts(mid, now), cursor, limit);
    forall c | c in page ensures Less(cursor, c) && c in ExpiringCerts(st, now) {
      assert LeavesOther(st, e, mid, now, c);
    }
    AppendInOrder(st, e, from, before, page, cursor, e + Stamped(page, now), now);
  }

  lemma {:induction false} PageMembers(keys: set<Id>, cursor: Id, limit: nat)
    ensures forall c | c in Page(keys, cursor, limit) :: c in keys && Less(cursor, c)
  {
    forall c | c in Page(keys, cursor, limit) ensures c in keys && Less(cursor, c) {
      assert c in After(SortedIds(keys), cursor);
      AfterMembers(SortedIds(keys), cursor, c);
      SortedIdsMembers(keys, c);
    }
  }

  lemma {:induction false} PageTimed(
      p: Platform, limit: nat, st: State, e: seq<Stamp>, mid: State, now: int, cursor: Id, page: seq<Id>, post: State)
    requires SweepTimed(p, st, e) == Ok(mid) && OneActive(mid.overrides)
    requires page == Page(ExpiringCerts(mid, now), cursor, limit) && SweepPageTx(p, mid, cursor, limit, now) == Ok(post)
    ensures SweepTimed(p, st, e + Stamped(page, now)) == Ok(post)
  {
    ExpiringPage(mid, now, cursor, limit);
    assert page[..|page|] == page && Stamped(page, now)[..|page|] == Stamped(page, now);
    PageIsTimed(p, mid, page, now, |page|, post);
    SweepTimedSum(p, st, e, Stamped(page, now), mid);
  }

  /** What had expired at the start and is still there after a page comes after it, and the page was not the last. */
  lemma {:induction false} PageMark(
      mid: State, from: int, now: int, cursor: Id, limit: nat, page: seq<Id>, next: Id, done: bool, c: Id)
    requires from <= now && limit >= 1 && page == Page(ExpiringCerts(mid, now), cursor, limit)
    requires next == NextCursor(page, cursor) && done == (|page| < limit)
    requires c in ExpiringCerts(mid, from) && c !in page && Less(cursor, c)
    ensures Less(next, c) && !done
  {
    LaterExpiresMore(mid, from, now);
    OnPageOrBeyond(ExpiringCerts(mid, now), cursor, limit, c);
  }

  lemma {:induction false} LastStamp(e: seq<Stamp>, page: seq<Id>, now: int, cursor: Id)
    requires (e == [] ==> cursor == CURSOR_START) && (e != [] ==> cursor == e[|e| - 1].certId)
    ensures var e', next := e + Stamped(page, now), NextCursor(page, cursor);
      (e' == [] ==> next == CURSOR_START) && (e' != [] ==> next == e'[|e'| - 1].certId)
  {
  }

  /** One page of the walk sweeps the next certificates at its own time; the last one leaves nothing from the start. */
  lemma {:induction false} PageWalks(
      p: Platform, limit: nat, st: State, from: int, e: seq<Stamp>, at: Place<Clocked>, found: Clocked,
      left: Clocked, r: PageResult, page: seq<Id>)
    requires Walked(p, st, from, e, at) && OnlyLater(at.store, found) && limit >= 1
    requires page == Page(ExpiringCerts(found.tables, found.now), at.cursor, limit)
    requires SweepPage(p, limit, found, at.cursor) == Some((left, r))
    ensures Walked(p, st, from, e + Stamped(page, found.now), Place(left, r.nextCursor))
    ensures r.done ==> ExpiringCerts(left.tables, from) == {}
  {
    var mid, now := at.store.tables, found.now;
    PageAnswer(p, limit, found, at.cursor, left, r, page);
    PageTimed(p, limit, st, e, mid, now, at.cursor, page, left.tables);
    PageLeavesOthers(p, limit, st, e, mid, now, at.cursor, page, left.tables);
    PageInOrder(st, e, from, mid, at.store.now, now, at.cursor, limit, page);
    LastStamp(e, page, now, at.cursor);
    forall c | c in ExpiringCerts(left.tables, from) ensures Less(r.nextCursor, c) && !r.done {
      assert LeavesOther(st, e, mid, from, c) && LeavesOther(st, e + Stamped(page, now), left.tables, from, c);
      AppendCerts(e, page, now, c);
      PageMark(mid, from, now, at.cursor, limit, page, r.nextCursor, r.done, c);
    }
  }

  /** As long as the pages succeed and only the clock moves between them, the walk goes on. */
  lemma {:induction false} PagesWalk(
      p: Platform, limit: nat, st: State, turns: nat -> Turn<Clocked>, start: Place<Clocked>, n: nat)
    returns (e: seq<Stamp>)
    requires limit >= 1 && start.store.tables == st && start.cursor == CURSOR_START && OneActive(st.overrides)
    requires "" !in ExpiringCerts(st, start.store.now)
    requires Meets(SweepJob(p, limit), turns, start, n, OnlyLater)
    requires forall k: nat | k < n :: AnswerAt(SweepJob(p, limit), turns, start, k).Some?
    ensures Walked(p, st, start.store.now, e, PlaceAt(SweepJob(p, limit), turns, start, n))
    ensures n > 0 && AnswerAt(SweepJob(p, limit), turns, start, n - 1).value.done ==>
      ExpiringCerts(PlaceAt(SweepJob(p, limit), turns, start, n).store.tables, start.store.now) == {}
  {
    if n == 0 {
      e := [];
      WalkStarts(p, st, start);
    } else {
      var m := n - 1;
      e := PagesWalk(p, limit, st, turns, start, m);
      var at, found := PlaceAt(SweepJob(p, limit), turns, start, m), FoundAt(SweepJob(p, limit), turns, start, m);
      AttemptNext(SweepJob(p, limit), turns, start, m, n);
      assert AnswerAt(SweepJob(p, limit), turns, start, m).Some?;
      var (left, r) := SweepPage(p, limit, found, at.cursor).value;
      var page := Page(ExpiringCerts(found.tables, found.now), at.cursor, limit);
      PageWalks(p, limit, st, start.store.now, e, at, found, left, r, page);
      e := e + Stamped(page, found.now);
    }
  }

  lemma {:induction false} WalkStarts(p: Platform, st: State, start: Place<Clocked>)
    requires start.store.tables == st && start.cursor == CURSOR_START && OneActive(st.overrides)
    requires "" !in ExpiringCerts(st, start.store.now)
    ensures Walked(p, st, start.store.now, [], start)
  {
    forall t, c ensures LeavesOther(st, [], st, t, c) {
    }
  }

  /**
    Partial runs and a completed one with nobody else writing, while the clock moves on: their tables are those of
    one sweep in key order, each certificate once and at the clock reading of its page, when its override had
    expired. What had expired at the first reading is among them, and nothing of it is left.
  */
  lemma {:induction false} ChainIsOneSweep(
      p: Platform, limit: nat, c: Config, row: JobRow, ses: seq<Session<Clocked>>)
    returns (e: seq<Stamp>)
    requires ValidConfig(c) && limit >= 1 && row.cursor == CURSOR_START
    requires ChainCompletes(SweepJob(p, limit), c, row, ses) && AllRecorded(SweepJob(p, limit), c, row, ses, |ses|)
    requires ChainRelates(SweepJob(p, limit), c, row, ses, OnlyLater)
    requires OneActive(ses[0].store.tables.overrides) && "" !in ExpiringCerts(ses[0].store.tables, ses[0].store.now)
    ensures var st, from := ses[0].store.tables, ses[0].store.now;
      var left := RunAt(SweepJob(p, limit), c, row, ses, |ses| - 1).store;
      && SweepTimed(p, st, e) == Ok(left.tables) && InOrder(st, e, from, left.now)
      && (forall x | x in ExpiringCerts(st, from) :: x in CertsOf(e))
      && ExpiringCerts(left.tables, from) == {}
  {
    var job, st, from := SweepJob(p, limit), ses[0].store.tables, ses[0].store.now;
    var turns, calls := ChainTurns(job, c, row, ses, |ses|), Kept(job, c, row, ses, |ses|);
    var start := Place(ses[0].store, CURSOR_START);
    ChainMeets(job, c, row, ses, OnlyLater);
    ChainIsOneDrain(job, c, row, ses, ses[0].store);
    forall k: nat | k < |calls| ensures AnswerAt(job, turns, start, k).Some? {
      CallAnswered(job, turns, start, calls, k);
    }
    e := PagesWalk(p, limit, st, turns, start, |calls|);
    var left := RunAt(job, c, row, ses, |ses| - 1).store;
    forall x | x in ExpiringCerts(st, from) ensures x in CertsOf(e) {
      assert LeavesOther(st, e, left.tables, from, x);
    }
  }

  /** With the clock standing still as well, that sweep is the one of the certificates expired then. */
  lemma {:induction false} StandingClock(st: State, e: seq<Stamp>, now: int)
    requires InOrder(st, e, now, now) && forall x | x in ExpiringCerts(st, now) :: x in CertsOf(e)
    ensures CertsOf(e) == SortedIds(ExpiringCerts(st, now)) && e == Stamped(CertsOf(e), now)
  {
    var keys := ExpiringCerts(st, now);
    SortedIdsOrder(keys);
    forall x ensures x in CertsOf(e) <==> x in SortedIds(keys) {
      if x in CertsOf(e) {
        var i :| 0 <= i < |e| && CertsOf(e)[i] == x;
        assert e[i].certId in ExpiringCerts(st, e[i].at);
      }
      SortedIdsMembers(keys, x);
    }
    AscendingUnique(CertsOf(e), SortedIds(keys));
    assert e == Stamped(CertsOf(e), now);
  }
}
