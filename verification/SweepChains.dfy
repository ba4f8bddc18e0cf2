/**
  The override sweep among other writers: whatever fails, crashes a page or writes in between, a chain of
  runs that ends completed has cleared every override that had expired when it began.
*/
module SweepChains {
  import opened Wrappers
  import opened Ids
  import opened Engine
  import opened Ownership
  import opened OwnershipInvariants
  import opened PassLemmas
  import opened SweepLemmas
  import opened MaintenanceJobs
  import opened Runner
  import opened RunnerTheorems
  import opened RunnerChains
  import opened WalkChains

  // --- what other writers may do ------------------------------------------------------------------------

  ghost predicate OnlyClears(a: map<Id, Override>, b: map<Id, Override>) {
    b.Keys == a.Keys && forall o | o in a ::
      && b[o].certId == a[o].certId && b[o].expiresAt == a[o].expiresAt
      && (a[o].cleared.Some? ==> b[o].cleared.Some?)
  }

  lemma {:induction false} ClearingExpiresNone(a: State, b: State, t: int)
    requires OnlyClears(a.overrides, b.overrides)
    ensures ExpiringCerts(b, t) <= ExpiringCerts(a, t)
  {
    forall c | c in ExpiringCerts(b, t) ensures c in ExpiringCerts(a, t) {
      var o :| o in b.overrides && b.overrides[o].cleared.None? && Expired(b.overrides[o], t)
               && b.overrides[o].certId == c;
      assert o in a.overrides && a.overrides[o].cleared.None? && Expired(a.overrides[o], t);
    }
  }

  lemma {:induction false} StepOnlyClears(
      p: Platform, pre: State, mid: State, rules: seq<CompiledRule>, c: Id, now: int)
    requires c in pre.certs && OnlyClears(pre.overrides, mid.overrides)
    ensures OnlyClears(pre.overrides, PassStep(p, pre, mid, rules, c, now).overrides)
  {
    var cleaned := Cleaned(mid, EntryOf(pre, c), now);
    SettleFrame(p, cleaned, c, pre.certs[c], PassDecision(p, pre, rules, c, now), now);
    assert OnlyClears(pre.overrides, cleaned.overrides);
  }

  lemma {:induction false} PassOnlyClears(
      p: Platform, pre: State, rules: seq<CompiledRule>, q: seq<Id>, n: nat, now: int)
    requires n <= |q| && forall c | c in q :: c in pre.certs
    ensures OnlyClears(pre.overrides, Pass(p, pre, rules, q, n, now).overrides)
  {
    if n > 0 {
      var m, mid := n - 1, Pass(p, pre, rules, q, n - 1, now);
      PassOnlyClears(p, pre, rules, q, m, now);
      PassNext(p, pre, rules, q, m, n, now, mid);
      StepOnlyClears(p, pre, mid, rules, q[m], now);
    }
  }

  lemma {:induction false} SweepOnlyClears(p: Platform, st: State, cursor: Id, limit: nat, now: int, post: State)
    requires OneActive(st.overrides) && SweepPageTx(p, st, cursor, limit, now) == Ok(post)
    ensures forall t :: ExpiringCerts(post, t) <= ExpiringCerts(st, t)
  {
    PageClears(p, st, cursor, limit, now, post);
  }

  lemma {:induction false} PruneLeavesOverrides(step: PruneStep, st: State, page: seq<Id>, n: nat)
    requires n <= |page| && forall s, c :: step(s, c).0.overrides == s.overrides
    ensures PruneFirst(step, st, page, n).0.overrides == st.overrides
  {
    if n > 0 { PruneLeavesOverrides(step, st, page, n - 1); }
  }

  lemma {:induction false} CreateExpiresNone(p: Platform, st: State, o: Override, now: int, t: int)
    requires Inv(p, st) && CreateTx(p, st, o, now).Ok? && t <= now && (o.expiresAt.Some? ==> o.expiresAt.value > now)
    ensures ExpiringCerts(CreateTx(p, st, o, now).value, t) <= ExpiringCerts(st, t)
  {
    var st' := CreateTx(p, st, o, now).value;
    assert st'.overrides == st.overrides[p.mint(st.nextId) := o];
    forall c | c in ExpiringCerts(st', t) ensures c in ExpiringCerts(st, t) {
      var x :| x in st'.overrides && st'.overrides[x].cleared.None? && Expired(st'.overrides[x], t)
               && st'.overrides[x].certId == c;
      assert x != p.mint(st.nextId) && st.overrides[x] == st'.overrides[x];
    }
  }

  lemma {:induction false} RecomputeExpiresNone(p: Platform, threshold: nat, st: State, now: int, t: int)
    requires Recompute(p, st, threshold, now).Ok?
    ensures ExpiringCerts(Recompute(p, st, threshold, now).value, t) <= ExpiringCerts(st, t)
  {
    CertOrder(st);
    var q := SortedIds(st.certs.Keys);
    PassOnlyClears(p, st, Compiled(p.lib, st.rules).value.rules, q, |q|, now);
    ClearingExpiresNone(st, Recompute(p, st, threshold, now).value, t);
  }

  lemma {:induction false} ClearExpiresNone(
      p: Platform, st: State, c: Id, id: Id, actor: string, reason: string, now: int, t: int)
    requires ClearTx(p, st, c, id, actor, reason, now).Ok?
    ensures ExpiringCerts(ClearTx(p, st, c, id, actor, reason, now).value, t) <= ExpiringCerts(st, t)
  {
    var st' := ClearTx(p, st, c, id, actor, reason, now).value;
    assert st'.overrides == ClearOne(st, id, now, actor, reason).overrides;
    ClearingExpiresNone(st, st', t);
  }

  lemma {:induction false} PruneExpiresNone(
      st: State, cursor: Id, limit: nat, keepN: nat, cutoff: int, perCert: nat, t: int)
    ensures ExpiringCerts(PrunePageTx(st, cursor, limit, keepN, cutoff, perCert), t) <= ExpiringCerts(st, t)
  {
    var page := Page(ExplainedCerts(st.explanations), cursor, limit);
    PruneLeavesOverrides(PruneCertAt(keepN, cutoff, perCert), st, page, |page|);
  }

  /** An override is never created before the time the sweep began at. */
  predicate NotBefore(s: Step, t: int) {
    s.DoCreate? ==> s.createdAt >= t
  }

  /** No writer makes an override expired at an earlier time. */
  lemma {:induction false} WritersExpireNone(p: Platform, threshold: nat, st: State, s: Step, t: int)
    requires Inv(p, st) && Enabled(st, s) && NotBefore(s, t)
    ensures ExpiringCerts(Apply(p, threshold, st, s), t) <= ExpiringCerts(st, t)
  {
    match s
    case DoRecompute(now) => if Recompute(p, st, threshold, now).Ok? { RecomputeExpiresNone(p, threshold, st, now, t); }
    case DoCreate(o, now) => if CreateTx(p, st, o, now).Ok? { CreateExpiresNone(p, st, o, now, t); }
    case DoClear(c, id, actor, reason, now) =>
      if ClearTx(p, st, c, id, actor, reason, now).Ok? { ClearExpiresNone(p, st, c, id, actor, reason, now, t); }
    case DoSweep(cursor, limit, now) =>
      if SweepPageTx(p, st, cursor, limit, now).Ok? {
        InvOneActive(p, st);
        SweepOnlyClears(p, st, cursor, limit, now, SweepPageTx(p, st, cursor, limit, now).value);
      }
    case DoPrune(cursor, limit, keepN, cutoff, perCert) =>
      PruneExpiresNone(st, cursor, limit, keepN, cutoff, perCert, t);
    case ChangeInputs(certs, rules) =>
  }

  // --- the sweep as a walk ----------------------------------------------------------------------------------

  /** The sweep, and what was due at t: consistent tables read no earlier, overrides expired at t. */
  ghost function SweepWalker(p: Platform, limit: nat, t: int): Walker<Clocked> {
    Walker(SweepJob(p, limit), (at: Clocked) => Inv(p, at.tables) && at.now >= t,
           (at: Clocked) => ExpiringCerts(at.tables, t))
  }

  /** Every write of the system, at any later clock reading, is calm. */
  lemma {:induction false} WritersAreCalm(
      p: Platform, threshold: nat, limit: nat, a: Clocked, s: Step, t: int, now: int)
    requires SweepWalker(p, limit, t).ready(a) && Enabled(a.tables, s) && NotBefore(s, t) && now >= t
    ensures Calm(SweepWalker(p, limit, t), a, Clocked(Apply(p, threshold, a.tables, s), now))
  {
    ApplyKeeps(p, threshold, a.tables, s);
    WritersExpireNone(p, threshold, a.tables, s, t);
  }

  lemma {:induction false} SweepPageMoves(
      p: Platform, limit: nat, t: int, at: Place<Clocked>, left: Clocked, r: PageResult)
    requires limit >= 1 && DoneUpTo(SweepWalker(p, limit, t), at)
    requires SweepPage(p, limit, at.store, at.cursor) == Some((left, r))
    ensures PageMoves(SweepWalker(p, limit, t), at, left, r)
  {
    var st, now := at.store.tables, at.store.now;
    var page := Page(ExpiringCerts(st, now), at.cursor, limit);
    InvOneActive(p, st);
    ExpiringPage(st, now, at.cursor, limit);
    SweepKeeps(p, st, page, now);
    PageClears(p, st, at.cursor, limit, now, left.tables);
    LaterExpiresMore(st, t, now);
    forall c | c in ExpiringCerts(left.tables, t) ensures Less(r.nextCursor, c) && !r.done {
      OnPageOrBeyond(ExpiringCerts(st, now), at.cursor, limit, c);
    }
  }

  lemma {:induction false} SweepWalks(p: Platform, limit: nat, t: int)
    requires limit >= 1
    ensures Walks(SweepWalker(p, limit, t))
  {
    var k := SweepWalker(p, limit, t);
    forall at: Place<Clocked>, left: Clocked, r: PageResult ensures PageMoves(k, at, left, r) {
      if DoneUpTo(k, at) && SweepPage(p, limit, at.store, at.cursor) == Some((left, r)) {
        SweepPageMoves(p, limit, t, at, left, r);
      }
    }
  }

  /**
    Every override that had expired when the chain began is cleared once a run completes: partial and
    failed runs before it, pages that fail, a later clock, and any writer of the system between and before
    the pages do not matter.
  */
  lemma {:induction false} ChainClearsExpired(
      p: Platform, limit: nat, c: Config, row: JobRow, ses: seq<Session<Clocked>>)
    requires ValidConfig(c) && limit >= 1 && |ses| > 0 && row.cursor == CURSOR_START
    requires Inv(p, ses[0].store.tables) && forall o | o in ses[0].store.tables.overrides ::
      ses[0].store.tables.overrides[o].certId != ""
    requires CalmChain(SweepWalker(p, limit, ses[0].store.now), c, row, ses)
    requires RunAt(SweepJob(p, limit), c, row, ses, |ses| - 1).ending == Drained
    ensures ExpiringCerts(RunAt(SweepJob(p, limit), c, row, ses, |ses| - 1).store.tables, ses[0].store.now) == {}
  {
    var k := SweepWalker(p, limit, ses[0].store.now);
    SweepWalks(p, limit, ses[0].store.now);
    forall x | x in k.due(ses[0].store) ensures Less(CURSOR_START, x) {
      assert x in ExpiringCerts(ses[0].store.tables, ses[0].store.now);
    }
    assert DoneUpTo(k, Place(ses[0].store, row.cursor));
    ChainLeavesNothingDue(k, c, row, ses);
  }

  // --- why a retry need not repeat the failed run's calls -----------------------------------------------------

  lemma {:induction false} PagesDisjoint(
      p: Platform, limit: nat, st: State, cursor: Id, now: int, post: State, first: seq<Id>, second: seq<Id>)
    requires OneActive(st.overrides) && SweepPageTx(p, st, cursor, limit, now) == Ok(post)
    requires first == Page(ExpiringCerts(st, now), cursor, limit)
    requires second == Page(ExpiringCerts(post, now), cursor, limit)
    ensures forall c | c in second :: c !in first
  {
    PageClears(p, st, cursor, limit, now, post);
    assert forall c | c in second :: c in ExpiringCerts(post, now);
  }

  /** A page that swept something does not point to the same place when it is asked again. */
  lemma {:induction false} SweptPageAnswersAnew(
      p: Platform, limit: nat, found: Clocked, cursor: Id, left: Clocked, r: PageResult)
    requires OneActive(found.tables.overrides) && SweepPage(p, limit, found, cursor) == Some((left, r))
    requires r.itemsScanned > 0
    ensures var again := Answer(SweepJob(p, limit), left, cursor);
      again.Some? ==> again.value.nextCursor != r.nextCursor
  {
    var first := Page(ExpiringCerts(found.tables, found.now), cursor, limit);
    var second := Page(ExpiringCerts(left.tables, left.now), cursor, limit);
    PageAnswer(p, limit, found, cursor, left, r, first);
    PagesDisjoint(p, limit, found.tables, cursor, found.now, left.tables, first, second);
    var again := SweepPage(p, limit, left, cursor);
    if again.Some? {
      PageAnswer(p, limit, left, cursor, again.value.0, again.value.1, second);
      if second != [] { DifferentEnds(first, second, cursor); } else { LeavesCursor(found, cursor, limit, first); }
    }
  }

  lemma {:induction false} LeavesCursor(found: Clocked, cursor: Id, limit: nat, page: seq<Id>)
    requires page == Page(ExpiringCerts(found.tables, found.now), cursor, limit) && page != []
    ensures NextCursor(page, cursor) != cursor
  {
    var keys, last := ExpiringCerts(found.tables, found.now), page[|page| - 1];
    assert last in After(SortedIds(keys), cursor);
    AfterMembers(SortedIds(keys), cursor, last);
    if last == cursor { LessAsymmetric(cursor, last); }
  }

  lemma {:induction false} DifferentEnds(a: seq<Id>, b: seq<Id>, cursor: Id)
    requires a != [] && b != [] && forall c | c in b :: c !in a
    ensures NextCursor(a, cursor) != NextCursor(b, cursor)
  {
    assert b[|b| - 1] in b && a[|a| - 1] in a;
  }

  /** So where the sweep goes next does not depend on the cursor alone, in whatever respect answers are compared. */
  lemma {:induction false} SweepDependsOnTables(
      p: Platform, limit: nat, sig: Signals, all: Clocked -> bool, view: PageResult -> PageResult)
    requires limit >= 1 && (forall at :: all(at)) && Steering(view)
    ensures !AnswersAlike(SweepJob(p, limit), all, view)
  {
    var o := Override("c", "s", "reason", "user", 0, Some(0), None);
    OneOverride(p, limit, State(map["c" := sig], [], map[], map["o" := o], map[], [], 0), o, all, view);
  }

  lemma {:induction false} OneOverride(
      p: Platform, limit: nat, st: State, o: Override, all: Clocked -> bool, view: PageResult -> PageResult)
    requires (forall at :: all(at)) && Steering(view)
    requires limit >= 1 && o.certId == "c" && o.cleared.None? && Expired(o, 0)
    requires st.overrides == map["o" := o] && "c" in st.certs && st.rules == []
    ensures !AnswersAlike(SweepJob(p, limit), all, view)
  {
    OnePageOfOne(p, limit, st, o);
    var (left, r) := SweepPage(p, limit, Clocked(st, 0), "").value;
    SweptPageAnswersAnew(p, limit, Clocked(st, 0), "", left, r);
    assert Answer(SweepJob(p, limit), Clocked(st, 0), "") == Some(r);
    assert !AlikeOn(SweepJob(p, limit), all, view, Clocked(st, 0), left, "");
  }

  lemma {:induction false} OneExpiring(limit: nat, st: State, o: Override)
    requires limit >= 1 && o.certId == "c" && o.cleared.None? && Expired(o, 0) && st.overrides == map["o" := o]
    ensures OneActive(st.overrides) && Page(ExpiringCerts(st, 0), "", limit) == ["c"]
    ensures ActiveOverride(st.overrides, "c") == Some("o")
  {
    assert "o" in st.overrides && "c" in ExpiringCerts(st, 0);
    assert ExpiringCerts(st, 0) == {"c"};
    SingletonOrder("c");
    PageIsNextSlice({"c"}, 0, limit);
    assert ActiveIds(st.overrides, "c") == {"o"};
  }

  lemma {:induction false} SingletonOrder(x: Id)
    ensures SortedIds({x}) == [x]
  {
    SortedIdsOrder({x});
    assert SortedIds({x})[0] in SortedIds({x});
  }

  lemma {:induction false} SweepOfOne(p: Platform, st: State, page: seq<Id>, id: Id)
    requires page == ["c"] && ActiveOverride(st.overrides, "c") == Some(id) && Clearable(st, id)
    requires "c" in st.certs && st.rules == []
    ensures SweepAll(p, st, st, page, 0).Ok?
  {
    assert page[..0] == [];
    assert SweepAll(p, st, st, page[..0], 0) == Ok(st);
  }

  lemma {:induction false} OnePageOfOne(p: Platform, limit: nat, st: State, o: Override)
    requires limit >= 1 && o.certId == "c" && o.cleared.None? && Expired(o, 0)
    requires st.overrides == map["o" := o] && "c" in st.certs && st.rules == []
    ensures OneActive(st.overrides) && SweepPage(p, limit, Clocked(st, 0), "").Some?
    ensures SweepPage(p, limit, Clocked(st, 0), "").value.1.itemsScanned > 0
  {
    OneExpiring(limit, st, o);
    SweepOfOne(p, st, Page(ExpiringCerts(st, 0), "", limit), "o");
  }
}
