/**
  The explanation prune across pages: at a fixed time one drain gives every certificate's history exactly
  one pass, and enough drains leave what the sort-based rule keeps.
*/
module PruneWalk {
  import opened Wrappers
  import opened Ids
  import opened Ownership
  import opened PruneStore
  import opened MaintenanceJobs
  import opened Runner
  import opened RunnerTheorems
  import opened RunnerChains
  import Retention

  // --- the listing does not move ---------------------------------------------------------------------

  /** A history that keeps its latest row is never emptied. */
  lemma {:induction false} PassKeepsSome(
      t: Retention.Timeline, current: Option<Id>, keepN: nat, cutoff: int, perCert: nat)
    requires keepN >= 1
    ensures Retention.PrunePass(t, current, keepN, cutoff, perCert) == map[] <==> t == map[]
  {
    var gone := Retention.OnePass(t, current, keepN, cutoff, perCert);
    if t != map[] {
      var x :| x in t;
      var i := Retention.OrderedPosition(t, x);
      var ordered := Retention.Ordered(t);
      Retention.RankIsIndex(ordered, t, 0);
      assert ordered[0] in ordered;
      assert ordered[0].id in Retention.Latest(t, keepN);
      assert ordered[0].id in Retention.Latest(t - gone, keepN);
    }
  }

  lemma {:induction false} ExplainedIffHistory(explanations: map<Id, Explanation>, c: Id)
    ensures c in ExplainedCerts(explanations) <==> TimelineOf(explanations, c) != map[]
  {
    if c in ExplainedCerts(explanations) {
      var id :| id in explanations && explanations[id].certId == c;
      assert id in TimelineOf(explanations, c);
    }
    if TimelineOf(explanations, c) != map[] {
      var id :| id in TimelineOf(explanations, c);
      assert explanations[id].certId == c;
    }
  }

  // --- one pass each ------------------------------------------------------------------------------------

  /**
    A prune seen from outside: one certificate's step, its history, its current explanation, and what one
    pass leaves of a history.
  */
  datatype Pruner = Pruner(
    step: PruneStep, history: (State, Id) -> Retention.Timeline, current: (State, Id) -> Option<Id>,
    pass: (Option<Id>, Retention.Timeline) -> Retention.Timeline)
  {
    function Passed(s: State, c: Id): Retention.Timeline {
      pass(current(s, c), history(s, c))
    }
  }

  ghost predicate Surviving(a: map<Id, Explanation>, b: map<Id, Explanation>) {
    forall id | id in b :: id in a && b[id] == a[id]
  }

  /** A step passes over its own certificate and leaves every other history alone. */
  ghost predicate StepPasses(k: Pruner, s: State, c: Id, x: Id) {
    var next := k.step(s, c).0;
    && next.rows == s.rows && Surviving(s.explanations, next.explanations)
    && k.history(next, x) == if x == c then k.Passed(s, c) else k.history(s, x)
  }

  /** The current explanation depends on the rows only, and a history on the explanations only. */
  ghost predicate DependsOn(k: Pruner, a: State, b: State, c: Id) {
    && (a.rows == b.rows ==> k.current(a, c) == k.current(b, c))
    && (a.explanations == b.explanations ==> k.history(a, c) == k.history(b, c))
  }

  /** The certificates listed are those with a history, and a pass never empties one. */
  ghost predicate ListsHistories(k: Pruner, s: State, c: Id) {
    && (c in ExplainedCerts(s.explanations) <==> k.history(s, c) != map[])
    && (k.Passed(s, c) == map[] <==> k.history(s, c) == map[])
  }

  ghost predicate Prunes(k: Pruner) {
    && (forall s: State, c: Id, x: Id :: StepPasses(k, s, c, x))
    && (forall a: State, b: State, c: Id :: DependsOn(k, a, b, c))
    && (forall s: State, c: Id :: ListsHistories(k, s, c))
  }

  /** This certificate's history has had one pass if it is done, and none otherwise. */
  ghost predicate PassedAt(k: Pruner, st: State, done: seq<Id>, mid: State, c: Id) {
    k.history(mid, c) == if c in done then k.Passed(st, c) else k.history(st, c)
  }

  /** The certificates done have had one pass each; rows and surviving explanations are as before. */
  ghost predicate PassedOnce(k: Pruner, st: State, done: seq<Id>, mid: State) {
    && mid.rows == st.rows && Surviving(st.explanations, mid.explanations)
    && forall c :: PassedAt(k, st, done, mid, c)
  }

  lemma {:induction false} PassedStepAt(
      k: Pruner, st: State, done: seq<Id>, mid: State, c: Id, next: State, x: Id)
    requires StepPasses(k, mid, c, x) && DependsOn(k, mid, st, c) && c !in done && mid.rows == st.rows
    requires next == k.step(mid, c).0 && PassedAt(k, st, done, mid, x) && PassedAt(k, st, done, mid, c)
    ensures PassedAt(k, st, done + [c], next, x)
  {
  }

  lemma {:induction false} SurvivingTwice(a: map<Id, Explanation>, b: map<Id, Explanation>, c: map<Id, Explanation>)
    requires Surviving(a, b) && Surviving(b, c)
    ensures Surviving(a, c)
  {
  }

  lemma {:induction false} PassedStep(
      k: Pruner, st: State, done: seq<Id>, done': seq<Id>, mid: State, c: Id, next: State)
    requires Prunes(k) && PassedOnce(k, st, done, mid) && c !in done && done' == done + [c]
    requires next == k.step(mid, c).0
    ensures PassedOnce(k, st, done', next)
  {
    assert StepPasses(k, mid, c, c) && DependsOn(k, mid, st, c) && PassedAt(k, st, done, mid, c);
    SurvivingTwice(st.explanations, mid.explanations, next.explanations);
    forall x ensures PassedAt(k, st, done', next, x) {
      assert StepPasses(k, mid, c, x) && PassedAt(k, st, done, mid, x);
      PassedStepAt(k, st, done, mid, c, next, x);
    }
  }

  lemma {:induction false} FirstPruned(
      k: Pruner, st: State, done: seq<Id>, mid: State, page: seq<Id>, n: nat, next: State)
    requires Prunes(k) && PassedOnce(k, st, done, mid) && n <= |page|
    requires next == PruneFirst(k.step, mid, page, n).0
    requires forall c | c in page :: c !in done
    requires forall i, j | 0 <= i < j < |page| :: page[i] != page[j]
    ensures PassedOnce(k, st, done + page[..n], next)
  {
    if n == 0 {
      assert done + page[..n] == done;
    } else {
      var m, before := n - 1, PruneFirst(k.step, mid, page, n - 1).0;
      FirstPruned(k, st, done, mid, page, m, before);
      FreshToPage(done, page, m, n);
      PassedStep(k, st, done + page[..m], done + page[..n], before, page[m], next);
    }
  }

  lemma {:induction false} FreshToPage(done: seq<Id>, page: seq<Id>, m: nat, n: nat)
    requires n == m + 1 <= |page| && forall c | c in page :: c !in done
    requires forall i, j | 0 <= i < j < |page| :: page[i] != page[j]
    ensures page[m] !in done + page[..m] && done + page[..n] == done + page[..m] + [page[m]]
  {
    assert page[m] in page;
  }

  /** Pruning removes no certificate from the listing: the latest explanation survives. */
  lemma {:induction false} ListingStays(
      k: Pruner, st: State, done: seq<Id>, mid: State, before: set<Id>, after: set<Id>)
    requires Prunes(k) && PassedOnce(k, st, done, mid)
    requires before == ExplainedCerts(st.explanations) && after == ExplainedCerts(mid.explanations)
    ensures after == before
  {
    forall c ensures c in after <==> c in before {
      assert PassedAt(k, st, done, mid, c) && ListsHistories(k, st, c) && ListsHistories(k, mid, c);
    }
  }

  // --- a drain ---------------------------------------------------------------------------------------------

  /** The prune at one cutoff, seen from outside. */
  function PrunerOf(keepN: nat, cutoff: int, perCert: nat): Pruner {
    Pruner(PruneCertAt(keepN, cutoff, perCert),
           (s: State, c: Id) => TimelineOf(s.explanations, c),
           (s: State, c: Id) => CurrentExplanation(s, c),
           (current: Option<Id>, t: Retention.Timeline) => Retention.PrunePass(t, current, keepN, cutoff, perCert))
  }

  lemma {:induction false} PrunerReads(k: Pruner, keepN: nat, cutoff: int, perCert: nat, s: State, c: Id)
    requires k == PrunerOf(keepN, cutoff, perCert)
    ensures k.history(s, c) == TimelineOf(s.explanations, c) && k.current(s, c) == CurrentExplanation(s, c)
  {
  }

  lemma {:induction false} PrunerPass(
      k: Pruner, keepN: nat, cutoff: int, perCert: nat, current: Option<Id>, t: Retention.Timeline)
    requires k == PrunerOf(keepN, cutoff, perCert)
    ensures k.step == PruneCertAt(keepN, cutoff, perCert)
    ensures k.pass(current, t) == Retention.PrunePass(t, current, keepN, cutoff, perCert)
  {
  }

  lemma {:induction false} OnePassInTables(
      s: State, c: Id, keepN: nat, cutoff: int, perCert: nat, next: State,
      t: Retention.Timeline, t': Retention.Timeline, current: Option<Id>)
    requires next == PruneCert(s, c, keepN, cutoff, perCert).0
    requires t == TimelineOf(s.explanations, c) && t' == TimelineOf(next.explanations, c)
    requires current == CurrentExplanation(s, c)
    ensures t' == Retention.PrunePass(t, current, keepN, cutoff, perCert)
    ensures next.rows == s.rows && Surviving(s.explanations, next.explanations)
  {
    PruneCertIsOnePass(s, c, keepN, cutoff, perCert);
  }

  lemma {:induction false} OtherHistoriesStay(
      s: State, c: Id, keepN: nat, cutoff: int, perCert: nat, next: State, x: Id)
    requires next == PruneCert(s, c, keepN, cutoff, perCert).0 && x != c
    ensures TimelineOf(next.explanations, x) == TimelineOf(s.explanations, x)
  {
    PruneCertIsOnePass(s, c, keepN, cutoff, perCert);
  }

  lemma {:induction false} PrunerStep(
      k: Pruner, keepN: nat, cutoff: int, perCert: nat, s: State, c: Id, x: Id)
    requires keepN >= 1 && k == PrunerOf(keepN, cutoff, perCert)
    ensures StepPasses(k, s, c, x)
  {
    var next := k.step(s, c).0;
    PrunerPass(k, keepN, cutoff, perCert, k.current(s, c), k.history(s, c));
    PrunerReads(k, keepN, cutoff, perCert, s, c);
    PrunerReads(k, keepN, cutoff, perCert, next, c);
    OnePassInTables(s, c, keepN, cutoff, perCert, next, k.history(s, c), k.history(next, c), k.current(s, c));
    if x != c {
      PrunerReads(k, keepN, cutoff, perCert, s, x);
      PrunerReads(k, keepN, cutoff, perCert, next, x);
      OtherHistoriesStay(s, c, keepN, cutoff, perCert, next, x);
    }
  }

  lemma {:induction false} PrunerLists(
      k: Pruner, keepN: nat, cutoff: int, perCert: nat, s: State, c: Id)
    requires keepN >= 1 && k == PrunerOf(keepN, cutoff, perCert)
    ensures ListsHistories(k, s, c)
  {
    PrunerPass(k, keepN, cutoff, perCert, k.current(s, c), k.history(s, c));
    PrunerReads(k, keepN, cutoff, perCert, s, c);
    ExplainedIffHistory(s.explanations, c);
    PassKeepsSome(k.history(s, c), k.current(s, c), keepN, cutoff, perCert);
  }

  lemma {:induction false} PrunerDepends(
      k: Pruner, keepN: nat, cutoff: int, perCert: nat, s: State, t: State, c: Id)
    requires k == PrunerOf(keepN, cutoff, perCert)
    ensures DependsOn(k, s, t, c)
  {
    PrunerReads(k, keepN, cutoff, perCert, s, c);
    PrunerReads(k, keepN, cutoff, perCert, t, c);
  }

  lemma {:induction false} PrunerPrunes(k: Pruner, keepN: nat, cutoff: int, perCert: nat)
    requires keepN >= 1 && k == PrunerOf(keepN, cutoff, perCert)
    ensures Prunes(k)
  {
    forall s: State, c: Id, x: Id ensures StepPasses(k, s, c, x) {
      PrunerStep(k, keepN, cutoff, perCert, s, c, x);
    }
    forall s: State, t: State, c: Id ensures DependsOn(k, s, t, c) {
      PrunerDepends(k, keepN, cutoff, perCert, s, t, c);
    }
    forall s: State, c: Id ensures ListsHistories(k, s, c) {
      PrunerLists(k, keepN, cutoff, perCert, s, c);
    }
  }

  /** The pruner of these settings at this time. */
  ghost predicate PrunesAs(k: Pruner, r: Pruning, now: int)
    requires ValidPruning(r)
  {
    k == PrunerOf(r.policy.keepN, now - r.policy.maxAge, r.perCert)
  }

  /** After m of the explained certificates, in key order. */
  ghost predicate OnPrune(k: Pruner, st: State, now: int, q: seq<Id>, m: nat, at: Place<Clocked>) {
    && m <= |q| && at.cursor == CursorAt(q, m) && at.store.now == now
    && PassedOnce(k, st, q[..m], at.store.tables)
  }

  ghost predicate Prunable(st: State, q: seq<Id>) {
    "" !in q && q == SortedIds(ExplainedCerts(st.explanations))
  }

  lemma {:induction false} SliceIsNew(q: seq<Id>, m: nat, m': nat, page: seq<Id>)
    requires Ascending(q) && m <= m' <= |q| && page == q[m..m']
    ensures (forall c | c in page :: c !in q[..m]) && q[..m] + page[..|page|] == q[..m']
    ensures forall i, j | 0 <= i < j < |page| :: page[i] != page[j]
  {
    AscendingDistinct(q);
    forall c | c in page ensures c !in q[..m] {
      var i :| 0 <= i < |page| && page[i] == c;
      assert q[m + i] == c;
    }
  }

  lemma {:induction false} PagePasses(
      k: Pruner, st: State, q: seq<Id>, m: nat, m': nat, mid: State, page: seq<Id>, next: State)
    requires Prunes(k) && Ascending(q) && m <= m' <= |q| && page == q[m..m']
    requires PassedOnce(k, st, q[..m], mid) && next == PruneFirst(k.step, mid, page, |page|).0
    ensures PassedOnce(k, st, q[..m'], next)
  {
    SliceIsNew(q, m, m', page);
    FirstPruned(k, st, q[..m], mid, page, |page|, next);
  }

  lemma {:induction false} AuditOnly(k: Pruner, st: State, done: seq<Id>, a: State, b: State)
    requires Prunes(k) && PassedOnce(k, st, done, a) && b.rows == a.rows && b.explanations == a.explanations
    ensures PassedOnce(k, st, done, b)
  {
    forall c ensures PassedAt(k, st, done, b, c) {
      assert PassedAt(k, st, done, a, c) && DependsOn(k, a, b, c);
    }
  }

  lemma {:induction false} PrunedTables(
      r: Pruning, found: Clocked, cursor: Id, limit: nat, page: seq<Id>, keepN: nat, cutoff: int,
      pruned: State, deleted: nat)
    requires ValidPruning(r) && page == Page(ExplainedCerts(found.tables.explanations), cursor, limit)
    requires keepN == r.policy.keepN && cutoff == found.now - r.policy.maxAge
    requires (pruned, deleted) == PruneAll(found.tables, page, keepN, cutoff, r.perCert)
    ensures PrunePage(r, limit, found, cursor).Some?
    ensures var (left, answer) := PrunePage(r, limit, found, cursor).value;
      && left.now == found.now && left.tables.rows == pruned.rows && left.tables.explanations == pruned.explanations
      && answer == PageResult(NextCursor(page, cursor), |page| < limit, |page|, deleted)
  {
  }

  lemma {:induction false} KeysPage(keys: set<Id>, q: seq<Id>, m: nat, m': nat, limit: nat)
    requires "" !in q && q == SortedIds(keys) && m' == Min(m + limit, |q|) && m <= |q|
    ensures Page(keys, CursorAt(q, m), limit) == q[m..m']
  {
    SortedIdsMembers(keys, "");
    SliceOfOrder(keys, q, m, limit);
  }

  lemma {:induction false} StepOf(
      step: PruneStep, keepN: nat, cutoff: int, perCert: nat, mid: State, page: seq<Id>, n: nat)
    requires step == PruneCertAt(keepN, cutoff, perCert) && n == |page|
    ensures PruneFirst(step, mid, page, n) == PruneAll(mid, page, keepN, cutoff, perCert)
  {
  }

  lemma {:induction false} ListedNext(
      k: Pruner, st: State, q: seq<Id>, m: nat, m': nat, limit: nat, mid: State, keys: set<Id>, listed: set<Id>)
    requires Prunes(k) && "" !in q && q == SortedIds(keys) && m' == Min(m + limit, |q|) && m <= |q|
    requires keys == ExplainedCerts(st.explanations) && listed == ExplainedCerts(mid.explanations)
    requires PassedOnce(k, st, q[..m], mid)
    ensures Page(listed, CursorAt(q, m), limit) == q[m..m'] && NextCursor(q[m..m'], CursorAt(q, m)) == CursorAt(q, m')
  {
    ListingStays(k, st, q[..m], mid, keys, listed);
    KeysPage(keys, q, m, m', limit);
    SliceCursor(q, m, m');
  }

  lemma {:induction false} SlicePassed(
      k: Pruner, keepN: nat, cutoff: int, perCert: nat, st: State, q: seq<Id>, m: nat, m': nat, mid: State,
      page: seq<Id>, pruned: State)
    requires Prunes(k) && k == PrunerOf(keepN, cutoff, perCert) && Prunable(st, q) && m <= m' <= |q|
    requires page == q[m..m'] && PassedOnce(k, st, q[..m], mid)
    requires pruned == PruneAll(mid, page, keepN, cutoff, perCert).0
    ensures PassedOnce(k, st, q[..m'], pruned)
  {
    SortedIdsOrder(ExplainedCerts(st.explanations));
    StepOf(k.step, keepN, cutoff, perCert, mid, page, |page|);
    PagePasses(k, st, q, m, m', mid, page, pruned);
  }

  /** One page of the drain passes over the next slice of the listing. */
  lemma {:induction false} PageOfPrune(
      r: Pruning, k: Pruner, st: State, now: int, q: seq<Id>, m: nat, m': nat, limit: nat, at: Place<Clocked>)
    requires ValidPruning(r) && PrunesAs(k, r, now) && Prunes(k)
    requires Prunable(st, q) && OnPrune(k, st, now, q, m, at) && m' == Min(m + limit, |q|)
    ensures PrunePage(r, limit, at.store, at.cursor).Some?
    ensures var (left, answer) := PrunePage(r, limit, at.store, at.cursor).value;
      && OnPrune(k, st, now, q, m', Place(left, answer.nextCursor))
      && answer.done == (m' - m < limit) && answer.itemsScanned == m' - m
  {
    var page, mid := q[m..m'], at.store.tables;
    var keepN, cutoff := r.policy.keepN, now - r.policy.maxAge;
    ListedNext(k, st, q, m, m', limit, mid, ExplainedCerts(st.explanations), ExplainedCerts(mid.explanations));
    var (pruned, deleted) := PruneAll(mid, page, keepN, cutoff, r.perCert);
    PrunedTables(r, at.store, at.cursor, limit, page, keepN, cutoff, pruned, deleted);
    var (left, answer) := PrunePage(r, limit, at.store, at.cursor).value;
    SlicePassed(k, keepN, cutoff, r.perCert, st, q, m, m', mid, page, pruned);
    AuditOnly(k, st, q[..m'], pruned, left.tables);
  }

  /** The drain from m rows on reaches its end. */
  lemma {:induction false} DrainFrom(
      r: Pruning, k: Pruner, st: State, now: int, q: seq<Id>, limit: nat, m: nat, n: nat, start: Place<Clocked>)
    returns (last: nat)
    requires ValidPruning(r) && PrunesAs(k, r, now) && Prunes(k) && Prunable(st, q) && limit >= 1
    requires GoesOn(PruneJob(r, limit), Still(), start, n)
    requires OnPrune(k, st, now, q, m, PlaceAt(PruneJob(r, limit), Still(), start, n))
    ensures FullDrain(PruneJob(r, limit), start, last)
    ensures OnPrune(k, st, now, q, |q|, PlaceAt(PruneJob(r, limit), Still(), start, last))
    decreases |q| - m
  {
    var job, n', m' := PruneJob(r, limit), n + 1, Min(m + limit, |q|);
    PageOfPrune(r, k, st, now, q, m, m', limit, PlaceAt(job, Still(), start, n));
    AttemptNext(job, Still<Clocked>(), start, n, n');
    var answer := AnswerAt(job, Still(), start, n).value;
    DrainNext(job, Still<Clocked>(), start, n, n', answer);
    if answer.done {
      return n';
    }
    last := DrainFrom(r, k, st, now, q, limit, m', n', start);
  }

  /** Every history has had one pass; rows and surviving explanations are untouched. */
  ghost predicate AllPassed(k: Pruner, st: State, left: State) {
    && left.rows == st.rows && Surviving(st.explanations, left.explanations)
    && forall c :: k.history(left, c) == k.Passed(st, c)
  }

  lemma {:induction false} WholeListPassed(k: Pruner, st: State, q: seq<Id>, m: nat, left: State)
    requires Prunes(k) && Prunable(st, q) && m == |q| && PassedOnce(k, st, q[..m], left)
    ensures AllPassed(k, st, left)
  {
    assert q[..m] == q;
    SortedIdsOrder(ExplainedCerts(st.explanations));
    forall c ensures k.history(left, c) == k.Passed(st, c) {
      assert PassedAt(k, st, q[..m], left, c) && ListsHistories(k, st, c);
    }
  }

  lemma {:induction false} PruneStarts(k: Pruner, st: State, now: int, q: seq<Id>)
    ensures OnPrune(k, st, now, q, 0, Place(Clocked(st, now), CURSOR_START))
  {
    forall c ensures PassedAt(k, st, q[..0], st, c) {
    }
  }

  /**
    Following the next cursor from the start at one time prunes every explained certificate exactly once,
    whatever the page size: every history has had one pass, and rows and surviving explanations are untouched.
    Such a drain always ends.
  */
  lemma {:induction false} DrainPassesOnce(r: Pruning, k: Pruner, st: State, now: int, limit: nat, n: nat)
    requires ValidPruning(r) && PrunesAs(k, r, now) && limit >= 1 && "" !in ExplainedCerts(st.explanations)
    ensures var job, start := PruneJob(r, limit), Place(Clocked(st, now), CURSOR_START);
      && (exists last: nat :: FullDrain(job, start, last))
      && (FullDrain(job, start, n) ==> AllPassed(k, st, PlaceAt(job, Still(), start, n).store.tables))
  {
    var q := SortedIds(ExplainedCerts(st.explanations));
    SortedIdsMembers(ExplainedCerts(st.explanations), "");
    PrunerPrunes(k, r.policy.keepN, now - r.policy.maxAge, r.perCert);
    DrainOfList(r, k, st, now, q, limit, n, PruneJob(r, limit), Place(Clocked(st, now), CURSOR_START));
  }

  lemma {:induction false} DrainEnds(
      r: Pruning, k: Pruner, st: State, now: int, q: seq<Id>, limit: nat, job: Pages<Clocked>, start: Place<Clocked>)
    returns (last: nat)
    requires ValidPruning(r) && PrunesAs(k, r, now) && Prunes(k) && limit >= 1 && Prunable(st, q)
    requires job == PruneJob(r, limit) && start == Place(Clocked(st, now), CURSOR_START)
    ensures FullDrain(job, start, last) && AllPassed(k, st, PlaceAt(job, Still(), start, last).store.tables)
  {
    PruneStarts(k, st, now, q);
    last := DrainFrom(r, k, st, now, q, limit, 0, 0, start);
    WholeListPassed(k, st, q, |q|, PlaceAt(job, Still(), start, last).store.tables);
  }

  lemma {:induction false} DrainOfList(
      r: Pruning, k: Pruner, st: State, now: int, q: seq<Id>, limit: nat, n: nat,
      job: Pages<Clocked>, start: Place<Clocked>)
    requires ValidPruning(r) && PrunesAs(k, r, now) && Prunes(k) && limit >= 1 && Prunable(st, q)
    requires job == PruneJob(r, limit) && start == Place(Clocked(st, now), CURSOR_START)
    ensures exists last: nat :: FullDrain(job, start, last)
    ensures FullDrain(job, start, n) ==> AllPassed(k, st, PlaceAt(job, Still(), start, n).store.tables)
  {
    var last := DrainEnds(r, k, st, now, q, limit, job, start);
    if FullDrain(job, start, n) {
      DrainUnique(job, Still<Clocked>(), start, n, last);
    }
  }

  /** In the tables' own terms: after a drain each history t' is one pass over the history t from before. */
  lemma {:induction false} DrainIsOnePassEach(
      r: Pruning, st: State, now: int, limit: nat, n: nat, left: State, c: Id, keepN: nat, cutoff: int,
      t: Retention.Timeline, t': Retention.Timeline, current: Option<Id>)
    requires ValidPruning(r) && limit >= 1 && "" !in ExplainedCerts(st.explanations)
    requires FullDrain(PruneJob(r, limit), Place(Clocked(st, now), CURSOR_START), n)
    requires left == PlaceAt(PruneJob(r, limit), Still(), Place(Clocked(st, now), CURSOR_START), n).store.tables
    requires keepN == r.policy.keepN && cutoff == now - r.policy.maxAge && current == CurrentExplanation(st, c)
    requires t == TimelineOf(st.explanations, c) && t' == TimelineOf(left.explanations, c)
    ensures t' == Retention.PrunePass(t, current, keepN, cutoff, r.perCert)
    ensures left.rows == st.rows && Surviving(st.explanations, left.explanations)
  {
    var k := PrunerOf(keepN, cutoff, r.perCert);
    DrainPassesOnce(r, k, st, now, limit, n);
    PrunerReads(k, keepN, cutoff, r.perCert, st, c);
    PrunerReads(k, keepN, cutoff, r.perCert, left, c);
    PrunerPass(k, keepN, cutoff, r.perCert, current, t);
    assert k.history(left, c) == k.Passed(st, c);
  }

  // --- drain after drain ---------------------------------------------------------------------------------------

  /** Tables between drains at one time, each drain from where the previous one ended. */
  ghost predicate Drains(r: Pruning, now: int, limit: nat, states: seq<State>) {
    && |states| > 0
    && forall i, j | 0 <= i < j < |states| && j == i + 1 :: DrainTo(r, now, limit, states[i], states[j])
  }

  ghost predicate DrainTo(r: Pruning, now: int, limit: nat, a: State, b: State) {
    var job, start := PruneJob(r, limit), Place(Clocked(a, now), CURSOR_START);
    exists n: nat :: FullDrain(job, start, n) && b == PlaceAt(job, Still(), start, n).store.tables
  }

  lemma {:induction false} DrainIsPass(r: Pruning, k: Pruner, now: int, limit: nat, a: State, b: State)
    requires ValidPruning(r) && PrunesAs(k, r, now) && Prunes(k) && limit >= 1
    requires "" !in ExplainedCerts(a.explanations) && DrainTo(r, now, limit, a, b)
    ensures AllPassed(k, a, b) && "" !in ExplainedCerts(b.explanations)
  {
    var job, start := PruneJob(r, limit), Place(Clocked(a, now), CURSOR_START);
    var n: nat :| FullDrain(job, start, n) && b == PlaceAt(job, Still(), start, n).store.tables;
    DrainPassesOnce(r, k, a, now, limit, n);
    assert ListsHistories(k, a, "") && ListsHistories(k, b, "");
  }

  lemma {:induction false} DrainsArePasses(
      r: Pruning, k: Pruner, now: int, limit: nat, states: seq<State>, c: Id, n: nat,
      pass: Retention.Timeline -> Retention.Timeline)
    requires ValidPruning(r) && PrunesAs(k, r, now) && Prunes(k) && limit >= 1
    requires Drains(r, now, limit, states) && n < |states| && "" !in ExplainedCerts(states[0].explanations)
    requires forall t :: pass(t) == k.pass(k.current(states[0], c), t)
    ensures states[n].rows == states[0].rows && "" !in ExplainedCerts(states[n].explanations)
    ensures k.history(states[n], c) == Retention.Iterate(pass, k.history(states[0], c), n)
  {
    if n > 0 {
      var m := n - 1;
      DrainsArePasses(r, k, now, limit, states, c, m, pass);
      assert DrainTo(r, now, limit, states[m], states[n]);
      DrainIsPass(r, k, now, limit, states[m], states[n]);
      assert k.history(states[n], c) == k.Passed(states[m], c) && DependsOn(k, states[0], states[m], c);
    }
  }

  /**
    After as many drains as its eligible rows need batches, each certificate's stored history t' is its
    original history t minus what the sort-based rule selects, and nothing is left to select.
  */
  lemma {:induction false} DrainsReachTheRule(
      r: Pruning, now: int, limit: nat, states: seq<State>, c: Id, n: nat, keepN: nat, cutoff: int,
      t: Retention.Timeline, t': Retention.Timeline, current: Option<Id>)
    requires ValidPruning(r) && r.perCert >= 1 && limit >= 1 && Drains(r, now, limit, states) && n < |states|
    requires "" !in ExplainedCerts(states[0].explanations)
    requires keepN == r.policy.keepN && cutoff == now - r.policy.maxAge
    requires t == TimelineOf(states[0].explanations, c) && current == CurrentExplanation(states[0], c)
    requires t' == TimelineOf(states[n].explanations, c)
    requires n >= Retention.PassesNeeded(t, current, keepN, cutoff, r.perCert)
    ensures Retention.MatchesSelection(t, t', current, r.policy, now)
  {
    var k := PrunerOf(keepN, cutoff, r.perCert);
    PrunerPrunes(k, keepN, cutoff, r.perCert);
    PrunerReads(k, keepN, cutoff, r.perCert, states[0], c);
    forall u ensures Retention.PassAt(current, keepN, cutoff, r.perCert)(u) == k.pass(current, u) {
      PrunerPass(k, keepN, cutoff, r.perCert, current, u);
    }
    DrainsArePasses(r, k, now, limit, states, c, n, Retention.PassAt(current, keepN, cutoff, r.perCert));
    PrunerReads(k, keepN, cutoff, r.perCert, states[n], c);
    Retention.DrainMatchesSelection(t, t', current, r.policy, now, keepN, cutoff, r.perCert, n);
  }
}
