/**
  The explanation prune over chains of runs, whatever runs and pages fail, however the clock moves and
  whoever writes in between: once a run reaches the end, every certificate has had its pass.
*/
module PruneChains {
  import opened Wrappers
  import opened Ids
  import opened Ownership
  import opened OwnershipInvariants
  import opened HistoryGrowth
  import opened MaintenanceJobs
  import opened PruneWalk
  import opened SweepLemmas
  import opened Runner
  import opened RunnerTheorems
  import opened RunnerChains
  import opened WalkChains
  import Retention

  // --- one page ---------------------------------------------------------------------------------------------

  /** What one pass leaves of a certificate's history. */
  function PassedOver(st: State, x: Id, keepN: nat, cutoff: int, perCert: nat): Retention.Timeline {
    Retention.PrunePass(TimelineOf(st.explanations, x), CurrentExplanation(st, x), keepN, cutoff, perCert)
  }

  /** A page passes over the histories it lists and leaves the others alone. */
  lemma {:induction false} PageEffect(
      k: Pruner, found: State, page: seq<Id>, keepN: nat, cutoff: int, perCert: nat, pruned: State)
    requires keepN >= 1 && k == PrunerOf(keepN, cutoff, perCert) && Prunes(k)
    requires forall i, j | 0 <= i < j < |page| :: page[i] != page[j]
    requires pruned == PruneAll(found, page, keepN, cutoff, perCert).0
    ensures PassedOnce(k, found, page, pruned)
  {
    StepOf(k.step, keepN, cutoff, perCert, found, page, |page|);
    forall c ensures PassedAt(k, found, [], found, c) {
    }
    FirstPruned(k, found, [], found, page, |page|, pruned);
    assert [] + page[..|page|] == page;
  }

  /** The history of one certificate after a page, in the tables' own terms. */
  lemma {:induction false} PassedHistory(
      k: Pruner, found: State, page: seq<Id>, keepN: nat, cutoff: int, perCert: nat, left: State, c: Id)
    requires k == PrunerOf(keepN, cutoff, perCert) && PassedOnce(k, found, page, left)
    ensures TimelineOf(left.explanations, c) ==
      if c in page then PassedOver(found, c, keepN, cutoff, perCert) else TimelineOf(found.explanations, c)
  {
    assert PassedAt(k, found, page, left, c);
    PrunerReads(k, keepN, cutoff, perCert, found, c);
    PrunerReads(k, keepN, cutoff, perCert, left, c);
    PrunerPass(k, keepN, cutoff, perCert, CurrentExplanation(found, c), TimelineOf(found.explanations, c));
  }

  /** A prune transaction with a policy in range: rows and listing stay, listed histories get one pass. */
  lemma {:induction false} PruneTx(
      st: State, cursor: Id, limit: nat, keepN: nat, cutoff: int, perCert: nat, left: State)
    requires keepN >= 1 && left == PrunePageTx(st, cursor, limit, keepN, cutoff, perCert)
    ensures left.rows == st.rows && ExplainedCerts(left.explanations) == ExplainedCerts(st.explanations)
    ensures forall c | c in Page(ExplainedCerts(st.explanations), cursor, limit) ::
      TimelineOf(left.explanations, c) == PassedOver(st, c, keepN, cutoff, perCert)
    ensures forall c | c !in Page(ExplainedCerts(st.explanations), cursor, limit) ::
      TimelineOf(left.explanations, c) == TimelineOf(st.explanations, c)
  {
    var k, page := PrunerOf(keepN, cutoff, perCert), Page(ExplainedCerts(st.explanations), cursor, limit);
    var pruned := PruneAll(st, page, keepN, cutoff, perCert).0;
    PrunerPrunes(k, keepN, cutoff, perCert);
    PageAscending(ExplainedCerts(st.explanations), cursor, limit);
    AscendingDistinct(page);
    PageEffect(k, st, page, keepN, cutoff, perCert, pruned);
    AuditOnly(k, st, page, pruned, left);
    ListingStays(k, st, page, left, ExplainedCerts(st.explanations), ExplainedCerts(left.explanations));
    forall c
      ensures c in page ==> TimelineOf(left.explanations, c) == PassedOver(st, c, keepN, cutoff, perCert)
      ensures c !in page ==> TimelineOf(left.explanations, c) == TimelineOf(st.explanations, c)
    {
      PassedHistory(k, st, page, keepN, cutoff, perCert, left, c);
    }
  }

  /** The same for a page of the job, with its answer. */
  lemma {:induction false} JobPage(
      r: Pruning, limit: nat, found: Clocked, cursor: Id, keepN: nat, cutoff: int, page: seq<Id>)
    requires ValidPruning(r) && keepN == r.policy.keepN && cutoff == found.now - r.policy.maxAge
    requires page == Page(ExplainedCerts(found.tables.explanations), cursor, limit)
    ensures PrunePage(r, limit, found, cursor).Some?
    ensures var (left, answer) := PrunePage(r, limit, found, cursor).value;
      && left.now == found.now && left.tables == PrunePageTx(found.tables, cursor, limit, keepN, cutoff, r.perCert)
      && answer.nextCursor == NextCursor(page, cursor) && answer.done == (|page| < limit)
      && answer.itemsScanned == |page|
  {
  }

  // --- every certificate has its pass ---------------------------------------------------------------------------

  /** The page lists the certificate and leaves of its history what one pass at the page's time does. */
  ghost predicate Passes(r: Pruning, limit: nat, found: Clocked, cursor: Id, left: Clocked, x: Id)
    requires ValidPruning(r)
  {
    x in Page(ExplainedCerts(found.tables.explanations), cursor, limit) && PassLeaves(r, found, left, x)
  }

  /** The certificate's history is one pass at the page's time over what it was. */
  ghost predicate PassLeaves(r: Pruning, found: Clocked, left: Clocked, x: Id)
    requires ValidPruning(r)
  {
    TimelineOf(left.tables.explanations, x)
      == PassedOver(found.tables, x, KeepN(r), Cutoff(r, found), r.perCert)
  }

  function KeepN(r: Pruning): nat
    requires ValidPruning(r)
  {
    r.policy.keepN
  }

  /** Older explanations can be pruned by a page that finds this. */
  function Cutoff(r: Pruning, found: Clocked): int {
    found.now - r.policy.maxAge
  }

  /** The n-th page of the i-th run succeeded and passed over the certificate. */
  ghost predicate PassedBy(
      r: Pruning, limit: nat, c: Config, row: JobRow, ses: seq<Session<Clocked>>, x: Id, i: nat, n: nat)
    requires ValidPruning(r) && ValidConfig(c)
  {
    && i < |ses| && n < |RunAt(PruneJob(r, limit), c, row, ses, i).served|
    && var start := Place(ses[i].store, JobRowAfter(PruneJob(r, limit), c, row, ses, i).cursor);
       PassedAtPage(r, limit, ses[i].world.turns, start, x, n)
  }

  ghost predicate PassedAtPage(
      r: Pruning, limit: nat, turns: nat -> Turn<Clocked>, start: Place<Clocked>, x: Id, n: nat)
    requires ValidPruning(r)
  {
    var job := PruneJob(r, limit);
    Passes(r, limit, FoundAt(job, turns, start, n), PlaceAt(job, turns, start, n).cursor,
           PlaceAt(job, turns, start, n + 1).store, x)
  }

  lemma {:induction false} ListedPasses(
      r: Pruning, limit: nat, turns: nat -> Turn<Clocked>, start: Place<Clocked>, x: Id, n: nat, found: Clocked,
      cursor: Cursor)
    requires ValidPruning(r) && AnswerAt(PruneJob(r, limit), turns, start, n).Some?
    requires found == FoundAt(PruneJob(r, limit), turns, start, n)
    requires cursor == PlaceAt(PruneJob(r, limit), turns, start, n).cursor
    requires x in Page(ExplainedCerts(found.tables.explanations), cursor, limit)
    ensures PassedAtPage(r, limit, turns, start, x, n)
    ensures PrunePage(r, limit, found, cursor).Some?
    ensures PlaceAt(PruneJob(r, limit), turns, start, n + 1).store == PrunePage(r, limit, found, cursor).value.0
  {
    var keepN, cutoff := KeepN(r), Cutoff(r, found);
    AttemptNext(PruneJob(r, limit), turns, start, n, n + 1);
    JobPage(r, limit, found, cursor, keepN, cutoff, Page(ExplainedCerts(found.tables.explanations), cursor, limit));
    PruneTx(found.tables, cursor, limit, keepN, cutoff, r.perCert, PrunePage(r, limit, found, cursor).value.0.tables);
  }

  /** The certificate has a history, and a page that lists it deals with it. */
  ghost function PassSeeker(r: Pruning, limit: nat, x: Id): Seeker<Clocked> {
    Seeker(PruneJob(r, limit), x, (at: Clocked) => x in ExplainedCerts(at.tables.explanations),
           (at: Clocked, cursor: Cursor) => x in Page(ExplainedCerts(at.tables.explanations), cursor, limit))
  }

  /** A page that does not list a certificate with a history ends before it, if it began before it. */
  lemma {:induction false} NotListed(
      r: Pruning, limit: nat, x: Id, found: Clocked, cursor: Cursor, page: seq<Id>, left: Clocked, answer: PageResult)
    requires ValidPruning(r) && limit >= 1 && PrunePage(r, limit, found, cursor) == Some((left, answer))
    requires page == Page(ExplainedCerts(found.tables.explanations), cursor, limit) && x !in page
    requires x in ExplainedCerts(found.tables.explanations)
    ensures left.now == found.now && left.tables.rows == found.tables.rows
    ensures TimelineOf(left.tables.explanations, x) == TimelineOf(found.tables.explanations, x)
    ensures x in ExplainedCerts(left.tables.explanations)
    ensures Less(cursor, x) ==> !answer.done && Less(answer.nextCursor, x)
  {
    var keepN, cutoff := r.policy.keepN, found.now - r.policy.maxAge;
    JobPage(r, limit, found, cursor, keepN, cutoff, page);
    PruneTx(found.tables, cursor, limit, keepN, cutoff, r.perCert, left.tables);
    if Less(cursor, x) { OnPageOrBeyond(ExplainedCerts(found.tables.explanations), cursor, limit, x); }
  }

  lemma {:induction false} PassesSeek(r: Pruning, limit: nat, x: Id, k: Seeker<Clocked>)
    requires ValidPruning(r) && limit >= 1 && k == PassSeeker(r, limit, x)
    ensures Seeks(k)
  {
    forall s: Clocked, cursor: Cursor ensures PageSeeks(k, s, cursor) {
      var outcome := PrunePage(r, limit, s, cursor);
      if k.open(s) && outcome.Some? && !k.deals(s, cursor) {
        NotListed(r, limit, x, s, cursor, Page(ExplainedCerts(s.tables.explanations), cursor, limit),
                  outcome.value.0, outcome.value.1);
      }
    }
  }

  /**
    A chain of prune runs whose last run reaches the end: every certificate explained when the chain began has
    had a retention pass at the clock reading of some page of some run, although runs and pages failed, terminal
    writes were lost, the clock moved on and others wrote, as long as the certificate kept an explanation.
  */
  lemma {:induction false} ChainPassesEach(
      r: Pruning, limit: nat, c: Config, row: JobRow, ses: seq<Session<Clocked>>, x: Id)
    requires ValidPruning(r) && ValidConfig(c) && limit >= 1 && |ses| > 0 && row.cursor == CURSOR_START && x != ""
    requires x in ExplainedCerts(ses[0].store.tables.explanations) && OpenChain(PassSeeker(r, limit, x), c, row, ses)
    requires RunAt(PruneJob(r, limit), c, row, ses, |ses| - 1).ending == Drained
    ensures exists i: nat, n: nat :: PassedBy(r, limit, c, row, ses, x, i, n)
  {
    var k := PassSeeker(r, limit, x);
    PassesSeek(r, limit, x, k);
    ChainDealsWith(k, c, row, ses);
    var i: nat, n: nat :| DealtBy(k, c, row, ses, i, n);
    var start := Place(ses[i].store, JobRowAfter(PruneJob(r, limit), c, row, ses, i).cursor);
    ListedPasses(r, limit, ses[i].world.turns, start, x, n, FoundAt(PruneJob(r, limit), ses[i].world.turns, start, n),
                 PlaceAt(PruneJob(r, limit), ses[i].world.turns, start, n).cursor);
    assert PassedBy(r, limit, c, row, ses, x, i, n);
  }

  /** Every writer, at any clock reading, leaves an explained certificate explained. */
  lemma {:induction false} WritersKeepExplained(
      p: Platform, threshold: nat, r: Pruning, limit: nat, a: Clocked, s: Step, now: int, x: Id)
    requires Inv(p, a.tables) && Enabled(a.tables, s) && (s.DoPrune? ==> s.keepN >= 1)
    requires PassSeeker(r, limit, x).open(a)
    ensures PassSeeker(r, limit, x).open(Clocked(Apply(p, threshold, a.tables, s), now))
  {
    if s.DoPrune? {
      PruneTx(a.tables, s.pruneCursor, s.pruneLimit, s.keepN, s.cutoff, s.perCert, Apply(p, threshold, a.tables, s));
    } else {
      WritersGrow(p, threshold, a.tables, s);
      var id :| id in a.tables.explanations && a.tables.explanations[id].certId == x;
      assert id in Apply(p, threshold, a.tables, s).explanations;
    }
  }

  // --- what could be pruned when the chain began -------------------------------------------------------------------

  /** The explanation could be pruned at that time, and the clock has not gone back behind it. */
  ghost predicate StillPrunable(r: Pruning, at: Clocked, x: Id, e: Id, now: int)
    requires ValidPruning(r)
  {
    && at.now >= now
    && e in Retention.Eligible(TimelineOf(at.tables.explanations, x), CurrentExplanation(at.tables, x), r.policy.keepN,
                               now - r.policy.maxAge)
  }

  /** The explanation is still prunable; a page that lists its certificate then deals with it. */
  ghost function PruneSeeker(r: Pruning, limit: nat, x: Id, e: Id, now: int): Seeker<Clocked>
    requires ValidPruning(r)
  {
    Seeker(PruneJob(r, limit), x, (at: Clocked) => StillPrunable(r, at, x, e, now),
           (at: Clocked, cursor: Cursor) =>
             StillPrunable(r, at, x, e, now) && x in Page(ExplainedCerts(at.tables.explanations), cursor, limit))
  }

  lemma {:induction false} PrunableIsExplained(r: Pruning, at: Clocked, x: Id, e: Id, now: int)
    requires ValidPruning(r) && StillPrunable(r, at, x, e, now)
    ensures x in ExplainedCerts(at.tables.explanations)
  {
    ExplainedIffHistory(at.tables.explanations, x);
  }

  lemma {:induction false} PrunesSeek(r: Pruning, limit: nat, x: Id, e: Id, now: int, k: Seeker<Clocked>)
    requires ValidPruning(r) && limit >= 1 && k == PruneSeeker(r, limit, x, e, now)
    ensures Seeks(k)
  {
    forall s: Clocked, cursor: Cursor ensures PageSeeks(k, s, cursor) {
      var outcome := PrunePage(r, limit, s, cursor);
      if k.open(s) && outcome.Some? && !k.deals(s, cursor) {
        PrunableIsExplained(r, s, x, e, now);
        NotListed(r, limit, x, s, cursor, Page(ExplainedCerts(s.tables.explanations), cursor, limit),
                  outcome.value.0, outcome.value.1);
      }
    }
  }

  /** The n-th page of the i-th run passed over the certificate and removed some of its history. */
  ghost predicate PrunedBy(
      r: Pruning, limit: nat, c: Config, row: JobRow, ses: seq<Session<Clocked>>, x: Id, i: nat, n: nat)
    requires ValidPruning(r) && ValidConfig(c)
  {
    && PassedBy(r, limit, c, row, ses, x, i, n)
    && var start := Place(ses[i].store, JobRowAfter(PruneJob(r, limit), c, row, ses, i).cursor);
       RemovesAt(r, limit, ses[i].world.turns, start, x, n)
  }

  ghost predicate RemovesAt(
      r: Pruning, limit: nat, turns: nat -> Turn<Clocked>, start: Place<Clocked>, x: Id, n: nat)
  {
    TimelineOf(PlaceAt(PruneJob(r, limit), turns, start, n + 1).store.tables.explanations, x)
      != TimelineOf(FoundAt(PruneJob(r, limit), turns, start, n).tables.explanations, x)
  }

  lemma {:induction false} PrunablePassRemoves(
      r: Pruning, found: Clocked, x: Id, e: Id, now: int, t: Retention.Timeline, current: Option<Id>,
      keepN: nat, cutoff: int, passed: Retention.Timeline)
    requires ValidPruning(r) && r.perCert >= 1 && StillPrunable(r, found, x, e, now)
    requires t == TimelineOf(found.tables.explanations, x) && current == CurrentExplanation(found.tables, x)
    requires keepN == KeepN(r) && cutoff == Cutoff(r, found)
    requires passed == Retention.PrunePass(t, current, keepN, cutoff, r.perCert)
    ensures passed != t
  {
    Retention.PassRemovesSome(t, current, keepN, now - r.policy.maxAge, cutoff, r.perCert, e);
  }

  /** The page that deals with a prunable explanation passes over its certificate and removes rows. */
  lemma {:induction false} DealingRemoves(
      r: Pruning, limit: nat, turns: nat -> Turn<Clocked>, start: Place<Clocked>, x: Id, n: nat, e: Id, now: int,
      found: Clocked, cursor: Cursor)
    requires ValidPruning(r) && r.perCert >= 1 && AnswerAt(PruneJob(r, limit), turns, start, n).Some?
    requires found == FoundAt(PruneJob(r, limit), turns, start, n) && StillPrunable(r, found, x, e, now)
    requires cursor == PlaceAt(PruneJob(r, limit), turns, start, n).cursor
    requires x in Page(ExplainedCerts(found.tables.explanations), cursor, limit)
    ensures PassedAtPage(r, limit, turns, start, x, n) && RemovesAt(r, limit, turns, start, x, n)
  {
    ListedPasses(r, limit, turns, start, x, n, found, cursor);
    var left := PlaceAt(PruneJob(r, limit), turns, start, n + 1).store;
    var t' := TimelineOf(left.tables.explanations, x);
    var t, current := TimelineOf(found.tables.explanations, x), CurrentExplanation(found.tables, x);
    PrunablePassRemoves(r, found, x, e, now, t, current, KeepN(r), Cutoff(r, found), t');
  }

  /**
    A certificate with an explanation that could be pruned when the chain began: some page of some run has removed
    rows of its history, if nobody else makes that explanation current, deletes rows of the certificate or puts the
    clock back. Later clock readings and new explanations only make more rows prunable.
  */
  lemma {:induction false} ChainLeavesNoneOut(
      r: Pruning, limit: nat, c: Config, row: JobRow, ses: seq<Session<Clocked>>, x: Id, e: Id, now: int)
    requires ValidPruning(r) && ValidConfig(c) && limit >= 1 && r.perCert >= 1 && |ses| > 0 && x != ""
    requires row.cursor == CURSOR_START && now == ses[0].store.now && StillPrunable(r, ses[0].store, x, e, now)
    requires OpenChain(PruneSeeker(r, limit, x, e, now), c, row, ses)
    requires RunAt(PruneJob(r, limit), c, row, ses, |ses| - 1).ending == Drained
    ensures exists i: nat, n: nat :: PrunedBy(r, limit, c, row, ses, x, i, n)
  {
    var k := PruneSeeker(r, limit, x, e, now);
    PrunesSeek(r, limit, x, e, now, k);
    ChainDealsWith(k, c, row, ses);
    var i: nat, n: nat :| DealtBy(k, c, row, ses, i, n);
    var start := Place(ses[i].store, JobRowAfter(PruneJob(r, limit), c, row, ses, i).cursor);
    DealingRemoves(r, limit, ses[i].world.turns, start, x, n, e, now,
                   FoundAt(PruneJob(r, limit), ses[i].world.turns, start, n),
                   PlaceAt(PruneJob(r, limit), ses[i].world.turns, start, n).cursor);
    assert PrunedBy(r, limit, c, row, ses, x, i, n);
  }

  /** Every writer but another prune, at any later clock reading, leaves a prunable explanation prunable. */
  lemma {:induction false} WritersKeepPrunable(
      p: Platform, threshold: nat, r: Pruning, limit: nat, a: Clocked, s: Step, later: int, x: Id, e: Id, now: int)
    requires ValidPruning(r) && Inv(p, a.tables) && Enabled(a.tables, s) && !s.DoPrune? && later >= a.now
    requires PruneSeeker(r, limit, x, e, now).open(a)
    ensures PruneSeeker(r, limit, x, e, now).open(Clocked(Apply(p, threshold, a.tables, s), later))
  {
    var b, cutoff := Apply(p, threshold, a.tables, s), now - r.policy.maxAge;
    WritersGrow(p, threshold, a.tables, s);
    assert CurrentMoves(a.tables, b, x);
    Retention.StaysEligible(TimelineOf(a.tables.explanations, x), TimelineOf(b.explanations, x),
                            CurrentExplanation(a.tables, x), CurrentExplanation(b, x), r.policy.keepN, cutoff,
                            cutoff, e);
  }

  // --- the cursors of a chain ----------------------------------------------------------------------------------------

  /** What the listing alone decides of an answer. */
  function ButDeletions(): PageResult -> PageResult {
    (r: PageResult) => r.(itemsChanged := 0)
  }

  function Listing(keys: set<Id>): Clocked -> bool {
    (at: Clocked) => ExplainedCerts(at.tables.explanations) == keys
  }

  lemma {:induction false} PruneAnswer(r: Pruning, limit: nat, s: Clocked, cursor: Cursor, page: seq<Id>)
    requires ValidPruning(r) && page == Page(ExplainedCerts(s.tables.explanations), cursor, limit)
    ensures var answer := Answer(PruneJob(r, limit), s, cursor);
      && answer.Some?
      && ButDeletions()(answer.value) == PageResult(NextCursor(page, cursor), |page| < limit, |page|, 0)
    ensures ExplainedCerts(PrunePage(r, limit, s, cursor).value.0.tables.explanations)
         == ExplainedCerts(s.tables.explanations)
  {
    var keepN, cutoff := r.policy.keepN, s.now - r.policy.maxAge;
    JobPage(r, limit, s, cursor, keepN, cutoff, page);
    PruneTx(s.tables, cursor, limit, keepN, cutoff, r.perCert, PrunePage(r, limit, s, cursor).value.0.tables);
  }

  /** While the listing stands, the prune's answers depend on the cursor alone, but for the number of deletions. */
  lemma {:induction false} PruneAnswersAlike(r: Pruning, limit: nat, keys: set<Id>, good: Clocked -> bool)
    requires ValidPruning(r) && good == Listing(keys)
    ensures AnswersAlike(PruneJob(r, limit), good, ButDeletions()) && Steering(ButDeletions())
  {
    forall s: Clocked, t: Clocked, cursor: Cursor
      ensures AlikeOn(PruneJob(r, limit), good, ButDeletions(), s, t, cursor)
    {
      PruneAnswer(r, limit, s, cursor, Page(ExplainedCerts(s.tables.explanations), cursor, limit));
      PruneAnswer(r, limit, t, cursor, Page(ExplainedCerts(t.tables.explanations), cursor, limit));
    }
    forall s: Clocked, cursor: Cursor ensures LeavesGood(PruneJob(r, limit), good, s, cursor) {
      PruneAnswer(r, limit, s, cursor, Page(ExplainedCerts(s.tables.explanations), cursor, limit));
    }
    forall a: PageResult, b: PageResult | ButDeletions()(a) == ButDeletions()(b)
      ensures a.nextCursor == b.nextCursor && a.done == b.done
    {
      assert ButDeletions()(a).nextCursor == a.nextCursor && ButDeletions()(a).done == a.done;
      assert ButDeletions()(b).nextCursor == b.nextCursor && ButDeletions()(b).done == b.done;
    }
  }

  /**
    So while the listing stands, the kept calls of any chain of prune runs, with runs lost on the way, go through
    exactly the cursors of the one undisturbed drain, at whatever time and over whatever histories that runs.
  */
  lemma {:induction false} ChainFollowsTheListing(
      r: Pruning, limit: nat, c: Config, row: JobRow, ses: seq<Session<Clocked>>, keys: set<Id>, good: Clocked -> bool,
      st: State, now: int)
    requires ValidPruning(r) && ValidConfig(c) && row.cursor == CURSOR_START && good == Listing(keys)
    requires ChainCompletes(PruneJob(r, limit), c, row, ses) && ChainStaysGood(ses, good)
    requires ExplainedCerts(st.explanations) == keys
    ensures var job, start := PruneJob(r, limit), Place(Clocked(st, now), CURSOR_START);
      var calls := Kept(job, c, row, ses, |ses|);
      && FullDrain(job, start, |calls|)
      && forall k: nat | k < |calls| :: PlaceAt(job, Still(), start, k).cursor == calls[k].cursor
  {
    PruneAnswersAlike(r, limit, keys, good);
    assert StaysGood(Still<Clocked>(), good) by {
      forall k: nat, s: Clocked ensures TurnKeeps(Still<Clocked>(), good, k, s) {
      }
    }
    ChainWithFailuresIsOneDrain(PruneJob(r, limit), c, row, ses, good, ButDeletions(), Still<Clocked>(),
                                Clocked(st, now));
  }
}
