/**
  The two jobs the scheduler runs, as pages over the ownership tables: one page of the
  expired-override sweep and one page of the explanation prune.
*/
module MaintenanceJobs {
  import opened Wrappers
  import opened Ids
  import opened Ownership
  import Retention
  import Runner

  /** The tables a page works on and the clock it reads. */
  datatype Clocked = Clocked(tables: State, now: int)

  /** One sweep page: an error of the sweep is the page's error, and the page is then undone. */
  function SweepPage(p: Platform, limit: nat, found: Clocked, cursor: Id): Option<(Clocked, Runner.PageResult)> {
    match SweepPageTx(p, found.tables, cursor, limit, found.now)
    case Err(_) => None
    case Ok(swept) =>
      var page := Page(ExpiringCerts(found.tables, found.now), cursor, limit);
      Some((found.(tables := swept), Runner.PageResult(NextCursor(page, cursor), |page| < limit, |page|, |page|)))
  }

  lemma {:induction false} PageAnswer(
      p: Platform, limit: nat, found: Clocked, cursor: Id, left: Clocked, r: Runner.PageResult, page: seq<Id>)
    requires SweepPage(p, limit, found, cursor) == Some((left, r))
    requires page == Page(ExpiringCerts(found.tables, found.now), cursor, limit)
    ensures SweepPageTx(p, found.tables, cursor, limit, found.now) == Ok(left.tables) && left.now == found.now
    ensures r.nextCursor == NextCursor(page, cursor) && r.itemsScanned == |page| && r.done == (|page| < limit)
  {
  }

  function SweepJob(p: Platform, limit: nat): Runner.Pages<Clocked> {
    (found: Clocked, cursor: Id) => SweepPage(p, limit, found, cursor)
  }

  /** How much to keep, and how many rows of one certificate a page deletes at most. */
  datatype Pruning = Pruning(policy: Retention.Policy, perCert: nat)

  predicate ValidPruning(r: Pruning) {
    r.policy.keepN >= 1 && r.policy.maxAge > 0
  }

  /** One prune page: refused for a policy out of range. */
  function PrunePage(r: Pruning, limit: nat, found: Clocked, cursor: Id): Option<(Clocked, Runner.PageResult)> {
    if !ValidPruning(r) then None
    else
      var page, cutoff := Page(ExplainedCerts(found.tables.explanations), cursor, limit), found.now - r.policy.maxAge;
      var deleted := PruneAll(found.tables, page, r.policy.keepN, cutoff, r.perCert).1;
      var pruned := PrunePageTx(found.tables, cursor, limit, r.policy.keepN, cutoff, r.perCert);
      Some((found.(tables := pruned), Runner.PageResult(NextCursor(page, cursor), |page| < limit, |page|, deleted)))
  }

  function PruneJob(r: Pruning, limit: nat): Runner.Pages<Clocked> {
    (found: Clocked, cursor: Id) => PrunePage(r, limit, found, cursor)
  }

  /** Following the cursor of a slice leads behind the slice. */
  lemma {:induction false} SliceCursor(e: seq<Id>, m: nat, m': nat)
    requires m <= m' <= |e|
    ensures NextCursor(e[m..m'], CursorAt(e, m)) == CursorAt(e, m')
  {
  }
}
