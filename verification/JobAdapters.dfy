/** The job adapters the runner calls: each turns one bounded page of the ownership service into a page answer. */
module JobAdapters {
  import opened Wrappers
  import opened Ids
  import opened Ownership
  import opened OwnershipService
  import opened MaintenanceJobs
  import Runner

  class SweepAdapter {
    const service: OwnershipService

    constructor (service: OwnershipService)
      ensures this.service == service
    {
      this.service := service;
    }

    /** Calls the sweep once and passes its outcome on; an error leaves the tables as they were. */
    method RunPage(cursor: Id, pageSize: int, now: int) returns (answer: Option<Runner.PageResult>)
      requires service.Valid()
      modifies service`rows, service`overrides, service`explanations, service`nextId, service`audit
      ensures match SweepPage(service.platform, SweepLimit(pageSize), Clocked(old(service.View()), now), cursor)
        case None => answer == None && service.View() == old(service.View())
        case Some((left, result)) => answer == Some(result) && service.View() == left.tables
      ensures service.Valid()
    {
      var nextCursor, scanned, cleared, done, refusal := service.SweepExpiringOverridesPage(cursor, pageSize, now);
      if refusal.Some? {
        return None;
      }
      return Some(Runner.PageResult(nextCursor, done, scanned, cleared));
    }
  }

  class PruneAdapter {
    const service: OwnershipService

    constructor (service: OwnershipService)
      ensures this.service == service
    {
      this.service := service;
    }

    /** Calls the prune once and passes its outcome on; a policy out of range is an error. */
    method RunPage(cursor: Id, pageSize: int, now: int) returns (answer: Option<Runner.PageResult>)
      modifies service`explanations, service`audit
      ensures var r := Pruning(service.retention, service.PrunePerCertLimit());
        match PrunePage(r, SweepLimit(pageSize), Clocked(old(service.View()), now), cursor)
        case None => answer == None && service.View() == old(service.View())
        case Some((left, result)) => answer == Some(result) && service.View() == left.tables
      ensures old(service.Valid()) ==> service.Valid()
    {
      var nextCursor, scanned, deleted, done, refusal := service.PruneExplanationsPage(cursor, pageSize, now);
      if refusal.Some? {
        return None;
      }
      return Some(Runner.PageResult(nextCursor, done, scanned, deleted));
    }
  }
}
