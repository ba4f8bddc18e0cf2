/**
  The maintenance job runner: one bounded page loop per due row, under a per-(organization, job)
  lock, with resume cursors and re-arm times.
*/
module Runner {
  import opened Wrappers
  import Backoff

  type Cursor = string

  const CURSOR_START: Cursor := ""

  datatype JobKey = JobKey(organizationId: string, jobName: string)

  datatype JobStatus = Pending | Running | Completed | Partial | Failed

  datatype JobRow = JobRow(
    cursor: Cursor, nextDueAt: int, startedAt: Option<int>, finishedAt: Option<int>,
    status: JobStatus, failures: nat)

  datatype Config = Config(
    maxPagesPerRun: int, maxRunDuration: int, pageSize: int, partialRequeueDelay: int, jobInterval: int,
    retryBase: int, retryMax: int)

  predicate ValidConfig(c: Config) {
    && c.maxPagesPerRun >= 1 && c.maxRunDuration > 0 && c.pageSize >= 1
    && c.partialRequeueDelay > 0 && c.jobInterval > 0
    && Backoff.ValidBounds(c.retryBase, c.retryMax)
  }

  datatype PageResult = PageResult(nextCursor: Cursor, done: bool, itemsScanned: nat, itemsChanged: nat)

  /**
    A job's page: from the store it finds and the cursor it is given, the store it leaves and its
    answer. None is the page's own error; a page is atomic, so it then leaves the store alone.
  */
  type Pages<!S> = (S, Cursor) -> Option<(S, PageResult)>

  /**
    What the loop meets before and at its i-th page: the clock, cancellation, an error of the
    platform, and what other transactions did to the store since the previous page.
  */
  datatype Turn<!S> = Turn(clock: int, cancelled: bool, fault: bool, before: S -> S)

  /** Everything outside the runner that one call meets. */
  datatype World<!S> = World(
    lockFault: bool, startFault: bool, finishFault: bool,
    startedAt: int, loopStartedAt: int, finishedAt: int, turns: nat -> Turn<S>)

  datatype Outcome = SkippedLocked | OutcomeCompleted | OutcomePartial | OutcomeError

  datatype Report = Report(outcome: Outcome, pagesRun: nat, itemsScanned: nat, itemsChanged: nat)

  // --- one page loop -----------------------------------------------------------------------------

  datatype Ending = Drained | Bounded | Faulted

  /** A successful page: the cursor it was called with and its answer. */
  datatype Call = Call(cursor: Cursor, result: PageResult)

  /**
    One run of the loop: how it ended, the cursor it holds, the store it leaves, its successful pages
    in order, and the item totals.
  */
  datatype Run<S> = Run(
    ending: Ending, cursor: Cursor, store: S, served: seq<Call>, itemsScanned: nat, itemsChanged: nat)

  /** The loop stops before its i-th page. */
  predicate StopsBefore<S>(c: Config, w: World<S>, i: nat) {
    i >= c.maxPagesPerRun || w.turns(i).clock >= w.loopStartedAt + c.maxRunDuration || w.turns(i).cancelled
  }

  /** One call of the job: the store afterwards, and the answer unless it failed. */
  function Attempt<S>(page: Pages<S>, turn: Turn<S>, store: S, cursor: Cursor): (S, Option<PageResult>) {
    var found := turn.before(store);
    if turn.fault then (found, None)
    else
      match page(found, cursor)
      case None => (found, None)
      case Some((left, result)) => (left, Some(result))
  }

  /** The rest of the loop once `run.served` pages have succeeded. */
  function LoopFrom<S>(page: Pages<S>, c: Config, w: World<S>, run: Run<S>): Run<S>
    decreases c.maxPagesPerRun - |run.served|
  {
    var i := |run.served|;
    if StopsBefore(c, w, i) then run.(ending := Bounded)
    else
      var (left, answer) := Attempt(page, w.turns(i), run.store, run.cursor);
      match answer
      case None => run.(ending := Faulted, store := left)
      case Some(r) =>
        var next := Served(run, left, r);
        if r.done then next.(ending := Drained) else LoopFrom(page, c, w, next)
  }

  function Served<S>(run: Run<S>, left: S, r: PageResult): Run<S> {
    Run(run.ending, r.nextCursor, left, run.served + [Call(run.cursor, r)],
        run.itemsScanned + r.itemsScanned, run.itemsChanged + r.itemsChanged)
  }

  function Fresh<S>(store: S, start: Cursor): Run<S> {
    Run(Bounded, start, store, [], 0, 0)
  }

  function Loop<S>(page: Pages<S>, c: Config, w: World<S>, store: S, start: Cursor): Run<S> {
    LoopFrom(page, c, w, Fresh(store, start))
  }

  // --- the persisted row --------------------------------------------------------------------------

  function StartedRow(row: JobRow, at: int): JobRow {
    row.(status := Running, startedAt := Some(at))
  }

  /** The terminal write. `priorFailures` comes from the snapshot, the incremented counter from the row. */
  function FinishedRow(row: JobRow, ending: Ending, cursor: Cursor, c: Config, priorFailures: nat, at: int): JobRow
    requires ValidConfig(c)
  {
    match ending
    case Drained =>
      row.(cursor := CURSOR_START, status := Completed, finishedAt := Some(at), failures := 0,
           nextDueAt := at + c.jobInterval)
    case Bounded =>
      row.(cursor := cursor, status := Partial, finishedAt := Some(at), failures := 0,
           nextDueAt := at + c.partialRequeueDelay)
    case Faulted =>
      row.(status := Failed, finishedAt := Some(at), failures := row.failures + 1,
           nextDueAt := at + Backoff.CappedRun(c.retryBase, Backoff.Steps(priorFailures + 1), c.retryMax))
  }

  function OutcomeOf(e: Ending): Outcome {
    match e
    case Drained => OutcomeCompleted
    case Bounded => OutcomePartial
    case Faulted => OutcomeError
  }

  /** The runner, its scheduler rows and locks, and the store its jobs work on. */
  class JobRunner<!S> {
    const config: Config
    const registry: map<string, JobKey -> Pages<S>>
    var jobs: map<JobKey, JobRow>
    var locks: set<JobKey>
    var store: S

    constructor (config: Config, registry: map<string, JobKey -> Pages<S>>, store: S)
      requires ValidConfig(config)
      ensures this.config == config && this.registry == registry && jobs == map[] && locks == {}
      ensures this.store == store
    {
      this.config, this.registry, this.store := config, registry, store;
      jobs, locks := map[], {};
    }

    ghost predicate Valid()
      reads this
    {
      ValidConfig(config)
    }

    // --- store and lock ------------------------------------------------------------------------

    method TryLock(key: JobKey) returns (acquired: bool)
      modifies this`locks
      ensures acquired <==> key !in old(locks)
      ensures locks == old(locks) + {key}
    {
      acquired := key !in locks;
      locks := locks + {key};
    }

    method Release(key: JobKey)
      modifies this`locks
      ensures locks == old(locks) - {key}
    {
      locks := locks - {key};
    }

    method MarkJobStarted(key: JobKey, at: int) returns (ok: bool)
      modifies this`jobs
      ensures ok <==> key in old(jobs)
      ensures jobs == if ok then old(jobs)[key := StartedRow(old(jobs)[key], at)] else old(jobs)
    {
      ok := key in jobs;
      if ok {
        jobs := jobs[key := StartedRow(jobs[key], at)];
      }
    }

    method MarkJobCompleted(key: JobKey, cursor: Cursor, at: int, nextDueAt: int)
      requires key in jobs
      modifies this`jobs
      ensures jobs == old(jobs)[key := old(jobs)[key].(
                cursor := cursor, status := Completed, finishedAt := Some(at), failures := 0, nextDueAt := nextDueAt)]
    {
      jobs := jobs[key := jobs[key].(
        cursor := cursor, status := Completed, finishedAt := Some(at), failures := 0, nextDueAt := nextDueAt)];
    }

    method MarkJobPartial(key: JobKey, cursor: Cursor, at: int, nextDueAt: int)
      requires key in jobs && nextDueAt > at
      modifies this`jobs
      ensures jobs == old(jobs)[key := old(jobs)[key].(
                cursor := cursor, status := Partial, finishedAt := Some(at), failures := 0, nextDueAt := nextDueAt)]
    {
      jobs := jobs[key := jobs[key].(
        cursor := cursor, status := Partial, finishedAt := Some(at), failures := 0, nextDueAt := nextDueAt)];
    }

    method MarkJobFailed(key: JobKey, at: int, nextDueAt: int)
      requires key in jobs
      modifies this`jobs
      ensures jobs == old(jobs)[key := old(jobs)[key].(
                status := Failed, finishedAt := Some(at), failures := old(jobs)[key].failures + 1,
                nextDueAt := nextDueAt)]
    {
      jobs := jobs[key := jobs[key].(
        status := Failed, finishedAt := Some(at), failures := jobs[key].failures + 1, nextDueAt := nextDueAt)];
    }

    // --- the three endings -----------------------------------------------------------------------

    method FinishCompleted(key: JobKey, w: World<S>, report: Report) returns (report': Report, failed: bool)
      requires Valid() && key in jobs
      modifies this`jobs
      ensures failed == w.finishFault
      ensures jobs == if failed then old(jobs) else old(jobs)[key :=
                FinishedRow(old(jobs)[key], Drained, CURSOR_START, config, 0, w.finishedAt)]
      ensures report' == if failed then Report(OutcomeError, 0, 0, 0) else report.(outcome := OutcomeCompleted)
    {
      if w.finishFault {
        return Report(OutcomeError, 0, 0, 0), true;
      }
      MarkJobCompleted(key, CURSOR_START, w.finishedAt, w.finishedAt + config.jobInterval);
      return report.(outcome := OutcomeCompleted), false;
    }

    method FinishPartial(
        key: JobKey, cursor: Cursor, w: World<S>, report: Report)
      returns (report': Report, failed: bool)
      requires Valid() && key in jobs
      modifies this`jobs
      ensures failed == w.finishFault
      ensures jobs == if failed then old(jobs) else old(jobs)[key :=
                FinishedRow(old(jobs)[key], Bounded, cursor, config, 0, w.finishedAt)]
      ensures report' == if failed then Report(OutcomeError, 0, 0, 0) else report.(outcome := OutcomePartial)
    {
      if w.finishFault {
        return Report(OutcomeError, 0, 0, 0), true;
      }
      MarkJobPartial(key, cursor, w.finishedAt, w.finishedAt + config.partialRequeueDelay);
      return report.(outcome := OutcomePartial), false;
    }

    method FinishFailed(
        key: JobKey, priorFailures: nat, w: World<S>, report: Report)
      returns (report': Report, failed: bool)
      requires Valid() && key in jobs
      modifies this`jobs
      ensures failed == w.finishFault
      ensures jobs == if failed then old(jobs) else old(jobs)[key :=
                FinishedRow(old(jobs)[key], Faulted, CURSOR_START, config, priorFailures, w.finishedAt)]
      ensures report' == if failed then Report(OutcomeError, 0, 0, 0) else report.(outcome := OutcomeError)
    {
      if w.finishFault {
        return Report(OutcomeError, 0, 0, 0), true;
      }
      var delay := Backoff.BackoffFor(priorFailures + 1, config.retryBase, config.retryMax);
      MarkJobFailed(key, w.finishedAt, w.finishedAt + delay);
      return report.(outcome := OutcomeError), false;
    }

    // --- the loop ----------------------------------------------------------------------------------

    /**
      Pages from the snapshot's cursor until a bound, an error or the end. The advanced cursor lives
      in a local variable and reaches the row only through the terminal write; the pages' own effects
      are in the store as soon as each page commits.
    */
    method RunPages(key: JobKey, page: Pages<S>, snapshot: JobRow, w: World<S>)
      returns (report: Report, failed: bool, ghost run: Run<S>)
      requires Valid() && key in jobs
      modifies this`jobs, this`store
      ensures run == Loop(page, config, w, old(store), snapshot.cursor) && store == run.store
      ensures failed == w.finishFault
      ensures jobs == if failed then old(jobs) else old(jobs)[key :=
                FinishedRow(old(jobs)[key], run.ending, run.cursor, config, snapshot.failures, w.finishedAt)]
      ensures report == if failed then Report(OutcomeError, 0, 0, 0)
                        else Report(OutcomeOf(run.ending), |run.served|, run.itemsScanned, run.itemsChanged)
    {
      var cursor := snapshot.cursor;
      var deadline := w.loopStartedAt + config.maxRunDuration;
      report := Report(OutcomePartial, 0, 0, 0);
      run := Fresh(store, cursor);
      while true
        invariant LoopFrom(page, config, w, run) == Loop(page, config, w, old(store), snapshot.cursor)
        invariant cursor == run.cursor && store == run.store && run.ending == Bounded && jobs == old(jobs)
        invariant report == Report(OutcomePartial, |run.served|, run.itemsScanned, run.itemsChanged)
        decreases config.maxPagesPerRun - report.pagesRun
      {
        if report.pagesRun >= config.maxPagesPerRun {
          report, failed := FinishPartial(key, cursor, w, report);
          return;
        }
        var turn := w.turns(report.pagesRun);
        if !(turn.clock < deadline) {
          report, failed := FinishPartial(key, cursor, w, report);
          return;
        }
        if turn.cancelled {
          report, failed := FinishPartial(key, cursor, w, report);
          return;
        }
        var answer := CallJob(page, turn, cursor);
        if answer.None? {
          run := run.(ending := Faulted, store := store);
          report, failed := FinishFailed(key, snapshot.failures, w, report);
          return;
        }
        var result := answer.value;
        run := Served(run, store, result);
        cursor := result.nextCursor;
        report := Report(OutcomePartial, report.pagesRun + 1, report.itemsScanned + result.itemsScanned,
                         report.itemsChanged + result.itemsChanged);
        if result.done {
          run := run.(ending := Drained);
          report, failed := FinishCompleted(key, w, report);
          return;
        }
      }
    }

    /** One page of the job, on the store as other transactions left it. */
    method CallJob(page: Pages<S>, turn: Turn<S>, cursor: Cursor) returns (answer: Option<PageResult>)
      modifies this`store
      ensures (store, answer) == Attempt(page, turn, old(store), cursor)
    {
      store := turn.before(store);
      if turn.fault {
        return None;
      }
      var outcome := page(store, cursor);
      if outcome.None? {
        return None;
      }
      store := outcome.value.0;
      answer := Some(outcome.value.1);
    }

    /** One due row, as it was read before the lock: resolve, lock, mark started, run, release. */
    method RunDueJob(key: JobKey, snapshot: JobRow, w: World<S>) returns (report: Report, failed: bool)
      requires Valid()
      modifies this
      ensures locks == old(locks)
      ensures report.outcome == SkippedLocked <==>
        key.jobName in registry && !w.lockFault && key in old(locks)
      ensures !Executes(registry, old(jobs), old(locks), key, w) ==> jobs == old(jobs) && store == old(store)
      ensures Executes(registry, old(jobs), old(locks), key, w) ==>
        var started := StartedRow(old(jobs)[key], w.startedAt);
        var run := Loop(registry[key.jobName](key), config, w, old(store), snapshot.cursor);
        && failed == w.finishFault && store == run.store
        && jobs == old(jobs)[key := if w.finishFault then started
             else FinishedRow(started, run.ending, run.cursor, config, snapshot.failures, w.finishedAt)]
        && report == (if failed then Report(OutcomeError, 0, 0, 0)
                      else Report(OutcomeOf(run.ending), |run.served|, run.itemsScanned, run.itemsChanged))
        && (report.outcome == OutcomeCompleted <==> !failed && run.ending == Drained)
        && (report.outcome == OutcomePartial <==> !failed && run.ending == Bounded)
    {
      if key.jobName !in registry {
        return Report(OutcomeError, 0, 0, 0), true;
      }
      if w.lockFault {
        return Report(OutcomeError, 0, 0, 0), true;
      }
      var before := locks;
      var acquired := TryLock(key);
      if !acquired {
        assert locks == before;
        return Report(SkippedLocked, 0, 0, 0), false;
      }
      var started := false;
      if !w.startFault {
        started := MarkJobStarted(key, w.startedAt);
      }
      if !started {
        Release(key);
        assert locks == before;
        return Report(OutcomeError, 0, 0, 0), true;
      }
      ghost var run;
      report, failed, run := RunPages(key, registry[key.jobName](key), snapshot, w);
      Release(key);
      assert locks == before;
    }
  }

  /** The call gets as far as marking the row started. */
  predicate Executes<S>(registry: map<string, JobKey -> Pages<S>>, jobs: map<JobKey, JobRow>, locks: set<JobKey>,
                        key: JobKey, w: World<S>)
  {
    key.jobName in registry && !w.lockFault && key !in locks && !w.startFault && key in jobs
  }
}
