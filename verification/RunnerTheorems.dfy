/**
  What one run of the page loop does and what it records. The job works on a store it changes, so the
  same cursor may answer differently the second time.
*/
module RunnerTheorems {
  import opened Wrappers
  import opened Runner
  import Backoff

  /** Where a job stands: the store and the cursor of its next page. */
  datatype Place<S> = Place(store: S, cursor: Cursor)

  // --- pages in a row, whatever happens around them ------------------------------------------------

  /** The place after the first n pages; a failed page stays where it is. */
  function PlaceAt<S>(page: Pages<S>, turns: nat -> Turn<S>, start: Place<S>, n: nat): Place<S> {
    if n == 0 then start
    else
      var at := PlaceAt(page, turns, start, n - 1);
      var (left, answer) := Attempt(page, turns(n - 1), at.store, at.cursor);
      Place(left, if answer.Some? then answer.value.nextCursor else at.cursor)
  }

  /** The answer of the n-th page. */
  function AnswerAt<S>(page: Pages<S>, turns: nat -> Turn<S>, start: Place<S>, n: nat): Option<PageResult> {
    var at := PlaceAt(page, turns, start, n);
    Attempt(page, turns(n), at.store, at.cursor).1
  }

  /** The store the n-th page finds. */
  function FoundAt<S>(page: Pages<S>, turns: nat -> Turn<S>, start: Place<S>, n: nat): S {
    turns(n).before(PlaceAt(page, turns, start, n).store)
  }

  /** The first n pages all succeed and none is the last. */
  ghost predicate GoesOn<S>(page: Pages<S>, turns: nat -> Turn<S>, start: Place<S>, n: nat) {
    forall k: nat | k < n ::
      AnswerAt(page, turns, start, k).Some? && !AnswerAt(page, turns, start, k).value.done
  }

  /** The calls are the first pages, in order, with their answers. */
  ghost predicate AreCalls<S>(page: Pages<S>, turns: nat -> Turn<S>, start: Place<S>, calls: seq<Call>) {
    forall k: nat | k < |calls| ::
      calls[k].cursor == PlaceAt(page, turns, start, k).cursor
      && AnswerAt(page, turns, start, k) == Some(calls[k].result)
  }

  // --- one run ------------------------------------------------------------------------------------------

  function Scanned(served: seq<Call>): nat {
    if served == [] then 0 else Scanned(served[..|served| - 1]) + served[|served| - 1].result.itemsScanned
  }

  function Changed(served: seq<Call>): nat {
    if served == [] then 0 else Changed(served[..|served| - 1]) + served[|served| - 1].result.itemsChanged
  }

  /** The run stands after its served pages, which are the first ones from start, in order. */
  ghost predicate Stands<S>(page: Pages<S>, w: World<S>, start: Place<S>, run: Run<S>) {
    var n := |run.served|;
    && Place(run.store, run.cursor) == PlaceAt(page, w.turns, start, n)
    && AreCalls(page, w.turns, start, run.served)
    && run.itemsScanned == Scanned(run.served) && run.itemsChanged == Changed(run.served)
  }

  /** The loop meets no bound before its n-th page and every page before it succeeds without draining. */
  ghost predicate Reaches<S>(page: Pages<S>, c: Config, w: World<S>, start: Place<S>, n: nat) {
    (forall i: nat | i <= n :: !StopsBefore(c, w, i)) && GoesOn(page, w.turns, start, n)
  }

  /** How a run ended, from the bounds, the faults and the answers: exactly one of the three applies. */
  ghost predicate EndsAs<S>(page: Pages<S>, c: Config, w: World<S>, start: Place<S>, run: Run<S>) {
    var n := |run.served|;
    match run.ending
    case Drained =>
      && Stands(page, w, start, run) && n >= 1 && Reaches(page, c, w, start, n - 1)
      && run.served[n - 1].result.done
    case Bounded =>
      && Stands(page, w, start, run) && (n > 0 ==> Reaches(page, c, w, start, n - 1))
      && GoesOn(page, w.turns, start, n) && StopsBefore(c, w, n)
    case Faulted =>
      && Stands(page, w, start, run.(store := PlaceAt(page, w.turns, start, n).store))
      && Place(run.store, run.cursor) == PlaceAt(page, w.turns, start, n + 1)
      && Reaches(page, c, w, start, n) && AnswerAt(page, w.turns, start, n).None?
  }

  lemma {:induction false} AttemptNext<S>(page: Pages<S>, turns: nat -> Turn<S>, start: Place<S>, n: nat, n': nat)
    requires n' == n + 1
    ensures var at := PlaceAt(page, turns, start, n);
      var (left, answer) := Attempt(page, turns(n), at.store, at.cursor);
      && answer == AnswerAt(page, turns, start, n)
      && PlaceAt(page, turns, start, n') == Place(left, if answer.Some? then answer.value.nextCursor else at.cursor)
  {
  }

  lemma {:induction false} ServedStands<S>(
      page: Pages<S>, w: World<S>, start: Place<S>, run: Run<S>, left: S, r: PageResult)
    requires Stands(page, w, start, run)
    requires Attempt(page, w.turns(|run.served|), run.store, run.cursor) == (left, Some(r))
    ensures Stands(page, w, start, Served(run, left, r))
  {
    var next, n := Served(run, left, r), |run.served|;
    AttemptNext(page, w.turns, start, n, n + 1);
    assert next.served[..n] == run.served;
    forall k: nat | k < |next.served|
      ensures next.served[k].cursor == PlaceAt(page, w.turns, start, k).cursor
              && AnswerAt(page, w.turns, start, k) == Some(next.served[k].result)
    {
      if k < n { assert next.served[k] == run.served[k]; }
    }
  }

  /** The loop has served these pages and met no bound before any of them. */
  ghost predicate UnderWay<S>(page: Pages<S>, c: Config, w: World<S>, start: Place<S>, run: Run<S>) {
    && Stands(page, w, start, run) && GoesOn(page, w.turns, start, |run.served|)
    && forall i: nat | i < |run.served| :: !StopsBefore(c, w, i)
  }

  lemma {:induction false} StopMeans<S>(page: Pages<S>, c: Config, w: World<S>, start: Place<S>, run: Run<S>)
    requires UnderWay(page, c, w, start, run) && StopsBefore(c, w, |run.served|)
    ensures EndsAs(page, c, w, start, run.(ending := Bounded))
  {
  }

  lemma {:induction false} FaultMeans<S>(
      page: Pages<S>, c: Config, w: World<S>, start: Place<S>, run: Run<S>, left: S)
    requires UnderWay(page, c, w, start, run) && !StopsBefore(c, w, |run.served|)
    requires Attempt(page, w.turns(|run.served|), run.store, run.cursor) == (left, None)
    ensures EndsAs(page, c, w, start, run.(ending := Faulted, store := left))
  {
    AttemptNext(page, w.turns, start, |run.served|, |run.served| + 1);
  }

  lemma {:induction false} PageMeans<S>(
      page: Pages<S>, c: Config, w: World<S>, start: Place<S>, run: Run<S>, left: S, r: PageResult)
    requires UnderWay(page, c, w, start, run) && !StopsBefore(c, w, |run.served|)
    requires Attempt(page, w.turns(|run.served|), run.store, run.cursor) == (left, Some(r))
    ensures r.done ==> EndsAs(page, c, w, start, Served(run, left, r).(ending := Drained))
    ensures !r.done ==> UnderWay(page, c, w, start, Served(run, left, r))
  {
    ServedStands(page, w, start, run, left, r);
    AttemptNext(page, w.turns, start, |run.served|, |run.served| + 1);
  }

  lemma {:induction false} LoopFromMeans<S>(
      page: Pages<S>, c: Config, w: World<S>, start: Place<S>, run: Run<S>, last: Run<S>)
    requires ValidConfig(c) && UnderWay(page, c, w, start, run) && |run.served| <= c.maxPagesPerRun
    requires last == LoopFrom(page, c, w, run)
    ensures EndsAs(page, c, w, start, last) && |last.served| <= c.maxPagesPerRun
    decreases c.maxPagesPerRun - |run.served|
  {
    var i := |run.served|;
    if StopsBefore(c, w, i) {
      StopMeans(page, c, w, start, run);
    } else {
      var (left, answer) := Attempt(page, w.turns(i), run.store, run.cursor);
      if answer.None? {
        FaultMeans(page, c, w, start, run, left);
      } else {
        var next := Served(run, left, answer.value);
        PageMeans(page, c, w, start, run, left, answer.value);
        if !answer.value.done {
          LoopFromMeans(page, c, w, start, next, last);
        }
      }
    }
  }

  /**
    A run serves at most MaxPagesPerRun pages, one after the other from its starting cursor. It is
    completed iff a page reported the end, failed iff a page failed, and partial iff a bound stopped it
    between pages; its item totals are those of the pages it served.
  */
  lemma {:induction false} RunMeans<S>(page: Pages<S>, c: Config, w: World<S>, store: S, start: Cursor)
    requires ValidConfig(c)
    ensures EndsAs(page, c, w, Place(store, start), Loop(page, c, w, store, start))
    ensures |Loop(page, c, w, store, start).served| <= c.maxPagesPerRun
    ensures StaysInBounds(c, w, Loop(page, c, w, store, start))
  {
    var run := Loop(page, c, w, store, start);
    LoopFromMeans(page, c, w, Place(store, start), Fresh(store, start), run);
    InBounds(page, c, w, Place(store, start), run);
  }

  lemma {:induction false} InBounds<S>(page: Pages<S>, c: Config, w: World<S>, start: Place<S>, run: Run<S>)
    requires EndsAs(page, c, w, start, run) && |run.served| <= c.maxPagesPerRun
    ensures StaysInBounds(c, w, run)
  {
    var n := |run.served|;
    forall i | 0 <= i < n ensures w.turns(i).clock - w.loopStartedAt < c.maxRunDuration && !w.turns(i).cancelled {
      assert !StopsBefore(c, w, i);
    }
    if run.ending == Faulted { assert !StopsBefore(c, w, n); }
  }

  /** A page is only begun within the time and uncancelled; a run that stops short has met one of the bounds. */
  ghost predicate StaysInBounds<S>(c: Config, w: World<S>, run: Run<S>) {
    var n := |run.served|;
    && (forall i | 0 <= i < n :: w.turns(i).clock - w.loopStartedAt < c.maxRunDuration && !w.turns(i).cancelled)
    && (run.ending == Bounded ==>
          || n == c.maxPagesPerRun || w.turns(n).clock - w.loopStartedAt >= c.maxRunDuration || w.turns(n).cancelled)
    && (run.ending == Faulted ==>
          && n < c.maxPagesPerRun && w.turns(n).clock - w.loopStartedAt < c.maxRunDuration && !w.turns(n).cancelled)
  }

  // --- what is persisted -----------------------------------------------------------------------------------

  /** What one run meets: its world, and the store as it finds it. */
  datatype Session<!S> = Session(world: World<S>, store: S)

  function RunOf<S>(page: Pages<S>, c: Config, se: Session<S>, row: JobRow): Run<S> {
    Loop(page, c, se.world, se.store, row.cursor)
  }

  /** The row a run leaves when its snapshot is the stored row; its terminal write may fail. */
  function RowAfterRun<S>(page: Pages<S>, c: Config, se: Session<S>, row: JobRow): JobRow
    requires ValidConfig(c)
  {
    var run, started := RunOf(page, c, se, row), StartedRow(row, se.world.startedAt);
    if se.world.finishFault then started
    else FinishedRow(started, run.ending, run.cursor, c, row.failures, se.world.finishedAt)
  }

  /** The run reached a terminal write that stores its cursor, and the write succeeded. */
  predicate Recorded<S>(w: World<S>, run: Run<S>) {
    !w.finishFault && run.ending != Faulted
  }

  /** The row after one run: where it continues, and its failure count. */
  lemma {:induction false} RowMoves<S>(page: Pages<S>, c: Config, se: Session<S>, row: JobRow, run: Run<S>)
    requires ValidConfig(c) && run == RunOf(page, c, se, row)
    ensures var next := RowAfterRun(page, c, se, row);
      && (!Recorded(se.world, run) ==> next.cursor == row.cursor)
      && (Recorded(se.world, run) ==> next.failures == 0)
      && (Recorded(se.world, run) && run.ending == Bounded ==> next.cursor == run.cursor)
      && (Recorded(se.world, run) && run.ending == Drained ==> next.cursor == CURSOR_START)
  {
  }

  /** The stored cursor if every successful page wrote its own, and the last one the start cursor. */
  function PerPageFrom<S>(page: Pages<S>, c: Config, w: World<S>, run: Run<S>, stored: Cursor): Cursor
    decreases c.maxPagesPerRun - |run.served|
  {
    if StopsBefore(c, w, |run.served|) then stored
    else
      var (left, answer) := Attempt(page, w.turns(|run.served|), run.store, run.cursor);
      match answer
      case None => stored
      case Some(r) =>
        if r.done then CURSOR_START else PerPageFrom(page, c, w, Served(run, left, r), r.nextCursor)
  }

  function PerPageCursor<S>(page: Pages<S>, c: Config, se: Session<S>, row: JobRow): Cursor {
    PerPageFrom(page, c, se.world, Fresh(se.store, row.cursor), row.cursor)
  }

  lemma {:induction false} PerPageIsHeld<S>(page: Pages<S>, c: Config, w: World<S>, run: Run<S>)
    ensures var last := LoopFrom(page, c, w, run);
      PerPageFrom(page, c, w, run, run.cursor) == if last.ending == Drained then CURSOR_START else last.cursor
    decreases c.maxPagesPerRun - |run.served|
  {
    if !StopsBefore(c, w, |run.served|) {
      var (left, answer) := Attempt(page, w.turns(|run.served|), run.store, run.cursor);
      if answer.Some? && !answer.value.done {
        PerPageIsHeld(page, c, w, Served(run, left, answer.value));
      }
    }
  }

  lemma {:induction false} CallAnswered<S>(
      page: Pages<S>, turns: nat -> Turn<S>, start: Place<S>, calls: seq<Call>, k: nat)
    requires AreCalls(page, turns, start, calls) && k < |calls|
    ensures AnswerAt(page, turns, start, k) == Some(calls[k].result)
  {
    assert calls[k].cursor == PlaceAt(page, turns, start, k).cursor;
  }

  /** The n-th page is reached and fails. */
  ghost predicate FailsAt<S>(page: Pages<S>, c: Config, w: World<S>, start: Place<S>, n: nat) {
    !StopsBefore(c, w, n) && AnswerAt(page, w.turns, start, n).None?
  }

  ghost predicate DrainsAt<S>(page: Pages<S>, c: Config, w: World<S>, start: Place<S>, n: nat) {
    var answer := AnswerAt(page, w.turns, start, n);
    !StopsBefore(c, w, n) && answer.Some? && answer.value.done
  }

  /** The loop ends at its n-th turn: a bound stops it there, or the page fails, or it reports the end. */
  ghost predicate HaltsAt<S>(page: Pages<S>, c: Config, w: World<S>, start: Place<S>, n: nat) {
    && (forall i: nat | i < n :: !StopsBefore(c, w, i)) && GoesOn(page, w.turns, start, n)
    && (StopsBefore(c, w, n) || FailsAt(page, c, w, start, n) || DrainsAt(page, c, w, start, n))
  }

  /** The cursor its pages have reached by then. */
  ghost function ReachedCursor<S>(page: Pages<S>, c: Config, w: World<S>, start: Place<S>, n: nat): Cursor {
    if DrainsAt(page, c, w, start, n) then CURSOR_START else PlaceAt(page, w.turns, start, n).cursor
  }

  /** It ends where its pages have moved the cursor, with a page or the terminal write failing. */
  ghost predicate LosesProgress<S>(page: Pages<S>, c: Config, w: World<S>, start: Place<S>, n: nat) {
    && HaltsAt(page, c, w, start, n) && (w.finishFault || FailsAt(page, c, w, start, n))
    && ReachedCursor(page, c, w, start, n) != start.cursor
  }

  lemma {:induction false} HaltsOnce<S>(page: Pages<S>, c: Config, w: World<S>, start: Place<S>, m: nat, n: nat)
    requires HaltsAt(page, c, w, start, m) && HaltsAt(page, c, w, start, n)
    ensures m >= n
  {
  }

  /** The run ends at the one turn at which the loop halts. */
  lemma {:induction false} RunHalts<S>(
      page: Pages<S>, c: Config, w: World<S>, start: Place<S>, run: Run<S>, n: nat)
    requires EndsAs(page, c, w, start, run) && HaltsAt(page, c, w, start, n)
    ensures |run.served| == if DrainsAt(page, c, w, start, n) then n + 1 else n
    ensures run.ending == Drained <==> DrainsAt(page, c, w, start, n)
    ensures run.ending == Faulted <==> FailsAt(page, c, w, start, n)
    ensures AreCalls(page, w.turns, start, run.served)
    ensures Place(run.store, run.cursor) == PlaceAt(page, w.turns, start, if StopsBefore(c, w, n) then n else n + 1)
  {
    var m := RunHaltsSomewhere(page, c, w, start, run);
    HaltsOnce(page, c, w, start, m, n);
    HaltsOnce(page, c, w, start, n, m);
  }

  lemma {:induction false} RunHaltsSomewhere<S>(
      page: Pages<S>, c: Config, w: World<S>, start: Place<S>, run: Run<S>)
    returns (m: nat)
    requires EndsAs(page, c, w, start, run)
    ensures HaltsAt(page, c, w, start, m) && AreCalls(page, w.turns, start, run.served)
    ensures |run.served| == if run.ending == Drained then m + 1 else m
    ensures match run.ending
      case Drained => DrainsAt(page, c, w, start, m)
      case Bounded => StopsBefore(c, w, m)
      case Faulted => FailsAt(page, c, w, start, m)
    ensures Place(run.store, run.cursor) == PlaceAt(page, w.turns, start, if StopsBefore(c, w, m) then m else m + 1)
  {
    m := |run.served|;
    match run.ending {
      case Drained =>
        m := m - 1;
        CallAnswered(page, w.turns, start, run.served, m);
      case Bounded =>
        forall i: nat | i < m ensures !StopsBefore(c, w, i) {
        }
      case Faulted =>
    }
  }

  /**
    Writing the cursor at the run boundary is not the same as writing it per page. The stored cursors
    differ iff the loop ends where its pages have moved the cursor and a page fails there or the
    terminal write does.
  */
  lemma {:induction false} BoundaryPersistenceExact<S>(page: Pages<S>, c: Config, se: Session<S>, row: JobRow)
    requires ValidConfig(c)
    ensures RowAfterRun(page, c, se, row).cursor != PerPageCursor(page, c, se, row) <==>
      exists n: nat :: LosesProgress(page, c, se.world, Place(se.store, row.cursor), n)
  {
    var start, run := Place(se.store, row.cursor), RunOf(page, c, se, row);
    RunMeans(page, c, se.world, se.store, row.cursor);
    PerPageIsHeld(page, c, se.world, Fresh(se.store, row.cursor));
    RowMoves(page, c, se, row, run);
    var m := RunHaltsSomewhere(page, c, se.world, start, run);
    ReachedIsPerPage(page, c, se, row, run, m);
    if n: nat :| LosesProgress(page, c, se.world, start, n) {
      HaltsOnce(page, c, se.world, start, m, n);
      HaltsOnce(page, c, se.world, start, n, m);
    }
    if RowAfterRun(page, c, se, row).cursor != PerPageCursor(page, c, se, row) {
      assert LosesProgress(page, c, se.world, start, m);
    }
  }

  lemma {:induction false} ReachedIsPerPage<S>(
      page: Pages<S>, c: Config, se: Session<S>, row: JobRow, run: Run<S>, m: nat)
    requires ValidConfig(c) && run == RunOf(page, c, se, row)
    requires HaltsAt(page, c, se.world, Place(se.store, row.cursor), m)
    requires EndsAs(page, c, se.world, Place(se.store, row.cursor), run)
    ensures ReachedCursor(page, c, se.world, Place(se.store, row.cursor), m) == PerPageCursor(page, c, se, row)
    ensures run.ending == Faulted <==> FailsAt(page, c, se.world, Place(se.store, row.cursor), m)
  {
    var start := Place(se.store, row.cursor);
    PerPageIsHeld(page, c, se.world, Fresh(se.store, row.cursor));
    RunHalts(page, c, se.world, start, run, m);
    if FailsAt(page, c, se.world, start, m) { AttemptNext(page, se.world.turns, start, m, m + 1); }
  }

  /** A run of two pages that serves one and then fails: its effect stays, its cursor is not recorded. */
  lemma {:induction false} FailedRunForgetsItsPages()
    returns (page: Pages<int>, c: Config, se: Session<int>, row: JobRow)
    ensures ValidConfig(c) && RunOf(page, c, se, row).ending == Faulted && |RunOf(page, c, se, row).served| == 1
    ensures RunOf(page, c, se, row).store != se.store
    ensures RowAfterRun(page, c, se, row).cursor != PerPageCursor(page, c, se, row)
  {
    page := (s: int, cursor: Cursor) => Some((s + 1, PageResult(cursor + "x", false, 1, 1)));
    c := Config(2, 10, 1, 1, 1, 1, 1);
    var w := World(false, false, false, 0, 0, 5, (i: nat) => Turn(0, false, i == 1, (s: int) => s));
    se, row := Session(w, 0), JobRow(CURSOR_START, 0, None, None, Pending, 0);
    var start := Fresh(0, CURSOR_START);
    var next := Served(start, 1, PageResult("x", false, 1, 1));
    assert CURSOR_START + "x" == "x";
    assert w.turns(0).before(0) == 0 && page(0, CURSOR_START) == Some((1, PageResult("x", false, 1, 1)));
    assert w.turns(1).before(1) == 1;
    assert Attempt(page, w.turns(0), 0, CURSOR_START) == (1, Some(PageResult("x", false, 1, 1)));
    assert LoopFrom(page, c, w, next) == next.(ending := Faulted, store := 1);
    assert LoopFrom(page, c, w, start) == LoopFrom(page, c, w, next);
    PerPageIsHeld(page, c, w, start);
  }

  /**
    A run that loses its progress, by a failed page or a failed terminal write, leaves the row at the cursor
    it started from, while the store keeps the effects of every page it served.
  */
  lemma {:induction false} LostRunKeepsEffects<S>(page: Pages<S>, c: Config, se: Session<S>, row: JobRow, n: nat)
    requires ValidConfig(c) && HaltsAt(page, c, se.world, Place(se.store, row.cursor), n)
    requires se.world.finishFault || FailsAt(page, c, se.world, Place(se.store, row.cursor), n)
    ensures var start, run := Place(se.store, row.cursor), RunOf(page, c, se, row);
      && RowAfterRun(page, c, se, row).cursor == row.cursor
      && AreCalls(page, se.world.turns, start, run.served)
      && |run.served| == (if DrainsAt(page, c, se.world, start, n) then n + 1 else n)
      && run.store == (if FailsAt(page, c, se.world, start, n) then FoundAt(page, se.world.turns, start, n)
                       else PlaceAt(page, se.world.turns, start, |run.served|).store)
  {
    var start, run := Place(se.store, row.cursor), RunOf(page, c, se, row);
    RunMeans(page, c, se.world, se.store, row.cursor);
    RunHalts(page, c, se.world, start, run, n);
    RowMoves(page, c, se, row, run);
    AttemptNext(page, se.world.turns, start, n, n + 1);
  }

  // --- the terminal write -------------------------------------------------------------------------------------

  /**
    The row after a terminal write, field by field, also when the snapshot and the stored row differ: the
    failure counter goes up from the stored row, the backoff goes by the snapshot, a failure keeps the stored
    cursor, and only the start mark is never touched.
  */
  lemma {:induction false} TerminalWriteExact(
      row: JobRow, ending: Ending, cursor: Cursor, c: Config, priorFailures: nat, at: int)
    requires ValidConfig(c) && Backoff.NeverOverflows(c.retryBase, c.retryMax)
    ensures var stored := FinishedRow(row, ending, cursor, c, priorFailures, at);
      && stored.finishedAt == Some(at) && stored.startedAt == row.startedAt
      && match ending
         case Drained =>
           && stored.cursor == "" && stored.status == Completed && stored.failures == 0
           && stored.nextDueAt == at + c.jobInterval
         case Bounded =>
           && stored.cursor == cursor && stored.status == Partial && stored.failures == 0
           && stored.nextDueAt == at + c.partialRequeueDelay
         case Faulted =>
           && stored.cursor == row.cursor && stored.status == Failed && stored.failures == row.failures + 1
           && stored.nextDueAt == at + Backoff.Documented(c.retryBase, priorFailures + 1, c.retryMax)
  {
    Backoff.BackoffExact(c.retryBase, c.retryMax);
  }

  // --- re-arming ----------------------------------------------------------------------------------------------

  /**
    A completed run is due again after the job interval, a partial one after the requeue delay, a failed one
    after the documented backoff of the stored failures, when backoff cannot overflow, each counted from the
    end of the run and strictly later than it. A failed terminal write leaves the row running and due as it was.
  */
  lemma {:induction false} ReArmedLater<S>(page: Pages<S>, c: Config, se: Session<S>, row: JobRow)
    requires ValidConfig(c) && Backoff.NeverOverflows(c.retryBase, c.retryMax)
    ensures var run, stored := RunOf(page, c, se, row), RowAfterRun(page, c, se, row);
      var at := se.world.finishedAt;
      && stored.startedAt == Some(se.world.startedAt)
      && if se.world.finishFault then
           && stored.nextDueAt == row.nextDueAt && stored.failures == row.failures && stored.status == Running
           && stored.finishedAt == row.finishedAt
         else
           && stored.finishedAt == Some(at) && stored.nextDueAt > at
           && match run.ending
              case Drained =>
                stored.status == Completed && stored.nextDueAt == at + c.jobInterval && stored.failures == 0
              case Bounded =>
                stored.status == Partial && stored.nextDueAt == at + c.partialRequeueDelay && stored.failures == 0
              case Faulted =>
                && stored.status == Failed && c.retryBase <= stored.nextDueAt - at <= c.retryMax
                && stored.failures == row.failures + 1
                && stored.nextDueAt - at == Backoff.Documented(c.retryBase, stored.failures, c.retryMax)
  {
    Backoff.BackoffExact(c.retryBase, c.retryMax);
    Backoff.DelayMonotone(c.retryBase, c.retryMax, row.failures + 1, row.failures + 1);
  }
}
