/**
  What a run owes to its snapshot. The row is read before the lock is taken, so another process can
  move it in between: when a run nevertheless continues the stored row, what follows if all do, and
  where a job resumes after a run that never got to its terminal write.
*/
module Snapshots {
  import opened Wrappers
  import opened Runner
  import opened RunnerTheorems
  import opened RunnerChains
  import opened SchedulerProtocol

  // --- the row of a locked job stands still -------------------------------------------------------

  /** The process holds this key's lock and has not ended its run. */
  predicate Working(ph: Phase, key: JobKey) {
    (ph.Locked? || ph.Executing?) && ph.key == key
  }

  predicate TakesKey<S>(s: System<S>, step: Step<S>, key: JobKey) {
    step.TakeLock? && PhaseOf(s, step.p).Chosen? && PhaseOf(s, step.p).key == key
  }

  /** The step ends a run of the key with a successful terminal write. */
  predicate Finishes<S>(s: System<S>, step: Step<S>, key: JobKey) {
    step.Finish? && PhaseOf(s, step.p).Executing? && PhaseOf(s, step.p).key == key
  }

  /** Rows that differ at most in the marks of a started run. */
  predicate SameBut(a: JobRow, b: JobRow) {
    a.cursor == b.cursor && a.failures == b.failures && a.nextDueAt == b.nextDueAt && a.finishedAt == b.finishedAt
  }

  lemma {:induction false} OneWorks<S>(s: System<S>, p: Proc, q: Proc, key: JobKey)
    requires LocksHeld(s) && Working(PhaseOf(s, p), key) && Working(PhaseOf(s, q), key)
    ensures p == q
  {
    assert Holding(PhaseOf(s, p)) && Holding(PhaseOf(s, q));
  }

  lemma {:induction false} StepLeavesWorkedRow<S>(
      c: Config, pages: JobKey -> Pages<S>, s: System<S>, step: Step<S>, p: Proc, key: JobKey)
    requires ValidConfig(c) && Inv(s) && Enabled(s, step) && key in s.jobs
    requires Working(PhaseOf(s, p), key) && Working(PhaseOf(Apply(c, pages, s, step), p), key)
    ensures key in Apply(c, pages, s, step).jobs && SameBut(Apply(c, pages, s, step).jobs[key], s.jobs[key])
    ensures PhaseOf(Apply(c, pages, s, step), p).snapshot == PhaseOf(s, p).snapshot
  {
    if Finishes(s, step, key) {
      OneWorks(s, p, step.p, key);
    }
  }

  lemma {:induction false} KeysStay<S>(
      c: Config, pages: JobKey -> Pages<S>, states: seq<System<S>>, steps: seq<Step<S>>, key: JobKey, i: nat, k: nat)
    requires ValidConfig(c) && IsRun(c, pages, states, steps) && i <= k < |states| && key in states[i].jobs
    ensures key in states[k].jobs
    decreases k
  {
    if i < k {
      KeysStay(c, pages, states, steps, key, i, k - 1);
      assert states[k - 1 + 1] == Apply(c, pages, states[k - 1], steps[k - 1]);
    }
  }

  /** The process takes the key's lock at the i-th step and is at work up to the k-th. */
  ghost predicate WorksFrom<S>(
      states: seq<System<S>>, steps: seq<Step<S>>, p: Proc, key: JobKey, i: nat, k: nat)
    requires |states| == |steps| + 1 && i < k < |states|
  {
    && key in states[i].jobs && steps[i] == TakeLock(p) && TakesKey(states[i], steps[i], key)
    && forall m | i < m <= k :: Working(PhaseOf(states[m], p), key)
  }

  /**
    From the lock to the last moment before the terminal write nobody moves the row's cursor, failure
    count or times: only the holder writes them, and it writes them last.
  */
  lemma {:induction false} LockedRowStandsStill<S>(
      c: Config, pages: JobKey -> Pages<S>, states: seq<System<S>>, steps: seq<Step<S>>, p: Proc, key: JobKey,
      i: nat, k: nat)
    requires ValidConfig(c) && IsRun(c, pages, states, steps) && Initial(states[0])
    requires i < k < |states| && WorksFrom(states, steps, p, key, i, k)
    ensures key in states[k].jobs && SameBut(states[k].jobs[key], states[i].jobs[key])
    ensures Working(PhaseOf(states[k], p), key) && PhaseOf(states[k], p).snapshot == PhaseOf(states[i], p).snapshot
    decreases k
  {
    var n := k - 1;
    assert states[n + 1] == Apply(c, pages, states[n], steps[n]);
    if i < n {
      LockedRowStandsStill(c, pages, states, steps, p, key, i, n);
      RunKeeps(c, pages, states, steps, n);
      StepLeavesWorkedRow(c, pages, states[n], steps[n], p, key);
    }
  }

  // --- one run -----------------------------------------------------------------------------------------

  /** The row a run from this place in the drain leaves, written over the stored row. */
  function Finishing<S>(page: Pages<S>, c: Config, w: World<S>, found: S, from: JobRow, stored: JobRow): JobRow
    requires ValidConfig(c)
  {
    var run := Loop(page, c, w, found, from.cursor);
    FinishedRow(stored, run.ending, run.cursor, c, from.failures, w.finishedAt)
  }

  lemma {:induction false} LoopFromStart<S>(page: Pages<S>, c: Config, w: World<S>, run: Run<S>)
    requires |run.served| > 0
    ensures LoopFrom(page, c, w, run).served != [] && LoopFrom(page, c, w, run).served[0] == run.served[0]
    decreases c.maxPagesPerRun - |run.served|
  {
    if !StopsBefore(c, w, |run.served|) {
      var (left, answer) := Attempt(page, w.turns(|run.served|), run.store, run.cursor);
      if answer.Some? && !answer.value.done {
        LoopFromStart(page, c, w, Served(run, left, answer.value));
      }
    }
  }

  /** A run shows the cursor it started from. */
  lemma {:induction false} RunShowsStart<S>(page: Pages<S>, c: Config, w: World<S>, found: S, start: Cursor)
    ensures var run := Loop(page, c, w, found, start);
      start == if run.served == [] then run.cursor else run.served[0].cursor
  {
    var run := Fresh(found, start);
    if !StopsBefore(c, w, 0) {
      var (left, answer) := Attempt(page, w.turns(0), found, start);
      if answer.Some? && !answer.value.done {
        LoopFromStart(page, c, w, Served(run, left, answer.value));
      }
    }
  }

  /** Cancelled before its first page. */
  function CancelledAtOnce<S>(): World<S> {
    World(false, false, false, 0, 0, 0, (i: nat) => Turn(0, true, false, (s: S) => s))
  }

  /**
    A run does what a run from the stored row would have done iff its snapshot has the stored cursor;
    and the stored cursor ends up where that run would have left it, in every world, iff it has.
  */
  lemma {:induction false} ContinuesStoredRow<S(!new)>(
      page: Pages<S>, c: Config, w: World<S>, found: S, snapshot: JobRow, stored: JobRow)
    requires ValidConfig(c)
    ensures Loop(page, c, w, found, snapshot.cursor) == Loop(page, c, w, found, stored.cursor)
      <==> snapshot.cursor == stored.cursor
    ensures (forall v: World<S>, t: S ::
               Finishing(page, c, v, t, snapshot, stored).cursor == Finishing(page, c, v, t, stored, stored).cursor)
      <==> snapshot.cursor == stored.cursor
  {
    RunShowsStart(page, c, w, found, snapshot.cursor);
    RunShowsStart(page, c, w, found, stored.cursor);
    var v := CancelledAtOnce<S>();
    assert Finishing(page, c, v, found, snapshot, stored).cursor == snapshot.cursor;
    assert Finishing(page, c, v, found, stored, stored).cursor == stored.cursor;
  }

  /** The snapshot says what the stored row says about where to continue. */
  predicate FreshSnapshot<S>(s: System<S>, p: Proc, key: JobKey) {
    var ph := PhaseOf(s, p);
    && (ph.Chosen? || ph.Locked? || ph.Executing?) && ph.key == key && key in s.jobs
    && ph.snapshot.cursor == s.jobs[key].cursor && ph.snapshot.failures == s.jobs[key].failures
  }

  /**
    A terminal write leaves the row, and logs the run, that a start from the row stored when the lock
    was taken would have, if the snapshot had that row's cursor and failures; and the logged run is
    that run only if it had that cursor.
  */
  lemma {:induction false} FinishContinuesLockedRow<S(!new)>(
      c: Config, pages: JobKey -> Pages<S>, states: seq<System<S>>, steps: seq<Step<S>>, p: Proc, key: JobKey,
      i: nat, k: nat)
    requires ValidConfig(c) && IsRun(c, pages, states, steps) && Initial(states[0])
    requires i < k < |steps| && WorksFrom(states, steps, p, key, i, k)
    requires steps[k].Finish? && steps[k].p == p
    ensures var w, found, locked := steps[k].w, steps[k].found, states[i].jobs[key];
      var run := Loop(pages(key), c, w, found, locked.cursor);
      && key in states[k].jobs && key in states[k + 1].jobs
      && (FreshSnapshot(states[i], p, key) ==>
            states[k + 1].jobs[key] == Finishing(pages(key), c, w, found, locked, states[k].jobs[key]))
      && (states[k + 1].log == states[k].log + [EndMark(PhaseOf(states[k], p).run, key, run)]
          <==> PhaseOf(states[i], p).snapshot.cursor == locked.cursor)
  {
    LockedRowStandsStill(c, pages, states, steps, p, key, i, k);
    assert states[k + 1] == Apply(c, pages, states[k], steps[k]);
    var ph, w, found := PhaseOf(states[k], p), steps[k].w, steps[k].found;
    ContinuesStoredRow(pages(key), c, w, found, ph.snapshot, states[i].jobs[key]);
    var done := Loop(pages(key), c, w, found, ph.snapshot.cursor);
    var run := Loop(pages(key), c, w, found, states[i].jobs[key].cursor);
    assert states[k + 1].log == states[k].log + [EndMark(ph.run, key, done)];
    assert states[k + 1].log[|states[k].log|] == EndMark(ph.run, key, done);
    assert (states[k].log + [EndMark(ph.run, key, run)])[|states[k].log|] == EndMark(ph.run, key, run);
  }

  // --- all runs of a job ---------------------------------------------------------------------------------

  /** What the finished runs of a key met, in order. */
  function Sessions<S>(states: seq<System<S>>, steps: seq<Step<S>>, key: JobKey, k: nat): seq<Session<S>>
    requires k <= |steps| && k <= |states|
  {
    if k == 0 then []
    else
      Sessions(states, steps, key, k - 1)
      + if Finishes(states[k - 1], steps[k - 1], key) then [Session(steps[k - 1].w, steps[k - 1].found)] else []
  }

  /** The finished runs of a key, in log order. */
  function Results<S>(log: seq<Mark<S>>, key: JobKey): seq<Run<S>> {
    if log == [] then []
    else
      var last := log[|log| - 1];
      Results(log[..|log| - 1], key) + if last.EndMark? && last.key == key then [last.result] else []
  }

  /** Whoever takes the key's lock has read the row as it is stored then. */
  ghost predicate TakenFresh<S>(states: seq<System<S>>, steps: seq<Step<S>>, key: JobKey)
    requires |states| == |steps| + 1
  {
    forall i | 0 <= i < |steps| && TakesKey(states[i], steps[i], key) ::
      FreshSnapshot(states[i], steps[i].p, key)
  }

  ghost predicate AllFresh<S>(s: System<S>, key: JobKey) {
    forall p | Working(PhaseOf(s, p), key) :: FreshSnapshot(s, p, key)
  }

  lemma {:induction false} StepKeepsFresh<S>(
      c: Config, pages: JobKey -> Pages<S>, s: System<S>, step: Step<S>, key: JobKey)
    requires ValidConfig(c) && Inv(s) && Enabled(s, step) && key in s.jobs && AllFresh(s, key)
    requires TakesKey(s, step, key) ==> FreshSnapshot(s, step.p, key)
    ensures AllFresh(Apply(c, pages, s, step), key)
  {
    var s' := Apply(c, pages, s, step);
    forall p | Working(PhaseOf(s', p), key) ensures FreshSnapshot(s', p, key) {
      if Working(PhaseOf(s, p), key) {
        StepLeavesWorkedRow(c, pages, s, step, p, key);
      }
    }
  }

  lemma {:induction false} StepLeavesOthers<S>(
      c: Config, pages: JobKey -> Pages<S>, s: System<S>, step: Step<S>, key: JobKey)
    requires ValidConfig(c) && Enabled(s, step) && key in s.jobs && !Finishes(s, step, key)
    ensures key in Apply(c, pages, s, step).jobs && SameBut(Apply(c, pages, s, step).jobs[key], s.jobs[key])
    ensures Results(Apply(c, pages, s, step).log, key) == Results(s.log, key)
  {
    var s' := Apply(c, pages, s, step);
    if s'.log != s.log {
      assert s'.log[..|s.log|] == s.log;
    }
  }

  /** The runs of a chain, in order. */
  function RunsOf<S>(page: Pages<S>, c: Config, row: JobRow, ses: seq<Session<S>>, n: nat): seq<Run<S>>
    requires ValidConfig(c) && n <= |ses|
  {
    if n == 0 then [] else RunsOf(page, c, row, ses, n - 1) + [RunAt(page, c, row, ses, n - 1)]
  }

  lemma {:induction false} ChainPrefix<S>(
      page: Pages<S>, c: Config, row: JobRow, ses: seq<Session<S>>, se: Session<S>, n: nat)
    requires ValidConfig(c) && n <= |ses|
    ensures JobRowAfter(page, c, row, ses + [se], n) == JobRowAfter(page, c, row, ses, n)
    ensures RunsOf(page, c, row, ses + [se], n) == RunsOf(page, c, row, ses, n)
  {
    if n > 0 {
      ChainPrefix(page, c, row, ses, se, n - 1);
    }
  }

  lemma {:induction false} ChainGrows<S>(
      page: Pages<S>, c: Config, row: JobRow, ses: seq<Session<S>>, se: Session<S>, n: nat, n': nat)
    requires ValidConfig(c) && n == |ses| && n' == n + 1
    ensures var mid := JobRowAfter(page, c, row, ses, n);
      && JobRowAfter(page, c, row, ses + [se], n') == RowAfterRun(page, c, se, mid)
      && RunsOf(page, c, row, ses + [se], n') == RunsOf(page, c, row, ses, n) + [RunOf(page, c, se, mid)]
  {
    ChainPrefix(page, c, row, ses, se, n);
  }

  /** The stored row and the log of a key are those of a chain of runs over these sessions. */
  ghost predicate ChainStored<S>(
      page: Pages<S>, c: Config, row: JobRow, ses: seq<Session<S>>, s: System<S>, key: JobKey)
    requires ValidConfig(c)
  {
    && key in s.jobs && SameBut(s.jobs[key], JobRowAfter(page, c, row, ses, |ses|))
    && Results(s.log, key) == RunsOf(page, c, row, ses, |ses|)
  }

  lemma {:induction false} ResultsGrow<S>(log: seq<Mark<S>>, key: JobKey, run: nat, result: Run<S>)
    ensures Results(log + [EndMark(run, key, result)], key) == Results(log, key) + [result]
  {
    assert (log + [EndMark(run, key, result)])[..|log|] == log;
  }

  /** Two rows that differ only in start marks still do after the same ending. */
  lemma {:induction false} SameAfter<S>(
      page: Pages<S>, c: Config, se: Session<S>, stored: JobRow, row: JobRow, snapshot: JobRow)
    requires ValidConfig(c) && SameBut(stored, row) && !se.world.finishFault
    requires snapshot.cursor == row.cursor && snapshot.failures == row.failures
    ensures SameBut(Finishing(page, c, se.world, se.store, snapshot, stored), RowAfterRun(page, c, se, row))
    ensures Loop(page, c, se.world, se.store, snapshot.cursor) == RunOf(page, c, se, row)
  {
  }

  lemma {:induction false} FinishExtends<S>(
      c: Config, pages: JobKey -> Pages<S>, s: System<S>, step: Step<S>, key: JobKey, row: JobRow,
      ses: seq<Session<S>>)
    requires ValidConfig(c) && Enabled(s, step) && Finishes(s, step, key) && FreshSnapshot(s, step.p, key)
    requires ChainStored(pages(key), c, row, ses, s, key)
    ensures ChainStored(pages(key), c, row, ses + [Session(step.w, step.found)], Apply(c, pages, s, step), key)
  {
    var s', se := Apply(c, pages, s, step), Session(step.w, step.found);
    var ph, mid := PhaseOf(s, step.p), JobRowAfter(pages(key), c, row, ses, |ses|);
    SameAfter(pages(key), c, se, s.jobs[key], mid, ph.snapshot);
    ChainGrows(pages(key), c, row, ses, se, |ses|, |ses + [se]|);
    ResultsGrow(s.log, key, ph.run, RunOf(pages(key), c, se, mid));
  }

  /**
    If everyone who takes a job's lock has read the row as it is stored then, the job's row and its
    finished runs are at every moment those of a chain in which each run starts from the row the
    previous one left, whatever else the processes do, skip, fail or crash at.
  */
  lemma {:induction false} FreshRunsAreAChain<S>(
      c: Config, pages: JobKey -> Pages<S>, states: seq<System<S>>, steps: seq<Step<S>>, key: JobKey, k: nat)
    requires ValidConfig(c) && IsRun(c, pages, states, steps) && Initial(states[0]) && k < |states|
    requires key in states[0].jobs && TakenFresh(states, steps, key)
    ensures AllFresh(states[k], key)
    ensures ChainStored(pages(key), c, states[0].jobs[key], Sessions(states, steps, key, k), states[k], key)
  {
    if k > 0 {
      var n := k - 1;
      FreshRunsAreAChain(c, pages, states, steps, key, n);
      RunKeeps(c, pages, states, steps, n);
      assert states[n + 1] == Apply(c, pages, states[n], steps[n]);
      StepKeepsFresh(c, pages, states[n], steps[n], key);
      var ses := Sessions(states, steps, key, n);
      if Finishes(states[n], steps[n], key) {
        FinishExtends(c, pages, states[n], steps[n], key, states[0].jobs[key], ses);
      } else {
        StepLeavesOthers(c, pages, states[n], steps[n], key);
        assert Sessions(states, steps, key, k) == ses;
      }
    }
  }

  function CallsOf<S>(run: Run<S>): seq<Call> {
    if run.ending == Faulted then [] else run.served
  }

  /** The calls of these runs, those of failed runs dropped. */
  function KeptCalls<S>(runs: seq<Run<S>>): seq<Call> {
    if runs == [] then [] else KeptCalls(runs[..|runs| - 1]) + CallsOf(runs[|runs| - 1])
  }

  lemma {:induction false} KeptCallsGrow<S>(runs: seq<Run<S>>, run: Run<S>)
    ensures KeptCalls(runs + [run]) == KeptCalls(runs) + CallsOf(run)
  {
    assert (runs + [run])[..|runs|] == runs;
  }

  lemma {:induction false} RunsOfKept<S>(page: Pages<S>, c: Config, row: JobRow, ses: seq<Session<S>>, n: nat)
    requires ValidConfig(c) && n <= |ses| && forall i | 0 <= i < n :: !ses[i].world.finishFault
    ensures KeptCalls(RunsOf(page, c, row, ses, n)) == Kept(page, c, row, ses, n)
  {
    if n > 0 {
      RunsOfKept(page, c, row, ses, n - 1);
      KeptCallsGrow(RunsOf(page, c, row, ses, n - 1), RunAt(page, c, row, ses, n - 1));
    }
  }

  lemma {:induction false} RunsOfAt<S>(page: Pages<S>, c: Config, row: JobRow, ses: seq<Session<S>>, n: nat, i: nat)
    requires ValidConfig(c) && n <= |ses|
    ensures |RunsOf(page, c, row, ses, n)| == n
    ensures i < n ==> RunsOf(page, c, row, ses, n)[i] == RunAt(page, c, row, ses, i)
  {
    if n > 0 {
      RunsOfAt(page, c, row, ses, n - 1, i);
    }
  }

  // --- from one completed run to the next ------------------------------------------------------------------

  /** A part of a chain is a chain from the row its first run found. */
  lemma {:induction false} PartOfChain<S>(
      page: Pages<S>, c: Config, row: JobRow, ses: seq<Session<S>>, part: seq<Session<S>>, at: JobRow,
      m: nat, n: nat, j: nat)
    requires ValidConfig(c) && m + j <= n <= |ses| && part == ses[m..n] && at == JobRowAfter(page, c, row, ses, m)
    ensures JobRowAfter(page, c, at, part, j) == JobRowAfter(page, c, row, ses, m + j)
    ensures m + j < n ==> RunAt(page, c, at, part, j) == RunAt(page, c, row, ses, m + j)
  {
    if j > 0 {
      PartOfChain(page, c, row, ses, part, at, m, n, j - 1);
      assert part[j - 1] == ses[m + j - 1];
    }
    if m + j < n { assert part[j] == ses[m + j]; }
  }

  lemma {:induction false} PartRuns<S>(
      page: Pages<S>, c: Config, row: JobRow, ses: seq<Session<S>>, part: seq<Session<S>>, at: JobRow, m: nat, n: nat,
      runs: seq<Run<S>>, some: seq<Run<S>>)
    requires ValidConfig(c) && m <= n <= |ses| && part == ses[m..n] && at == JobRowAfter(page, c, row, ses, m)
    requires runs == RunsOf(page, c, row, ses, |ses|) && some == RunsOf(page, c, at, part, |part|)
    ensures |runs| == |ses| && some == runs[m..n]
  {
    RunsOfAt(page, c, row, ses, |ses|, 0);
    RunsOfAt(page, c, at, part, |part|, 0);
    forall i | 0 <= i < n - m ensures some[i] == runs[m + i] {
      RunsOfAt(page, c, at, part, |part|, i);
      PartOfChain(page, c, row, ses, part, at, m, n, i);
      RunsOfAt(page, c, row, ses, |ses|, m + i);
    }
  }

  lemma {:induction false} SessionsSucceed<S>(
      c: Config, pages: JobKey -> Pages<S>, states: seq<System<S>>, steps: seq<Step<S>>, key: JobKey, k: nat)
    requires ValidConfig(c) && IsRun(c, pages, states, steps) && k <= |steps|
    ensures forall i | 0 <= i < |Sessions(states, steps, key, k)| ::
      !Sessions(states, steps, key, k)[i].world.finishFault
  {
    if k > 0 {
      SessionsSucceed(c, pages, states, steps, key, k - 1);
      assert Enabled(states[k - 1], steps[k - 1]);
    }
  }

  /** These runs are those of the chain over these sessions, none of which lost its terminal write. */
  ghost predicate AreRuns<S>(page: Pages<S>, c: Config, at: JobRow, part: seq<Session<S>>, runs: seq<Run<S>>)
    requires ValidConfig(c)
  {
    && runs == RunsOf(page, c, at, part, |part|) && forall i | 0 <= i < |part| :: !part[i].world.finishFault
  }

  lemma {:induction false} RunOfPart<S>(
      page: Pages<S>, c: Config, at: JobRow, part: seq<Session<S>>, runs: seq<Run<S>>, i: nat)
    requires ValidConfig(c) && AreRuns(page, c, at, part, runs) && i < |part|
    ensures |runs| == |part| && RunAt(page, c, at, part, i) == runs[i]
    ensures Completes(page, c, at, part, i) <==> runs[i].ending == Drained
    ensures Recorded(part[i].world, RunAt(page, c, at, part, i)) <==> runs[i].ending != Faulted
  {
    RunsOfAt(page, c, at, part, |part|, i);
  }

  /** The m-th run is the first, or the one before it completed. */
  predicate Restarts<S>(runs: seq<Run<S>>, m: nat) {
    m == 0 || (m <= |runs| && runs[m - 1].ending == Drained)
  }

  /** After a completed run the chain is back at the start cursor. */
  lemma {:induction false} RestartsAtStart<S>(
      page: Pages<S>, c: Config, row: JobRow, ses: seq<Session<S>>, runs: seq<Run<S>>, m: nat)
    requires ValidConfig(c) && AreRuns(page, c, row, ses, runs) && m <= |ses| && Restarts(runs, m)
    ensures JobRowAfter(page, c, row, ses, m).cursor == if m == 0 then row.cursor else CURSOR_START
  {
    if m > 0 {
      RunOfPart(page, c, row, ses, runs, m - 1);
      ChainStep(page, c, row, ses, m - 1, m);
      RowMoves(page, c, ses[m - 1], JobRowAfter(page, c, row, ses, m - 1), runs[m - 1]);
    }
  }

  /** The runs of a part of a chain are that part of its runs. */
  lemma {:induction false} PartOfStored<S>(
      page: Pages<S>, c: Config, row: JobRow, ses: seq<Session<S>>, runs: seq<Run<S>>, m: nat, n: nat)
    returns (part: seq<Session<S>>, at: JobRow)
    requires ValidConfig(c) && AreRuns(page, c, row, ses, runs) && m <= n <= |ses|
    ensures |runs| == |ses| && part == ses[m..n] && at == JobRowAfter(page, c, row, ses, m)
    ensures AreRuns(page, c, at, part, runs[m..n])
  {
    part, at := ses[m..n], JobRowAfter(page, c, row, ses, m);
    PartRuns(page, c, row, ses, part, at, m, n, runs, RunsOf(page, c, at, part, |part|));
  }

  /** The logged runs of a key are a chain over what they met. */
  lemma {:induction false} LoggedRuns<S>(
      c: Config, pages: JobKey -> Pages<S>, states: seq<System<S>>, steps: seq<Step<S>>, key: JobKey, k: nat,
      row: JobRow, ses: seq<Session<S>>, runs: seq<Run<S>>)
    requires ValidConfig(c) && IsRun(c, pages, states, steps) && Initial(states[0]) && k < |states|
    requires key in states[0].jobs && TakenFresh(states, steps, key) && row == states[0].jobs[key]
    requires ses == Sessions(states, steps, key, k) && runs == Results(states[k].log, key)
    ensures |runs| == |ses| && AreRuns(pages(key), c, row, ses, runs)
    ensures key in states[k].jobs && SameBut(states[k].jobs[key], JobRowAfter(pages(key), c, row, ses, |ses|))
  {
    FreshRunsAreAChain(c, pages, states, steps, key, k);
    SessionsSucceed(c, pages, states, steps, key, k);
    RunsOfAt(pages(key), c, row, ses, |ses|, 0);
  }

  lemma {:induction false} KeptOfRuns<S>(
      page: Pages<S>, c: Config, at: JobRow, part: seq<Session<S>>, runs: seq<Run<S>>)
    requires ValidConfig(c) && AreRuns(page, c, at, part, runs)
    ensures KeptCalls(runs) == Kept(page, c, at, part, |part|)
  {
    RunsOfKept(page, c, at, part, |part|);
  }

  lemma {:induction false} PartUncompleted<S>(
      page: Pages<S>, c: Config, at: JobRow, part: seq<Session<S>>, runs: seq<Run<S>>, last: JobRow)
    requires ValidConfig(c) && AreRuns(page, c, at, part, runs) && last == JobRowAfter(page, c, at, part, |part|)
    requires forall i | 0 <= i < |runs| :: runs[i].ending != Drained
    ensures Linked(KeptCalls(runs), at.cursor, last.cursor) && NoneDone(KeptCalls(runs))
  {
    KeptOfRuns(page, c, at, part, runs);
    forall i | 0 <= i < |part| ensures !Completes(page, c, at, part, i) {
      RunOfPart(page, c, at, part, runs, i);
    }
    if part != [] {
      KeptUncompleted(page, c, at, part, part[0].store, |part|);
    }
  }

  lemma {:induction false} ChainFollowsTheWalk<S>(
      page: Pages<S>, c: Config, row: JobRow, ses: seq<Session<S>>, runs: seq<Run<S>>, m: nat, last: JobRow)
    requires ValidConfig(c) && AreRuns(page, c, row, ses, runs) && m <= |ses| == |runs| && Restarts(runs, m)
    requires forall i | m <= i < |runs| :: runs[i].ending != Drained
    requires last == JobRowAfter(page, c, row, ses, |ses|)
    ensures NoneDone(KeptCalls(runs[m..]))
    ensures Linked(KeptCalls(runs[m..]), if m == 0 then row.cursor else CURSOR_START, last.cursor)
  {
    var part, at := PartOfStored(page, c, row, ses, runs, m, |ses|);
    RestartsAtStart(page, c, row, ses, runs, m);
    PartOfChain(page, c, row, ses, part, at, m, |ses|, |part|);
    assert runs[m..|ses|] == runs[m..];
    PartUncompleted(page, c, at, part, runs[m..], last);
  }

  /**
    With fresh snapshots the stored cursor moves along one walk at a time: since the last completed run it is where
    the calls of the runs that did not fail have got to, from the start cursor, or from the initial cursor if no run
    has completed yet.
  */
  lemma {:induction false} FreshCursorFollowsTheWalk<S>(
      c: Config, pages: JobKey -> Pages<S>, states: seq<System<S>>, steps: seq<Step<S>>, key: JobKey, k: nat,
      runs: seq<Run<S>>, m: nat)
    requires ValidConfig(c) && IsRun(c, pages, states, steps) && Initial(states[0]) && k < |states|
    requires key in states[0].jobs && TakenFresh(states, steps, key) && runs == Results(states[k].log, key)
    requires m <= |runs| && Restarts(runs, m) && forall i | m <= i < |runs| :: runs[i].ending != Drained
    ensures key in states[k].jobs && NoneDone(KeptCalls(runs[m..]))
    ensures Linked(KeptCalls(runs[m..]), if m == 0 then states[0].jobs[key].cursor else CURSOR_START,
                   states[k].jobs[key].cursor)
  {
    var row, ses := states[0].jobs[key], Sessions(states, steps, key, k);
    LoggedRuns(c, pages, states, steps, key, k, row, ses, runs);
    ChainFollowsTheWalk(pages(key), c, row, ses, runs, m, JobRowAfter(pages(key), c, row, ses, |ses|));
  }

  /** The n-th run is the first completed one from the m-th on, which starts over. */
  ghost predicate OneCycle<S>(runs: seq<Run<S>>, m: nat, n: nat) {
    && m < n <= |runs| && Restarts(runs, m) && runs[n - 1].ending == Drained
    && forall i | m <= i < n - 1 :: runs[i].ending != Drained
  }

  lemma {:induction false} PartCompletes<S>(
      page: Pages<S>, c: Config, at: JobRow, part: seq<Session<S>>, runs: seq<Run<S>>)
    requires ValidConfig(c) && AreRuns(page, c, at, part, runs) && part != [] && |runs| == |part|
    requires runs[|runs| - 1].ending == Drained && forall i | 0 <= i < |runs| - 1 :: runs[i].ending != Drained
    ensures ChainCompletes(page, c, at, part) && RunAt(page, c, at, part, |part| - 1) == runs[|runs| - 1]
  {
    forall i | 0 <= i < |part| - 1 ensures !Completes(page, c, at, part, i) {
      RunOfPart(page, c, at, part, runs, i);
    }
    RunOfPart(page, c, at, part, runs, |part| - 1);
  }

  /** From one completed run to the next a chain is a chain from the start cursor that completes. */
  lemma {:induction false} CycleIsAChain<S>(
      page: Pages<S>, c: Config, row: JobRow, ses: seq<Session<S>>, runs: seq<Run<S>>, m: nat, n: nat)
    returns (part: seq<Session<S>>, at: JobRow)
    requires ValidConfig(c) && AreRuns(page, c, row, ses, runs) && |ses| == |runs| && OneCycle(runs, m, n)
    requires m == 0 ==> row.cursor == CURSOR_START
    ensures part == ses[m..n] && at == JobRowAfter(page, c, row, ses, m) && at.cursor == CURSOR_START
    ensures ChainCompletes(page, c, at, part) && AreRuns(page, c, at, part, runs[m..n])
    ensures RunAt(page, c, at, part, |part| - 1) == runs[n - 1]
  {
    part, at := PartOfStored(page, c, row, ses, runs, m, n);
    RestartsAtStart(page, c, row, ses, runs, m);
    PartCompletes(page, c, at, part, runs[m..n]);
  }

  /** The calls are those of one drain that meets these turns and leaves this store, and one whole walk. */
  ghost predicate OneWalk<S>(page: Pages<S>, turns: nat -> Turn<S>, found: S, calls: seq<Call>, left: S) {
    var start := Place(found, CURSOR_START);
    && DrainAmong(page, turns, start, |calls|) && AreCalls(page, turns, start, calls)
    && PlaceAt(page, turns, start, |calls|).store == left
    && DoneAtLast(calls) && Linked(calls, CURSOR_START, calls[|calls| - 1].result.nextCursor)
  }

  lemma {:induction false} CycleIsOneWalk<S>(
      page: Pages<S>, c: Config, at: JobRow, part: seq<Session<S>>, runs: seq<Run<S>>, turns: nat -> Turn<S>,
      left: S)
    requires ValidConfig(c) && AreRuns(page, c, at, part, runs) && at.cursor == CURSOR_START
    requires ChainCompletes(page, c, at, part) && turns == ChainTurns(page, c, at, part, |part|)
    requires left == RunAt(page, c, at, part, |part| - 1).store
    ensures OneWalk(page, turns, part[0].store, KeptCalls(runs), left)
  {
    KeptOfRuns(page, c, at, part, runs);
    ChainIsOneDrain(page, c, at, part, part[0].store);
    KeptCallsAreOneWalk(page, c, at, part);
  }

  lemma {:induction false} CycleWalks<S>(
      page: Pages<S>, c: Config, row: JobRow, ses: seq<Session<S>>, runs: seq<Run<S>>, m: nat, n: nat)
    returns (part: seq<Session<S>>, at: JobRow, turns: nat -> Turn<S>)
    requires ValidConfig(c) && AreRuns(page, c, row, ses, runs) && |ses| == |runs| && OneCycle(runs, m, n)
    requires m == 0 ==> row.cursor == CURSOR_START
    ensures part == ses[m..n] && at == JobRowAfter(page, c, row, ses, m)
    ensures turns == ChainTurns(page, c, at, part, |part|)
    ensures OneWalk(page, turns, ses[m].store, KeptCalls(runs[m..n]), runs[n - 1].store)
  {
    part, at := CycleIsAChain(page, c, row, ses, runs, m, n);
    turns := ChainTurns(page, c, at, part, |part|);
    CycleIsOneWalk(page, c, at, part, runs[m..n], turns, runs[n - 1].store);
  }

  /**
    From one completed run of a key to the next, the calls of the runs that did not fail are those of one unbounded
    drain that meets what those runs met, with its store, and so one whole walk from the start cursor. The first such
    stretch begins with the first run if the row is stored with the start cursor.
  */
  lemma {:induction false} FreshRunsMakeOneWalk<S>(
      c: Config, pages: JobKey -> Pages<S>, states: seq<System<S>>, steps: seq<Step<S>>, key: JobKey, k: nat,
      ses: seq<Session<S>>, runs: seq<Run<S>>, m: nat, n: nat)
    returns (part: seq<Session<S>>, at: JobRow, turns: nat -> Turn<S>)
    requires ValidConfig(c) && IsRun(c, pages, states, steps) && Initial(states[0]) && k < |states|
    requires key in states[0].jobs && TakenFresh(states, steps, key)
    requires ses == Sessions(states, steps, key, k) && runs == Results(states[k].log, key)
    requires OneCycle(runs, m, n) && (m == 0 ==> states[0].jobs[key].cursor == CURSOR_START)
    ensures |ses| == |runs| && part == ses[m..n] && at == JobRowAfter(pages(key), c, states[0].jobs[key], ses, m)
    ensures turns == ChainTurns(pages(key), c, at, part, |part|)
    ensures OneWalk(pages(key), turns, ses[m].store, KeptCalls(runs[m..n]), runs[n - 1].store)
  {
    LoggedRuns(c, pages, states, steps, key, k, states[0].jobs[key], ses, runs);
    part, at, turns := CycleWalks(pages(key), c, states[0].jobs[key], ses, runs, m, n);
  }

  /** A completed run leaves the row at the start cursor with no failures until the next run ends. */
  lemma {:induction false} CompletedRunStartsOver<S>(
      c: Config, pages: JobKey -> Pages<S>, states: seq<System<S>>, steps: seq<Step<S>>, key: JobKey, k: nat,
      runs: seq<Run<S>>)
    requires ValidConfig(c) && IsRun(c, pages, states, steps) && Initial(states[0]) && k < |states|
    requires key in states[0].jobs && TakenFresh(states, steps, key) && runs == Results(states[k].log, key)
    requires runs != [] && runs[|runs| - 1].ending == Drained
    ensures key in states[k].jobs && states[k].jobs[key].cursor == CURSOR_START && states[k].jobs[key].failures == 0
  {
    var row, ses := states[0].jobs[key], Sessions(states, steps, key, k);
    LoggedRuns(c, pages, states, steps, key, k, row, ses, runs);
    RestartsAtStart(pages(key), c, row, ses, runs, |runs|);
  }

  /** With no failed run among them and nothing else happening, they are the one uninterrupted drain of the job. */
  lemma {:induction false} FreshQuietRunsAreOneDrain<S(!new)>(
      c: Config, pages: JobKey -> Pages<S>, states: seq<System<S>>, steps: seq<Step<S>>, key: JobKey, k: nat,
      ses: seq<Session<S>>, runs: seq<Run<S>>, m: nat, n: nat, at: JobRow, same: (S, S) -> bool)
    requires ValidConfig(c) && IsRun(c, pages, states, steps) && Initial(states[0]) && k < |states|
    requires key in states[0].jobs && TakenFresh(states, steps, key)
    requires ses == Sessions(states, steps, key, k) && runs == Results(states[k].log, key)
    requires OneCycle(runs, m, n) && (m == 0 ==> states[0].jobs[key].cursor == CURSOR_START)
    requires (forall i | m <= i < n :: runs[i].ending != Faulted) && n <= |ses|
    requires at == JobRowAfter(pages(key), c, states[0].jobs[key], ses, m)
    requires (forall a, b :: same(a, b) <==> a == b) && ChainRelates(pages(key), c, at, ses[m..n], same)
    ensures var calls, start := KeptCalls(runs[m..n]), Place(ses[m].store, CURSOR_START);
      && FullDrain(pages(key), start, |calls|) && AreCalls(pages(key), Still(), start, calls)
      && runs[n - 1].store == PlaceAt(pages(key), Still(), start, |calls|).store
  {
    LoggedRuns(c, pages, states, steps, key, k, states[0].jobs[key], ses, runs);
    var part, at' := CycleIsAChain(pages(key), c, states[0].jobs[key], ses, runs, m, n);
    KeptOfRuns(pages(key), c, at, part, runs[m..n]);
    forall i | 0 <= i < |part| ensures Recorded(part[i].world, RunAt(pages(key), c, at, part, i)) {
      RunOfPart(pages(key), c, at, part, runs[m..n], i);
    }
    QuietChainIsOneDrain(pages(key), c, at, part, same);
  }

  // --- a run that never gets to its terminal write --------------------------------------------------------

  lemma {:induction false} UnfinishedRowStands<S>(
      c: Config, pages: JobKey -> Pages<S>, states: seq<System<S>>, steps: seq<Step<S>>, key: JobKey, i: nat, k: nat)
    requires ValidConfig(c) && IsRun(c, pages, states, steps) && i <= k < |states| && key in states[i].jobs
    requires forall m | i <= m < k :: !Finishes(states[m], steps[m], key)
    ensures key in states[k].jobs && SameBut(states[k].jobs[key], states[i].jobs[key])
    decreases k
  {
    if i < k {
      var n := k - 1;
      UnfinishedRowStands(c, pages, states, steps, key, i, n);
      assert states[n + 1] == Apply(c, pages, states[n], steps[n]);
      StepLeavesOthers(c, pages, states[n], steps[n], key);
    }
  }

  /** The process is executing a run of the key and crashes, or its terminal write fails. */
  predicate Loses<S>(s: System<S>, step: Step<S>, p: Proc, key: JobKey) {
    PhaseOf(s, p).Executing? && PhaseOf(s, p).key == key && (step == Die(p) || step == FinishFails(p))
  }

  /** Such a run leaves the row due as it was, at the cursor it had, until another run of the job ends. */
  lemma {:induction false} LostRunLeavesRow<S>(
      c: Config, pages: JobKey -> Pages<S>, states: seq<System<S>>, steps: seq<Step<S>>, p: Proc, key: JobKey,
      i: nat, k: nat, j: nat)
    requires ValidConfig(c) && IsRun(c, pages, states, steps) && Initial(states[0])
    requires i < k < j < |states| && WorksFrom(states, steps, p, key, i, k) && Loses(states[k], steps[k], p, key)
    requires forall m | k < m < j :: !Finishes(states[m], steps[m], key)
    ensures key in states[j].jobs && SameBut(states[j].jobs[key], states[i].jobs[key])
  {
    LockedRowStandsStill(c, pages, states, steps, p, key, i, k);
    UnfinishedRowStands(c, pages, states, steps, key, k, j);
  }

  /** The loop has served its first n pages, the last of which may report the end. */
  ghost predicate HasServed<S>(page: Pages<S>, c: Config, w: World<S>, start: Place<S>, n: nat) {
    && (forall m: nat | m < n :: !StopsBefore(c, w, m))
    && (n > 0 ==> GoesOn(page, w.turns, start, n - 1) && AnswerAt(page, w.turns, start, n - 1).Some?)
  }

  /** Where the row would stand if each of these pages had been recorded. */
  function PagesCursor<S>(page: Pages<S>, w: World<S>, start: Place<S>, n: nat): Cursor {
    if n > 0 && AnswerAt(page, w.turns, start, n - 1).Some? && AnswerAt(page, w.turns, start, n - 1).value.done
    then CURSOR_START
    else PlaceAt(page, w.turns, start, n).cursor
  }

  /**
    A run that crashes, or loses its terminal write, after n pages is resumed where it started: the next run of
    the job to end, if its snapshot is fresh, is the one from the lost run's starting cursor. It is the run a
    record of every page would have continued with iff those pages did not move the cursor.
  */
  lemma {:induction false} LostRunIsRepeated<S(!new)>(
      c: Config, pages: JobKey -> Pages<S>, states: seq<System<S>>, steps: seq<Step<S>>, key: JobKey,
      p: Proc, i: nat, k: nat, w: World<S>, found: S, n: nat, q: Proc, j: nat, l: nat)
    requires ValidConfig(c) && IsRun(c, pages, states, steps) && Initial(states[0]) && i < k < j < l < |steps|
    requires WorksFrom(states, steps, p, key, i, k) && Loses(states[k], steps[k], p, key)
    requires FreshSnapshot(states[i], p, key)
    requires HasServed(pages(key), c, w, Place(found, PhaseOf(states[k], p).snapshot.cursor), n)
    requires forall m | k < m < j :: !Finishes(states[m], steps[m], key)
    requires WorksFrom(states, steps, q, key, j, l) && FreshSnapshot(states[j], q, key)
    requires steps[l].Finish? && steps[l].p == q
    ensures var start := PhaseOf(states[k], p).snapshot.cursor;
      var reached := PagesCursor(pages(key), w, Place(found, start), n);
      var run := Loop(pages(key), c, steps[l].w, steps[l].found, start);
      && states[l + 1].log == states[l].log + [EndMark(PhaseOf(states[l], q).run, key, run)]
      && (run == Loop(pages(key), c, steps[l].w, steps[l].found, reached) <==> reached == start)
  {
    var start := PhaseOf(states[k], p).snapshot.cursor;
    var reached := PagesCursor(pages(key), w, Place(found, start), n);
    LockedRowStandsStill(c, pages, states, steps, p, key, i, k);
    LostRunLeavesRow(c, pages, states, steps, p, key, i, k, j);
    FinishContinuesLockedRow(c, pages, states, steps, q, key, j, l);
    RunShowsStart(pages(key), c, steps[l].w, steps[l].found, start);
    RunShowsStart(pages(key), c, steps[l].w, steps[l].found, reached);
  }

  // --- a stale snapshot ------------------------------------------------------------------------------------

  /** A job of which every page appends one letter to the cursor. */
  function LetterPages(key: JobKey): Pages<bool> {
    (s: bool, cursor: Cursor) => Some((s, PageResult(cursor + "x", false, 1, 1)))
  }

  /** Cancelled before the n-th page. */
  function CancelledAt(n: nat): World<bool> {
    World(false, false, false, 0, 0, 5, (i: nat) => Turn(0, i == n, false, (s: bool) => s))
  }

  lemma {:induction false} LetterRuns(c: Config)
    requires ValidConfig(c) && c.maxPagesPerRun == 2
    ensures forall key :: Loop(LetterPages(key), c, CancelledAt(2), true, "").cursor == "xx"
                          && Loop(LetterPages(key), c, CancelledAt(2), true, "").ending == Bounded
    ensures forall key :: Loop(LetterPages(key), c, CancelledAt(1), true, "").cursor == "x"
                          && Loop(LetterPages(key), c, CancelledAt(1), true, "").ending == Bounded
  {
    forall key
      ensures Loop(LetterPages(key), c, CancelledAt(2), true, "").cursor == "xx"
              && Loop(LetterPages(key), c, CancelledAt(2), true, "").ending == Bounded
      ensures Loop(LetterPages(key), c, CancelledAt(1), true, "").cursor == "x"
              && Loop(LetterPages(key), c, CancelledAt(1), true, "").ending == Bounded
    {
      var page, r0 := LetterPages(key), Fresh(true, "");
      assert "" + "x" == "x" && "x" + "x" == "xx";
      var r1 := Served(r0, true, PageResult("x", false, 1, 1));
      var r2 := Served(r1, true, PageResult("xx", false, 1, 1));
      assert LoopFrom(page, c, CancelledAt(2), r2) == r2;
      assert LoopFrom(page, c, CancelledAt(2), r1) == r2;
      assert LoopFrom(page, c, CancelledAt(1), r1) == r1;
    }
  }

  lemma {:induction false} Extended(
      c: Config, pages: JobKey -> Pages<bool>, states: seq<System<bool>>, steps: seq<Step<bool>>,
      s: System<bool>, step: Step<bool>)
    returns (states': seq<System<bool>>, steps': seq<Step<bool>>, s': System<bool>)
    requires ValidConfig(c) && IsRun(c, pages, states, steps)
    requires states[|states| - 1] == s && Enabled(s, step)
    ensures s' == Apply(c, pages, s, step) && states' == states + [s'] && steps' == steps + [step]
    ensures IsRun(c, pages, states', steps')
  {
    s' := Apply(c, pages, s, step);
    states', steps' := states + [s'], steps + [step];
  }

  lemma {:induction false} FirstReplica(c: Config, key: JobKey, row: JobRow)
    returns (states: seq<System<bool>>, steps: seq<Step<bool>>, s: System<bool>)
    requires ValidConfig(c) && c.maxPagesPerRun == 2 && row.cursor == ""
    ensures IsRun(c, LetterPages, states, steps) && |states| == 7 && states[6] == s
    ensures states[0] == System(map[key := row], map[], map[], [], 0)
    ensures key in s.jobs && s.jobs[key].cursor == "xx" && s.lock == map[] && PhaseOf(s, 1) == Chosen(key, row)
  {
    LetterRuns(c);
    s := System(map[key := row], map[], map[], [], 0);
    states, steps := [s], [];
    states, steps, s := Extended(c, LetterPages, states, steps, s, Choose(0, key));
    states, steps, s := Extended(c, LetterPages, states, steps, s, Choose(1, key));
    states, steps, s := Extended(c, LetterPages, states, steps, s, TakeLock(0));
    states, steps, s := Extended(c, LetterPages, states, steps, s, Start(0, 0));
    states, steps, s := Extended(c, LetterPages, states, steps, s, Finish(0, CancelledAt(2), true));
    states, steps, s := Extended(c, LetterPages, states, steps, s, Unlock(0));
  }

  /**
    The stored cursor is not monotone across replicas: a process that read its snapshot before another
    one ran resumes from the older cursor and writes an earlier one back, although runs never overlap.
  */
  lemma {:induction false} StaleSnapshotRewinds(c: Config, key: JobKey, row: JobRow)
    returns (states: seq<System<bool>>, steps: seq<Step<bool>>, i: nat, j: nat)
    requires ValidConfig(c) && c.maxPagesPerRun == 2 && row.cursor == ""
    ensures IsRun(c, LetterPages, states, steps) && Initial(states[0]) && i < j < |states|
    ensures key in states[i].jobs && key in states[j].jobs
    ensures states[i].jobs[key].cursor == "xx" && states[j].jobs[key].cursor == "x"
  {
    LetterRuns(c);
    var s;
    states, steps, s := FirstReplica(c, key, row);
    states, steps, s := Extended(c, LetterPages, states, steps, s, TakeLock(1));
    states, steps, s := Extended(c, LetterPages, states, steps, s, Start(1, 0));
    states, steps, s := Extended(c, LetterPages, states, steps, s, Finish(1, CancelledAt(1), true));
    i, j := 6, 9;
  }
}
