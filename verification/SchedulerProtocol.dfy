/**
  Several scheduler processes over one table of job rows: snapshots read before the lock, a
  non-blocking lock per (organization, job), marks written by the holder, crashes at any point.
*/
module SchedulerProtocol {
  import opened Wrappers
  import opened Runner

  type Proc = nat

  datatype Phase =
    | Idle
    | Chosen(key: JobKey, snapshot: JobRow)
    | Locked(key: JobKey, snapshot: JobRow)
    | Executing(key: JobKey, snapshot: JobRow, run: nat)
    | Ended(key: JobKey)

  /** What the scheduler writes when a run starts and when it ends, the latter with what the run did. */
  datatype Mark<S> = StartMark(run: nat, key: JobKey) | EndMark(run: nat, key: JobKey, result: Run<S>)

  datatype System<S> = System(
    jobs: map<JobKey, JobRow>, lock: map<JobKey, Proc>, phases: map<Proc, Phase>, log: seq<Mark<S>>, nextRun: nat)

  function PhaseOf<S>(s: System<S>, p: Proc): Phase {
    if p in s.phases then s.phases[p] else Idle
  }

  /** The process holds the lock of its row in this phase. */
  predicate Holding(ph: Phase) {
    ph.Locked? || ph.Executing? || ph.Ended?
  }

  /** A finished run, whose terminal write succeeds, meets its world and the store as it finds it. */
  datatype Step<!S> =
    | Choose(p: Proc, key: JobKey)
    | Skip(p: Proc)
    | TakeLock(p: Proc)
    | Start(p: Proc, at: int)
    | StartFails(p: Proc)
    | Finish(p: Proc, w: World<S>, found: S)
    | FinishFails(p: Proc)
    | Unlock(p: Proc)
    | Die(p: Proc)

  /** When each step can happen. Skipping covers both a held lock and a lock error. */
  predicate Enabled<S>(s: System<S>, step: Step<S>) {
    var ph := PhaseOf(s, step.p);
    match step
    case Choose(_, key) => ph.Idle? && key in s.jobs
    case Skip(_) => ph.Chosen?
    case TakeLock(_) => ph.Chosen? && ph.key !in s.lock
    case Start(_, _) => ph.Locked? && ph.key in s.jobs
    case StartFails(_) => ph.Locked?
    case Finish(_, w, _) => ph.Executing? && ph.key in s.jobs && !w.finishFault
    case FinishFails(_) => ph.Executing?
    case Unlock(_) => ph.Ended?
    case Die(_) => true
  }

  function Move<S>(s: System<S>, p: Proc, ph: Phase): System<S> {
    s.(phases := s.phases[p := ph])
  }

  /** Dropping a session's lock: only the key it holds. */
  function Dropped<S>(s: System<S>, p: Proc): System<S> {
    var ph := PhaseOf(s, p);
    if Holding(ph) then s.(lock := s.lock - {ph.key}) else s
  }

  function Apply<S>(c: Config, pages: JobKey -> Pages<S>, s: System<S>, step: Step<S>): System<S>
    requires ValidConfig(c) && Enabled(s, step)
  {
    var ph := PhaseOf(s, step.p);
    match step
    case Choose(p, key) => Move(s, p, Chosen(key, s.jobs[key]))
    case Skip(p) => Move(s, p, Idle)
    case TakeLock(p) => Move(s.(lock := s.lock[ph.key := p]), p, Locked(ph.key, ph.snapshot))
    case Start(p, at) =>
      Move(s.(jobs := s.jobs[ph.key := StartedRow(s.jobs[ph.key], at)],
              log := s.log + [StartMark(s.nextRun, ph.key)], nextRun := s.nextRun + 1),
           p, Executing(ph.key, ph.snapshot, s.nextRun))
    case StartFails(p) => Move(s, p, Ended(ph.key))
    case Finish(p, w, found) =>
      var run := Loop(pages(ph.key), c, w, found, ph.snapshot.cursor);
      Move(s.(jobs := s.jobs[ph.key :=
                FinishedRow(s.jobs[ph.key], run.ending, run.cursor, c, ph.snapshot.failures, w.finishedAt)],
              log := s.log + [EndMark(ph.run, ph.key, run)]),
           p, Ended(ph.key))
    case FinishFails(p) => Move(s, p, Ended(ph.key))
    case Unlock(p) => Move(Dropped(s, p), p, Idle)
    case Die(p) => Move(Dropped(s, p), p, Idle)
  }

  ghost predicate IsRun<S>(c: Config, pages: JobKey -> Pages<S>, states: seq<System<S>>, steps: seq<Step<S>>)
    requires ValidConfig(c)
  {
    && |states| == |steps| + 1
    && forall i | 0 <= i < |steps| ::
         Enabled(states[i], steps[i]) && states[i + 1] == Apply(c, pages, states[i], steps[i])
  }

  ghost predicate Initial<S>(s: System<S>) {
    s.lock == map[] && s.phases == map[] && s.log == [] && s.nextRun == 0
  }

  // --- the log ------------------------------------------------------------------------------------

  /** The last mark of a key. */
  function LastFor<S>(log: seq<Mark<S>>, key: JobKey): Option<Mark<S>> {
    if log == [] then None
    else if log[|log| - 1].key == key then Some(log[|log| - 1])
    else LastFor(log[..|log| - 1], key)
  }

  ghost predicate FreshRun<S>(log: seq<Mark<S>>, run: nat) {
    forall i | 0 <= i < |log| :: log[i].run != run
  }

  /** Every end mark closes the start mark just before it under its key, and run numbers are never reused. */
  ghost predicate WellPaired<S>(log: seq<Mark<S>>) {
    log == [] ||
    (var n := |log| - 1;
     && WellPaired(log[..n])
     && match log[n]
        case StartMark(run, _) => FreshRun(log[..n], run)
        case EndMark(run, key, _) => LastFor(log[..n], key) == Some(StartMark(run, key)))
  }

  lemma {:induction false} AppendMark<S>(log: seq<Mark<S>>, m: Mark<S>)
    ensures (log + [m])[..|log|] == log
    ensures LastFor(log + [m], m.key) == Some(m)
    ensures forall k | k != m.key :: LastFor(log + [m], k) == LastFor(log, k)
  {
    assert (log + [m])[..|log|] == log;
  }

  // --- the invariant ----------------------------------------------------------------------------------

  ghost predicate LocksHeld<S>(s: System<S>) {
    forall p | Holding(PhaseOf(s, p)) :: PhaseOf(s, p).key in s.lock && s.lock[PhaseOf(s, p).key] == p
  }

  ghost predicate LocksOwned<S>(s: System<S>) {
    forall k | k in s.lock :: Holding(PhaseOf(s, s.lock[k])) && PhaseOf(s, s.lock[k]).key == k
  }

  ghost predicate RunsOpen<S>(s: System<S>) {
    forall p | PhaseOf(s, p).Executing? ::
      LastFor(s.log, PhaseOf(s, p).key) == Some(StartMark(PhaseOf(s, p).run, PhaseOf(s, p).key))
  }

  ghost predicate RunsNumbered<S>(s: System<S>) {
    forall i | 0 <= i < |s.log| :: s.log[i].run < s.nextRun
  }

  ghost predicate Inv<S>(s: System<S>) {
    LocksHeld(s) && LocksOwned(s) && RunsOpen(s) && RunsNumbered(s) && WellPaired(s.log)
  }

  lemma {:induction false} StartKeeps<S>(s: System<S>, s': System<S>, p: Proc, key: JobKey, snapshot: JobRow)
    requires Inv(s) && PhaseOf(s, p) == Locked(key, snapshot)
    requires s'.lock == s.lock && s'.phases == s.phases[p := Executing(key, snapshot, s.nextRun)]
    requires s'.log == s.log + [StartMark(s.nextRun, key)] && s'.nextRun == s.nextRun + 1
    ensures Inv(s')
  {
    AppendMark(s.log, StartMark(s.nextRun, key));
    forall q | PhaseOf(s', q).Executing?
      ensures LastFor(s'.log, PhaseOf(s', q).key) == Some(StartMark(PhaseOf(s', q).run, PhaseOf(s', q).key))
    {
      if q != p { assert PhaseOf(s', q) == PhaseOf(s, q); }
    }
    assert forall q | q != p :: PhaseOf(s', q) == PhaseOf(s, q);
  }

  lemma {:induction false} FinishKeeps<S>(
      s: System<S>, s': System<S>, p: Proc, key: JobKey, snapshot: JobRow, run: nat, result: Run<S>)
    requires Inv(s) && PhaseOf(s, p) == Executing(key, snapshot, run)
    requires s'.lock == s.lock && s'.phases == s.phases[p := Ended(key)] && s'.nextRun == s.nextRun
    requires s'.log == s.log + [EndMark(run, key, result)]
    ensures Inv(s')
  {
    AppendMark(s.log, EndMark(run, key, result));
    assert forall q | q != p :: PhaseOf(s', q) == PhaseOf(s, q);
    forall i | 0 <= i < |s'.log| ensures s'.log[i].run < s'.nextRun {
      if i == |s.log| { OpenRunNumbered(s, key, run); }
    }
  }

  lemma {:induction false} OpenRunNumbered<S>(s: System<S>, key: JobKey, run: nat)
    requires RunsNumbered(s) && LastFor(s.log, key) == Some(StartMark(run, key))
    ensures run < s.nextRun
  {
    var i := LastIndex(s.log, key);
  }

  lemma {:induction false} LastIndex<S>(log: seq<Mark<S>>, key: JobKey) returns (i: nat)
    requires LastFor(log, key).Some?
    ensures i < |log| && log[i] == LastFor(log, key).value && log[i].key == key
    ensures forall j | i < j < |log| :: log[j].key != key
  {
    if log[|log| - 1].key == key {
      i := |log| - 1;
    } else {
      i := LastIndex(log[..|log| - 1], key);
    }
  }

  /** Steps that leave the log alone and do not start executing. */
  lemma {:induction false} QuietKeeps<S>(s: System<S>, s': System<S>, p: Proc)
    requires Inv(s) && s'.log == s.log && s'.nextRun == s.nextRun
    requires s'.phases == s.phases[p := PhaseOf(s', p)] && !PhaseOf(s', p).Executing?
    requires LocksHeld(s') && LocksOwned(s')
    ensures Inv(s')
  {
    assert forall q | q != p :: PhaseOf(s', q) == PhaseOf(s, q);
  }

  ghost predicate KeepsLock<S>(s: System<S>, s': System<S>, p: Proc, ph': Phase) {
    Holding(PhaseOf(s, p)) && Holding(ph') && ph'.key == PhaseOf(s, p).key && s'.lock == s.lock
  }

  ghost predicate GainsLock<S>(s: System<S>, s': System<S>, p: Proc, ph': Phase) {
    PhaseOf(s, p).Chosen? && ph'.Locked? && ph'.key !in s.lock && s'.lock == s.lock[ph'.key := p]
  }

  lemma {:induction false} LockStepKeeps<S>(s: System<S>, s': System<S>, p: Proc, ph': Phase)
    requires Inv(s) && s'.phases == s.phases[p := ph']
    requires KeepsLock(s, s', p, ph') || GainsLock(s, s', p, ph') || (!Holding(ph') && s'.lock == Dropped(s, p).lock)
    ensures LocksHeld(s') && LocksOwned(s')
  {
    assert PhaseOf(s', p) == ph';
    assert forall q | q != p :: PhaseOf(s', q) == PhaseOf(s, q);
  }

  lemma {:induction false} ApplyKeeps<S>(c: Config, pages: JobKey -> Pages<S>, s: System<S>, step: Step<S>)
    requires ValidConfig(c) && Inv(s) && Enabled(s, step)
    ensures Inv(Apply(c, pages, s, step))
  {
    var p, ph, s' := step.p, PhaseOf(s, step.p), Apply(c, pages, s, step);
    match step {
      case Start(_, at) => StartKeeps(s, s', p, ph.key, ph.snapshot);
      case Finish(_, w, found) =>
        FinishKeeps(s, s', p, ph.key, ph.snapshot, ph.run, Loop(pages(ph.key), c, w, found, ph.snapshot.cursor));
      case _ =>
        LockStepKeeps(s, s', p, PhaseOf(s', p));
        QuietKeeps(s, s', p);
    }
  }

  lemma {:induction false} RunKeeps<S>(
      c: Config, pages: JobKey -> Pages<S>, states: seq<System<S>>, steps: seq<Step<S>>, k: nat)
    requires ValidConfig(c) && IsRun(c, pages, states, steps) && Initial(states[0]) && k < |states|
    ensures Inv(states[k])
  {
    if k > 0 {
      RunKeeps(c, pages, states, steps, k - 1);
      ApplyKeeps(c, pages, states[k - 1], steps[k - 1]);
    }
  }

  /** Two processes never hold the same (organization, job) at once. */
  lemma {:induction false} NoTwoHolders<S>(
      c: Config, pages: JobKey -> Pages<S>, states: seq<System<S>>, steps: seq<Step<S>>, k: nat, p: Proc, q: Proc)
    requires ValidConfig(c) && IsRun(c, pages, states, steps) && Initial(states[0]) && k < |states|
    requires Holding(PhaseOf(states[k], p)) && Holding(PhaseOf(states[k], q))
    requires PhaseOf(states[k], p).key == PhaseOf(states[k], q).key
    ensures p == q
  {
    RunKeeps(c, pages, states, steps, k);
  }

  lemma {:induction false} Prefixes<S>(log: seq<Mark<S>>, n: nat)
    requires WellPaired(log) && n <= |log|
    ensures WellPaired(log[..n])
    decreases |log| - n
  {
    if n < |log| {
      Prefixes(log[..|log| - 1], n);
      assert log[..|log| - 1][..n] == log[..n];
    } else {
      assert log[..n] == log;
    }
  }

  /** Two start marks of a well-paired log have different run numbers. */
  lemma {:induction false} StartsDiffer<S>(log: seq<Mark<S>>, i: nat, j: nat)
    requires WellPaired(log) && i < j < |log| && log[i].StartMark? && log[j].StartMark?
    ensures log[i].run != log[j].run
  {
    Prefixes(log, j + 1);
    var upTo := log[..j + 1];
    assert upTo[..j] == log[..j] && upTo[j] == log[j] && log[..j][i] == log[i];
  }

  /** An end mark closes an earlier start mark of its run and key with no mark of that key in between. */
  lemma {:induction false} EndHasStart<S>(log: seq<Mark<S>>, j: nat) returns (i: nat)
    requires WellPaired(log) && j < |log| && log[j].EndMark?
    ensures i < j && log[i] == StartMark(log[j].run, log[j].key)
    ensures forall k | i < k < j :: log[k].key != log[j].key
  {
    Prefixes(log, j + 1);
    var upTo := log[..j + 1];
    assert upTo[..j] == log[..j] && upTo[j] == log[j];
    i := LastIndex(log[..j], log[j].key);
    forall k | i < k < j ensures log[k].key != log[j].key {
      assert log[..j][k] == log[k];
    }
  }

  /** A run has at most one end mark. */
  lemma {:induction false} OneEnd<S>(log: seq<Mark<S>>, j: nat, k: nat)
    requires WellPaired(log) && j < k < |log| && log[j].EndMark? && log[k].EndMark?
    ensures log[j].run != log[k].run
  {
    var a := EndHasStart(log, j);
    var b := EndHasStart(log, k);
    if a < b {
      StartsDiffer(log, a, b);
    } else if b < a {
      StartsDiffer(log, b, a);
    }
  }

  /**
    In every reachable log each end mark closes a start mark of the same run and key, with no other
    mark of that key in between, and no run has two end marks: runs of one job never overlap.
  */
  lemma {:induction false} RunsOfAJobAreSerial<S>(
      c: Config, pages: JobKey -> Pages<S>, states: seq<System<S>>, steps: seq<Step<S>>, k: nat, j: nat)
    returns (i: nat)
    requires ValidConfig(c) && IsRun(c, pages, states, steps) && Initial(states[0]) && k < |states|
    requires j < |states[k].log| && states[k].log[j].EndMark?
    ensures var log := states[k].log;
      && i < j && log[i] == StartMark(log[j].run, log[j].key)
      && (forall m | i < m < j :: log[m].key != log[j].key)
      && (forall m | 0 <= m < |log| && m != j && log[m].EndMark? :: log[m].run != log[j].run)
  {
    RunKeeps(c, pages, states, steps, k);
    var log := states[k].log;
    i := EndHasStart(log, j);
    forall m | 0 <= m < |log| && m != j && log[m].EndMark? ensures log[m].run != log[j].run {
      if m < j { OneEnd(log, m, j); } else { OneEnd(log, j, m); }
    }
  }

  /** A finish step whose write succeeds gives the run its end mark and applies the run to the stored row. */
  lemma {:induction false} FinishMarks<S>(
      c: Config, pages: JobKey -> Pages<S>, s: System<S>, p: Proc, w: World<S>, found: S)
    requires ValidConfig(c) && Inv(s) && Enabled(s, Finish(p, w, found))
    ensures var ph, s' := PhaseOf(s, p), Apply(c, pages, s, Finish(p, w, found));
      var run := Loop(pages(ph.key), c, w, found, ph.snapshot.cursor);
      && s'.log == s.log + [EndMark(ph.run, ph.key, run)]
      && s'.jobs == s.jobs[ph.key :=
           FinishedRow(s.jobs[ph.key], run.ending, run.cursor, c, ph.snapshot.failures, w.finishedAt)]
      && (forall k | 0 <= k < |s.log| && s.log[k].EndMark? :: s.log[k].run != ph.run)
  {
    var ph, s' := PhaseOf(s, p), Apply(c, pages, s, Finish(p, w, found));
    ApplyKeeps(c, pages, s, Finish(p, w, found));
    forall k | 0 <= k < |s.log| && s.log[k].EndMark? ensures s.log[k].run != ph.run {
      assert s'.log[k] == s.log[k] && s'.log[|s.log|].run == ph.run;
      OneEnd(s'.log, k, |s.log|);
    }
  }
}
