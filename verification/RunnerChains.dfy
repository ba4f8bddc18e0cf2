/**
  What a chain of runs of one job adds up to when each run starts from the row the previous one left,
  whatever fails on the way and whatever happens to the store before, between and in the runs.
*/
module RunnerChains {
  import opened Wrappers
  import opened Runner
  import opened RunnerTheorems

  /** The row after the first n runs, each snapshot being the row the previous run left. */
  function JobRowAfter<S>(page: Pages<S>, c: Config, row: JobRow, ses: seq<Session<S>>, n: nat): JobRow
    requires ValidConfig(c) && n <= |ses|
  {
    if n == 0 then row else RowAfterRun(page, c, ses[n - 1], JobRowAfter(page, c, row, ses, n - 1))
  }

  function RunAt<S>(page: Pages<S>, c: Config, row: JobRow, ses: seq<Session<S>>, i: nat): Run<S>
    requires ValidConfig(c) && i < |ses|
  {
    RunOf(page, c, ses[i], JobRowAfter(page, c, row, ses, i))
  }

  function KeptOf<S>(w: World<S>, run: Run<S>): seq<Call> {
    if Recorded(w, run) then run.served else []
  }

  /** The calls of the first n runs, those of runs that recorded no progress dropped. */
  function Kept<S>(page: Pages<S>, c: Config, row: JobRow, ses: seq<Session<S>>, n: nat): seq<Call>
    requires ValidConfig(c) && n <= |ses|
  {
    if n == 0 then []
    else Kept(page, c, row, ses, n - 1) + KeptOf(ses[n - 1].world, RunAt(page, c, row, ses, n - 1))
  }

  /** The i-th run reaches the end of the job and records it. */
  ghost predicate Completes<S>(page: Pages<S>, c: Config, row: JobRow, ses: seq<Session<S>>, i: nat)
    requires ValidConfig(c) && i < |ses|
  {
    Recorded(ses[i].world, RunAt(page, c, row, ses, i)) && RunAt(page, c, row, ses, i).ending == Drained
  }

  /** A chain that ends with its first completed run. */
  ghost predicate ChainCompletes<S>(page: Pages<S>, c: Config, row: JobRow, ses: seq<Session<S>>)
    requires ValidConfig(c)
  {
    && |ses| > 0 && Completes(page, c, row, ses, |ses| - 1)
    && forall i | 0 <= i < |ses| - 1 :: !Completes(page, c, row, ses, i)
  }

  lemma {:induction false} ChainStep<S>(page: Pages<S>, c: Config, row: JobRow, ses: seq<Session<S>>, m: nat, n: nat)
    requires ValidConfig(c) && n == m + 1 <= |ses|
    ensures var mid, run := JobRowAfter(page, c, row, ses, m), RunAt(page, c, row, ses, m);
      && run == RunOf(page, c, ses[m], mid) && JobRowAfter(page, c, row, ses, n) == RowAfterRun(page, c, ses[m], mid)
      && Kept(page, c, row, ses, n) == Kept(page, c, row, ses, m) + KeptOf(ses[m].world, run)
      && (Completes(page, c, row, ses, m) <==> Recorded(ses[m].world, run) && run.ending == Drained)
  {
  }

  // --- turns after turns -------------------------------------------------------------------------------

  /** The turns up to the n-th, then others; whatever happened in between left the store found there. */
  function Continued<S>(turns: nat -> Turn<S>, n: nat, found: S, after: nat -> Turn<S>): nat -> Turn<S> {
    (k: nat) =>
      if k < n then turns(k)
      else if k == n then after(0).(before := (s: S) => after(0).before(found))
      else after(k - n)
  }

  lemma {:induction false} BeforeContinued<S>(
      page: Pages<S>, turns: nat -> Turn<S>, start: Place<S>, n: nat, found: S, after: nat -> Turn<S>,
      joined: nat -> Turn<S>, k: nat)
    requires joined == Continued(turns, n, found, after) && k <= n
    ensures PlaceAt(page, joined, start, k) == PlaceAt(page, turns, start, k)
    ensures k < n ==> AnswerAt(page, joined, start, k) == AnswerAt(page, turns, start, k)
    ensures k < n ==> FoundAt(page, joined, start, k) == FoundAt(page, turns, start, k)
  {
    if k > 0 {
      BeforeContinued(page, turns, start, n, found, after, joined, k - 1);
    }
  }

  lemma {:induction false} TurnContinued<S>(
      turns: nat -> Turn<S>, n: nat, found: S, after: nat -> Turn<S>, joined: nat -> Turn<S>, m: nat, s: S)
    requires joined == Continued(turns, n, found, after)
    ensures joined(n + m).fault == after(m).fault
    ensures joined(n + m).before(s) == after(m).before(if m == 0 then found else s)
  {
  }

  /** Two pages on stores that read alike at their turns leave the same place. */
  lemma {:induction false} SamePage<S>(
      page: Pages<S>, a: nat -> Turn<S>, x: Place<S>, i: nat, b: nat -> Turn<S>, y: Place<S>, j: nat, i': nat, j': nat)
    requires PlaceAt(page, a, x, i).cursor == PlaceAt(page, b, y, j).cursor && a(i).fault == b(j).fault
    requires FoundAt(page, a, x, i) == FoundAt(page, b, y, j) && i' == i + 1 && j' == j + 1
    ensures AnswerAt(page, a, x, i) == AnswerAt(page, b, y, j)
    ensures PlaceAt(page, a, x, i') == PlaceAt(page, b, y, j')
  {
    AttemptNext(page, a, x, i, i');
    AttemptNext(page, b, y, j, j');
  }

  /** The n-th place under the first turns has this cursor and is followed by these other turns on this store. */
  ghost predicate PicksUp<S>(
      page: Pages<S>, start: Place<S>, n: nat, at: Place<S>, after: nat -> Turn<S>, joined: nat -> Turn<S>)
  {
    && PlaceAt(page, joined, start, n).cursor == at.cursor
    && forall m: nat, j: nat | j == n + m ::
         TurnPicksUp(page, start, at, after, joined, m, j)
  }

  ghost predicate TurnPicksUp<S>(
      page: Pages<S>, start: Place<S>, at: Place<S>, after: nat -> Turn<S>, joined: nat -> Turn<S>, m: nat, j: nat)
  {
    && joined(j).fault == after(m).fault
    && FoundAt(page, joined, start, j)
         == after(m).before(if m == 0 then at.store else PlaceAt(page, joined, start, j).store)
  }

  lemma {:induction false} Follows<S>(
      page: Pages<S>, start: Place<S>, at: Place<S>, n: nat, after: nat -> Turn<S>, joined: nat -> Turn<S>,
      m: nat, j: nat)
    requires PicksUp(page, start, n, at, after, joined) && j == n + m
    ensures PlaceAt(page, joined, start, j).cursor == PlaceAt(page, after, at, m).cursor
    ensures m > 0 ==> PlaceAt(page, joined, start, j) == PlaceAt(page, after, at, m)
    ensures AnswerAt(page, joined, start, j) == AnswerAt(page, after, at, m)
    ensures FoundAt(page, joined, start, j) == FoundAt(page, after, at, m)
  {
    assert TurnPicksUp(page, start, at, after, joined, m, j);
    if m > 0 {
      Follows(page, start, at, n, after, joined, m - 1, j - 1);
      assert TurnPicksUp(page, start, at, after, joined, m - 1, j - 1);
      SamePage(page, joined, start, j - 1, after, at, m - 1, j, m);
    }
  }

  lemma {:induction false} AfterContinued<S>(
      page: Pages<S>, turns: nat -> Turn<S>, start: Place<S>, n: nat, at: Place<S>, after: nat -> Turn<S>,
      joined: nat -> Turn<S>, m: nat)
    requires joined == Continued(turns, n, at.store, after) && PlaceAt(page, turns, start, n).cursor == at.cursor
    ensures PlaceAt(page, joined, start, n + m).cursor == PlaceAt(page, after, at, m).cursor
    ensures m > 0 ==> PlaceAt(page, joined, start, n + m) == PlaceAt(page, after, at, m)
    ensures AnswerAt(page, joined, start, n + m) == AnswerAt(page, after, at, m)
    ensures FoundAt(page, joined, start, n + m) == FoundAt(page, after, at, m)
  {
    BeforeContinued(page, turns, start, n, at.store, after, joined, n);
    forall i: nat, j: nat | j == n + i ensures TurnPicksUp(page, start, at, after, joined, i, j) {
      TurnContinued(turns, n, at.store, after, joined, i, PlaceAt(page, joined, start, j).store);
    }
    Follows(page, start, at, n, after, joined, m, n + m);
  }

  // --- one walk ------------------------------------------------------------------------------------------

  /** The calls are the first pages of a drain, none of them its last, and it goes on at the cursor. */
  ghost predicate OnDrain<S>(
      page: Pages<S>, turns: nat -> Turn<S>, start: Place<S>, calls: seq<Call>, cursor: Cursor)
  {
    && PlaceAt(page, turns, start, |calls|).cursor == cursor
    && AreCalls(page, turns, start, calls) && GoesOn(page, turns, start, |calls|)
  }

  /** The pages of a drain that meets these turns: n of them, the last one reporting the end. */
  ghost predicate DrainAmong<S>(page: Pages<S>, turns: nat -> Turn<S>, start: Place<S>, n: nat) {
    && n >= 1 && GoesOn(page, turns, start, n - 1)
    && AnswerAt(page, turns, start, n - 1).Some? && AnswerAt(page, turns, start, n - 1).value.done
  }

  lemma {:induction false} JoinedCall<S>(
      page: Pages<S>, turns: nat -> Turn<S>, start: Place<S>, calls: seq<Call>, at: Place<S>, after: nat -> Turn<S>,
      joined: nat -> Turn<S>, more: seq<Call>, k: nat)
    requires OnDrain(page, turns, start, calls, at.cursor) && joined == Continued(turns, |calls|, at.store, after)
    requires AreCalls(page, after, at, more) && k < |calls + more|
    ensures (calls + more)[k].cursor == PlaceAt(page, joined, start, k).cursor
    ensures AnswerAt(page, joined, start, k) == Some((calls + more)[k].result)
  {
    var m := |calls|;
    if k < m {
      BeforeContinued(page, turns, start, m, at.store, after, joined, k);
      assert (calls + more)[k] == calls[k];
    } else {
      AfterContinued(page, turns, start, m, at, after, joined, k - m);
      assert (calls + more)[k] == more[k - m];
    }
  }

  lemma {:induction false} JoinedGoesOn<S>(
      page: Pages<S>, turns: nat -> Turn<S>, start: Place<S>, m: nat, at: Place<S>, after: nat -> Turn<S>,
      joined: nat -> Turn<S>, n: nat)
    requires GoesOn(page, turns, start, m) && joined == Continued(turns, m, at.store, after)
    requires PlaceAt(page, turns, start, m).cursor == at.cursor && GoesOn(page, after, at, n)
    ensures GoesOn(page, joined, start, m + n)
  {
    forall k: nat | k < m + n
      ensures AnswerAt(page, joined, start, k).Some? && !AnswerAt(page, joined, start, k).value.done
    {
      if k < m {
        BeforeContinued(page, turns, start, m, at.store, after, joined, k);
      } else {
        AfterContinued(page, turns, start, m, at, after, joined, k - m);
      }
    }
  }

  lemma {:induction false} JoinedCalls<S>(
      page: Pages<S>, turns: nat -> Turn<S>, start: Place<S>, calls: seq<Call>, at: Place<S>, after: nat -> Turn<S>,
      joined: nat -> Turn<S>, more: seq<Call>, n: nat)
    requires OnDrain(page, turns, start, calls, at.cursor) && joined == Continued(turns, |calls|, at.store, after)
    requires AreCalls(page, after, at, more) && GoesOn(page, after, at, n)
    ensures AreCalls(page, joined, start, calls + more) && GoesOn(page, joined, start, |calls| + n)
  {
    JoinedGoesOn(page, turns, start, |calls|, at, after, joined, n);
    forall k: nat | k < |calls + more|
      ensures (calls + more)[k].cursor == PlaceAt(page, joined, start, k).cursor
              && AnswerAt(page, joined, start, k) == Some((calls + more)[k].result)
    {
      JoinedCall(page, turns, start, calls, at, after, joined, more, k);
    }
  }

  /** A run that does not complete: its recorded pages go on with the drain, a lost run is only a disturbance. */
  lemma {:induction false} RunOnDrain<S>(
      page: Pages<S>, c: Config, se: Session<S>, row: JobRow, run: Run<S>, turns: nat -> Turn<S>, start: Place<S>,
      calls: seq<Call>, joined: nat -> Turn<S>)
    requires ValidConfig(c) && run == RunOf(page, c, se, row) && OnDrain(page, turns, start, calls, row.cursor)
    requires joined == Continued(turns, |calls|, se.store, se.world.turns)
    requires !(Recorded(se.world, run) && run.ending == Drained)
    ensures OnDrain(page, joined, start, calls + KeptOf(se.world, run), RowAfterRun(page, c, se, row).cursor)
  {
    var at, kept := Place(se.store, row.cursor), KeptOf(se.world, run);
    RunMeans(page, c, se.world, se.store, row.cursor);
    RowMoves(page, c, se, row, run);
    JoinedCalls(page, turns, start, calls, at, se.world.turns, joined, kept, |kept|);
    AfterContinued(page, turns, start, |calls|, at, se.world.turns, joined, |kept|);
  }

  lemma {:induction false} DrainedRun<S>(
      page: Pages<S>, c: Config, se: Session<S>, row: JobRow, run: Run<S>, n: nat)
    requires ValidConfig(c) && run == RunOf(page, c, se, row) && run.ending == Drained && n + 1 == |run.served|
    ensures var at := Place(se.store, row.cursor);
      && AreCalls(page, se.world.turns, at, run.served) && GoesOn(page, se.world.turns, at, n)
      && AnswerAt(page, se.world.turns, at, n) == Some(run.served[n].result) && run.served[n].result.done
      && PlaceAt(page, se.world.turns, at, n + 1) == Place(run.store, run.cursor)
  {
    RunMeans(page, c, se.world, se.store, row.cursor);
    CallAnswered(page, se.world.turns, Place(se.store, row.cursor), run.served, n);
  }

  lemma {:induction false} JoinedEnd<S>(
      page: Pages<S>, turns: nat -> Turn<S>, start: Place<S>, calls: seq<Call>, at: Place<S>, after: nat -> Turn<S>,
      joined: nat -> Turn<S>, more: seq<Call>, n: nat, m: nat, all: seq<Call>)
    requires OnDrain(page, turns, start, calls, at.cursor) && joined == Continued(turns, |calls|, at.store, after)
    requires AreCalls(page, after, at, more) && GoesOn(page, after, at, n)
    requires AnswerAt(page, after, at, n).Some? && AnswerAt(page, after, at, n).value.done
    requires all == calls + more && |more| == n + 1 && m == |calls| + n
    ensures DrainAmong(page, joined, start, m + 1) && AreCalls(page, joined, start, all)
    ensures PlaceAt(page, joined, start, m + 1) == PlaceAt(page, after, at, n + 1)
  {
    JoinedCalls(page, turns, start, calls, at, after, joined, more, n);
    EndContinued(page, turns, start, |calls|, at, after, joined, n, m);
    DrainNext(page, joined, start, m, m + 1, AnswerAt(page, after, at, n).value);
  }

  lemma {:induction false} EndContinued<S>(
      page: Pages<S>, turns: nat -> Turn<S>, start: Place<S>, b: nat, at: Place<S>, after: nat -> Turn<S>,
      joined: nat -> Turn<S>, n: nat, m: nat)
    requires joined == Continued(turns, b, at.store, after) && PlaceAt(page, turns, start, b).cursor == at.cursor
    requires m == b + n
    ensures AnswerAt(page, joined, start, m) == AnswerAt(page, after, at, n)
    ensures PlaceAt(page, joined, start, m + 1) == PlaceAt(page, after, at, n + 1)
  {
    AfterContinued(page, turns, start, b, at, after, joined, n);
    AfterContinued(page, turns, start, b, at, after, joined, n + 1);
  }

  /** The next page of a drain ends it or goes on with it. */
  lemma {:induction false} DrainNext<S>(
      page: Pages<S>, turns: nat -> Turn<S>, start: Place<S>, n: nat, n': nat, r: PageResult)
    requires GoesOn(page, turns, start, n) && n' == n + 1 && AnswerAt(page, turns, start, n) == Some(r)
    ensures if r.done then DrainAmong(page, turns, start, n') else GoesOn(page, turns, start, n')
  {
  }

  /** A run that completes ends the drain, with the store the drain leaves. */
  lemma {:induction false} CompletedEndsDrain<S>(
      page: Pages<S>, c: Config, se: Session<S>, row: JobRow, run: Run<S>, turns: nat -> Turn<S>, start: Place<S>,
      calls: seq<Call>, joined: nat -> Turn<S>, all: seq<Call>, n: nat)
    requires ValidConfig(c) && run == RunOf(page, c, se, row) && OnDrain(page, turns, start, calls, row.cursor)
    requires joined == Continued(turns, |calls|, se.store, se.world.turns)
    requires run.ending == Drained && all == calls + run.served && |run.served| > 0 && n == |all|
    ensures DrainAmong(page, joined, start, n) && AreCalls(page, joined, start, all)
    ensures PlaceAt(page, joined, start, n) == Place(run.store, run.cursor)
  {
    var last := |run.served| - 1;
    DrainedRun(page, c, se, row, run, last);
    JoinedEnd(page, turns, start, calls, Place(se.store, row.cursor), se.world.turns, joined, run.served, last,
              n - 1, all);
  }

  /** What the chain's kept pages met: the turns of its runs, lost runs being part of what happened before. */
  function ChainTurns<S>(page: Pages<S>, c: Config, row: JobRow, ses: seq<Session<S>>, n: nat): nat -> Turn<S>
    requires ValidConfig(c) && n <= |ses|
  {
    if n == 0 then Still()
    else
      Continued(ChainTurns(page, c, row, ses, n - 1), |Kept(page, c, row, ses, n - 1)|,
                ses[n - 1].store, ses[n - 1].world.turns)
  }

  /** Nothing happens around the pages. */
  function Still<S>(): nat -> Turn<S> {
    (i: nat) => Turn(0, false, false, (s: S) => s)
  }

  lemma {:induction false} TurnsStep<S>(
      page: Pages<S>, c: Config, row: JobRow, ses: seq<Session<S>>, m: nat, n: nat, calls: seq<Call>)
    requires ValidConfig(c) && n == m + 1 <= |ses| && calls == Kept(page, c, row, ses, m)
    ensures ChainTurns(page, c, row, ses, n)
         == Continued(ChainTurns(page, c, row, ses, m), |calls|, ses[m].store, ses[m].world.turns)
  {
  }

  lemma {:induction false} UncompletedOnDrain<S>(
      page: Pages<S>, c: Config, row: JobRow, ses: seq<Session<S>>, store: S, n: nat)
    requires ValidConfig(c) && n <= |ses| && forall i | 0 <= i < n :: !Completes(page, c, row, ses, i)
    ensures OnDrain(page, ChainTurns(page, c, row, ses, n), Place(store, row.cursor), Kept(page, c, row, ses, n),
                    JobRowAfter(page, c, row, ses, n).cursor)
  {
    if n > 0 {
      var m := n - 1;
      UncompletedOnDrain(page, c, row, ses, store, m);
      var calls := Kept(page, c, row, ses, m);
      ChainStep(page, c, row, ses, m, n);
      TurnsStep(page, c, row, ses, m, n, calls);
      RunOnDrain(page, c, ses[m], JobRowAfter(page, c, row, ses, m), RunAt(page, c, row, ses, m),
                 ChainTurns(page, c, row, ses, m), Place(store, row.cursor), calls, ChainTurns(page, c, row, ses, n));
    }
  }

  lemma {:induction false} LastRunEndsDrain<S>(
      page: Pages<S>, c: Config, row: JobRow, ses: seq<Session<S>>, store: S, m: nat, n: nat, mid: JobRow, run: Run<S>,
      turns: nat -> Turn<S>, all: seq<Call>)
    requires ValidConfig(c) && n == m + 1 <= |ses| && Completes(page, c, row, ses, m)
    requires forall i | 0 <= i < m :: !Completes(page, c, row, ses, i)
    requires mid == JobRowAfter(page, c, row, ses, m) && run == RunAt(page, c, row, ses, m)
    requires turns == ChainTurns(page, c, row, ses, n) && all == Kept(page, c, row, ses, n)
    ensures DrainAmong(page, turns, Place(store, row.cursor), |all|)
    ensures AreCalls(page, turns, Place(store, row.cursor), all)
    ensures PlaceAt(page, turns, Place(store, row.cursor), |all|).store == run.store
    ensures JobRowAfter(page, c, row, ses, n).cursor == CURSOR_START && JobRowAfter(page, c, row, ses, n).failures == 0
  {
    var calls := Kept(page, c, row, ses, m);
    UncompletedOnDrain(page, c, row, ses, store, m);
    ChainStep(page, c, row, ses, m, n);
    TurnsStep(page, c, row, ses, m, n, calls);
    RowMoves(page, c, ses[m], mid, run);
    RunMeans(page, c, ses[m].world, ses[m].store, mid.cursor);
    CompletedEndsDrain(page, c, ses[m], mid, run, ChainTurns(page, c, row, ses, m), Place(store, row.cursor), calls,
                       turns, all, |all|);
  }

  /**
    A chain from the start cursor that ends with its first completed run: the calls of the runs that
    recorded their progress are, in order, those of one unbounded drain that meets what those runs met, and
    the store it leaves is the drain's. Failed runs, lost terminal writes and other writers only change what
    the drain meets. The row is back at the start cursor with no failures.
  */
  lemma {:induction false} ChainIsOneDrain<S>(
      page: Pages<S>, c: Config, row: JobRow, ses: seq<Session<S>>, store: S)
    requires ValidConfig(c) && row.cursor == CURSOR_START && ChainCompletes(page, c, row, ses)
    ensures var start, calls := Place(store, CURSOR_START), Kept(page, c, row, ses, |ses|);
      var turns, last := ChainTurns(page, c, row, ses, |ses|), JobRowAfter(page, c, row, ses, |ses|);
      && DrainAmong(page, turns, start, |calls|) && AreCalls(page, turns, start, calls)
      && PlaceAt(page, turns, start, |calls|).store == RunAt(page, c, row, ses, |ses| - 1).store
      && last.cursor == CURSOR_START && last.failures == 0
  {
    var m := |ses| - 1;
    LastRunEndsDrain(page, c, row, ses, store, m, |ses|, JobRowAfter(page, c, row, ses, m),
                     RunAt(page, c, row, ses, m), ChainTurns(page, c, row, ses, |ses|), Kept(page, c, row, ses, |ses|));
  }

  // --- the calls as a walk ---------------------------------------------------------------------------------

  /** Each call continues where the previous one's answer pointed. */
  ghost predicate Linked(calls: seq<Call>, start: Cursor, end: Cursor) {
    if calls == [] then start == end
    else
      var last := calls[|calls| - 1];
      Linked(calls[..|calls| - 1], start, last.cursor) && last.result.nextCursor == end
  }

  ghost predicate NoneDone(calls: seq<Call>) {
    forall i | 0 <= i < |calls| :: !calls[i].result.done
  }

  /** Only the last call reports the end. */
  ghost predicate DoneAtLast(calls: seq<Call>) {
    calls != [] && NoneDone(calls[..|calls| - 1]) && calls[|calls| - 1].result.done
  }

  lemma {:induction false} CallsLinked<S>(
      page: Pages<S>, turns: nat -> Turn<S>, start: Place<S>, calls: seq<Call>, n: nat)
    requires AreCalls(page, turns, start, calls) && n == |calls|
    ensures Linked(calls, start.cursor, PlaceAt(page, turns, start, n).cursor)
  {
    if n > 0 {
      var m := n - 1;
      CallsLinked(page, turns, start, calls[..m], m);
      AttemptNext(page, turns, start, m, n);
      assert calls[m].cursor == PlaceAt(page, turns, start, m).cursor;
    }
  }

  lemma {:induction false} CallsNotDone<S>(
      page: Pages<S>, turns: nat -> Turn<S>, start: Place<S>, calls: seq<Call>, n: nat)
    requires AreCalls(page, turns, start, calls) && GoesOn(page, turns, start, n) && n <= |calls|
    ensures NoneDone(calls[..n])
  {
    forall i | 0 <= i < n ensures !calls[..n][i].result.done {
      CallAnswered(page, turns, start, calls, i);
    }
  }

  /** As long as no run has completed, the kept calls lead from the first cursor to the stored one. */
  lemma {:induction false} KeptUncompleted<S>(
      page: Pages<S>, c: Config, row: JobRow, ses: seq<Session<S>>, store: S, n: nat)
    requires ValidConfig(c) && n <= |ses| && forall i | 0 <= i < n :: !Completes(page, c, row, ses, i)
    ensures Linked(Kept(page, c, row, ses, n), row.cursor, JobRowAfter(page, c, row, ses, n).cursor)
    ensures NoneDone(Kept(page, c, row, ses, n))
  {
    var turns, start, calls := ChainTurns(page, c, row, ses, n), Place(store, row.cursor), Kept(page, c, row, ses, n);
    UncompletedOnDrain(page, c, row, ses, store, n);
    CallsLinked(page, turns, start, calls, |calls|);
    CallsNotDone(page, turns, start, calls, |calls|);
    assert calls[..|calls|] == calls;
  }

  /**
    Seen without the store: the kept calls of such a chain form one walk from the start cursor, each call
    continuing where the previous answer pointed and only the last reporting the end.
  */
  lemma {:induction false} KeptCallsAreOneWalk<S>(page: Pages<S>, c: Config, row: JobRow, ses: seq<Session<S>>)
    requires ValidConfig(c) && row.cursor == CURSOR_START && ChainCompletes(page, c, row, ses)
    ensures var calls := Kept(page, c, row, ses, |ses|);
      DoneAtLast(calls) && Linked(calls, CURSOR_START, calls[|calls| - 1].result.nextCursor)
  {
    var store, turns := ses[0].store, ChainTurns(page, c, row, ses, |ses|);
    var start, calls := Place(store, CURSOR_START), Kept(page, c, row, ses, |ses|);
    ChainIsOneDrain(page, c, row, ses, store);
    CallsLinked(page, turns, start, calls, |calls|);
    CallsNotDone(page, turns, start, calls, |calls| - 1);
    CallAnswered(page, turns, start, calls, |calls| - 1);
    AttemptNext(page, turns, start, |calls| - 1, |calls|);
  }

  // --- what the pages of a chain meet ------------------------------------------------------------------------

  /** Whatever happens between two pages leaves the store related in this way. */
  ghost predicate Meets<S>(
      page: Pages<S>, turns: nat -> Turn<S>, start: Place<S>, n: nat, rel: (S, S) -> bool)
  {
    forall k: nat | k < n :: rel(PlaceAt(page, turns, start, k).store, FoundAt(page, turns, start, k))
  }

  ghost predicate Preorder<S(!new)>(rel: (S, S) -> bool) {
    (forall s :: rel(s, s)) && forall a, b, c :: rel(a, b) && rel(b, c) ==> rel(a, c)
  }

  ghost predicate TurnsRelate<S(!new)>(w: World<S>, rel: (S, S) -> bool) {
    forall i: nat, s: S :: rel(s, w.turns(i).before(s))
  }

  /** Before the pages of its runs, and between the runs, the store only changes in this way. */
  ghost predicate ChainRelates<S(!new)>(
      page: Pages<S>, c: Config, row: JobRow, ses: seq<Session<S>>, rel: (S, S) -> bool)
    requires ValidConfig(c)
  {
    && (forall i | 0 <= i < |ses| :: TurnsRelate(ses[i].world, rel))
    && forall i, j | 0 <= i < j < |ses| && j == i + 1 :: rel(RunAt(page, c, row, ses, i).store, ses[j].store)
  }

  /** The first n runs all record their progress. */
  ghost predicate AllRecorded<S>(page: Pages<S>, c: Config, row: JobRow, ses: seq<Session<S>>, n: nat)
    requires ValidConfig(c) && n <= |ses|
  {
    forall i | 0 <= i < n :: Recorded(ses[i].world, RunAt(page, c, row, ses, i))
  }

  lemma {:induction false} RunMeets<S(!new)>(
      page: Pages<S>, turns: nat -> Turn<S>, start: Place<S>, calls: seq<Call>, at: Place<S>, w: World<S>,
      joined: nat -> Turn<S>, n: nat, m: nat, rel: (S, S) -> bool)
    requires PlaceAt(page, turns, start, |calls|).cursor == at.cursor && Preorder(rel) && TurnsRelate(w, rel)
    requires joined == Continued(turns, |calls|, at.store, w.turns) && m == |calls| + n
    requires Meets(page, turns, start, |calls|, rel) && rel(PlaceAt(page, turns, start, |calls|).store, at.store)
    ensures Meets(page, joined, start, m, rel)
    ensures rel(PlaceAt(page, joined, start, m).store, PlaceAt(page, w.turns, at, n).store)
  {
    var b := |calls|;
    forall k: nat | k < m ensures rel(PlaceAt(page, joined, start, k).store, FoundAt(page, joined, start, k)) {
      if k < b {
        BeforeContinued(page, turns, start, b, at.store, w.turns, joined, k);
      } else {
        AfterContinued(page, turns, start, b, at, w.turns, joined, k - b);
        BeforeContinued(page, turns, start, b, at.store, w.turns, joined, b);
        var s := PlaceAt(page, w.turns, at, k - b).store;
        assert rel(s, w.turns(k - b).before(s));
      }
    }
    AfterContinued(page, turns, start, b, at, w.turns, joined, n);
    BeforeContinued(page, turns, start, b, at.store, w.turns, joined, b);
  }

  lemma {:induction false} RunsMeet<S(!new)>(
      page: Pages<S>, c: Config, row: JobRow, ses: seq<Session<S>>, n: nat, rel: (S, S) -> bool)
    requires ValidConfig(c) && Preorder(rel) && ChainRelates(page, c, row, ses, rel) && 0 < n <= |ses|
    requires AllRecorded(page, c, row, ses, n) && forall i | 0 <= i < n - 1 :: !Completes(page, c, row, ses, i)
    ensures var turns, start := ChainTurns(page, c, row, ses, n), Place(ses[0].store, row.cursor);
      && Meets(page, turns, start, |Kept(page, c, row, ses, n)|, rel)
      && rel(PlaceAt(page, turns, start, |Kept(page, c, row, ses, n)|).store, RunAt(page, c, row, ses, n - 1).store)
  {
    var m := n - 1;
    var start, calls := Place(ses[0].store, row.cursor), Kept(page, c, row, ses, m);
    var mid, run := JobRowAfter(page, c, row, ses, m), RunAt(page, c, row, ses, m);
    var turns := ChainTurns(page, c, row, ses, m);
    if m > 0 { RunsMeet(page, c, row, ses, m, rel); }
    UncompletedOnDrain(page, c, row, ses, ses[0].store, m);
    ChainStep(page, c, row, ses, m, n);
    TurnsStep(page, c, row, ses, m, n, calls);
    RunMeans(page, c, ses[m].world, ses[m].store, mid.cursor);
    RunMeets(page, turns, start, calls, Place(ses[m].store, mid.cursor), ses[m].world, ChainTurns(page, c, row, ses, n),
             |run.served|, |Kept(page, c, row, ses, n)|, rel);
  }

  /** So a chain of partial runs and a completed one meets, page by page, only what its world and its gaps allow. */
  lemma {:induction false} ChainMeets<S(!new)>(
      page: Pages<S>, c: Config, row: JobRow, ses: seq<Session<S>>, rel: (S, S) -> bool)
    requires ValidConfig(c) && Preorder(rel) && ChainRelates(page, c, row, ses, rel)
    requires ChainCompletes(page, c, row, ses) && AllRecorded(page, c, row, ses, |ses|)
    ensures Meets(page, ChainTurns(page, c, row, ses, |ses|), Place(ses[0].store, row.cursor),
                  |Kept(page, c, row, ses, |ses|)|, rel)
  {
    RunsMeet(page, c, row, ses, |ses|, rel);
  }

  // --- a drain that nothing disturbs ---------------------------------------------------------------------------

  /** The pages of a drain that nothing interrupts. */
  ghost predicate FullDrain<S>(page: Pages<S>, start: Place<S>, n: nat) {
    DrainAmong(page, Still(), start, n)
  }

  lemma {:induction false} DrainNotShorter<S>(page: Pages<S>, turns: nat -> Turn<S>, start: Place<S>, m: nat, n: nat)
    requires DrainAmong(page, turns, start, m) && DrainAmong(page, turns, start, n)
    ensures m >= n
  {
    var last := AnswerAt(page, turns, start, m - 1);
    assert last.Some? && last.value.done;
  }

  /** A drain has one length. */
  lemma {:induction false} DrainUnique<S>(page: Pages<S>, turns: nat -> Turn<S>, start: Place<S>, m: nat, n: nat)
    requires DrainAmong(page, turns, start, m) && DrainAmong(page, turns, start, n)
    ensures m == n
  {
    DrainNotShorter(page, turns, start, m, n);
    DrainNotShorter(page, turns, start, n, m);
  }

  lemma {:induction false} UndisturbedPlace<S>(
      page: Pages<S>, turns: nat -> Turn<S>, start: Place<S>, n: nat, k: nat)
    requires k <= n && forall i: nat | i < n :: FoundAt(page, turns, start, i) == PlaceAt(page, turns, start, i).store
    requires forall i: nat | i < n :: AnswerAt(page, turns, start, i).Some?
    ensures PlaceAt(page, turns, start, k) == PlaceAt(page, Still(), start, k)
    ensures k < n ==> AnswerAt(page, turns, start, k) == AnswerAt(page, Still(), start, k)
  {
    if k > 0 { UndisturbedPlace(page, turns, start, n, k - 1); }
    if k < n {
      assert FoundAt(page, turns, start, k) == PlaceAt(page, turns, start, k).store
             && AnswerAt(page, turns, start, k).Some?;
    }
  }

  lemma {:induction false} UndisturbedDrain<S>(
      page: Pages<S>, turns: nat -> Turn<S>, start: Place<S>, calls: seq<Call>)
    requires DrainAmong(page, turns, start, |calls|) && AreCalls(page, turns, start, calls)
    requires forall i: nat | i < |calls| :: FoundAt(page, turns, start, i) == PlaceAt(page, turns, start, i).store
    ensures FullDrain(page, start, |calls|) && AreCalls(page, Still(), start, calls)
    ensures PlaceAt(page, turns, start, |calls|) == PlaceAt(page, Still(), start, |calls|)
  {
    var n := |calls|;
    forall i: nat | i < n ensures AnswerAt(page, turns, start, i).Some? {
      CallAnswered(page, turns, start, calls, i);
    }
    forall k: nat | k < n
      ensures PlaceAt(page, turns, start, k) == PlaceAt(page, Still(), start, k)
      ensures AnswerAt(page, turns, start, k) == AnswerAt(page, Still(), start, k)
    {
      UndisturbedPlace(page, turns, start, n, k);
    }
    UndisturbedPlace(page, turns, start, n, n);
  }

  /**
    Partial runs and a completed one with nothing happening to the store in, before and between them make
    exactly the calls, and leave the store, of the one drain that nothing interrupts.
  */
  lemma {:induction false} QuietChainIsOneDrain<S(!new)>(
      page: Pages<S>, c: Config, row: JobRow, ses: seq<Session<S>>, same: (S, S) -> bool)
    requires ValidConfig(c) && row.cursor == CURSOR_START
    requires ChainCompletes(page, c, row, ses) && AllRecorded(page, c, row, ses, |ses|)
    requires (forall a, b :: same(a, b) <==> a == b) && ChainRelates(page, c, row, ses, same)
    ensures var start, calls := Place(ses[0].store, CURSOR_START), Kept(page, c, row, ses, |ses|);
      && FullDrain(page, start, |calls|) && AreCalls(page, Still(), start, calls)
      && (forall n: nat | FullDrain(page, start, n) :: n == |calls|)
      && RunAt(page, c, row, ses, |ses| - 1).store == PlaceAt(page, Still(), start, |calls|).store
  {
    var turns, start := ChainTurns(page, c, row, ses, |ses|), Place(ses[0].store, CURSOR_START);
    var calls, left := Kept(page, c, row, ses, |ses|), RunAt(page, c, row, ses, |ses| - 1).store;
    ChainMeets(page, c, row, ses, same);
    ChainIsOneDrain(page, c, row, ses, ses[0].store);
    UndisturbedDrain(page, turns, start, calls);
    forall n: nat | FullDrain(page, start, n) ensures n == |calls| {
      DrainUnique(page, Still<S>(), start, n, |calls|);
    }
  }

  // --- jobs whose answers are steered by the cursor -----------------------------------------------------------------

  function Answer<S>(page: Pages<S>, store: S, cursor: Cursor): Option<PageResult> {
    var outcome := page(store, cursor);
    if outcome.None? then None else Some(outcome.value.1)
  }

  /** What of an answer is compared, at least where it points and whether it is the last. */
  ghost predicate Steering(view: PageResult -> PageResult) {
    forall a, b :: view(a) == view(b) ==> a.nextCursor == b.nextCursor && a.done == b.done
  }

  ghost predicate Alike(view: PageResult -> PageResult, a: Option<PageResult>, b: Option<PageResult>) {
    a.Some? == b.Some? && (a.Some? ==> view(a.value) == view(b.value))
  }

  /** On these stores the job answers the same cursor alike, and it leaves such a store. */
  ghost predicate AnswersAlike<S(!new)>(page: Pages<S>, good: S -> bool, view: PageResult -> PageResult) {
    && (forall s: S, t: S, cursor: Cursor :: AlikeOn(page, good, view, s, t, cursor))
    && forall s: S, cursor: Cursor :: LeavesGood(page, good, s, cursor)
  }

  ghost predicate AlikeOn<S>(
      page: Pages<S>, good: S -> bool, view: PageResult -> PageResult, s: S, t: S, cursor: Cursor)
  {
    good(s) && good(t) ==> Alike(view, Answer(page, s, cursor), Answer(page, t, cursor))
  }

  ghost predicate LeavesGood<S>(page: Pages<S>, good: S -> bool, s: S, cursor: Cursor) {
    good(s) && page(s, cursor).Some? ==> good(page(s, cursor).value.0)
  }

  ghost predicate StaysGood<S(!new)>(turns: nat -> Turn<S>, good: S -> bool) {
    forall k: nat, s: S :: TurnKeeps(turns, good, k, s)
  }

  ghost predicate TurnKeeps<S>(turns: nat -> Turn<S>, good: S -> bool, k: nat, s: S) {
    good(s) ==> good(turns(k).before(s))
  }

  lemma {:induction false} GoodPlaces<S(!new)>(
      page: Pages<S>, good: S -> bool, view: PageResult -> PageResult, turns: nat -> Turn<S>, start: Place<S>, n: nat)
    requires AnswersAlike(page, good, view) && StaysGood(turns, good) && good(start.store)
    ensures good(PlaceAt(page, turns, start, n).store) && good(FoundAt(page, turns, start, n))
  {
    if n > 0 {
      GoodPlaces(page, good, view, turns, start, n - 1);
      AttemptNext(page, turns, start, n - 1, n);
      var at := PlaceAt(page, turns, start, n - 1);
      assert LeavesGood(page, good, FoundAt(page, turns, start, n - 1), at.cursor);
    }
    assert TurnKeeps(turns, good, n, PlaceAt(page, turns, start, n).store);
  }

  ghost predicate AnsweredAlike<S>(
      page: Pages<S>, view: PageResult -> PageResult, a: nat -> Turn<S>, x: Place<S>, b: nat -> Turn<S>, y: Place<S>,
      n: nat)
  {
    forall k: nat | k < n :: StepAlike(page, view, a, x, b, y, k)
  }

  ghost predicate StepAlike<S>(
      page: Pages<S>, view: PageResult -> PageResult, a: nat -> Turn<S>, x: Place<S>, b: nat -> Turn<S>, y: Place<S>,
      k: nat)
  {
    && PlaceAt(page, a, x, k).cursor == PlaceAt(page, b, y, k).cursor
    && Alike(view, AnswerAt(page, a, x, k), AnswerAt(page, b, y, k))
  }

  /** The first walk's k-th page succeeds, and no error interrupts the second's. */
  ghost predicate BothGo<S>(page: Pages<S>, a: nat -> Turn<S>, x: Place<S>, b: nat -> Turn<S>, k: nat) {
    AnswerAt(page, a, x, k).Some? && !b(k).fault
  }

  /** Two walks over such stores from one cursor go through the same cursors as long as both succeed. */
  lemma {:induction false} SameSteps<S(!new)>(
      page: Pages<S>, good: S -> bool, view: PageResult -> PageResult, a: nat -> Turn<S>, x: Place<S>,
      b: nat -> Turn<S>, y: Place<S>, n: nat)
    requires AnswersAlike(page, good, view) && Steering(view) && x.cursor == y.cursor
    requires StaysGood(a, good) && good(x.store) && StaysGood(b, good) && good(y.store)
    requires forall k: nat | k < n :: BothGo(page, a, x, b, k)
    ensures AnsweredAlike(page, view, a, x, b, y, n)
    ensures PlaceAt(page, a, x, n).cursor == PlaceAt(page, b, y, n).cursor
  {
    if n > 0 {
      var m := n - 1;
      SameSteps(page, good, view, a, x, b, y, m);
      GoodPlaces(page, good, view, a, x, m);
      GoodPlaces(page, good, view, b, y, m);
      assert BothGo(page, a, x, b, m);
      StepsAlike(page, good, view, a, x, b, y, m, n);
    }
  }

  lemma {:induction false} StepsAlike<S(!new)>(
      page: Pages<S>, good: S -> bool, view: PageResult -> PageResult, a: nat -> Turn<S>, x: Place<S>,
      b: nat -> Turn<S>, y: Place<S>, m: nat, n: nat)
    requires AnswersAlike(page, good, view) && Steering(view) && n == m + 1
    requires good(FoundAt(page, a, x, m)) && good(FoundAt(page, b, y, m))
    requires PlaceAt(page, a, x, m).cursor == PlaceAt(page, b, y, m).cursor
    requires AnswerAt(page, a, x, m).Some? && !b(m).fault
    ensures StepAlike(page, view, a, x, b, y, m)
    ensures PlaceAt(page, a, x, n).cursor == PlaceAt(page, b, y, n).cursor
  {
    var cursor := PlaceAt(page, a, x, m).cursor;
    AttemptNext(page, a, x, m, n);
    AttemptNext(page, b, y, m, n);
    assert AnswerAt(page, a, x, m) == Answer(page, FoundAt(page, a, x, m), cursor);
    assert AnswerAt(page, b, y, m) == Answer(page, FoundAt(page, b, y, m), cursor);
    assert AlikeOn(page, good, view, FoundAt(page, a, x, m), FoundAt(page, b, y, m), cursor);
  }

  /** Every run of the chain finds such a store and meets only turns that keep it one. */
  ghost predicate ChainStaysGood<S(!new)>(ses: seq<Session<S>>, good: S -> bool) {
    forall i | 0 <= i < |ses| :: good(ses[i].store) && StaysGood(ses[i].world.turns, good)
  }

  lemma {:induction false} TurnsStayGood<S(!new)>(
      page: Pages<S>, c: Config, row: JobRow, ses: seq<Session<S>>, good: S -> bool, n: nat)
    requires ValidConfig(c) && ChainStaysGood(ses, good) && n <= |ses|
    ensures StaysGood(ChainTurns(page, c, row, ses, n), good)
  {
    if n > 0 {
      var m := n - 1;
      TurnsStayGood(page, c, row, ses, good, m);
      ContinuedStaysGood(ChainTurns(page, c, row, ses, m), |Kept(page, c, row, ses, m)|, ses[m].store,
                         ses[m].world.turns, ChainTurns(page, c, row, ses, n), good);
    }
  }

  lemma {:induction false} ContinuedStaysGood<S(!new)>(
      turns: nat -> Turn<S>, n: nat, found: S, after: nat -> Turn<S>, joined: nat -> Turn<S>, good: S -> bool)
    requires joined == Continued(turns, n, found, after) && good(found)
    requires StaysGood(turns, good) && StaysGood(after, good)
    ensures StaysGood(joined, good)
  {
    forall k: nat, s: S ensures TurnKeeps(joined, good, k, s) {
      if k < n {
        assert TurnKeeps(turns, good, k, s);
      } else {
        TurnContinued(turns, n, found, after, joined, k - n, s);
        assert TurnKeeps(after, good, k - n, s) && TurnKeeps(after, good, 0, found);
      }
    }
  }

  /**
    For such a job the kept calls of a whole chain, with runs lost on the way, go through the cursors and get
    the answers of any unbounded drain over such stores that no error interrupts.
  */
  lemma {:induction false} ChainWithFailuresIsOneDrain<S(!new)>(
      page: Pages<S>, c: Config, row: JobRow, ses: seq<Session<S>>, good: S -> bool,
      view: PageResult -> PageResult, turns: nat -> Turn<S>, store: S)
    requires ValidConfig(c) && row.cursor == CURSOR_START && ChainCompletes(page, c, row, ses)
    requires AnswersAlike(page, good, view) && Steering(view) && ChainStaysGood(ses, good)
    requires good(store) && StaysGood(turns, good) && forall k :: !turns(k).fault
    ensures var start, calls := Place(store, CURSOR_START), Kept(page, c, row, ses, |ses|);
      && DrainAmong(page, turns, start, |calls|)
      && forall k: nat | k < |calls| ::
           PlaceAt(page, turns, start, k).cursor == calls[k].cursor
           && Alike(view, AnswerAt(page, turns, start, k), Some(calls[k].result))
  {
    var start, calls := Place(store, CURSOR_START), Kept(page, c, row, ses, |ses|);
    var met := ChainTurns(page, c, row, ses, |ses|);
    ChainIsOneDrain(page, c, row, ses, store);
    TurnsStayGood(page, c, row, ses, good, |ses|);
    SameDrain(page, good, view, met, turns, start, calls);
  }

  lemma {:induction false} SameDrain<S(!new)>(
      page: Pages<S>, good: S -> bool, view: PageResult -> PageResult, met: nat -> Turn<S>, turns: nat -> Turn<S>,
      start: Place<S>, calls: seq<Call>)
    requires AnswersAlike(page, good, view) && Steering(view) && good(start.store)
    requires StaysGood(met, good) && StaysGood(turns, good) && forall k :: !turns(k).fault
    requires DrainAmong(page, met, start, |calls|) && AreCalls(page, met, start, calls)
    ensures DrainAmong(page, turns, start, |calls|)
    ensures forall k: nat | k < |calls| ::
      PlaceAt(page, turns, start, k).cursor == calls[k].cursor
      && Alike(view, AnswerAt(page, turns, start, k), Some(calls[k].result))
  {
    forall k: nat | k < |calls| ensures BothGo(page, met, start, turns, k) {
      CallAnswered(page, met, start, calls, k);
    }
    SameSteps(page, good, view, met, start, turns, start, |calls|);
    forall k: nat | k < |calls|
      ensures PlaceAt(page, turns, start, k).cursor == calls[k].cursor
      ensures Alike(view, AnswerAt(page, turns, start, k), Some(calls[k].result))
    {
      assert StepAlike(page, view, met, start, turns, start, k);
      CallAnswered(page, met, start, calls, k);
    }
    forall k: nat | k < |calls| - 1
      ensures AnswerAt(page, turns, start, k).Some? && !AnswerAt(page, turns, start, k).value.done
    {
      assert StepAlike(page, view, met, start, turns, start, k);
    }
  }

  lemma {:induction false} SameCalls<S(!new)>(
      page: Pages<S>, good: S -> bool, view: PageResult -> PageResult, a: nat -> Turn<S>, x: Place<S>,
      b: nat -> Turn<S>, y: Place<S>, f: seq<Call>, g: seq<Call>, k: nat)
    requires AnswersAlike(page, good, view) && Steering(view) && x.cursor == y.cursor
    requires StaysGood(a, good) && good(x.store) && StaysGood(b, good) && good(y.store)
    requires AreCalls(page, a, x, f) && AreCalls(page, b, y, g) && k < |f| && k < |g|
    ensures f[k].cursor == g[k].cursor && view(f[k].result) == view(g[k].result)
  {
    forall i: nat | i < k + 1 ensures BothGo(page, a, x, b, i) {
      CallAnswered(page, a, x, f, i);
      CallAnswered(page, b, y, g, i);
    }
    SameSteps(page, good, view, a, x, b, y, k + 1);
    assert StepAlike(page, view, a, x, b, y, k);
    CallAnswered(page, a, x, f, k);
    CallAnswered(page, b, y, g, k);
  }

  /** For such a job the run after a lost one makes the lost run's calls again, as far as it gets. */
  lemma {:induction false} LostPagesServedAgain<S(!new)>(
      page: Pages<S>, c: Config, lost: Session<S>, retry: Session<S>, row: JobRow, good: S -> bool,
      view: PageResult -> PageResult, k: nat)
    requires ValidConfig(c) && AnswersAlike(page, good, view) && Steering(view)
    requires good(lost.store) && StaysGood(lost.world.turns, good)
    requires good(retry.store) && StaysGood(retry.world.turns, good)
    requires !Recorded(lost.world, RunOf(page, c, lost, row))
    requires k < |RunOf(page, c, lost, row).served|
    requires k < |RunOf(page, c, retry, RowAfterRun(page, c, lost, row)).served|
    ensures var a := RunOf(page, c, lost, row).served[k];
      var b := RunOf(page, c, retry, RowAfterRun(page, c, lost, row)).served[k];
      a.cursor == b.cursor && view(a.result) == view(b.result)
  {
    var after := RowAfterRun(page, c, lost, row);
    var a, b := RunOf(page, c, lost, row).served, RunOf(page, c, retry, after).served;
    RowMoves(page, c, lost, row, RunOf(page, c, lost, row));
    RunMeans(page, c, lost.world, lost.store, row.cursor);
    RunMeans(page, c, retry.world, retry.store, after.cursor);
    SameCalls(page, good, view, lost.world.turns, Place(lost.store, row.cursor), retry.world.turns,
              Place(retry.store, after.cursor), a, b, k);
  }
}
