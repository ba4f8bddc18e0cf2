/**
  Jobs that walk the keys of a table in key order and deal with what is due at each: when a chain of runs
  leaves nothing due, although runs fail, pages fail and other writers come in between.
*/
module WalkChains {
  import opened Wrappers
  import opened Ids
  import opened Runner
  import opened RunnerTheorems
  import opened RunnerChains

  /** What such a job is about: which stores it can work on, and the keys at which something is due. */
  datatype Walker<!S(!new)> = Walker(page: Pages<S>, ready: S -> bool, due: S -> set<Id>)

  /** From a to b nothing became due, and the job can still work. */
  ghost predicate Calm<S(!new)>(k: Walker<S>, a: S, b: S) {
    k.ready(b) && k.due(b) <= k.due(a)
  }

  /** Whatever is still due comes after the cursor. */
  ghost predicate DoneUpTo<S(!new)>(k: Walker<S>, at: Place<S>) {
    k.ready(at.store) && forall x | x in k.due(at.store) :: Less(at.cursor, x)
  }

  /** A page that succeeds deals with all that is due up to its next cursor, and at the end with everything. */
  ghost predicate PageMoves<S(!new)>(k: Walker<S>, at: Place<S>, left: S, r: PageResult) {
    DoneUpTo(k, at) && k.page(at.store, at.cursor) == Some((left, r)) ==>
      && DoneUpTo(k, Place(left, r.nextCursor)) && Calm(k, at.store, left)
      && (r.done ==> k.due(left) == {})
  }

  ghost predicate Walks<S(!new)>(k: Walker<S>) {
    forall at: Place<S>, left: S, r: PageResult :: PageMoves(k, at, left, r)
  }

  ghost predicate CalmTurn<S(!new)>(k: Walker<S>, w: World<S>, i: nat, s: S) {
    k.ready(s) ==> Calm(k, s, w.turns(i).before(s))
  }

  /** Whatever happens before a page of this run is calm. */
  ghost predicate CalmWorld<S(!new)>(k: Walker<S>, w: World<S>) {
    forall i: nat, s: S :: CalmTurn(k, w, i, s)
  }

  lemma {:induction false} PageAmongWriters<S(!new)>(k: Walker<S>, w: World<S>, at: Place<S>, n: nat)
    requires Walks(k) && CalmWorld(k, w) && DoneUpTo(k, at)
    ensures var (left, answer) := Attempt(k.page, w.turns(n), at.store, at.cursor);
      && DoneUpTo(k, Place(left, if answer.Some? then answer.value.nextCursor else at.cursor))
      && Calm(k, at.store, left)
      && (answer.Some? && answer.value.done ==> k.due(left) == {})
  {
    var found := w.turns(n).before(at.store);
    assert CalmTurn(k, w, n, at.store);
    var outcome := k.page(found, at.cursor);
    if !w.turns(n).fault && outcome.Some? {
      assert PageMoves(k, Place(found, at.cursor), outcome.value.0, outcome.value.1);
    }
  }

  /** Before every page of a run, failed pages included, all that is due comes after the cursor. */
  lemma {:induction false} MarkHolds<S(!new)>(k: Walker<S>, w: World<S>, start: Place<S>, n: nat)
    requires Walks(k) && CalmWorld(k, w) && DoneUpTo(k, start)
    ensures var at := PlaceAt(k.page, w.turns, start, n); DoneUpTo(k, at) && Calm(k, start.store, at.store)
  {
    if n > 0 {
      MarkHolds(k, w, start, n - 1);
      PageAmongWriters(k, w, PlaceAt(k.page, w.turns, start, n - 1), n - 1);
      AttemptNext(k.page, w.turns, start, n - 1, n);
    }
  }

  lemma {:induction false} CalmKeepsMark<S(!new)>(k: Walker<S>, a: S, b: S, cursor: Cursor)
    requires DoneUpTo(k, Place(a, cursor)) && Calm(k, a, b)
    ensures DoneUpTo(k, Place(b, cursor))
  {
  }

  /** A run moves the mark with its cursor; a completed one leaves nothing due. */
  lemma {:induction false} RunMovesMark<S(!new)>(
      k: Walker<S>, c: Config, se: Session<S>, row: JobRow, run: Run<S>)
    requires ValidConfig(c) && Walks(k) && CalmWorld(k, se.world) && DoneUpTo(k, Place(se.store, row.cursor))
    requires run == RunOf(k.page, c, se, row)
    ensures DoneUpTo(k, Place(run.store, run.cursor)) && Calm(k, se.store, run.store)
    ensures run.ending == Drained ==> k.due(run.store) == {}
  {
    var start, n := Place(se.store, row.cursor), |run.served|;
    RunMeans(k.page, c, se.world, se.store, row.cursor);
    match run.ending {
      case Drained =>
        MarkHolds(k, se.world, start, n);
        MarkHolds(k, se.world, start, n - 1);
        PageAmongWriters(k, se.world, PlaceAt(k.page, se.world.turns, start, n - 1), n - 1);
        AttemptNext(k.page, se.world.turns, start, n - 1, n);
        CallAnswered(k.page, se.world.turns, start, run.served, n - 1);
      case Bounded => MarkHolds(k, se.world, start, n);
      case Faulted => MarkHolds(k, se.world, start, n + 1);
    }
  }

  /** Before, between and in the runs everything is calm. */
  ghost predicate CalmChain<S(!new)>(k: Walker<S>, c: Config, row: JobRow, ses: seq<Session<S>>)
    requires ValidConfig(c)
  {
    && (forall i | 0 <= i < |ses| :: CalmWorld(k, ses[i].world))
    && forall i, j | 0 <= i < j < |ses| && j == i + 1 :: Calm(k, RunAt(k.page, c, row, ses, i).store, ses[j].store)
  }

  lemma {:induction false} NextRowMarked<S(!new)>(
      k: Walker<S>, c: Config, se: Session<S>, row: JobRow, run: Run<S>)
    requires ValidConfig(c) && Walks(k) && CalmWorld(k, se.world) && DoneUpTo(k, Place(se.store, row.cursor))
    requires run == RunOf(k.page, c, se, row)
    ensures DoneUpTo(k, Place(run.store, RowAfterRun(k.page, c, se, row).cursor))
  {
    RunMovesMark(k, c, se, row, run);
    RowMoves(k.page, c, se, row, run);
    if !Recorded(se.world, run) { CalmKeepsMark(k, se.store, run.store, row.cursor); }
  }

  /** Before every run the mark holds for the stored cursor. */
  lemma {:induction false} ChainMark<S(!new)>(k: Walker<S>, c: Config, row: JobRow, ses: seq<Session<S>>, n: nat)
    requires ValidConfig(c) && Walks(k) && CalmChain(k, c, row, ses) && n < |ses|
    requires DoneUpTo(k, Place(ses[0].store, row.cursor))
    ensures DoneUpTo(k, Place(ses[n].store, JobRowAfter(k.page, c, row, ses, n).cursor))
  {
    if n > 0 {
      var m := n - 1;
      ChainMark(k, c, row, ses, m);
      ChainStep(k.page, c, row, ses, m, n);
      var mid, run := JobRowAfter(k.page, c, row, ses, m), RunAt(k.page, c, row, ses, m);
      NextRowMarked(k, c, ses[m], mid, run);
      CalmKeepsMark(k, run.store, ses[n].store, JobRowAfter(k.page, c, row, ses, n).cursor);
    }
  }

  /** A chain that ends with a completed run leaves nothing due, whatever failed or was written on the way. */
  lemma {:induction false} ChainLeavesNothingDue<S(!new)>(k: Walker<S>, c: Config, row: JobRow, ses: seq<Session<S>>)
    requires ValidConfig(c) && Walks(k) && CalmChain(k, c, row, ses) && |ses| > 0
    requires DoneUpTo(k, Place(ses[0].store, row.cursor))
    requires RunAt(k.page, c, row, ses, |ses| - 1).ending == Drained
    ensures k.due(RunAt(k.page, c, row, ses, |ses| - 1).store) == {}
  {
    var n := |ses| - 1;
    ChainMark(k, c, row, ses, n);
    ChainStep(k.page, c, row, ses, n, |ses|);
    RunMovesMark(k, c, ses[n], JobRowAfter(k.page, c, row, ses, n), RunAt(k.page, c, row, ses, n));
  }

  // --- what a completed chain has dealt with ------------------------------------------------------------

  /**
    Such a job seen for one key: on which stores the key is still to be dealt with, and on which store and
    cursor a successful page deals with it.
  */
  datatype Seeker<!S(!new)> = Seeker(page: Pages<S>, key: Id, open: S -> bool, deals: (S, Cursor) -> bool)

  /** A successful page that does not deal with an open key leaves it open, and ahead if it was ahead. */
  ghost predicate PageSeeks<S(!new)>(k: Seeker<S>, s: S, cursor: Cursor) {
    k.open(s) && k.page(s, cursor).Some? && !k.deals(s, cursor) ==>
      var (left, r) := k.page(s, cursor).value;
      k.open(left) && (Less(cursor, k.key) ==> !r.done && Less(r.nextCursor, k.key))
  }

  ghost predicate Seeks<S(!new)>(k: Seeker<S>) {
    forall s: S, cursor: Cursor :: PageSeeks(k, s, cursor)
  }

  ghost predicate OpenTurn<S(!new)>(k: Seeker<S>, w: World<S>, i: nat, s: S) {
    k.open(s) ==> k.open(w.turns(i).before(s))
  }

  /** Whatever happens before the pages of a run leaves the key open. */
  ghost predicate OpenWorld<S(!new)>(k: Seeker<S>, w: World<S>) {
    forall i: nat, s: S :: OpenTurn(k, w, i, s)
  }

  ghost predicate OpenChain<S(!new)>(k: Seeker<S>, c: Config, row: JobRow, ses: seq<Session<S>>)
    requires ValidConfig(c)
  {
    && (forall i | 0 <= i < |ses| :: OpenWorld(k, ses[i].world))
    && forall i, j | 0 <= i < j < |ses| && j == i + 1 ::
         k.open(RunAt(k.page, c, row, ses, i).store) ==> k.open(ses[j].store)
  }

  /** The n-th page from here succeeds and deals with the key. */
  ghost predicate DealsAt<S(!new)>(k: Seeker<S>, turns: nat -> Turn<S>, start: Place<S>, n: nat) {
    && AnswerAt(k.page, turns, start, n).Some?
    && k.deals(FoundAt(k.page, turns, start, n), PlaceAt(k.page, turns, start, n).cursor)
  }

  /** The n-th page of the i-th run succeeds and deals with the key. */
  ghost predicate DealtBy<S(!new)>(k: Seeker<S>, c: Config, row: JobRow, ses: seq<Session<S>>, i: nat, n: nat)
    requires ValidConfig(c)
  {
    && i < |ses| && n < |RunAt(k.page, c, row, ses, i).served|
    && DealsAt(k, ses[i].world.turns, Place(ses[i].store, JobRowAfter(k.page, c, row, ses, i).cursor), n)
  }

  /** The key is open and ahead. */
  ghost predicate Ahead<S(!new)>(k: Seeker<S>, at: Place<S>) {
    k.open(at.store) && Less(at.cursor, k.key)
  }

  lemma {:induction false} PagesSeek<S(!new)>(k: Seeker<S>, w: World<S>, start: Place<S>, n: nat)
    requires Seeks(k) && OpenWorld(k, w) && Ahead(k, start)
    requires forall m: nat | m < n :: !DealsAt(k, w.turns, start, m)
    ensures Ahead(k, PlaceAt(k.page, w.turns, start, n))
    ensures n > 0 && AnswerAt(k.page, w.turns, start, n - 1).Some? ==>
      !AnswerAt(k.page, w.turns, start, n - 1).value.done
  {
    if n > 0 {
      PagesSeek(k, w, start, n - 1);
      PageSeeksOn(k, w, start, n - 1, n);
    }
  }

  lemma {:induction false} PageSeeksOn<S(!new)>(k: Seeker<S>, w: World<S>, start: Place<S>, m: nat, n: nat)
    requires Seeks(k) && OpenWorld(k, w) && n == m + 1 && Ahead(k, PlaceAt(k.page, w.turns, start, m))
    requires !DealsAt(k, w.turns, start, m)
    ensures Ahead(k, PlaceAt(k.page, w.turns, start, n))
    ensures AnswerAt(k.page, w.turns, start, m).Some? ==> !AnswerAt(k.page, w.turns, start, m).value.done
  {
    var at, found := PlaceAt(k.page, w.turns, start, m), FoundAt(k.page, w.turns, start, m);
    AttemptNext(k.page, w.turns, start, m, n);
    assert OpenTurn(k, w, m, at.store) && PageSeeks(k, found, at.cursor);
  }

  lemma {:induction false} RunSeeks<S(!new)>(k: Seeker<S>, c: Config, se: Session<S>, row: JobRow, run: Run<S>)
    requires ValidConfig(c) && Seeks(k) && OpenWorld(k, se.world) && Ahead(k, Place(se.store, row.cursor))
    requires run == RunOf(k.page, c, se, row)
    requires forall n: nat | n < |run.served| :: !DealsAt(k, se.world.turns, Place(se.store, row.cursor), n)
    ensures run.ending != Drained && Ahead(k, Place(run.store, RowAfterRun(k.page, c, se, row).cursor))
  {
    var start, n := Place(se.store, row.cursor), |run.served|;
    RunMeans(k.page, c, se.world, se.store, row.cursor);
    RowMoves(k.page, c, se, row, run);
    if run.ending == Drained { DrainedRun(k.page, c, se, row, run, n - 1); }
    PagesSeek(k, se.world, start, n);
    if run.ending == Faulted { PageSeeksOn(k, se.world, start, n, n + 1); }
  }

  lemma {:induction false} ChainSeeks<S(!new)>(k: Seeker<S>, c: Config, row: JobRow, ses: seq<Session<S>>, n: nat)
    requires ValidConfig(c) && Seeks(k) && OpenChain(k, c, row, ses) && n < |ses|
    requires Ahead(k, Place(ses[0].store, row.cursor))
    requires forall i: nat, m: nat | i < n :: !DealtBy(k, c, row, ses, i, m)
    ensures Ahead(k, Place(ses[n].store, JobRowAfter(k.page, c, row, ses, n).cursor))
  {
    if n > 0 {
      var i := n - 1;
      ChainSeeks(k, c, row, ses, i);
      ChainStep(k.page, c, row, ses, i, n);
      var run, mid := RunAt(k.page, c, row, ses, i), JobRowAfter(k.page, c, row, ses, i);
      forall m: nat | m < |run.served|
        ensures !DealsAt(k, ses[i].world.turns, Place(ses[i].store, mid.cursor), m)
      {
        assert !DealtBy(k, c, row, ses, i, m);
      }
      RunSeeks(k, c, ses[i], mid, run);
    }
  }

  /**
    A chain whose last run reaches the end has dealt with every key that was open and ahead when it began, if
    nothing but the job closes it: some page of some run did, whatever failed or was written on the way.
  */
  lemma {:induction false} ChainDealsWith<S(!new)>(k: Seeker<S>, c: Config, row: JobRow, ses: seq<Session<S>>)
    requires ValidConfig(c) && Seeks(k) && OpenChain(k, c, row, ses) && |ses| > 0
    requires Ahead(k, Place(ses[0].store, row.cursor))
    requires RunAt(k.page, c, row, ses, |ses| - 1).ending == Drained
    ensures exists i: nat, n: nat :: DealtBy(k, c, row, ses, i, n)
  {
    if forall i: nat, n: nat :: !DealtBy(k, c, row, ses, i, n) {
      var last := |ses| - 1;
      ChainSeeks(k, c, row, ses, last);
      var run, mid := RunAt(k.page, c, row, ses, last), JobRowAfter(k.page, c, row, ses, last);
      forall m: nat | m < |run.served|
        ensures !DealsAt(k, ses[last].world.turns, Place(ses[last].store, mid.cursor), m)
      {
        assert !DealtBy(k, c, row, ses, last, m);
      }
      RunSeeks(k, c, ses[last], mid, run);
    }
  }
}
