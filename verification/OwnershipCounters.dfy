/**
  The counters of a recompute pass count what they are named after, and the audit rows it
  appends stand for exactly the audited transitions.
*/
module OwnershipCounters {
  import opened Wrappers
  import opened Ids
  import opened Engine
  import opened AuditRollup
  import opened Ownership
  import opened PassLemmas
  import opened OwnershipInvariants

  // --- what each counter is about, by prior row and decision -------------------------------

  ghost predicate BecomesOwned(prior: Option<Row>, d: Decision) {
    (prior.None? || prior.value.service.None?) && d.service.Some?
  }

  ghost predicate BecomesUnowned(prior: Option<Row>, d: Decision) {
    prior.Some? && prior.value.service.Some? && d.service.None?
  }

  ghost predicate Flips(prior: Option<Row>, d: Decision) {
    prior.Some? && prior.value.service.Some? && d.service.Some? && prior.value.service != d.service
  }

  ghost predicate TurnsAmbiguous(prior: Option<Row>, d: Decision) {
    prior.Some? && prior.value.service.Some? && prior.value.service == d.service
    && prior.value.kind != Ambiguous && d.kind == Ambiguous
  }

  ghost predicate ChangesBasisOnly(prior: Option<Row>, d: Decision) {
    prior.Some? && prior.value.kind == d.kind && prior.value.service == d.service && !Agrees(prior.value, d)
  }

  /** Nothing to report: an agreeing row, or a first decision that finds no owner. */
  ghost predicate StaysPut(prior: Option<Row>, d: Decision) {
    if prior.None? then d.service.None? else Agrees(prior.value, d)
  }

  type Class = (Option<Row>, Decision) -> bool

  ghost function InClass(p: Platform, pre: State, rules: seq<CompiledRule>, now: int, class_: Class): Id -> bool {
    (c: Id) => c in pre.certs && class_(PriorRow(pre, c), PassDecision(p, pre, rules, c, now))
  }

  ghost function CountIf(f: Id -> bool, q: seq<Id>, n: nat): nat
    requires n <= |q|
  {
    if n == 0 then 0 else CountIf(f, q, n - 1) + if f(q[n - 1]) then 1 else 0
  }

  /** How many of the first n certificates fall into a class, judged against the state before the pass. */
  ghost function CountOf(
      p: Platform, pre: State, rules: seq<CompiledRule>, q: seq<Id>, n: nat, now: int, class_: Class): nat
    requires n <= |q|
  {
    CountIf(InClass(p, pre, rules, now, class_), q, n)
  }

  ghost predicate Accounted(
      p: Platform, pre: State, rules: seq<CompiledRule>, q: seq<Id>, n: nat, now: int, t: Tally)
    requires PassInput(pre, q) && n <= |q|
  {
    var s := t.summary;
    && s.evaluated == n && s.evaluated == s.changed + s.untouched
    && s.becameOwned == CountOf(p, pre, rules, q, n, now, (r, d) => BecomesOwned(r, d))
    && s.becameUnowned == CountOf(p, pre, rules, q, n, now, (r, d) => BecomesUnowned(r, d))
    && s.flippedOwner == CountOf(p, pre, rules, q, n, now, (r, d) => Flips(r, d))
    && s.reclassified == CountOf(p, pre, rules, q, n, now, (r, d) => ChangesBasisOnly(r, d))
    && s.untouched == CountOf(p, pre, rules, q, n, now, (r, d) => StaysPut(r, d))
    && t.newlyAmbiguous == CountOf(p, pre, rules, q, n, now, (r, d) => TurnsAmbiguous(r, d))
  }

  ghost predicate Logs(t: Tally) {
    && Total(t.log) == t.summary.becameOwned + t.summary.becameUnowned + t.summary.flippedOwner + t.newlyAmbiguous
    && forall k | k in t.log :: t.log[k] != []
  }

  function One(b: bool): nat { if b then 1 else 0 }

  /** One decision moves each counter by one exactly when its class applies, and logs at most one transition. */
  lemma {:induction false} CountedMeaning(t: Tally, certId: Id, prior: Option<Row>, d: Decision)
    requires DecisionShape(d) && (prior.Some? ==> RowShape(prior.value))
    ensures var t' := Counted(t, certId, prior, d);
      var s, s' := t.summary, t'.summary;
      && s'.evaluated == s.evaluated
      && s'.changed + s'.untouched == s.changed + s.untouched + 1
      && s'.becameOwned == s.becameOwned + One(BecomesOwned(prior, d))
      && s'.becameUnowned == s.becameUnowned + One(BecomesUnowned(prior, d))
      && s'.flippedOwner == s.flippedOwner + One(Flips(prior, d))
      && s'.reclassified == s.reclassified + One(ChangesBasisOnly(prior, d))
      && s'.untouched == s.untouched + One(StaysPut(prior, d))
      && t'.newlyAmbiguous == t.newlyAmbiguous + One(TurnsAmbiguous(prior, d))
  {
  }

  /** A transition is logged exactly when it is one of the four audited kinds. */
  lemma {:induction false} LoggedMeaning(t: Tally, certId: Id, prior: Option<Row>, d: Decision)
    requires DecisionShape(d) && (prior.Some? ==> RowShape(prior.value))
    requires forall k | k in t.log :: t.log[k] != []
    ensures var t' := Counted(t, certId, prior, d);
      && Total(t'.log) == Total(t.log) + One(BecomesOwned(prior, d)) + One(BecomesUnowned(prior, d))
                          + One(Flips(prior, d)) + One(TurnsAmbiguous(prior, d))
      && forall k | k in t'.log :: t'.log[k] != []
  {
    var t' := Counted(t, certId, prior, d);
    if t'.log != t.log {
      var from := if prior.None? then Unowned else prior.value.kind;
      var flipped := prior.Some? && ServiceFlipped(prior.value, d);
      var a := AuditAction(from, d, flipped, prior.Some? && from == Ambiguous).value;
      assert t'.log == Logged(t.log, KeyFor(a, from, d), certId);
      TotalLogged(t.log, KeyFor(a, from, d), certId);
    }
  }

  lemma {:induction false} AccountNext(
      p: Platform, pre: State, rules: seq<CompiledRule>, q: seq<Id>, m: nat, n: nat, now: int,
      t: Tally, t1: Tally, t': Tally)
    requires PassInput(pre, q) && m < |q| && n == m + 1 && q[m] in pre.certs
    requires q[m] in pre.rows ==> RowShape(pre.rows[q[m]])
    requires Accounted(p, pre, rules, q, m, now, t) && Logs(t)
    requires t1 == Seen(t, Expiry(q[m], EntryOf(pre, q[m]), now))
    requires t' == Counted(t1, q[m], PriorRow(pre, q[m]), PassDecision(p, pre, rules, q[m], now))
    ensures Accounted(p, pre, rules, q, n, now, t') && Logs(t')
  {
    var c := q[m];
    var prior, d := PriorRow(pre, c), PassDecision(p, pre, rules, c, now);
    DecideShape(p.lib, pre.certs[c], EffectivePin(pre, c, now), rules, now);
    CountedMeaning(t1, c, prior, d);
    LoggedMeaning(t1, c, prior, d);
    AllCountsNext(p, pre, rules, q, m, n, now, prior, d);
  }

  lemma {:induction false} AllCountsNext(
      p: Platform, pre: State, rules: seq<CompiledRule>, q: seq<Id>, m: nat, n: nat, now: int,
      prior: Option<Row>, d: Decision)
    requires PassInput(pre, q) && m < |q| && n == m + 1 && q[m] in pre.certs
    requires prior == PriorRow(pre, q[m]) && d == PassDecision(p, pre, rules, q[m], now)
    ensures CountOf(p, pre, rules, q, n, now, (r, d) => BecomesOwned(r, d))
         == CountOf(p, pre, rules, q, m, now, (r, d) => BecomesOwned(r, d)) + One(BecomesOwned(prior, d))
    ensures CountOf(p, pre, rules, q, n, now, (r, d) => BecomesUnowned(r, d))
         == CountOf(p, pre, rules, q, m, now, (r, d) => BecomesUnowned(r, d)) + One(BecomesUnowned(prior, d))
    ensures CountOf(p, pre, rules, q, n, now, (r, d) => Flips(r, d))
         == CountOf(p, pre, rules, q, m, now, (r, d) => Flips(r, d)) + One(Flips(prior, d))
    ensures CountOf(p, pre, rules, q, n, now, (r, d) => ChangesBasisOnly(r, d))
         == CountOf(p, pre, rules, q, m, now, (r, d) => ChangesBasisOnly(r, d)) + One(ChangesBasisOnly(prior, d))
    ensures CountOf(p, pre, rules, q, n, now, (r, d) => StaysPut(r, d))
         == CountOf(p, pre, rules, q, m, now, (r, d) => StaysPut(r, d)) + One(StaysPut(prior, d))
    ensures CountOf(p, pre, rules, q, n, now, (r, d) => TurnsAmbiguous(r, d))
         == CountOf(p, pre, rules, q, m, now, (r, d) => TurnsAmbiguous(r, d)) + One(TurnsAmbiguous(prior, d))
  {
    CountNext(p, pre, rules, q, m, n, now, (r, d) => BecomesOwned(r, d));
    CountNext(p, pre, rules, q, m, n, now, (r, d) => BecomesUnowned(r, d));
    CountNext(p, pre, rules, q, m, n, now, (r, d) => Flips(r, d));
    CountNext(p, pre, rules, q, m, n, now, (r, d) => ChangesBasisOnly(r, d));
    CountNext(p, pre, rules, q, m, n, now, (r, d) => StaysPut(r, d));
    CountNext(p, pre, rules, q, m, n, now, (r, d) => TurnsAmbiguous(r, d));
  }

  lemma {:induction false} CountIfNext(f: Id -> bool, q: seq<Id>, m: nat, n: nat)
    requires m < |q| && n == m + 1
    ensures CountIf(f, q, n) == CountIf(f, q, m) + One(f(q[m]))
  {
  }

  lemma {:induction false} CountNext(
      p: Platform, pre: State, rules: seq<CompiledRule>, q: seq<Id>, m: nat, n: nat, now: int, class_: Class)
    requires m < |q| && n == m + 1 && q[m] in pre.certs
    ensures CountOf(p, pre, rules, q, n, now, class_) == CountOf(p, pre, rules, q, m, now, class_)
      + One(class_(PriorRow(pre, q[m]), PassDecision(p, pre, rules, q[m], now)))
  {
    CountIfNext(InClass(p, pre, rules, now, class_), q, m, n);
  }

  lemma {:induction false} PassAccounts(
      p: Platform, pre: State, rules: seq<CompiledRule>, q: seq<Id>, n: nat, now: int) returns (t: Tally)
    requires PassInput(pre, q) && n <= |q| && forall c | c in pre.rows :: RowShape(pre.rows[c])
    ensures t == PassTally(p, pre, rules, q, n, now) && Accounted(p, pre, rules, q, n, now, t) && Logs(t)
  {
    if n == 0 {
      return EMPTY_TALLY;
    }
    var m := n - 1;
    var t1 := PassAccounts(p, pre, rules, q, m, now);
    EarlierDiffer(pre, q, m);
    var c := q[m];
    PassTallyNext(p, pre, rules, q, m, n, now, t1);
    var seen := Seen(t1, Expiry(c, EntryOf(pre, c), now));
    t := Counted(seen, c, PriorRow(pre, c), PassDecision(p, pre, rules, c, now));
    AccountNext(p, pre, rules, q, m, n, now, t1, seen, t);
  }

  /** The transition rows a recompute appends. */
  ghost function TransitionRows(t: Tally, threshold: nat): seq<TransitionEvent> {
    var groups := GroupsOf(t.log, threshold);
    EventsFor(KeyOrder(groups.Keys), groups)
  }

  lemma {:induction false} RowsWeighTransitions(t: Tally, threshold: nat)
    requires Logs(t)
    ensures TotalWeight(TransitionRows(t, threshold))
         == t.summary.becameOwned + t.summary.becameUnowned + t.summary.flippedOwner + t.newlyAmbiguous
  {
    RollupConservesTransitions(GroupsOf(t.log, threshold), t.log, threshold);
  }

  /** The tally of a whole recompute. */
  ghost function RecomputeTally(p: Platform, st: State, now: int): Tally
    requires Compiled(p.lib, st.rules).Ok?
  {
    var q := SortedIds(st.certs.Keys);
    CertOrder(st);
    PassTally(p, st, Compiled(p.lib, st.rules).value.rules, q, |q|, now)
  }

  /**
    Every counter of a recompute is the number of certificates in its class, judged on the prior
    row and the decision; evaluated = changed + unchanged = all certificates.
  */
  lemma {:induction false} CountersCountTransitions(p: Platform, st: State, now: int)
    requires Inv(p, st) && Compiled(p.lib, st.rules).Ok?
    ensures PassInput(st, SortedIds(st.certs.Keys))
    ensures Accounted(p, st, Compiled(p.lib, st.rules).value.rules, SortedIds(st.certs.Keys), |st.certs.Keys|, now,
                      RecomputeTally(p, st, now))
    ensures Logs(RecomputeTally(p, st, now))
  {
    CertOrder(st);
    var t := PassAccounts(p, st, Compiled(p.lib, st.rules).value.rules, SortedIds(st.certs.Keys),
                          |st.certs.Keys|, now);
  }

  lemma {:induction false} TallyLogs(p: Platform, st: State, rules: seq<CompiledRule>, q: seq<Id>, n: nat, now: int)
    returns (t: Tally)
    requires Inv(p, st) && PassInput(st, q) && n <= |q|
    ensures t == PassTally(p, st, rules, q, n, now) && Logs(t)
  {
    t := PassAccounts(p, st, rules, q, n, now);
  }

  lemma {:induction false} RecomputeAppends(
      p: Platform, st: State, threshold: nat, now: int, q: seq<Id>, n: nat, rs: RuleSet, t: Tally)
    requires Compiled(p.lib, st.rules) == Ok(rs) && q == SortedIds(st.certs.Keys) && n == |q| && PassInput(st, q)
    requires t == PassTally(p, st, rs.rules, q, n, now)
    ensures Recompute(p, st, threshold, now).Ok?
    ensures Recompute(p, st, threshold, now).value.audit
         == st.audit + PassEvents(FirstRun(st), t, rs.failures, threshold)
  {
    RecomputeValue(p, st, threshold, now, q, n, rs, Pass(p, st, rs.rules, q, n, now), t);
  }

  lemma {:induction false} TallyAccounts(
      p: Platform, st: State, threshold: nat, now: int, q: seq<Id>, n: nat, rs: RuleSet) returns (t: Tally)
    requires Inv(p, st) && Compiled(p.lib, st.rules) == Ok(rs) && q == SortedIds(st.certs.Keys) && n == |q|
    requires PassInput(st, q)
    ensures t == PassTally(p, st, rs.rules, q, n, now) && Logs(t)
    ensures Recompute(p, st, threshold, now).Ok?
    ensures Recompute(p, st, threshold, now).value.audit
         == st.audit + PassEvents(FirstRun(st), t, rs.failures, threshold)
  {
    t := TallyLogs(p, st, rs.rules, q, n, now);
    RecomputeAppends(p, st, threshold, now, q, n, rs, t);
  }

  /**
    The audit of a recompute conserves transitions: counting one per per-certificate row and the
    group size per rollup row gives every certificate that gained, lost or changed its owner or
    turned ambiguous under the same owner.
  */
  lemma {:induction false} AuditAccountsForEveryTransition(p: Platform, st: State, threshold: nat, now: int)
    returns (t: Tally)
    requires Inv(p, st) && Recompute(p, st, threshold, now).Ok?
    ensures t == RecomputeTally(p, st, now)
    ensures TotalWeight(TransitionRows(t, threshold))
         == t.summary.becameOwned + t.summary.becameUnowned + t.summary.flippedOwner + t.newlyAmbiguous
    ensures Recompute(p, st, threshold, now).value.audit == st.audit
           + PassRows(FirstRun(st), t, Compiled(p.lib, st.rules).value.failures, TransitionRows(t, threshold))
  {
    CertOrder(st);
    t := TallyAccounts(p, st, threshold, now, SortedIds(st.certs.Keys), |st.certs.Keys|,
                       Compiled(p.lib, st.rules).value);
    RowsWeighTransitions(t, threshold);
  }

  /** The audit rows of a pass with the given transition rows. */
  ghost function PassRows(
      firstRun: bool, t: Tally, failures: seq<CompileFailure>, rows: seq<TransitionEvent>): seq<Event> {
    CompileFailureEvents(failures) + ExpiredEvents(t.expired) + TransitionEvents(rows)
    + [Recomputed(firstRun, t.summary, failures)]
  }
}
