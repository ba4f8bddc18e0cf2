/**
  What a recompute leaves behind: every row is the decision on the pre-pass inputs, a second
  pass changes nothing but evaluation times, the single-certificate writers leave rows the next
  pass keeps, and the counters and audit rows account for every transition.
*/
module OwnershipFixpoint {
  import opened Wrappers
  import opened Ids
  import opened Engine
  import opened AuditRollup
  import opened Ownership
  import opened PassLemmas
  import opened OwnershipInvariants

  ghost predicate AllCerts(pre: State, q: seq<Id>) {
    PassInput(pre, q) && forall c | c in pre.certs :: c in q
  }

  lemma {:induction false} OrderIsAllCerts(pre: State)
    ensures AllCerts(pre, SortedIds(pre.certs.Keys))
  {
    CertOrder(pre);
    SortedIdsOrder(pre.certs.Keys);
  }

  // --- correctness of one pass ---------------------------------------------------------

  lemma {:induction false} SettledRowAgrees(p: Platform, st: State, c: Id, sig: Signals, d: Decision, now: int)
    ensures var st' := Settle(p, st, c, sig, d, now);
      c in st'.rows && Agrees(st'.rows[c], d) && st'.rows[c].lastEvaluated == now
  {
  }

  /** Once its step ran, the row of a certificate is fixed for the rest of the pass. */
  lemma {:induction false} RowStays(
      p: Platform, pre: State, rules: seq<CompiledRule>, q: seq<Id>, i: nat, n: nat, now: int, first: State)
    returns (st: State)
    requires PassInput(pre, q) && i < n <= |q|
    requires first == PassStep(p, pre, Pass(p, pre, rules, q, i, now), rules, q[i], now)
    ensures st == Pass(p, pre, rules, q, n, now) && PriorRow(st, q[i]) == PriorRow(first, q[i])
    decreases n
  {
    var m := n - 1;
    if m == i {
      st := first;
      PassNext(p, pre, rules, q, i, n, now, Pass(p, pre, rules, q, i, now));
      return;
    }
    var mid := RowStays(p, pre, rules, q, i, m, now, first);
    PassNext(p, pre, rules, q, m, n, now, mid);
    PassStepFrame(p, pre, mid, rules, q[m], now);
    st := PassStep(p, pre, mid, rules, q[m], now);
  }

  lemma {:induction false} StepRowAgrees(p: Platform, pre: State, mid: State, rules: seq<CompiledRule>, c: Id, now: int)
    requires c in pre.certs && mid.overrides.Keys == pre.overrides.Keys
    ensures var st := PassStep(p, pre, mid, rules, c, now);
      c in st.rows && Agrees(st.rows[c], PassDecision(p, pre, rules, c, now)) && st.rows[c].lastEvaluated == now
  {
    SettledRowAgrees(p, Cleaned(mid, EntryOf(pre, c), now), c, pre.certs[c], PassDecision(p, pre, rules, c, now), now);
  }

  lemma {:induction false} PassRowAgrees(
      p: Platform, pre: State, rules: seq<CompiledRule>, q: seq<Id>, now: int, c: Id)
    requires AllCerts(pre, q) && c in pre.certs
    ensures var st := Pass(p, pre, rules, q, |q|, now);
      c in st.rows && Agrees(st.rows[c], PassDecision(p, pre, rules, c, now)) && st.rows[c].lastEvaluated == now
  {
    var i :| 0 <= i < |q| && q[i] == c;
    var mid := Pass(p, pre, rules, q, i, now);
    StepRowAgrees(p, pre, mid, rules, c, now);
    var st := RowStays(p, pre, rules, q, i, |q|, now, PassStep(p, pre, mid, rules, c, now));
  }

  /**
    After a successful recompute every certificate's stored decision, service, winning rule,
    override and confidence are the decision on its signals, its override and the rules as they
    were before the pass.
  */
  lemma {:induction false} RecomputeDecidesEveryCertificate(p: Platform, pre: State, threshold: nat, now: int, c: Id)
    requires Recompute(p, pre, threshold, now).Ok? && c in pre.certs
    ensures var st := Recompute(p, pre, threshold, now).value;
      var d := Decide(p.lib, pre.certs[c], EffectivePin(pre, c, now), Compiled(p.lib, pre.rules).value.rules, now);
      && c in st.rows
      && st.rows[c].kind == d.kind && st.rows[c].service == d.service && st.rows[c].winningRule == d.winningRule
      && st.rows[c].overrideId == d.overrideId && st.rows[c].confidence == d.confidence
      && st.rows[c].lastEvaluated == now
  {
    OrderIsAllCerts(pre);
    PassRowAgrees(p, pre, Compiled(p.lib, pre.rules).value.rules, SortedIds(pre.certs.Keys), now, c);
  }

  // --- settled certificates ----------------------------------------------------------------

  /** The stored row already is what a pass at this time would decide. */
  ghost predicate Settled(p: Platform, st: State, rules: seq<CompiledRule>, c: Id, now: int) {
    && c in st.certs && c in st.rows
    && Agrees(st.rows[c], PassDecision(p, st, rules, c, now))
  }

  /** The certificate's active override, if any, has not expired by `now`. */
  ghost predicate OverrideInForce(st: State, c: Id, now: int) {
    forall o | o in ActiveIds(st.overrides, c) :: !Expired(st.overrides[o], now)
  }

  /** Time alone does not change a decision while the override stays in force. */
  lemma {:induction false} DecisionIgnoresTime(p: Platform, st: State, rules: seq<CompiledRule>, c: Id, t: int, t': int)
    requires c in st.certs && OverrideInForce(st, c, t) && OverrideInForce(st, c, t')
    ensures PassDecision(p, st, rules, c, t) == PassDecision(p, st, rules, c, t')
  {
    var active := ActiveOverride(st.overrides, c);
    if active.Some? {
      var pin := Some(PinOf(active.value, st.overrides[active.value]));
      assert OverrideActive(pin, t) && OverrideActive(pin, t');
    }
  }

  /** A pass step on a settled certificate only moves its evaluation time. */
  lemma {:induction false} SettledStepRefreshes(
      p: Platform, pre: State, st: State, rules: seq<CompiledRule>, c: Id, now: int)
    requires c in pre.certs && st.overrides.Keys == pre.overrides.Keys
    requires Settled(p, pre, rules, c, now) && OverrideInForce(pre, c, now)
    requires PriorRow(st, c) == PriorRow(pre, c)
    ensures PassStep(p, pre, st, rules, c, now) == st.(rows := st.rows[c := pre.rows[c].(lastEvaluated := now)])
  {
    RefreshOnly(p, st, c, pre.certs[c], PassDecision(p, pre, rules, c, now), now, pre.rows[c]);
  }

  lemma {:induction false} RefreshOnly(p: Platform, st: State, c: Id, sig: Signals, d: Decision, now: int, row: Row)
    requires PriorRow(st, c) == Some(row) && Agrees(row, d)
    ensures Settle(p, st, c, sig, d, now) == st.(rows := st.rows[c := row.(lastEvaluated := now)])
  {
  }

  /** st is pre with the evaluation times of the listed certificates moved to `now`. */
  ghost predicate Touched(pre: State, st: State, q: seq<Id>, now: int) {
    && st == pre.(rows := st.rows) && st.rows.Keys == pre.rows.Keys
    && forall c | c in pre.rows :: st.rows[c] == if c in q then pre.rows[c].(lastEvaluated := now) else pre.rows[c]
  }

  lemma {:induction false} TouchNone(pre: State, q: seq<Id>, now: int)
    requires q == []
    ensures Touched(pre, pre, q, now)
  {
  }

  lemma {:induction false} TouchNext(pre: State, st: State, q: seq<Id>, q': seq<Id>, c: Id, now: int)
    requires Touched(pre, st, q, now) && c in pre.rows && |q'| == |q| + 1 && q'[..|q|] == q && q'[|q|] == c
    ensures Touched(pre, st.(rows := st.rows[c := pre.rows[c].(lastEvaluated := now)]), q', now)
  {
    assert q' == q + [c];
  }

  ghost predicate AllSettled(p: Platform, st: State, rules: seq<CompiledRule>, now: int) {
    forall c | c in st.certs :: Settled(p, st, rules, c, now) && OverrideInForce(st, c, now)
  }

  lemma {:induction false} SettledPassTouches(
      p: Platform, pre: State, rules: seq<CompiledRule>, q: seq<Id>, n: nat, now: int) returns (st: State)
    requires PassInput(pre, q) && AllSettled(p, pre, rules, now) && n <= |q|
    ensures st == Pass(p, pre, rules, q, n, now) && Touched(pre, st, q[..n], now)
  {
    if n == 0 {
      TouchNone(pre, q[..n], now);
      return pre;
    }
    var m := n - 1;
    var mid := SettledPassTouches(p, pre, rules, q, m, now);
    var c := q[m];
    EarlierDiffer(pre, q, m);
    PassNext(p, pre, rules, q, m, n, now, mid);
    PassFrame(p, pre, rules, q, m, now, c);
    SettledOne(p, pre, rules, c, now);
    SettledStepRefreshes(p, pre, mid, rules, c, now);
    TouchNext(pre, mid, q[..m], q[..n], c, now);
    st := mid.(rows := mid.rows[c := pre.rows[c].(lastEvaluated := now)]);
  }

  lemma {:induction false} SettledOne(p: Platform, st: State, rules: seq<CompiledRule>, c: Id, now: int)
    requires AllSettled(p, st, rules, now) && c in st.certs
    ensures Settled(p, st, rules, c, now) && OverrideInForce(st, c, now)
  {
  }

  ghost predicate QuietTally(t: Tally, n: nat) {
    t == Tally(Summary(n, 0, n, 0, 0, 0, 0, 0), [], 0, map[])
  }

  lemma {:induction false} SettledCounts(
      p: Platform, pre: State, t: Tally, rules: seq<CompiledRule>, c: Id, n: nat, now: int)
    requires QuietTally(t, n) && Settled(p, pre, rules, c, now) && OverrideInForce(pre, c, now)
    ensures QuietTally(Counted(Seen(t, Expiry(c, EntryOf(pre, c), now)), c, PriorRow(pre, c),
                               PassDecision(p, pre, rules, c, now)), n + 1)
  {
    var d := PassDecision(p, pre, rules, c, now);
    assert Expiry(c, EntryOf(pre, c), now) == [];
    assert MoveOf(PriorRow(pre, c), d) == Refreshed;
  }

  lemma {:induction false} SettledPassIsQuiet(
      p: Platform, pre: State, rules: seq<CompiledRule>, q: seq<Id>, n: nat, now: int) returns (t: Tally)
    requires PassInput(pre, q) && AllSettled(p, pre, rules, now) && n <= |q|
    ensures t == PassTally(p, pre, rules, q, n, now) && QuietTally(t, n)
  {
    if n == 0 {
      return EMPTY_TALLY;
    }
    var m := n - 1;
    var t' := SettledPassIsQuiet(p, pre, rules, q, m, now);
    EarlierDiffer(pre, q, m);
    var c := q[m];
    SettledOne(p, pre, rules, c, now);
    SettledCounts(p, pre, t', rules, c, m, now);
    PassTallyNext(p, pre, rules, q, m, n, now, t');
    t := Counted(Seen(t', Expiry(c, EntryOf(pre, c), now)), c, PriorRow(pre, c), PassDecision(p, pre, rules, c, now));
  }

  /** The audit rows of a pass that changed nothing: compile failures and the summary. */
  function QuietEvents(firstRun: bool, n: nat, failures: seq<CompileFailure>): seq<Event> {
    CompileFailureEvents(failures) + [Recomputed(firstRun, Summary(n, 0, n, 0, 0, 0, 0, 0), failures)]
  }

  lemma {:induction false} EmptyOrder(q: seq<GroupKey>)
    requires InKeyOrder(q, {})
    ensures q == []
  {
    if |q| > 0 { FirstIn(q); }
  }

  lemma {:induction false} FirstIn(q: seq<GroupKey>)
    requires |q| > 0
    ensures q[0] in q
  {
  }

  lemma {:induction false} QuietTallyEvents(
      firstRun: bool, t: Tally, n: nat, failures: seq<CompileFailure>, threshold: nat)
    requires QuietTally(t, n)
    ensures PassEvents(firstRun, t, failures, threshold) == QuietEvents(firstRun, n, failures)
  {
    var groups := GroupsOf(t.log, threshold);
    assert groups == map[];
    EmptyOrder(KeyOrder(groups.Keys));
    assert PassEvents(firstRun, t, failures, threshold) == QuietEvents(firstRun, n, failures);
  }

  /** st' is st with new evaluation times for every certificate, plus the audit of a quiet pass. */
  ghost predicate OnlyTouched(st: State, st': State, failures: seq<CompileFailure>, now: int) {
    && st'.audit == st.audit + QuietEvents(FirstRun(st), |st.certs.Keys|, failures)
    && st' == st.(rows := st'.rows, audit := st'.audit)
    && st'.rows.Keys == st.rows.Keys
    && forall c | c in st.rows ::
         st'.rows[c] == if c in st.certs then st.rows[c].(lastEvaluated := now) else st.rows[c]
  }

  lemma {:induction false} QuietFinish(
      st: State, post: State, q: seq<Id>, n: nat, failures: seq<CompileFailure>, now: int)
    requires q == SortedIds(st.certs.Keys) && n == |q| && Touched(st, post, q[..n], now)
    ensures OnlyTouched(st, post.(audit := st.audit + QuietEvents(FirstRun(st), n, failures)), failures, now)
  {
    SortedIdsOrder(st.certs.Keys);
    assert q[..n] == q;
  }

  lemma {:induction false} QuietRecompute(
      p: Platform, st: State, threshold: nat, now: int, q: seq<Id>, n: nat, rs: RuleSet)
    returns (post: State)
    requires Compiled(p.lib, st.rules) == Ok(rs) && q == SortedIds(st.certs.Keys) && n == |q| && PassInput(st, q)
    requires AllSettled(p, st, rs.rules, now)
    ensures Touched(st, post, q[..n], now)
    ensures Recompute(p, st, threshold, now) == Ok(post.(audit := st.audit + QuietEvents(FirstRun(st), n, rs.failures)))
  {
    post := SettledPassTouches(p, st, rs.rules, q, n, now);
    var t := SettledPassIsQuiet(p, st, rs.rules, q, n, now);
    QuietTallyEvents(FirstRun(st), t, n, rs.failures, threshold);
    RecomputeValue(p, st, threshold, now, q, n, rs, post, t);
  }

  /** A recompute over settled certificates writes no explanation and no transition audit. */
  lemma {:induction false} SettledRecompute(p: Platform, st: State, threshold: nat, now: int)
    requires Compiled(p.lib, st.rules).Ok? && AllSettled(p, st, Compiled(p.lib, st.rules).value.rules, now)
    ensures Recompute(p, st, threshold, now).Ok?
    ensures OnlyTouched(st, Recompute(p, st, threshold, now).value, Compiled(p.lib, st.rules).value.failures, now)
  {
    var rs, q := Compiled(p.lib, st.rules).value, SortedIds(st.certs.Keys);
    CertOrder(st);
    var post := QuietRecompute(p, st, threshold, now, q, |q|, rs);
    QuietFinish(st, post, q, |q|, rs.failures, now);
  }

  // --- after a pass every certificate is settled ----------------------------------------------

  /** The override a decision at `now` would use for x is the one it used before, and none is overdue. */
  ghost predicate PinKept(pre: State, st: State, x: Id, now: int) {
    EffectivePin(st, x, now) == EffectivePin(pre, x, now) && OverrideInForce(st, x, now)
  }

  ghost predicate SameActive(a: State, b: State, x: Id) {
    ActiveIds(a.overrides, x) == ActiveIds(b.overrides, x)
    && forall o | o in ActiveIds(a.overrides, x) :: a.overrides[o] == b.overrides[o]
  }

  lemma {:induction false} SameActiveSamePin(a: State, b: State, x: Id, now: int)
    requires SameActive(a, b, x)
    ensures EffectivePin(a, x, now) == EffectivePin(b, x, now)
    ensures OverrideInForce(a, x, now) <==> OverrideInForce(b, x, now)
  {
  }

  lemma {:induction false} StepKeepsOthers(
      p: Platform, pre: State, mid: State, rules: seq<CompiledRule>, c: Id, now: int, x: Id)
    requires c in pre.certs && SameCerts(pre, mid) && mid.overrides.Keys == pre.overrides.Keys && x != c
    requires PinKept(pre, mid, x, now)
    ensures PinKept(pre, PassStep(p, pre, mid, rules, c, now), x, now)
  {
    var st := PassStep(p, pre, mid, rules, c, now);
    PassStepFrame(p, pre, mid, rules, c, now);
    PassStepSameCerts(p, pre, mid, rules, c, now);
    assert SameActive(st, mid, x);
    SameActiveSamePin(st, mid, x, now);
  }

  lemma {:induction false} StepKeepsOwn(
      p: Platform, pre: State, mid: State, rules: seq<CompiledRule>, c: Id, now: int)
    requires c in pre.certs && SameCerts(pre, mid) && mid.overrides.Keys == pre.overrides.Keys
    requires OneActive(pre.overrides)
    requires forall o | o in pre.overrides && pre.overrides[o].certId == c :: mid.overrides[o] == pre.overrides[o]
    ensures PinKept(pre, PassStep(p, pre, mid, rules, c, now), c, now)
  {
    var st := PassStep(p, pre, mid, rules, c, now);
    var active := ActiveOverride(pre.overrides, c);
    assert SameActive(mid, pre, c);
    if active.Some? && Expired(pre.overrides[active.value], now) {
      forall o ensures o !in ActiveIds(st.overrides, c) {
        if o != active.value { assert o !in ActiveIds(pre.overrides, c); }
      }
    } else {
      assert SameActive(st, pre, c);
      SameActiveSamePin(st, pre, c, now);
      assert forall o | o in ActiveIds(pre.overrides, c) :: active == Some(o);
    }
  }

  lemma {:induction false} OverridesAfterPass(
      p: Platform, pre: State, rules: seq<CompiledRule>, q: seq<Id>, i: nat, n: nat, now: int) returns (st: State)
    requires PassInput(pre, q) && OneActive(pre.overrides) && i < n <= |q|
    ensures st == Pass(p, pre, rules, q, n, now) && PinKept(pre, st, q[i], now)
    decreases n
  {
    var m := n - 1;
    if i == m {
      st := OwnStep(p, pre, rules, q, m, n, now);
    } else {
      var mid := OverridesAfterPass(p, pre, rules, q, i, m, now);
      PassSameCerts(p, pre, rules, q, m, now);
      EarlierDiffer(pre, q, m);
      PassNext(p, pre, rules, q, m, n, now, mid);
      StepKeepsOthers(p, pre, mid, rules, q[m], now, q[i]);
      st := PassStep(p, pre, mid, rules, q[m], now);
    }
  }

  lemma {:induction false} OwnStep(
      p: Platform, pre: State, rules: seq<CompiledRule>, q: seq<Id>, m: nat, n: nat, now: int) returns (st: State)
    requires PassInput(pre, q) && OneActive(pre.overrides) && n == m + 1 && m < |q|
    ensures st == Pass(p, pre, rules, q, n, now) && PinKept(pre, st, q[m], now)
  {
    var mid := Pass(p, pre, rules, q, m, now);
    PassSameCerts(p, pre, rules, q, m, now);
    EarlierDiffer(pre, q, m);
    PassFrame(p, pre, rules, q, m, now, q[m]);
    PassNext(p, pre, rules, q, m, n, now, mid);
    StepKeepsOwn(p, pre, mid, rules, q[m], now);
    st := PassStep(p, pre, mid, rules, q[m], now);
  }

  /** After a recompute every certificate is settled and no override of one has expired. */
  lemma {:induction false} RecomputeSettlesAll(p: Platform, pre: State, threshold: nat, now: int)
    requires Inv(p, pre) && Recompute(p, pre, threshold, now).Ok?
    ensures var st := Recompute(p, pre, threshold, now).value;
      && st.certs == pre.certs && st.rules == pre.rules
      && AllSettled(p, st, Compiled(p.lib, st.rules).value.rules, now)
  {
    var rules, q := Compiled(p.lib, pre.rules).value.rules, SortedIds(pre.certs.Keys);
    var st := Recompute(p, pre, threshold, now).value;
    OrderIsAllCerts(pre);
    InvOneActive(p, pre);
    PassKeepsInputs(p, pre, rules, q, |q|, now);
    forall c | c in st.certs ensures Settled(p, st, rules, c, now) && OverrideInForce(st, c, now) {
      var i :| 0 <= i < |q| && q[i] == c;
      var post := OverridesAfterPass(p, pre, rules, q, i, |q|, now);
      PassRowAgrees(p, pre, rules, q, now, c);
      assert SameActive(st, Pass(p, pre, rules, q, |q|, now), c);
      SameActiveSamePin(st, Pass(p, pre, rules, q, |q|, now), c, now);
    }
  }

  /**
    Recompute is a fixpoint: with the same signals and rules and no override expiring in between, a
    second pass reports zero changed, adds only compile-failure and summary audit rows, writes no
    explanation, and alters nothing but the evaluation times.
  */
  lemma {:induction false} RecomputeIsFixpoint(p: Platform, pre: State, threshold: nat, now: int, later: int)
    requires Inv(p, pre) && Recompute(p, pre, threshold, now).Ok?
    requires forall c | c in pre.certs :: OverrideInForce(Recompute(p, pre, threshold, now).value, c, later)
    ensures var st := Recompute(p, pre, threshold, now).value;
      && Recompute(p, st, threshold, later).Ok?
      && OnlyTouched(st, Recompute(p, st, threshold, later).value, Compiled(p.lib, pre.rules).value.failures, later)
  {
    RecomputeSettlesAll(p, pre, threshold, now);
    var st := Recompute(p, pre, threshold, now).value;
    StaysSettled(p, st, Compiled(p.lib, st.rules).value.rules, now, later);
    SettledRecompute(p, st, threshold, later);
  }

  lemma {:induction false} StaysSettled(p: Platform, st: State, rules: seq<CompiledRule>, now: int, later: int)
    requires AllSettled(p, st, rules, now) && forall c | c in st.certs :: OverrideInForce(st, c, later)
    ensures AllSettled(p, st, rules, later)
  {
    forall c | c in st.certs ensures Settled(p, st, rules, c, later) {
      assert Settled(p, st, rules, c, now);
      DecisionIgnoresTime(p, st, rules, c, now, later);
    }
  }

  // --- the single-certificate writers agree with the pass ----------------------------------------

  /** Re-deriving with the override in force leaves the certificate settled. */
  lemma {:induction false} RederiveSettles(p: Platform, st: State, c: Id, pin: Option<Pin>, now: int)
    requires Rederive(p, st, c, pin, now).Ok? && EffectivePin(st, c, now) == pin
    ensures var st' := Rederive(p, st, c, pin, now).value;
      && st'.rules == st.rules && st'.overrides == st.overrides
      && Settled(p, st', Compiled(p.lib, st'.rules).value.rules, c, now)
  {
    var rules := Compiled(p.lib, st.rules).value.rules;
    var d := Decide(p.lib, st.certs[c], pin, rules, now);
    SettledRowAgrees(p, st, c, st.certs[c], d, now);
    SettleFrame(p, st, c, st.certs[c], d, now);
    var st' := Rederive(p, st, c, pin, now).value;
    assert SameActive(st', st, c);
    SameActiveSamePin(st', st, c, now);
  }

  lemma {:induction false} CreateSettles(p: Platform, st: State, o: Override, now: int)
    requires Inv(p, st) && o.cleared.None? && (o.expiresAt.Some? ==> o.expiresAt.value > now)
    requires CreateTx(p, st, o, now).Ok?
    ensures var st' := CreateTx(p, st, o, now).value;
      Settled(p, st', Compiled(p.lib, st'.rules).value.rules, o.certId, now) && OverrideInForce(st', o.certId, now)
  {
    var id, st1 := p.mint(st.nextId), Inserted(p, st, o);
    assert ActiveIds(st1.overrides, o.certId) == {id};
    var pin := Some(PinOf(id, o));
    RederiveSettles(p, st1, o.certId, pin, now);
    AuditKeepsSettled(p, Rederive(p, st1, o.certId, pin, now).value, o.certId, now,
                      [OverrideSet(o.certId, id, o.service, o.setBy)]);
  }

  lemma {:induction false} AuditKeepsSettled(p: Platform, st: State, c: Id, now: int, events: seq<Event>)
    requires Compiled(p.lib, st.rules).Ok? && Settled(p, st, Compiled(p.lib, st.rules).value.rules, c, now)
    ensures var st' := st.(audit := st.audit + events);
      Settled(p, st', Compiled(p.lib, st'.rules).value.rules, c, now)
  {
    var st' := st.(audit := st.audit + events);
    assert SameActive(st', st, c);
    SameActiveSamePin(st', st, c, now);
  }

  lemma {:induction false} ClearedSettles(
      p: Platform, st: State, c: Id, id: Id, now: int, actor: string, reason: string)
    requires Inv(p, st) && Clearable(st, id) && st.overrides[id].certId == c
    requires Rederive(p, ClearOne(st, id, now, actor, reason), c, None, now).Ok?
    ensures var st' := Rederive(p, ClearOne(st, id, now, actor, reason), c, None, now).value;
      && Settled(p, st', Compiled(p.lib, st'.rules).value.rules, c, now) && ActiveIds(st'.overrides, c) == {}
  {
    ClearLeavesRow(p, st, id, now, actor, reason);
    RederiveSettles(p, ClearOne(st, id, now, actor, reason), c, None, now);
  }

  lemma {:induction false} ClearSettles(p: Platform, st: State, c: Id, id: Id, actor: string, reason: string, now: int)
    requires Inv(p, st) && (id in st.overrides ==> st.overrides[id].certId == c)
    requires ClearTx(p, st, c, id, actor, reason, now).Ok?
    ensures var st' := ClearTx(p, st, c, id, actor, reason, now).value;
      && Settled(p, st', Compiled(p.lib, st'.rules).value.rules, c, now) && ActiveIds(st'.overrides, c) == {}
  {
    ClearedSettles(p, st, c, id, now, actor, reason);
    AuditKeepsSettled(p, Rederive(p, ClearOne(st, id, now, actor, reason), c, None, now).value, c, now,
                      [OverrideCleared(c, id, actor)]);
  }

  lemma {:induction false} SweepRowSettles(p: Platform, st: State, c: Id, id: Id, o: Override, now: int)
    requires Inv(p, st) && Clearable(st, id) && st.overrides[id].certId == c
    requires SweepOne(p, st, c, id, o, now).Ok?
    ensures var st' := SweepOne(p, st, c, id, o, now).value;
      && Settled(p, st', Compiled(p.lib, st'.rules).value.rules, c, now) && ActiveIds(st'.overrides, c) == {}
  {
    ClearedSettles(p, st, c, id, now, "system", "auto-expired");
    AuditKeepsSettled(p, Rederive(p, ClearOne(st, id, now, "system", "auto-expired"), c, None, now).value, c, now,
                      [OverrideExpired(c, id, o.service)]);
  }

  /** The next recompute keeps a settled certificate's row, up to its evaluation time. */
  lemma {:induction false} RecomputeKeepsSettled(p: Platform, st: State, threshold: nat, c: Id, now: int, later: int)
    requires Recompute(p, st, threshold, later).Ok?
    requires Settled(p, st, Compiled(p.lib, st.rules).value.rules, c, now)
    requires OverrideInForce(st, c, now) && OverrideInForce(st, c, later)
    ensures var st' := Recompute(p, st, threshold, later).value;
      c in st'.rows && st'.rows[c] == st.rows[c].(lastEvaluated := later)
  {
    var rules, q := Compiled(p.lib, st.rules).value.rules, SortedIds(st.certs.Keys);
    DecisionIgnoresTime(p, st, rules, c, now, later);
    OrderIsAllCerts(st);
    var i :| 0 <= i < |q| && q[i] == c;
    var mid := Pass(p, st, rules, q, i, later);
    EarlierDiffer(st, q, i);
    PassFrame(p, st, rules, q, i, later, c);
    SettledStepRefreshes(p, st, mid, rules, c, later);
    var post := RowStays(p, st, rules, q, i, |q|, later, PassStep(p, st, mid, rules, c, later));
  }
}
