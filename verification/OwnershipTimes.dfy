/**
  The times on ownership rows and their explanations, over runs whose clock readings do not decrease
  in transaction order.
*/
module OwnershipTimes {
  import opened Wrappers
  import opened Ids
  import opened Engine
  import opened Ownership
  import opened PassLemmas
  import opened OwnershipInvariants

  /** First assigned, then changed, then evaluated; explained no earlier than the last change. */
  ghost predicate RowTimes(st: State, r: Row, clock: int) {
    && r.firstAssigned <= r.lastChanged <= r.lastEvaluated <= clock
    && (r.explanationId in st.explanations ==>
          r.lastChanged <= st.explanations[r.explanationId].decidedAt <= r.lastEvaluated)
  }

  ghost predicate Timed(st: State, clock: int) {
    forall c | c in st.rows :: RowTimes(st, st.rows[c], clock)
  }

  /** What a write needs: an unused id for its explanation, and every row's explanation in place. */
  ghost predicate Writable(p: Platform, st: State) {
    p.mint(st.nextId) !in st.explanations && forall c | c in st.rows :: st.rows[c].explanationId in st.explanations
  }

  lemma {:induction false} InvWritable(p: Platform, st: State)
    requires Inv(p, st)
    ensures Writable(p, st)
  {
    forall c | c in st.rows ensures st.rows[c].explanationId in st.explanations {
      assert Explained(st, c);
    }
  }

  /** Only an owner change moves the change time; becoming owned moves the first assignment. */
  lemma {:induction false} RowAfterTimes(row: Row, d: Decision, id: Id, now: int)
    ensures var r := RowAfter(Some(row), d, id, now);
      && r.lastEvaluated == now
      && r.lastChanged == (if row.kind == d.kind && row.service == d.service then row.lastChanged else now)
      && r.firstAssigned == (if row.service.None? && d.service.Some? then now else row.firstAssigned)
      && (r.explanationId == row.explanationId || r.explanationId == id)
      && (Agrees(row, d) ==> r.explanationId == row.explanationId)
  {
  }

  lemma {:induction false} SettleTimes(p: Platform, st: State, c: Id, sig: Signals, d: Decision, clock: int, now: int)
    requires Writable(p, st) && Timed(st, clock) && clock <= now
    ensures Timed(Settle(p, st, c, sig, d, now), now)
  {
    var st' := Settle(p, st, c, sig, d, now);
    forall x | x in st'.rows ensures RowTimes(st', st'.rows[x], now) {
      if x in st.rows { assert RowTimes(st, st.rows[x], clock); }
    }
  }

  lemma {:induction false} SameRowsTimes(st: State, st': State, clock: int, now: int)
    requires Timed(st, clock) && clock <= now && st'.rows == st.rows
    requires forall e | e in st'.explanations :: e in st.explanations && st'.explanations[e] == st.explanations[e]
    ensures Timed(st', now)
  {
    forall c | c in st'.rows ensures RowTimes(st', st'.rows[c], now) {
      assert RowTimes(st, st.rows[c], clock);
    }
  }

  lemma {:induction false} RederiveTimes(p: Platform, st: State, c: Id, pin: Option<Pin>, clock: int, now: int)
    requires Writable(p, st) && Timed(st, clock) && clock <= now && Rederive(p, st, c, pin, now).Ok?
    ensures Timed(Rederive(p, st, c, pin, now).value, now)
  {
    var rules := Compiled(p.lib, st.rules).value.rules;
    SettleTimes(p, st, c, st.certs[c], Decide(p.lib, st.certs[c], pin, rules, now), clock, now);
  }

  lemma {:induction false} CreateTimes(p: Platform, st: State, o: Override, clock: int, now: int)
    requires Inv(p, st) && Timed(st, clock) && clock <= now && CreateTx(p, st, o, now).Ok?
    ensures Timed(CreateTx(p, st, o, now).value, now)
  {
    var id, st1 := p.mint(st.nextId), Inserted(p, st, o);
    InvWritable(p, st);
    SameRowsTimes(st, st1, clock, clock);
    RederiveTimes(p, st1, o.certId, Some(PinOf(id, o)), clock, now);
    var mid := Rederive(p, st1, o.certId, Some(PinOf(id, o)), now).value;
    SameRowsTimes(mid, CreateTx(p, st, o, now).value, now, now);
  }

  lemma {:induction false} ClearedTimes(
      p: Platform, st: State, c: Id, id: Id, actor: string, reason: string, clock: int, now: int)
    requires Inv(p, st) && Timed(st, clock) && clock <= now && Clearable(st, id)
    requires Rederive(p, ClearOne(st, id, now, actor, reason), c, None, now).Ok?
    ensures Timed(Rederive(p, ClearOne(st, id, now, actor, reason), c, None, now).value, now)
  {
    var st1 := ClearOne(st, id, now, actor, reason);
    InvWritable(p, st);
    SameRowsTimes(st, st1, clock, clock);
    RederiveTimes(p, st1, c, None, clock, now);
  }

  lemma {:induction false} ClearTimes(
      p: Platform, st: State, c: Id, id: Id, actor: string, reason: string, clock: int, now: int)
    requires Inv(p, st) && Timed(st, clock) && clock <= now && ClearTx(p, st, c, id, actor, reason, now).Ok?
    ensures Timed(ClearTx(p, st, c, id, actor, reason, now).value, now)
  {
    ClearedTimes(p, st, c, id, actor, reason, clock, now);
    var mid := Rederive(p, ClearOne(st, id, now, actor, reason), c, None, now).value;
    SameRowsTimes(mid, ClearTx(p, st, c, id, actor, reason, now).value, now, now);
  }

  lemma {:induction false} SweepOneTimes(p: Platform, st: State, c: Id, id: Id, o: Override, clock: int, now: int)
    requires Inv(p, st) && Timed(st, clock) && clock <= now && SweepOne(p, st, c, id, o, now).Ok?
    ensures Timed(SweepOne(p, st, c, id, o, now).value, now)
  {
    if Clearable(st, id) {
      ClearedTimes(p, st, c, id, "system", "auto-expired", clock, now);
      var mid := Rederive(p, ClearOne(st, id, now, "system", "auto-expired"), c, None, now).value;
      SameRowsTimes(mid, SweepOne(p, st, c, id, o, now).value, now, now);
    } else {
      SameRowsTimes(st, st, clock, now);
    }
  }

  lemma {:induction false} SweepTimes(p: Platform, pre: State, page: seq<Id>, clock: int, now: int)
    requires Inv(p, pre) && Timed(pre, clock) && clock <= now
    requires forall c | c in page :: ActiveOverride(pre.overrides, c).Some?
    requires SweepAll(p, pre, pre, page, now).Ok?
    ensures Timed(SweepAll(p, pre, pre, page, now).value, now)
  {
    if page == [] {
      SameRowsTimes(pre, pre, clock, now);
    } else {
      var n := |page| - 1;
      SweepTimes(p, pre, page[..n], clock, now);
      SweepKeeps(p, pre, page[..n], now);
      var mid := SweepAll(p, pre, pre, page[..n], now).value;
      var id := ActiveOverride(pre.overrides, page[n]).value;
      SweepOneTimes(p, mid, page[n], id, pre.overrides[id], now, now);
    }
  }

  lemma {:induction false} PassStepTimes(
      p: Platform, pre: State, st: State, rules: seq<CompiledRule>, c: Id, clock: int, now: int)
    requires c in pre.certs && st.overrides.Keys == pre.overrides.Keys
    requires Writable(p, st) && Timed(st, clock) && clock <= now
    ensures Timed(PassStep(p, pre, st, rules, c, now), now)
  {
    var entry := EntryOf(pre, c);
    SameRowsTimes(st, Cleaned(st, entry, now), clock, clock);
    SettleTimes(p, Cleaned(st, entry, now), c, pre.certs[c], PassDecision(p, pre, rules, c, now), clock, now);
  }

  lemma {:induction false} PassTimes(
      p: Platform, pre: State, rules: seq<CompiledRule>, q: seq<Id>, n: nat, clock: int, now: int) returns (st: State)
    requires Inv(p, pre) && PassInput(pre, q) && n <= |q| && Timed(pre, clock) && clock <= now
    ensures st == Pass(p, pre, rules, q, n, now) && Timed(st, now)
  {
    if n == 0 {
      SameRowsTimes(pre, pre, clock, now);
      return pre;
    }
    var m := n - 1;
    var mid := PassTimes(p, pre, rules, q, m, clock, now);
    var kept := PassKeeps(p, pre, rules, q, m, now);
    InvWritable(p, mid);
    PassNext(p, pre, rules, q, m, n, now, mid);
    PassStepTimes(p, pre, mid, rules, q[m], now, now);
    st := PassStep(p, pre, mid, rules, q[m], now);
  }

  lemma {:induction false} RecomputeTimes(p: Platform, st: State, threshold: nat, clock: int, now: int)
    requires Inv(p, st) && Timed(st, clock) && clock <= now && Recompute(p, st, threshold, now).Ok?
    ensures Timed(Recompute(p, st, threshold, now).value, now)
  {
    var rs, q := Compiled(p.lib, st.rules).value, SortedIds(st.certs.Keys);
    CertOrder(st);
    var post := PassTimes(p, st, rs.rules, q, |q|, clock, now);
    SameRowsTimes(post, Recompute(p, st, threshold, now).value, now, now);
  }

  lemma {:induction false} PruneTimes(st: State, step: PruneStep, page: seq<Id>, n: nat)
    requires n <= |page|
    requires forall s, c :: Shrinks(s, step(s, c).0)
    ensures Shrinks(st, PruneFirst(step, st, page, n).0)
  {
    if n > 0 {
      PruneTimes(st, step, page, n - 1);
      assert Shrinks(PruneFirst(step, st, page, n - 1).0, step(PruneFirst(step, st, page, n - 1).0, page[n - 1]).0);
    }
  }

  /** Same rows, and no explanation that was not there before. */
  ghost predicate Shrinks(st: State, st': State) {
    && st'.rows == st.rows
    && forall e | e in st'.explanations :: e in st.explanations && st'.explanations[e] == st.explanations[e]
  }

  lemma {:induction false} PrunePageTimes(
      st: State, cursor: Id, limit: nat, keepN: nat, cutoff: int, perCert: nat, clock: int)
    requires Timed(st, clock)
    ensures Timed(PrunePageTx(st, cursor, limit, keepN, cutoff, perCert), clock)
  {
    var page := Page(ExplainedCerts(st.explanations), cursor, limit);
    forall s, c ensures Shrinks(s, PruneCertAt(keepN, cutoff, perCert)(s, c).0) {
    }
    PruneTimes(st, PruneCertAt(keepN, cutoff, perCert), page, |page|);
    SameRowsTimes(st, PrunePageTx(st, cursor, limit, keepN, cutoff, perCert), clock, clock);
  }

  /** The clock reading a step carries; steps without one keep the previous reading. */
  function ClockOf(s: Step, clock: int): int {
    match s
    case DoRecompute(now) => now
    case DoCreate(_, now) => now
    case DoClear(_, _, _, _, now) => now
    case DoSweep(_, _, now) => now
    case DoPrune(_, _, _, _, _) => clock
    case ChangeInputs(_, _) => clock
  }

  function ClockAfter(steps: seq<Step>, n: nat, start: int): int
    requires n <= |steps|
  {
    if n == 0 then start else ClockOf(steps[n - 1], ClockAfter(steps, n - 1, start))
  }

  ghost predicate ClockNeverBack(steps: seq<Step>, start: int) {
    forall n | 0 <= n < |steps| :: ClockAfter(steps, n, start) <= ClockOf(steps[n], ClockAfter(steps, n, start))
  }

  lemma {:induction false} ApplyTimes(p: Platform, threshold: nat, st: State, s: Step, clock: int)
    requires Inv(p, st) && Timed(st, clock) && clock <= ClockOf(s, clock)
    ensures Timed(Apply(p, threshold, st, s), ClockOf(s, clock))
  {
    var now := ClockOf(s, clock);
    SameRowsTimes(st, st, clock, now);
    match s
    case DoRecompute(t) => if Recompute(p, st, threshold, t).Ok? { RecomputeTimes(p, st, threshold, clock, t); }
    case DoCreate(o, t) => if CreateTx(p, st, o, t).Ok? { CreateTimes(p, st, o, clock, t); }
    case DoClear(c, id, actor, reason, t) =>
      if ClearTx(p, st, c, id, actor, reason, t).Ok? { ClearTimes(p, st, c, id, actor, reason, clock, t); }
    case DoSweep(cursor, limit, t) =>
      ExpiringPage(st, t, cursor, limit);
      if SweepPageTx(p, st, cursor, limit, t).Ok? {
        SweepTimes(p, st, Page(ExpiringCerts(st, t), cursor, limit), clock, t);
      }
    case DoPrune(cursor, limit, keepN, cutoff, perCert) =>
      PrunePageTimes(st, cursor, limit, keepN, cutoff, perCert, clock);
    case ChangeInputs(certs, rules) => SameRowsTimes(st, st.(certs := certs, rules := rules), clock, now);
  }

  /**
    Over every run whose clock readings never go back, each row satisfies first_assigned_at <=
    last_changed_at <= last_evaluated_at <= now, and its explanation was decided between its last
    change and its last evaluation.
  */
  lemma {:induction false} RunsKeepTimes(
      p: Platform, threshold: nat, states: seq<State>, steps: seq<Step>, start: int, k: nat)
    requires IsRun(p, threshold, states, steps) && Initial(p, states[0]) && ClockNeverBack(steps, start)
    requires k < |states|
    ensures Timed(states[k], ClockAfter(steps, k, start))
  {
    if k > 0 {
      RunsKeepTimes(p, threshold, states, steps, start, k - 1);
      RunKeeps(p, threshold, states, steps, k - 1);
      ApplyTimes(p, threshold, states[k - 1], steps[k - 1], ClockAfter(steps, k - 1, start));
    }
  }
}
