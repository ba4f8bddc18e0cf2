/**
  What a recompute writes besides the decisions: the explanation of every decision that is new, the
  overrides it finds expired, and its audit rows, all told from the tables before the pass.
*/
module PassWrites {
  import opened Wrappers
  import opened Ids
  import opened Sorting
  import opened Engine
  import opened AuditRollup
  import opened Ownership
  import opened PassLemmas
  import opened OwnershipInvariants
  import opened OwnershipFixpoint
  import opened OwnershipCounters
  import opened TransitionAudit
  import opened HistoryGrowth

  // --- explanations ------------------------------------------------------------------------------

  /** Same kind, owner, winning rule, override and confidence as the stored row. */
  ghost predicate Unmoved(prior: Option<Row>, d: Decision) {
    && prior.Some? && prior.value.kind == d.kind && prior.value.service == d.service
    && prior.value.winningRule == d.winningRule && prior.value.overrideId == d.overrideId
    && prior.value.confidence == d.confidence
  }

  /**
    The row keeps its explanation if the decision is the stored one; otherwise it points at a new one that says
    what was decided when, which rules lost and what was seen.
  */
  ghost predicate ExplainedAs(pre: State, st: State, c: Id, sig: Signals, d: Decision, now: int) {
    && c in st.rows
    && var id := st.rows[c].explanationId;
       if Unmoved(PriorRow(pre, c), d) then id == pre.rows[c].explanationId
       else
         && id !in pre.explanations && id in st.explanations
         && st.explanations[id] == Explanation(c, now, d.kind, d.service, d.winningRule, d.losing, sig)
  }

  lemma {:induction false} SettleExplains(
      p: Platform, pre: State, st: State, c: Id, sig: Signals, d: Decision, now: int, st': State)
    requires st' == Settle(p, st, c, sig, d, now) && PriorRow(st, c) == PriorRow(pre, c)
    requires p.mint(st.nextId) !in pre.explanations
    ensures ExplainedAs(pre, st', c, sig, d, now)
  {
  }

  lemma {:induction false} StepExplains(
      p: Platform, pre: State, mid: State, rules: seq<CompiledRule>, c: Id, now: int, st: State)
    requires SupplyFresh(p, mid) && c in pre.certs && mid.overrides.Keys == pre.overrides.Keys
    requires PriorRow(mid, c) == PriorRow(pre, c) && OnlyAdded(pre.explanations, mid.explanations)
    requires st == PassStep(p, pre, mid, rules, c, now)
    ensures ExplainedAs(pre, st, c, pre.certs[c], PassDecision(p, pre, rules, c, now), now)
  {
    assert p.mint(mid.nextId) !in mid.explanations.Keys + mid.overrides.Keys;
    SettleExplains(p, pre, Cleaned(mid, EntryOf(pre, c), now), c, pre.certs[c],
                   PassDecision(p, pre, rules, c, now), now, st);
  }

  lemma {:induction false} ExplanationStays(
      p: Platform, pre: State, mid: State, rules: seq<CompiledRule>, c: Id, now: int, st: State,
      x: Id, sig: Signals, d: Decision)
    requires SupplyFresh(p, mid) && c in pre.certs && mid.overrides.Keys == pre.overrides.Keys && x != c
    requires st == PassStep(p, pre, mid, rules, c, now) && ExplainedAs(pre, mid, x, sig, d, now)
    ensures ExplainedAs(pre, st, x, sig, d, now)
  {
    PassStepFrame(p, pre, mid, rules, c, now);
    PassStepGrows(p, pre, mid, rules, c, now);
    assert PriorRow(st, x) == PriorRow(mid, x);
  }

  lemma {:induction false} PassExplains(
      p: Platform, pre: State, rules: seq<CompiledRule>, q: seq<Id>, i: nat, n: nat, now: int) returns (st: State)
    requires Inv(p, pre) && PassInput(pre, q) && i < n <= |q|
    ensures q[i] in pre.certs && st == Pass(p, pre, rules, q, n, now)
    ensures ExplainedAs(pre, st, q[i], pre.certs[q[i]], PassDecision(p, pre, rules, q[i], now), now)
    decreases n
  {
    var m := n - 1;
    EarlierDiffer(pre, q, i);
    EarlierDiffer(pre, q, m);
    var mid := PassKeeps(p, pre, rules, q, m, now);
    PassNext(p, pre, rules, q, m, n, now, mid);
    st := PassStep(p, pre, mid, rules, q[m], now);
    if i == m {
      PassFrame(p, pre, rules, q, m, now, q[m]);
      PassGrows(p, pre, rules, q, m, now);
      StepExplains(p, pre, mid, rules, q[m], now, st);
    } else {
      var mid' := PassExplains(p, pre, rules, q, i, m, now);
      ExplanationStays(p, pre, mid, rules, q[m], now, st, q[i], pre.certs[q[i]],
                       PassDecision(p, pre, rules, q[i], now));
    }
  }

  /**
    After a recompute every certificate whose decision is new in kind, owner, winning rule, override or
    confidence has a new explanation of exactly that decision and of the signals it was made on; the others
    keep theirs, and no stored explanation is lost or changed.
  */
  lemma {:induction false} RecomputeExplains(p: Platform, pre: State, threshold: nat, now: int, c: Id)
    requires Inv(p, pre) && Recompute(p, pre, threshold, now).Ok? && c in pre.certs
    ensures var st := Recompute(p, pre, threshold, now).value;
      && ExplainedAs(pre, st, c, pre.certs[c],
                     PassDecision(p, pre, Compiled(p.lib, pre.rules).value.rules, c, now), now)
      && OnlyAdded(pre.explanations, st.explanations)
  {
    var rules, q := Compiled(p.lib, pre.rules).value.rules, SortedIds(pre.certs.Keys);
    OrderIsAllCerts(pre);
    var i :| 0 <= i < |q| && q[i] == c;
    var post := PassExplains(p, pre, rules, q, i, |q|, now);
    RecomputeGrows(p, pre, threshold, now);
  }

  // --- expired overrides -----------------------------------------------------------------------------

  /** The override after the pass has, or has not, visited its certificate. */
  ghost function Expiring(o: Override, visited: bool, now: int): Override {
    if visited && Overdue(o, now) then o.(cleared := Some(Clearance(now, "system", "auto-expired"))) else o
  }

  ghost predicate ExpiredIn(pre: State, st: State, done: seq<Id>, now: int) {
    st.overrides.Keys == pre.overrides.Keys && forall o | o in pre.overrides :: ExpiredAt(pre, st, done, now, o)
  }

  ghost predicate ExpiredAt(pre: State, st: State, done: seq<Id>, now: int, o: Id)
    requires o in pre.overrides && o in st.overrides
  {
    st.overrides[o] == Expiring(pre.overrides[o], pre.overrides[o].certId in done, now)
  }

  lemma {:induction false} OnlyActive(pre: State, c: Id, o: Id)
    requires OneActive(pre.overrides) && o in pre.overrides
    requires pre.overrides[o].certId == c && pre.overrides[o].cleared.None?
    ensures ActiveOverride(pre.overrides, c) == Some(o)
  {
    assert o in ActiveIds(pre.overrides, c);
  }

  lemma {:induction false} CleanedAt(pre: State, mid: State, done: seq<Id>, c: Id, now: int, o: Id)
    requires OneActive(pre.overrides) && c !in done && mid.overrides.Keys == pre.overrides.Keys
    requires o in pre.overrides && ExpiredAt(pre, mid, done, now, o)
    ensures ExpiredAt(pre, Cleaned(mid, EntryOf(pre, c), now), done + [c], now, o)
  {
    if pre.overrides[o].certId == c && pre.overrides[o].cleared.None? {
      OnlyActive(pre, c, o);
    }
  }

  lemma {:induction false} StepExpires(
      p: Platform, pre: State, mid: State, rules: seq<CompiledRule>, done: seq<Id>, c: Id, now: int, st: State,
      done': seq<Id>)
    requires OneActive(pre.overrides) && c in pre.certs && c !in done && ExpiredIn(pre, mid, done, now)
    requires st == PassStep(p, pre, mid, rules, c, now) && done' == done + [c]
    ensures ExpiredIn(pre, st, done', now)
  {
    SettleFrame(p, Cleaned(mid, EntryOf(pre, c), now), c, pre.certs[c], PassDecision(p, pre, rules, c, now), now);
    forall o | o in pre.overrides ensures ExpiredAt(pre, st, done', now, o) {
      CleanedAt(pre, mid, done, c, now, o);
    }
  }

  lemma {:induction false} PassExpires(
      p: Platform, pre: State, rules: seq<CompiledRule>, q: seq<Id>, n: nat, now: int) returns (st: State)
    requires OneActive(pre.overrides) && PassInput(pre, q) && n <= |q|
    ensures st == Pass(p, pre, rules, q, n, now) && ExpiredIn(pre, st, q[..n], now)
  {
    if n == 0 {
      NoneExpired(pre, q[..n], now);
      return pre;
    }
    var m := n - 1;
    var mid := PassExpires(p, pre, rules, q, m, now);
    PassNext(p, pre, rules, q, m, n, now, mid);
    st := PassStep(p, pre, mid, rules, q[m], now);
    NextExpires(p, pre, mid, rules, q, m, n, now, st);
  }

  lemma {:induction false} NextExpires(
      p: Platform, pre: State, mid: State, rules: seq<CompiledRule>, q: seq<Id>, m: nat, n: nat, now: int, st: State)
    requires OneActive(pre.overrides) && PassInput(pre, q) && m < |q| && n == m + 1 && q[m] in pre.certs
    requires ExpiredIn(pre, mid, q[..m], now) && st == PassStep(p, pre, mid, rules, q[m], now)
    ensures ExpiredIn(pre, st, q[..n], now)
  {
    EarlierDiffer(pre, q, m);
    assert q[..n] == q[..m] + [q[m]];
    StepExpires(p, pre, mid, rules, q[..m], q[m], now, st, q[..n]);
  }

  lemma {:induction false} NoneExpired(pre: State, done: seq<Id>, now: int)
    requires done == []
    ensures ExpiredIn(pre, pre, done, now)
  {
  }

  /** A recompute clears exactly the overdue overrides of its certificates, now and as the system. */
  lemma {:induction false} RecomputeExpires(p: Platform, pre: State, threshold: nat, now: int, certs: seq<Id>)
    requires Inv(p, pre) && Recompute(p, pre, threshold, now).Ok? && certs == SortedIds(pre.certs.Keys)
    ensures (forall c :: c in certs <==> c in pre.certs)
    ensures ExpiredIn(pre, Recompute(p, pre, threshold, now).value, certs, now)
  {
    InvOneActive(p, pre);
    OrderIsAllCerts(pre);
    SortedIdsOrder(pre.certs.Keys);
    var post := PassExpires(p, pre, Compiled(p.lib, pre.rules).value.rules, certs, |certs|, now);
    assert certs[..|certs|] == certs;
    SameOverrides(pre, post, Recompute(p, pre, threshold, now).value, certs, now);
  }

  lemma {:induction false} SameOverrides(pre: State, a: State, b: State, done: seq<Id>, now: int)
    requires ExpiredIn(pre, a, done, now) && b.overrides == a.overrides
    ensures ExpiredIn(pre, b, done, now)
  {
    forall o | o in pre.overrides ensures ExpiredAt(pre, b, done, now, o) {
      assert ExpiredAt(pre, a, done, now, o);
    }
  }

  // --- the audit rows ------------------------------------------------------------------------------------

  ghost function HasOverdue(pre: State, now: int): Id -> bool {
    (c: Id) => exists o :: o in pre.overrides && pre.overrides[o].certId == c && Overdue(pre.overrides[o], now)
  }

  /** The entry names an overdue override of the certificate and the service it pinned. */
  ghost predicate NamesOverdue(pre: State, now: int, entry: (Id, Id, Id), c: Id) {
    && entry.0 == c && entry.1 in pre.overrides && pre.overrides[entry.1].certId == c
    && Overdue(pre.overrides[entry.1], now) && pre.overrides[entry.1].service == entry.2
  }

  /** One entry for each of these certificates that has an overdue override, in their order. */
  ghost predicate ListsOverdue(pre: State, q: seq<Id>, now: int, expired: seq<(Id, Id, Id)>) {
    var certs := Filter(q, HasOverdue(pre, now));
    |expired| == |certs| && forall i | 0 <= i < |certs| :: NamesOverdue(pre, now, expired[i], certs[i])
  }

  lemma {:induction false} ExpiryMeaning(pre: State, c: Id, now: int)
    requires OneActive(pre.overrides)
    ensures var entries := Expiry(c, EntryOf(pre, c), now);
      if HasOverdue(pre, now)(c) then |entries| == 1 && NamesOverdue(pre, now, entries[0], c) else entries == []
  {
    forall o | o in pre.overrides && pre.overrides[o].certId == c && pre.overrides[o].cleared.None?
      ensures ActiveOverride(pre.overrides, c) == Some(o)
    {
      OnlyActive(pre, c, o);
    }
  }

  lemma {:induction false} OverdueNext(
      pre: State, q: seq<Id>, m: nat, n: nat, now: int, expired: seq<(Id, Id, Id)>, more: seq<(Id, Id, Id)>)
    requires m < |q| && n == m + 1 && ListsOverdue(pre, q[..m], now, expired)
    requires if HasOverdue(pre, now)(q[m]) then |more| == 1 && NamesOverdue(pre, now, more[0], q[m]) else more == []
    ensures ListsOverdue(pre, q[..n], now, expired + more)
  {
    FilterNext(q, m, n, HasOverdue(pre, now));
  }

  lemma {:induction false} CountedKeepsExpired(t: Tally, c: Id, prior: Option<Row>, d: Decision)
    ensures Counted(t, c, prior, d).expired == t.expired
  {
  }

  lemma {:induction false} TallyExpires(
      p: Platform, pre: State, rules: seq<CompiledRule>, q: seq<Id>, n: nat, now: int) returns (t: Tally)
    requires OneActive(pre.overrides) && PassInput(pre, q) && n <= |q|
    ensures t == PassTally(p, pre, rules, q, n, now) && ListsOverdue(pre, q[..n], now, t.expired)
  {
    if n == 0 {
      return EMPTY_TALLY;
    }
    var m := n - 1;
    var t1 := TallyExpires(p, pre, rules, q, m, now);
    EarlierDiffer(pre, q, m);
    PassTallyNext(p, pre, rules, q, m, n, now, t1);
    var c := q[m];
    var more := Expiry(c, EntryOf(pre, c), now);
    t := Counted(Seen(t1, more), c, PriorRow(pre, c), PassDecision(p, pre, rules, c, now));
    CountedKeepsExpired(Seen(t1, more), c, PriorRow(pre, c), PassDecision(p, pre, rules, c, now));
    ExpiryMeaning(pre, c, now);
    OverdueNext(pre, q, m, n, now, t1.expired, more);
  }

  /** A failed rule each, an expired override each, a transition each, then the summary. */
  ghost predicate AuditedAs(
      was: seq<Event>, audit: seq<Event>, failures: seq<CompileFailure>, expired: seq<(Id, Id, Id)>,
      rows: seq<TransitionEvent>, last: Event)
  {
    var a, b, c := |was| + |failures|, |was| + |failures| + |expired|, |was| + |failures| + |expired| + |rows|;
    && |audit| == c + 1 && audit[..|was|] == was && audit[c] == last
    && (forall i | 0 <= i < |failures| :: audit[|was| + i] == RuleCompileFailed(failures[i]))
    && (forall i | 0 <= i < |expired| :: audit[a + i] == OverrideExpired(expired[i].0, expired[i].1, expired[i].2))
    && (forall i | 0 <= i < |rows| :: audit[b + i] == OwnershipTransition(rows[i]))
  }

  lemma {:induction false} PassRowsAudit(
      was: seq<Event>, firstRun: bool, t: Tally, failures: seq<CompileFailure>, rows: seq<TransitionEvent>)
    ensures AuditedAs(was, was + PassRows(firstRun, t, failures, rows), failures, t.expired, rows,
                      Recomputed(firstRun, t.summary, failures))
  {
  }

  /**
    The audit rows of a recompute are, in order: one for each rule that failed to compile, one for each
    certificate whose override was overdue, its transitions, and the summary, which says whether no
    certificate had a row before.
  */
  lemma {:induction false} RecomputeAudit(p: Platform, pre: State, threshold: nat, now: int)
    returns (expired: seq<(Id, Id, Id)>, rows: seq<TransitionEvent>, firstRun: bool)
    requires Inv(p, pre) && Recompute(p, pre, threshold, now).Ok?
    ensures AuditedAs(pre.audit, Recompute(p, pre, threshold, now).value.audit,
                      Compiled(p.lib, pre.rules).value.failures, expired, rows,
                      Recomputed(firstRun, RecomputeTally(p, pre, now).summary,
                                 Compiled(p.lib, pre.rules).value.failures))
    ensures ListsOverdue(pre, SortedIds(pre.certs.Keys), now, expired)
    ensures AuditsExactly(p, pre, Compiled(p.lib, pre.rules).value.rules, now, rows, threshold)
    ensures firstRun <==> forall c | c in pre.certs :: c !in pre.rows
  {
    rows := AuditListsTransitions(p, pre, threshold, now);
    firstRun := FirstRun(pre);
    expired := ExpiredListed(p, pre, now);
    PassRowsAudit(pre.audit, firstRun, RecomputeTally(p, pre, now), Compiled(p.lib, pre.rules).value.failures, rows);
  }

  lemma {:induction false} ExpiredListed(p: Platform, pre: State, now: int) returns (expired: seq<(Id, Id, Id)>)
    requires Inv(p, pre) && Compiled(p.lib, pre.rules).Ok?
    ensures expired == RecomputeTally(p, pre, now).expired
    ensures ListsOverdue(pre, SortedIds(pre.certs.Keys), now, expired)
  {
    var q := SortedIds(pre.certs.Keys);
    TallyOfPass(p, pre, now, q, |q|);
    InvOneActive(p, pre);
    var t := TallyExpires(p, pre, Compiled(p.lib, pre.rules).value.rules, q, |q|, now);
    expired := t.expired;
    assert q[..|q|] == q;
  }
}
