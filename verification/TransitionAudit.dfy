/**
  Which transition of a recompute pass is audited under which key, and the audit rows a pass writes for
  each key: judged on the prior rows and the decisions alone.
*/
module TransitionAudit {
  import opened Wrappers
  import opened Ids
  import opened Sorting
  import opened Engine
  import opened AuditRollup
  import opened Ownership
  import opened PassLemmas
  import opened OwnershipInvariants
  import opened OwnershipCounters

  // --- one transition --------------------------------------------------------------------------

  /** The action a transition is audited under, if any. */
  ghost predicate UnderAction(prior: Option<Row>, d: Decision, action: Action) {
    match action
    case Cleared => BecomesUnowned(prior, d)
    case AmbiguousMatch =>
      d.kind == Ambiguous && (BecomesOwned(prior, d) || Flips(prior, d) || TurnsAmbiguous(prior, d))
    case Assigned => d.kind != Ambiguous && BecomesOwned(prior, d)
    case Flipped => d.kind != Ambiguous && Flips(prior, d)
  }

  /** From the prior decision, unowned without a row, to the new one, driven by its winning rule, if any. */
  ghost predicate UnderKey(prior: Option<Row>, d: Decision, k: GroupKey) {
    && UnderAction(prior, d, k.action)
    && k.from == (if prior.Some? then prior.value.kind else Unowned) && k.to == d.kind
    && k.driver == (if d.winningRule.Some? then d.winningRule.value else "")
  }

  /** The certificates logged under a key, in order. */
  ghost function IdsUnder(log: Log, k: GroupKey): seq<Id> {
    if k in log then log[k] else []
  }

  /** A transition is audited under at most one key. */
  lemma {:induction false} OneKey(prior: Option<Row>, d: Decision, k: GroupKey, k': GroupKey)
    requires DecisionShape(d) && UnderKey(prior, d, k) && UnderKey(prior, d, k')
    ensures k == k'
  {
  }

  /** One decision is logged under exactly the key of its transition, behind what was logged there. */
  lemma {:induction false} CountedUnderKey(t: Tally, certId: Id, prior: Option<Row>, d: Decision, k: GroupKey)
    requires DecisionShape(d) && (prior.Some? ==> RowShape(prior.value))
    ensures IdsUnder(Counted(t, certId, prior, d).log, k)
         == IdsUnder(t.log, k) + if UnderKey(prior, d, k) then [certId] else []
  {
    assert IdsUnder(t.log, k) + [] == IdsUnder(t.log, k);
  }

  // --- a whole pass ------------------------------------------------------------------------------

  /** The certificates whose transition in this pass has the key. */
  ghost function HasKey(p: Platform, pre: State, rules: seq<CompiledRule>, now: int, k: GroupKey): Id -> bool {
    (c: Id) => c in pre.certs && UnderKey(PriorRow(pre, c), PassDecision(p, pre, rules, c, now), k)
  }

  ghost predicate LogLists(
      p: Platform, pre: State, rules: seq<CompiledRule>, q: seq<Id>, n: nat, now: int, t: Tally, k: GroupKey)
    requires n <= |q|
  {
    IdsUnder(t.log, k) == Filter(q[..n], HasKey(p, pre, rules, now, k))
  }

  lemma {:induction false} FilterNext(q: seq<Id>, m: nat, n: nat, keep: Id -> bool)
    requires m < |q| && n == m + 1
    ensures Filter(q[..n], keep) == Filter(q[..m], keep) + if keep(q[m]) then [q[m]] else []
  {
    assert q[..n] == q[..m] + [q[m]];
    FilterAppend(q[..m], [q[m]], keep);
    assert [q[m]][1..] == [];
  }

  lemma {:induction false} PassLogs(
      p: Platform, pre: State, rules: seq<CompiledRule>, q: seq<Id>, n: nat, now: int, k: GroupKey)
    returns (t: Tally)
    requires PassInput(pre, q) && n <= |q| && forall c | c in pre.rows :: RowShape(pre.rows[c])
    ensures t == PassTally(p, pre, rules, q, n, now) && LogLists(p, pre, rules, q, n, now, t, k)
  {
    if n == 0 {
      return EMPTY_TALLY;
    }
    var m := n - 1;
    var t1 := PassLogs(p, pre, rules, q, m, now, k);
    EarlierDiffer(pre, q, m);
    PassTallyNext(p, pre, rules, q, m, n, now, t1);
    var c := q[m];
    var prior, d := PriorRow(pre, c), PassDecision(p, pre, rules, c, now);
    var seen := Seen(t1, Expiry(c, EntryOf(pre, c), now));
    t := Counted(seen, c, prior, d);
    DecideShape(p.lib, pre.certs[c], EffectivePin(pre, c, now), rules, now);
    CountedUnderKey(seen, c, prior, d, k);
    FilterNext(q, m, n, HasKey(p, pre, rules, now, k));
  }

  // --- the rows written for one key -----------------------------------------------------------------

  ghost function OfKey(k: GroupKey): TransitionEvent -> bool {
    (e: TransitionEvent) => e.key == k
  }

  lemma {:induction false} AllKept(s: seq<TransitionEvent>, k: GroupKey)
    requires forall i | 0 <= i < |s| :: s[i].key == k
    ensures Filter(s, OfKey(k)) == s
  {
    if s != [] {
      AllKept(s[1..], k);
      assert s == [s[0]] + s[1..];
    }
  }

  lemma {:induction false} NoneKept(s: seq<TransitionEvent>, k: GroupKey)
    requires forall i | 0 <= i < |s| :: s[i].key != k
    ensures Filter(s, OfKey(k)) == []
  {
    if s != [] { NoneKept(s[1..], k); }
  }

  lemma {:induction false} KeyOfRows(key: GroupKey, g: Group)
    ensures forall i | 0 <= i < |RowsFor(key, g)| :: RowsFor(key, g)[i].key == key
  {
  }

  lemma {:induction false} EventsOfKey(keys: seq<GroupKey>, groups: map<GroupKey, Group>, k: GroupKey)
    requires forall x | x in keys :: x in groups
    requires forall i, j | 0 <= i < j < |keys| :: keys[i] != keys[j]
    ensures Filter(EventsFor(keys, groups), OfKey(k)) == if k in keys then RowsFor(k, groups[k]) else []
  {
    if keys != [] {
      var n := |keys| - 1;
      var last := keys[n];
      EventsOfKey(keys[..n], groups, k);
      assert keys == keys[..n] + [last];
      var rows := RowsFor(last, groups[last]);
      FilterAppend(EventsFor(keys[..n], groups), rows, OfKey(k));
      KeyOfRows(last, groups[last]);
      if last == k {
        AllKept(rows, k);
        assert k !in keys[..n];
      } else {
        NoneKept(rows, k);
      }
    }
  }

  /** One row per certificate up to the threshold, else one row with their number and the first hundred. */
  ghost function ExpectedRows(k: GroupKey, ids: seq<Id>, threshold: nat): seq<TransitionEvent> {
    if |ids| > threshold then [Rollup(k, |ids|, if |ids| <= 100 then ids else ids[..100])]
    else seq(|ids|, i requires 0 <= i < |ids| => PerCertificate(k, ids[i]))
  }

  lemma {:induction false} RowsOfKey(t: Tally, threshold: nat, k: GroupKey)
    ensures Filter(TransitionRows(t, threshold), OfKey(k)) == ExpectedRows(k, IdsUnder(t.log, k), threshold)
  {
    var groups := GroupsOf(t.log, threshold);
    var keys := KeyOrder(groups.Keys);
    KeyOrderStrict();
    forall i, j | 0 <= i < j < |keys| ensures keys[i] != keys[j] {
      assert KeyBefore(keys[i], keys[j]);
    }
    EventsOfKey(keys, groups, k);
    if k in t.log {
      assert groups[k] == GroupOf(t.log[k], threshold);
      SameRows(k, t.log[k], threshold);
    }
  }

  lemma {:induction false} SameRows(k: GroupKey, ids: seq<Id>, threshold: nat)
    ensures RowsFor(k, GroupOf(ids, threshold)) == ExpectedRows(k, ids, threshold)
  {
    assert ids[..|ids|] == ids;
    if |ids| <= threshold {
      assert PerCertificateRows(k, ids) == ExpectedRows(k, ids, threshold);
    }
  }

  // --- the order of the keys ----------------------------------------------------------------------------

  const ACTIONS: seq<Action> := [AmbiguousMatch, Assigned, Cleared, Flipped]
  const KINDS: seq<DecisionKind> := [Ambiguous, Matched, Overridden, Unowned]

  ghost predicate Precedes<T>(order: seq<T>, a: T, b: T) {
    exists i, j | 0 <= i < j < |order| :: order[i] == a && order[j] == b
  }

  /** By action, from, to, each in alphabetical order, then by driver. */
  ghost predicate WrittenBefore(a: GroupKey, b: GroupKey) {
    || Precedes(ACTIONS, a.action, b.action)
    || (a.action == b.action && Precedes(KINDS, a.from, b.from))
    || (a.action == b.action && a.from == b.from && Precedes(KINDS, a.to, b.to))
    || (a.action == b.action && a.from == b.from && a.to == b.to && Less(a.driver, b.driver))
  }

  /** Any two different members of the list are in its order, one way round. */
  lemma {:induction false} Either<T>(order: seq<T>, i: nat, j: nat)
    requires i < |order| && j < |order| && order[i] != order[j]
    ensures Precedes(order, order[i], order[j]) || Precedes(order, order[j], order[i])
  {
  }

  /** The smaller character at the first difference decides. */
  lemma {:induction false} LessAt(a: Id, b: Id, k: nat)
    requires k < |a| && k < |b| && a[..k] == b[..k] && a[k] < b[k]
    ensures Less(a, b)
  {
    LessMeaning(a, b);
  }

  lemma {:induction false} KindNamesInOrder(i: nat, j: nat)
    requires i < j < 4
    ensures Less(KindName(KINDS[i]), KindName(KINDS[j]))
  {
    LessAt(KindName(KINDS[i]), KindName(KINDS[j]), 0);
  }

  lemma {:induction false} ActionNamesInOrder(a: Action, b: Action)
    requires a == AmbiguousMatch || a == Assigned || (a == Cleared && b == Flipped)
    requires b == Cleared || b == Flipped
    ensures Less(ActionName(a), ActionName(b))
  {
    assert ActionName(a)[..10] == "ownership." == ActionName(b)[..10];
    LessAt(ActionName(a), ActionName(b), 10);
  }

  lemma {:induction false} FirstTwoInOrder()
    ensures Less(ActionName(AmbiguousMatch), ActionName(Assigned))
  {
    assert ActionName(AmbiguousMatch)[..11] == "ownership.a" == ActionName(Assigned)[..11];
    LessAt(ActionName(AmbiguousMatch), ActionName(Assigned), 11);
  }

  lemma {:induction false} NamesInOrder(i: nat, j: nat)
    requires i < j < 4
    ensures Less(ActionName(ACTIONS[i]), ActionName(ACTIONS[j]))
  {
    if j == 1 { FirstTwoInOrder(); } else { ActionNamesInOrder(ACTIONS[i], ACTIONS[j]); }
  }

  lemma {:induction false} ActionsByName(a: Action, b: Action)
    ensures Precedes(ACTIONS, a, b) <==> a != b && Less(ActionName(a), ActionName(b))
  {
    var i := match a case AmbiguousMatch => 0 case Assigned => 1 case Cleared => 2 case Flipped => 3;
    var j := match b case AmbiguousMatch => 0 case Assigned => 1 case Cleared => 2 case Flipped => 3;
    assert ACTIONS[i] == a && ACTIONS[j] == b;
    if i < j { NamesInOrder(i, j); }
    if j < i { NamesInOrder(j, i); LessAsymmetric(ActionName(b), ActionName(a)); }
  }

  lemma {:induction false} KindsByName(a: DecisionKind, b: DecisionKind)
    ensures Precedes(KINDS, a, b) <==> a != b && Less(KindName(a), KindName(b))
  {
    var i := match a case Ambiguous => 0 case Matched => 1 case Overridden => 2 case Unowned => 3;
    var j := match b case Ambiguous => 0 case Matched => 1 case Overridden => 2 case Unowned => 3;
    assert KINDS[i] == a && KINDS[j] == b;
    if i < j { KindNamesInOrder(i, j); }
    if j < i { KindNamesInOrder(j, i); LessAsymmetric(KindName(b), KindName(a)); }
  }

  lemma {:induction false} KeyOrderWritten(a: GroupKey, b: GroupKey)
    ensures KeyBefore(a, b) <==> WrittenBefore(a, b)
  {
    ActionsByName(a.action, b.action);
    KindsByName(a.from, b.from);
    KindsByName(a.to, b.to);
  }

  /** Rows of one key stand together, and the keys in that order. */
  ghost predicate GroupedInOrder(rows: seq<TransitionEvent>) {
    forall i, j | 0 <= i < j < |rows| :: rows[i].key == rows[j].key || WrittenBefore(rows[i].key, rows[j].key)
  }

  lemma {:induction false} EventsInOrder(keys: seq<GroupKey>, groups: map<GroupKey, Group>)
    requires (forall x | x in keys :: x in groups) && Sorted(keys, KeyBefore)
    ensures GroupedInOrder(EventsFor(keys, groups))
    ensures forall i | 0 <= i < |EventsFor(keys, groups)| :: EventsFor(keys, groups)[i].key in keys
  {
    if keys != [] {
      var n := |keys| - 1;
      EventsInOrder(keys[..n], groups);
      var before, rows := EventsFor(keys[..n], groups), RowsFor(keys[n], groups[keys[n]]);
      KeyOfRows(keys[n], groups[keys[n]]);
      forall i | 0 <= i < |before| ensures WrittenBefore(before[i].key, keys[n]) {
        var m :| 0 <= m < n && keys[..n][m] == before[i].key;
        KeyOrderWritten(keys[m], keys[n]);
      }
    }
  }

  // --- the audit of a recompute ----------------------------------------------------------------------------

  /** The certificates that move under a key, in certificate order. */
  ghost function MovedUnder(p: Platform, st: State, rules: seq<CompiledRule>, now: int, k: GroupKey): seq<Id> {
    Filter(SortedIds(st.certs.Keys), HasKey(p, st, rules, now, k))
  }

  ghost predicate KeyAudited(rows: seq<TransitionEvent>, k: GroupKey, moved: seq<Id>, threshold: nat) {
    Filter(rows, OfKey(k)) == ExpectedRows(k, moved, threshold)
  }

  /** The transition rows are in order, and for each key exactly those of the certificates that move so. */
  ghost predicate AuditsExactly(
      p: Platform, st: State, rules: seq<CompiledRule>, now: int, rows: seq<TransitionEvent>, threshold: nat)
  {
    && GroupedInOrder(rows)
    && forall k: GroupKey :: KeyAudited(rows, k, MovedUnder(p, st, rules, now, k), threshold)
  }

  lemma {:induction false} LoggedMoved(
      p: Platform, st: State, now: int, rules: seq<CompiledRule>, q: seq<Id>, n: nat, t: Tally, k: GroupKey)
    requires q == SortedIds(st.certs.Keys) && n == |q| && PassInput(st, q)
    requires forall c | c in st.rows :: RowShape(st.rows[c])
    requires t == PassTally(p, st, rules, q, n, now)
    ensures IdsUnder(t.log, k) == MovedUnder(p, st, rules, now, k)
  {
    var t' := PassLogs(p, st, rules, q, n, now, k);
    assert q[..n] == q;
  }

  lemma {:induction false} RowsInOrder(t: Tally, threshold: nat)
    ensures GroupedInOrder(TransitionRows(t, threshold))
  {
    var groups := GroupsOf(t.log, threshold);
    EventsInOrder(KeyOrder(groups.Keys), groups);
  }

  lemma {:induction false} RowsAudit(t: Tally, threshold: nat, k: GroupKey, moved: seq<Id>, rows: seq<TransitionEvent>)
    requires moved == IdsUnder(t.log, k) && rows == TransitionRows(t, threshold)
    ensures KeyAudited(rows, k, moved, threshold)
  {
    RowsOfKey(t, threshold, k);
  }

  lemma {:induction false} PassAudits(
      p: Platform, st: State, threshold: nat, now: int, rules: seq<CompiledRule>, q: seq<Id>, n: nat, t: Tally,
      rows: seq<TransitionEvent>, k: GroupKey)
    requires q == SortedIds(st.certs.Keys) && n == |q| && PassInput(st, q)
    requires forall c | c in st.rows :: RowShape(st.rows[c])
    requires t == PassTally(p, st, rules, q, n, now) && rows == TransitionRows(t, threshold)
    ensures KeyAudited(rows, k, MovedUnder(p, st, rules, now, k), threshold)
  {
    LoggedMoved(p, st, now, rules, q, n, t, k);
    RowsAudit(t, threshold, k, MovedUnder(p, st, rules, now, k), rows);
  }

  lemma {:induction false} TallyOfPass(p: Platform, st: State, now: int, q: seq<Id>, n: nat)
    requires Compiled(p.lib, st.rules).Ok? && q == SortedIds(st.certs.Keys) && n == |q|
    ensures PassInput(st, q)
    ensures RecomputeTally(p, st, now) == PassTally(p, st, Compiled(p.lib, st.rules).value.rules, q, n, now)
  {
    CertOrder(st);
  }

  /**
    The audit of a recompute: for each key the certificates whose transition has it, in certificate order,
    one row each up to the threshold and one rollup row of all of them beyond it; keys in order; and
    nothing else is audited as a transition.
  */
  lemma {:induction false} AuditListsTransitions(p: Platform, st: State, threshold: nat, now: int)
    returns (rows: seq<TransitionEvent>)
    requires Inv(p, st) && Recompute(p, st, threshold, now).Ok?
    ensures Recompute(p, st, threshold, now).value.audit == st.audit
           + PassRows(FirstRun(st), RecomputeTally(p, st, now), Compiled(p.lib, st.rules).value.failures, rows)
    ensures AuditsExactly(p, st, Compiled(p.lib, st.rules).value.rules, now, rows, threshold)
  {
    var t := AuditAccountsForEveryTransition(p, st, threshold, now);
    rows := TransitionRows(t, threshold);
    RowsInOrder(t, threshold);
    var rules, q := Compiled(p.lib, st.rules).value.rules, SortedIds(st.certs.Keys);
    TallyOfPass(p, st, now, q, |q|);
    forall k: GroupKey ensures KeyAudited(rows, k, MovedUnder(p, st, rules, now, k), threshold) {
      PassAudits(p, st, threshold, now, rules, q, |q|, t, rows, k);
    }
  }
}
