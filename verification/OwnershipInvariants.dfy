/**
  Invariants of the ownership tables over every run that mixes recompute, override create and
  clear, sweep pages, prune pages and changing inputs.
*/
module OwnershipInvariants {
  import opened Wrappers
  import opened Ids
  import opened Engine
  import opened Ownership
  import opened PassLemmas

  // --- shapes -------------------------------------------------------------------------

  /** Overridden exactly when an override is named, unowned exactly when there is no service. */
  ghost predicate DecisionShape(d: Decision) {
    && (d.kind == Overridden <==> d.overrideId.Some?)
    && (d.kind == Unowned <==> d.service.None?)
  }

  ghost predicate RowShape(r: Row) {
    && (r.kind == Overridden <==> r.overrideId.Some?)
    && (r.kind == Unowned <==> r.service.None?)
  }

  lemma {:induction false} DecideShape(
      lib: TextLibrary, sig: Signals, o: Option<Pin>, rules: seq<CompiledRule>, now: int)
    ensures DecisionShape(Decide(lib, sig, o, rules, now))
    ensures !OverrideActive(o, now) ==> Decide(lib, sig, o, rules, now).overrideId.None?
    ensures OverrideActive(o, now) ==> Decide(lib, sig, o, rules, now).overrideId == Some(o.value.overrideId)
  {
  }

  // --- the invariant ------------------------------------------------------------------

  ghost function RowPins(st: State, c: Id): set<Id> {
    if c in st.rows && st.rows[c].kind == Overridden && st.rows[c].overrideId.Some?
    then {st.rows[c].overrideId.value} else {}
  }

  ghost function DecisionPins(d: Decision): set<Id> {
    if d.overrideId.Some? then {d.overrideId.value} else {}
  }

  /** The uncleared overrides of a certificate are exactly what its row says. */
  ghost predicate PinAgrees(st: State, c: Id) {
    ActiveIds(st.overrides, c) == RowPins(st, c)
  }

  /** The row points at a surviving explanation of the same certificate and the same decision. */
  ghost predicate Explained(st: State, c: Id)
    requires c in st.rows
  {
    var r := st.rows[c];
    && r.explanationId in st.explanations
    && var e := st.explanations[r.explanationId];
       e.certId == c && e.kind == r.kind && e.service == r.service && e.winningRule == r.winningRule
  }

  ghost predicate Inv(p: Platform, st: State) {
    && SupplyFresh(p, st)
    && (forall c :: PinAgrees(st, c))
    && (forall c | c in st.rows :: Explained(st, c) && RowShape(st.rows[c]))
  }

  /** Inv, except that the row of c may lag behind its overrides. */
  ghost predicate InvBut(p: Platform, st: State, c: Id) {
    && SupplyFresh(p, st)
    && (forall x | x != c :: PinAgrees(st, x))
    && (forall x | x in st.rows :: Explained(st, x) && RowShape(st.rows[x]))
  }

  lemma {:induction false} InvOneActive(p: Platform, st: State)
    requires Inv(p, st)
    ensures OneActive(st.overrides)
  {
    forall a, b | a in st.overrides && b in st.overrides && st.overrides[a].certId == st.overrides[b].certId
                  && st.overrides[a].cleared.None? && st.overrides[b].cleared.None?
      ensures a == b
    {
      var c := st.overrides[a].certId;
      assert PinAgrees(st, c) && a in ActiveIds(st.overrides, c) && b in ActiveIds(st.overrides, c);
    }
  }

  lemma {:induction false} SettledPin(
      p: Platform, st: State, c: Id, sig: Signals, d: Decision, now: int, st': State)
    requires st' == Settle(p, st, c, sig, d, now) && DecisionShape(d)
    requires ActiveIds(st.overrides, c) == DecisionPins(d)
    ensures PinAgrees(st', c)
  {
    assert st'.rows[c].kind == d.kind && st'.rows[c].overrideId == d.overrideId;
  }

  lemma {:induction false} OtherPin(
      p: Platform, st: State, c: Id, sig: Signals, d: Decision, now: int, st': State, x: Id)
    requires st' == Settle(p, st, c, sig, d, now) && PinAgrees(st, x) && x != c
    ensures PinAgrees(st', x)
  {
  }

  lemma {:induction false} SettledFresh(
      p: Platform, st: State, c: Id, sig: Signals, d: Decision, now: int, st': State)
    requires st' == Settle(p, st, c, sig, d, now) && SupplyFresh(p, st)
    ensures SupplyFresh(p, st')
  {
  }

  lemma {:induction false} OtherExplained(
      p: Platform, st: State, c: Id, sig: Signals, d: Decision, now: int, st': State, x: Id)
    requires st' == Settle(p, st, c, sig, d, now) && p.mint(st.nextId) !in st.explanations
    requires x != c && x in st.rows && Explained(st, x) && RowShape(st.rows[x])
    ensures x in st'.rows && Explained(st', x) && RowShape(st'.rows[x])
  {
  }

  lemma {:induction false} OwnExplained(
      p: Platform, st: State, c: Id, sig: Signals, d: Decision, now: int, st': State)
    requires st' == Settle(p, st, c, sig, d, now) && p.mint(st.nextId) !in st.explanations && DecisionShape(d)
    requires c in st.rows ==> Explained(st, c) && RowShape(st.rows[c])
    ensures c in st'.rows && Explained(st', c) && RowShape(st'.rows[c])
  {
  }

  lemma {:induction false} SettledExplained(
      p: Platform, st: State, c: Id, sig: Signals, d: Decision, now: int, st': State, x: Id)
    requires st' == Settle(p, st, c, sig, d, now) && SupplyFresh(p, st) && DecisionShape(d) && x in st'.rows
    requires x in st.rows ==> Explained(st, x) && RowShape(st.rows[x])
    ensures Explained(st', x) && RowShape(st'.rows[x])
  {
    assert p.mint(st.nextId) !in st.explanations.Keys + st.overrides.Keys;
    if x == c {
      OwnExplained(p, st, c, sig, d, now, st');
    } else {
      OtherExplained(p, st, c, sig, d, now, st', x);
    }
  }

  /** Writing a decision that names exactly the active override restores the invariant. */
  lemma {:induction false} SettleRestores(p: Platform, st: State, c: Id, sig: Signals, d: Decision, now: int)
    requires InvBut(p, st, c) && DecisionShape(d) && ActiveIds(st.overrides, c) == DecisionPins(d)
    ensures Inv(p, Settle(p, st, c, sig, d, now))
  {
    var st' := Settle(p, st, c, sig, d, now);
    SettledPin(p, st, c, sig, d, now, st');
    SettledFresh(p, st, c, sig, d, now, st');
    forall x | x != c ensures PinAgrees(st', x) {
      OtherPin(p, st, c, sig, d, now, st', x);
    }
    forall x | x in st'.rows ensures Explained(st', x) && RowShape(st'.rows[x]) {
      SettledExplained(p, st, c, sig, d, now, st', x);
    }
  }

  lemma {:induction false} RederiveRestores(p: Platform, st: State, c: Id, pin: Option<Pin>, now: int)
    requires InvBut(p, st, c)
    requires ActiveIds(st.overrides, c) == if OverrideActive(pin, now) then {pin.value.overrideId} else {}
    ensures Rederive(p, st, c, pin, now).Ok? ==> Inv(p, Rederive(p, st, c, pin, now).value)
  {
    if Rederive(p, st, c, pin, now).Ok? {
      var rules := Compiled(p.lib, st.rules).value.rules;
      DecideShape(p.lib, st.certs[c], pin, rules, now);
      SettleRestores(p, st, c, st.certs[c], Decide(p.lib, st.certs[c], pin, rules, now), now);
    }
  }

  /** Clearing an override empties its certificate's active set and touches no other. */
  lemma {:induction false} ClearLeavesRow(p: Platform, st: State, id: Id, now: int, actor: string, reason: string)
    requires Inv(p, st) && Clearable(st, id)
    ensures var st' := ClearOne(st, id, now, actor, reason);
      InvBut(p, st', st.overrides[id].certId) && ActiveIds(st'.overrides, st.overrides[id].certId) == {}
  {
    var c := st.overrides[id].certId;
    var st' := ClearOne(st, id, now, actor, reason);
    assert PinAgrees(st, c) && id in ActiveIds(st.overrides, c);
    assert ActiveIds(st'.overrides, c) == ActiveIds(st.overrides, c) - {id};
    forall x | x != c ensures PinAgrees(st', x) {
      assert PinAgrees(st, x) && ActiveIds(st'.overrides, x) == ActiveIds(st.overrides, x);
    }
    forall x | x in st'.rows ensures Explained(st', x) && RowShape(st'.rows[x]) {
      assert Explained(st, x) && RowShape(st.rows[x]);
    }
  }

  lemma {:induction false} AuditIrrelevant(p: Platform, st: State, events: seq<Event>)
    requires Inv(p, st)
    ensures Inv(p, st.(audit := st.audit + events))
  {
    var st' := st.(audit := st.audit + events);
    forall c ensures PinAgrees(st', c) { assert PinAgrees(st, c); }
    forall c | c in st'.rows ensures Explained(st', c) && RowShape(st'.rows[c]) { assert Explained(st, c); }
  }

  // --- each writer keeps it ----------------------------------------------------------------

  lemma {:induction false} CreateKeeps(p: Platform, st: State, o: Override, now: int)
    requires Inv(p, st) && o.cleared.None? && (o.expiresAt.Some? ==> o.expiresAt.value > now)
    ensures CreateTx(p, st, o, now).Ok? ==> Inv(p, CreateTx(p, st, o, now).value)
  {
    if CreateTx(p, st, o, now).Ok? {
      var id, st1 := p.mint(st.nextId), Inserted(p, st, o);
      assert ActiveIds(st1.overrides, o.certId) == {id};
      forall x | x != o.certId ensures PinAgrees(st1, x) {
        assert PinAgrees(st, x) && ActiveIds(st1.overrides, x) == ActiveIds(st.overrides, x);
      }
      forall x | x in st1.rows ensures Explained(st1, x) && RowShape(st1.rows[x]) {
        assert Explained(st, x);
      }
      RederiveRestores(p, st1, o.certId, Some(PinOf(id, o)), now);
      AuditIrrelevant(p, Rederive(p, st1, o.certId, Some(PinOf(id, o)), now).value,
                      [OverrideSet(o.certId, id, o.service, o.setBy)]);
    }
  }

  lemma {:induction false} ClearKeeps(p: Platform, st: State, c: Id, id: Id, actor: string, reason: string, now: int)
    requires Inv(p, st) && (id in st.overrides ==> st.overrides[id].certId == c)
    ensures ClearTx(p, st, c, id, actor, reason, now).Ok? ==> Inv(p, ClearTx(p, st, c, id, actor, reason, now).value)
  {
    if ClearTx(p, st, c, id, actor, reason, now).Ok? {
      ClearLeavesRow(p, st, id, now, actor, reason);
      var st1 := ClearOne(st, id, now, actor, reason);
      RederiveRestores(p, st1, c, None, now);
      AuditIrrelevant(p, Rederive(p, st1, c, None, now).value, [OverrideCleared(c, id, actor)]);
    }
  }

  lemma {:induction false} SweepOneKeeps(p: Platform, st: State, c: Id, id: Id, o: Override, now: int)
    requires Inv(p, st) && (id in st.overrides ==> st.overrides[id].certId == c)
    ensures SweepOne(p, st, c, id, o, now).Ok? ==> Inv(p, SweepOne(p, st, c, id, o, now).value)
  {
    if SweepOne(p, st, c, id, o, now).Ok? && Clearable(st, id) {
      ClearLeavesRow(p, st, id, now, "system", "auto-expired");
      var st1 := ClearOne(st, id, now, "system", "auto-expired");
      RederiveRestores(p, st1, c, None, now);
      AuditIrrelevant(p, Rederive(p, st1, c, None, now).value, [OverrideExpired(c, id, o.service)]);
    }
  }

  /** Overrides never lose their certificate. */
  ghost predicate SameCerts(a: State, b: State) {
    forall o | o in a.overrides :: o in b.overrides && b.overrides[o].certId == a.overrides[o].certId
  }

  lemma {:induction false} SweepKeeps(p: Platform, pre: State, page: seq<Id>, now: int)
    requires Inv(p, pre) && forall c | c in page :: ActiveOverride(pre.overrides, c).Some?
    ensures SweepAll(p, pre, pre, page, now).Ok? ==>
      Inv(p, SweepAll(p, pre, pre, page, now).value) && SameCerts(pre, SweepAll(p, pre, pre, page, now).value)
  {
    if page != [] && SweepAll(p, pre, pre, page, now).Ok? {
      var n := |page| - 1;
      SweepKeeps(p, pre, page[..n], now);
      var mid := SweepAll(p, pre, pre, page[..n], now).value;
      var id := ActiveOverride(pre.overrides, page[n]).value;
      SweepOneKeeps(p, mid, page[n], id, pre.overrides[id], now);
      SweepOneFrame(p, mid, page[n], id, pre.overrides[id], now);
    }
  }

  lemma {:induction false} PruneCertKeeps(p: Platform, st: State, c: Id, keepN: nat, cutoff: int, limit: nat)
    requires Inv(p, st)
    ensures Inv(p, PruneCert(st, c, keepN, cutoff, limit).0)
  {
    DeletionKeeps(p, st, c, Deletable(st, c, PruneBatch(st, c, keepN, cutoff, limit)));
  }

  lemma {:induction false} DeletionKeeps(p: Platform, st: State, c: Id, gone: set<Id>)
    requires Inv(p, st)
    requires forall id | id in gone ::
      id in st.explanations && st.explanations[id].certId == c && Some(id) != CurrentExplanation(st, c)
    ensures Inv(p, st.(explanations := st.explanations - gone))
  {
    var st' := st.(explanations := st.explanations - gone);
    forall x ensures PinAgrees(st', x) { assert PinAgrees(st, x); }
    forall x | x in st'.rows ensures Explained(st', x) && RowShape(st'.rows[x]) { assert Explained(st, x); }
  }

  lemma {:induction false} PruneFirstKeeps(p: Platform, step: PruneStep, st: State, page: seq<Id>, n: nat)
    requires Inv(p, st) && n <= |page|
    requires forall s, c :: Inv(p, s) ==> Inv(p, step(s, c).0)
    ensures Inv(p, PruneFirst(step, st, page, n).0)
  {
    if n > 0 { PruneFirstKeeps(p, step, st, page, n - 1); }
  }

  lemma {:induction false} PruneKeeps(
      p: Platform, st: State, cursor: Id, limit: nat, keepN: nat, cutoff: int, perCert: nat)
    requires Inv(p, st)
    ensures Inv(p, PrunePageTx(st, cursor, limit, keepN, cutoff, perCert))
  {
    var page := Page(ExplainedCerts(st.explanations), cursor, limit);
    forall s, c | Inv(p, s) ensures Inv(p, PruneCertAt(keepN, cutoff, perCert)(s, c).0) {
      PruneCertKeeps(p, s, c, keepN, cutoff, perCert);
    }
    PruneFirstKeeps(p, PruneCertAt(keepN, cutoff, perCert), st, page, |page|);
    var (st', deleted) := PruneAll(st, page, keepN, cutoff, perCert);
    AuditIrrelevant(p, st', [ExplanationsPruned(deleted, |page|, cursor, NextCursor(page, cursor))]);
  }

  // --- the recompute pass ------------------------------------------------------------------

  /** The override state a pass step leaves for its certificate is the one its decision names. */
  lemma {:induction false} PassStepKeeps(p: Platform, pre: State, st: State, rules: seq<CompiledRule>, c: Id, now: int)
    requires Inv(p, st) && c in pre.certs && st.overrides.Keys == pre.overrides.Keys
    requires SameCerts(pre, st)
    requires forall o | o in pre.overrides && pre.overrides[o].certId == c :: st.overrides[o] == pre.overrides[o]
    ensures Inv(p, PassStep(p, pre, st, rules, c, now))
  {
    var active := ActiveOverride(pre.overrides, c);
    assert ActiveIds(st.overrides, c) == ActiveIds(pre.overrides, c);
    assert PinAgrees(st, c);
    var pin, d := EffectivePin(pre, c, now), PassDecision(p, pre, rules, c, now);
    DecideShape(p.lib, pre.certs[c], pin, rules, now);
    if active.Some? && Expired(pre.overrides[active.value], now) {
      ClearLeavesRow(p, st, active.value, now, "system", "auto-expired");
      SettleRestores(p, ClearOne(st, active.value, now, "system", "auto-expired"), c, pre.certs[c], d, now);
    } else {
      assert ActiveIds(st.overrides, c) == DecisionPins(d);
      SettleRestores(p, st, c, pre.certs[c], d, now);
    }
  }

  lemma {:induction false} PassSameCerts(
      p: Platform, pre: State, rules: seq<CompiledRule>, q: seq<Id>, n: nat, now: int)
    requires PassInput(pre, q) && n <= |q|
    ensures SameCerts(pre, Pass(p, pre, rules, q, n, now))
  {
    if n > 0 {
      PassSameCerts(p, pre, rules, q, n - 1, now);
      assert q[n - 1] in q;
      PassStepSameCerts(p, pre, Pass(p, pre, rules, q, n - 1, now), rules, q[n - 1], now);
    }
  }

  lemma {:induction false} PassStepSameCerts(
      p: Platform, pre: State, st: State, rules: seq<CompiledRule>, c: Id, now: int)
    requires c in pre.certs && SameCerts(pre, st)
    ensures SameCerts(pre, PassStep(p, pre, st, rules, c, now))
  {
  }

  lemma {:induction false} PassKeeps(p: Platform, pre: State, rules: seq<CompiledRule>, q: seq<Id>, n: nat, now: int)
    returns (st: State)
    requires Inv(p, pre) && PassInput(pre, q) && n <= |q|
    ensures st == Pass(p, pre, rules, q, n, now) && Inv(p, st)
  {
    if n == 0 {
      return pre;
    }
    var m := n - 1;
    var mid := PassKeeps(p, pre, rules, q, m, now);
    PassSameCerts(p, pre, rules, q, m, now);
    EarlierDiffer(pre, q, m);
    PassFrame(p, pre, rules, q, m, now, q[m]);
    PassNext(p, pre, rules, q, m, n, now, mid);
    PassStepKeeps(p, pre, mid, rules, q[m], now);
    st := PassStep(p, pre, mid, rules, q[m], now);
  }

  lemma {:induction false} RecomputeKeeps(p: Platform, st: State, threshold: nat, now: int)
    requires Inv(p, st)
    ensures Recompute(p, st, threshold, now).Ok? ==> Inv(p, Recompute(p, st, threshold, now).value)
  {
    if Recompute(p, st, threshold, now).Ok? {
      var rs := Compiled(p.lib, st.rules).value;
      var q := SortedIds(st.certs.Keys);
      CertOrder(st);
      var post := PassKeeps(p, st, rs.rules, q, |q|, now);
      PassKeepsInputs(p, st, rs.rules, q, |q|, now);
      AuditIrrelevant(p, post,
                      PassEvents(FirstRun(st), PassTally(p, st, rs.rules, q, |q|, now), rs.failures, threshold));
    }
  }

  // --- runs ------------------------------------------------------------------------------------

  datatype Step =
    | DoRecompute(now: int)
    | DoCreate(o: Override, createdAt: int)
    | DoClear(certId: Id, overrideId: Id, actor: string, reason: string, clearedAt: int)
    | DoSweep(sweepCursor: Id, sweepLimit: nat, sweptAt: int)
    | DoPrune(pruneCursor: Id, pruneLimit: nat, keepN: nat, cutoff: int, perCert: nat)
    | ChangeInputs(certs: map<Id, Signals>, rules: seq<Rule>)

  /**
    What the callers guarantee: a new override is uncleared and not yet expired; a clear names an
    override of its certificate.
  */
  ghost predicate Enabled(st: State, s: Step) {
    match s
    case DoCreate(o, now) => o.cleared.None? && (o.expiresAt.Some? ==> o.expiresAt.value > now)
    case DoClear(c, id, _, _, _) => id in st.overrides ==> st.overrides[id].certId == c
    case _ => true
  }

  ghost function Committed<E>(st: State, r: Result<State, E>): State {
    if r.Ok? then r.value else st
  }

  /** One transaction; a refused one leaves the tables as they were. */
  ghost function Apply(p: Platform, threshold: nat, st: State, s: Step): State {
    match s
    case DoRecompute(now) => Committed(st, Recompute(p, st, threshold, now))
    case DoCreate(o, now) => Committed(st, CreateTx(p, st, o, now))
    case DoClear(c, id, actor, reason, now) => Committed(st, ClearTx(p, st, c, id, actor, reason, now))
    case DoSweep(cursor, limit, now) => Committed(st, SweepPageTx(p, st, cursor, limit, now))
    case DoPrune(cursor, limit, keepN, cutoff, perCert) => PrunePageTx(st, cursor, limit, keepN, cutoff, perCert)
    case ChangeInputs(certs, rules) => st.(certs := certs, rules := rules)
  }

  ghost predicate IsRun(p: Platform, threshold: nat, states: seq<State>, steps: seq<Step>) {
    && |states| == |steps| + 1
    && forall i | 0 <= i < |steps| ::
         Enabled(states[i], steps[i]) && states[i + 1] == Apply(p, threshold, states[i], steps[i])
  }

  ghost predicate Initial(p: Platform, st: State) {
    st.rows == map[] && st.overrides == map[] && st.explanations == map[] && SupplyFresh(p, st)
  }

  lemma {:induction false} ApplyKeeps(p: Platform, threshold: nat, st: State, s: Step)
    requires Inv(p, st) && Enabled(st, s)
    ensures Inv(p, Apply(p, threshold, st, s))
  {
    match s
    case DoRecompute(now) => RecomputeKeeps(p, st, threshold, now);
    case DoCreate(o, now) => CreateKeeps(p, st, o, now);
    case DoClear(c, id, actor, reason, now) => ClearKeeps(p, st, c, id, actor, reason, now);
    case DoSweep(cursor, limit, now) =>
      ExpiringPage(st, now, cursor, limit);
      SweepKeeps(p, st, Page(ExpiringCerts(st, now), cursor, limit), now);
    case DoPrune(cursor, limit, keepN, cutoff, perCert) => PruneKeeps(p, st, cursor, limit, keepN, cutoff, perCert);
    case ChangeInputs(certs, rules) => InputsIrrelevant(p, st, certs, rules);
  }

  lemma {:induction false} InputsIrrelevant(p: Platform, st: State, certs: map<Id, Signals>, rules: seq<Rule>)
    requires Inv(p, st)
    ensures Inv(p, st.(certs := certs, rules := rules))
  {
    var st' := st.(certs := certs, rules := rules);
    forall c ensures PinAgrees(st', c) { assert PinAgrees(st, c); }
    forall c | c in st'.rows ensures Explained(st', c) && RowShape(st'.rows[c]) { assert Explained(st, c); }
  }

  lemma {:induction false} RunKeeps(p: Platform, threshold: nat, states: seq<State>, steps: seq<Step>, k: nat)
    requires IsRun(p, threshold, states, steps) && Initial(p, states[0]) && k < |states|
    ensures Inv(p, states[k])
  {
    if k == 0 {
      forall c ensures PinAgrees(states[0], c) { }
    } else {
      RunKeeps(p, threshold, states, steps, k - 1);
      ApplyKeeps(p, threshold, states[k - 1], steps[k - 1]);
    }
  }

  /**
    In every reachable state at most one override per certificate is uncleared, and override o of
    certificate c is uncleared exactly when the ownership row of c is overridden with override id o.
  */
  lemma {:induction false} OverridesAgreeWithRows(
      p: Platform, threshold: nat, states: seq<State>, steps: seq<Step>, k: nat)
    requires IsRun(p, threshold, states, steps) && Initial(p, states[0]) && k < |states|
    ensures var st := states[k];
      && OneActive(st.overrides)
      && forall c, o ::
           (o in st.overrides && st.overrides[o].certId == c && st.overrides[o].cleared.None?)
           <==> (c in st.rows && st.rows[c].kind == Overridden && st.rows[c].overrideId == Some(o))
  {
    RunKeeps(p, threshold, states, steps, k);
    InvMeans(p, states[k]);
  }

  lemma {:induction false} InvMeans(p: Platform, st: State)
    requires Inv(p, st)
    ensures OneActive(st.overrides)
    ensures forall c, o ::
      (o in st.overrides && st.overrides[o].certId == c && st.overrides[o].cleared.None?)
      <==> (c in st.rows && st.rows[c].kind == Overridden && st.rows[c].overrideId == Some(o))
  {
    InvOneActive(p, st);
    forall c, o
      ensures (o in st.overrides && st.overrides[o].certId == c && st.overrides[o].cleared.None?)
        <==> (c in st.rows && st.rows[c].kind == Overridden && st.rows[c].overrideId == Some(o))
    {
      assert PinAgrees(st, c);
      assert o in ActiveIds(st.overrides, c) <==> o in RowPins(st, c);
    }
  }

  /**
    In every reachable state each ownership row points at a surviving explanation of the same
    certificate whose decision, service and winning rule equal the row's.
  */
  lemma {:induction false} RowsStayExplained(
      p: Platform, threshold: nat, states: seq<State>, steps: seq<Step>, k: nat, c: Id)
    requires IsRun(p, threshold, states, steps) && Initial(p, states[0]) && k < |states| && c in states[k].rows
    ensures var st := states[k];
      var r := st.rows[c];
      && r.explanationId in st.explanations
      && st.explanations[r.explanationId].certId == c
      && st.explanations[r.explanationId].kind == r.kind
      && st.explanations[r.explanationId].service == r.service
      && st.explanations[r.explanationId].winningRule == r.winningRule
  {
    RunKeeps(p, threshold, states, steps, k);
    assert Explained(states[k], c);
  }
}
