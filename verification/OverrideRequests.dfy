/**
  The override operations as operators call them: which requests are refused and why, what an accepted one
  writes, and the invariants over runs of whole requests, whose checks read the tables before the
  transaction does.
*/
module OverrideRequests {
  import opened Wrappers
  import opened Ids
  import opened Engine
  import opened Ownership
  import opened PassLemmas
  import opened OwnershipInvariants

  // --- what is refused ------------------------------------------------------------------------

  predicate BlankCreate(certId: Id, service: Id, reason: string, actor: string) {
    certId == "" || service == "" || actor == "" || reason == "" || |reason| > 1000
  }

  predicate Past(expiresAt: Option<int>, now: int) {
    expiresAt.Some? && expiresAt.value <= now
  }

  ghost predicate Pinned(st: State, certId: Id) {
    exists id :: id in st.overrides && st.overrides[id].certId == certId && st.overrides[id].cleared.None?
  }

  /** When the checks before the transaction let a create through, and what they answer otherwise. */
  lemma {:induction false} CreateCheckExact(
      st: State, certId: Id, service: Id, reason: string, actor: string, expiresAt: Option<int>, active: bool, now: int)
    ensures var check := CreateCheck(st, Override(certId, service, reason, actor, now, expiresAt, None), active);
      var bad, past := BlankCreate(certId, service, reason, actor), Past(expiresAt, now);
      && (check == Some(InvalidInput) <==> bad)
      && (check == Some(ExpiryInPast) <==> !bad && past)
      && (check == Some(CertificateNotFound) <==> !bad && !past && certId !in st.certs)
      && (check == Some(ServiceNotFound) <==> !bad && !past && certId in st.certs && !active)
      && (check == None <==> !bad && !past && certId in st.certs && active)
  {
  }

  /** A clear is let through iff its inputs are well formed and the certificate has an uncleared override: that one. */
  lemma {:induction false} ClearCheckExact(st: State, certId: Id, actor: string, reason: string)
    ensures var bad := certId == "" || actor == "" || reason == "" || |reason| > 1000;
      match ClearCheck(st, certId, actor, reason)
      case Err(e) => if bad then e == InvalidInput else e == CertificateNotFound && !Pinned(st, certId)
      case Ok(id) =>
        !bad && id in st.overrides && st.overrides[id].certId == certId && st.overrides[id].cleared.None?
  {
    if ActiveOverride(st.overrides, certId).None? {
      forall id | id in st.overrides && st.overrides[id].certId == certId ensures st.overrides[id].cleared.Some? {
        assert id !in ActiveIds(st.overrides, certId);
      }
    }
  }

  // --- what is written ----------------------------------------------------------------------------

  /** Rows and explanations of other certificates, and the inputs, are as they were. */
  ghost predicate OthersKept(st: State, st': State, certId: Id) {
    && st'.certs == st.certs && st'.rules == st.rules
    && (forall c | c != certId :: PriorRow(st', c) == PriorRow(st, c))
    && forall e | e in st.explanations && st.explanations[e].certId != certId ::
         e in st'.explanations && st'.explanations[e] == st.explanations[e]
  }

  lemma {:induction false} SettleWrites(p: Platform, st: State, certId: Id, sig: Signals, d: Decision, now: int)
    requires p.mint(st.nextId) !in st.explanations
    ensures var st' := Settle(p, st, certId, sig, d, now);
      && OthersKept(st, st', certId) && st'.overrides == st.overrides && st'.audit == st.audit
      && certId in st'.rows && Agrees(st'.rows[certId], d) && st'.rows[certId].lastEvaluated == now
  {
  }

  /**
    A create refuses a certificate that has an uncleared override, or a rule list that does not compile, and
    otherwise adds exactly the requested override under a new id, decides its certificate by it, and audits it.
  */
  lemma {:induction false} CreateWrites(
      p: Platform, st: State, certId: Id, service: Id, reason: string, actor: string, expiresAt: Option<int>, now: int)
    requires SupplyFresh(p, st) && certId in st.certs && !Past(expiresAt, now)
    ensures var o, id := Override(certId, service, reason, actor, now, expiresAt, None), p.mint(st.nextId);
      match CreateTx(p, st, o, now)
      case Err(e) =>
        if Pinned(st, certId) then e == OverrideConflict
        else Compiled(p.lib, st.rules).Err? && e == CompileRefused(Compiled(p.lib, st.rules).error)
      case Ok(st') =>
        && !Pinned(st, certId) && Compiled(p.lib, st.rules).Ok?
        && id !in st.overrides && st'.overrides == st.overrides[id := o]
        && st'.audit == st.audit + [OverrideSet(certId, id, service, actor)] && OthersKept(st, st', certId)
        && certId in st'.rows && st'.rows[certId].kind == Overridden && st'.rows[certId].overrideId == Some(id)
        && st'.rows[certId].service == Some(service) && st'.rows[certId].winningRule.None?
        && st'.rows[certId].confidence == High && st'.rows[certId].lastEvaluated == now
  {
    var o, id := Override(certId, service, reason, actor, now, expiresAt, None), p.mint(st.nextId);
    assert p.mint(st.nextId) !in st.explanations.Keys + st.overrides.Keys;
    if Pinned(st, certId) {
      var x :| x in st.overrides && st.overrides[x].certId == certId && st.overrides[x].cleared.None?;
      assert x in ActiveIds(st.overrides, certId);
    } else {
      assert ActiveIds(st.overrides, certId) == {};
      if Compiled(p.lib, st.rules).Ok? { PinSettles(p, st, o, id, now); }
    }
  }

  lemma {:induction false} PinSettles(p: Platform, st: State, o: Override, id: Id, now: int)
    requires SupplyFresh(p, st) && o.certId in st.certs && !Past(o.expiresAt, now) && Compiled(p.lib, st.rules).Ok?
    requires id == p.mint(st.nextId)
    ensures var r := Rederive(p, Inserted(p, st, o), o.certId, Some(PinOf(id, o)), now);
      && r.Ok? && r.value.overrides == st.overrides[id := o] && r.value.audit == st.audit
      && OthersKept(st, r.value, o.certId) && o.certId in r.value.rows
      && Agrees(r.value.rows[o.certId], Decision(Overridden, Some(o.service), None, Some(id), High, []))
      && r.value.rows[o.certId].lastEvaluated == now
  {
    assert p.mint(st.nextId + 1) !in st.explanations.Keys + st.overrides.Keys;
    var st1, pin := Inserted(p, st, o), Some(PinOf(id, o));
    var rules := Compiled(p.lib, st.rules).value.rules;
    var d := Decide(p.lib, st.certs[o.certId], pin, rules, now);
    assert d == Decision(Overridden, Some(o.service), None, Some(id), High, []);
    SettleWrites(p, st1, o.certId, st.certs[o.certId], d, now);
  }

  /**
    A clear stamps exactly that override with the time, the actor and the reason, re-derives its certificate
    without an override, and audits it; a second clear of the same override is refused.
  */
  lemma {:induction false} ClearWrites(
      p: Platform, st: State, certId: Id, id: Id, actor: string, reason: string, now: int)
    requires SupplyFresh(p, st) && id in st.overrides && st.overrides[id].certId == certId
    ensures match ClearTx(p, st, certId, id, actor, reason, now)
      case Err(e) =>
        if st.overrides[id].cleared.Some? || certId !in st.certs then e == CertificateNotFound
        else Compiled(p.lib, st.rules).Err? && e == CompileRefused(Compiled(p.lib, st.rules).error)
      case Ok(st') =>
        && st.overrides[id].cleared.None? && certId in st.certs
        && st'.overrides.Keys == st.overrides.Keys
        && (forall x | x in st.overrides && x != id :: st'.overrides[x] == st.overrides[x])
        && st'.overrides[id] == st.overrides[id].(cleared := Some(Clearance(now, actor, reason)))
        && st'.audit == st.audit + [OverrideCleared(certId, id, actor)] && OthersKept(st, st', certId)
        && certId in st'.rows && st'.rows[certId].overrideId.None? && st'.rows[certId].kind != Overridden
  {
    assert p.mint(st.nextId) !in st.explanations.Keys + st.overrides.Keys;
    var st1 := ClearOne(st, id, now, actor, reason);
    if Clearable(st, id) && Rederive(p, st1, certId, None, now).Ok? {
      Unpins(p, st1, certId, now);
    }
  }

  lemma {:induction false} Unpins(p: Platform, st: State, certId: Id, now: int)
    requires SupplyFresh(p, st) && Rederive(p, st, certId, None, now).Ok?
    ensures var st' := Rederive(p, st, certId, None, now).value;
      && st'.overrides == st.overrides && st'.audit == st.audit && OthersKept(st, st', certId)
      && certId in st'.rows && st'.rows[certId].overrideId.None? && st'.rows[certId].kind != Overridden
  {
    assert p.mint(st.nextId) !in st.explanations.Keys + st.overrides.Keys;
    var rules := Compiled(p.lib, st.rules).value.rules;
    var d := Decide(p.lib, st.certs[certId], None, rules, now);
    DecideShape(p.lib, st.certs[certId], None, rules, now);
    SettleWrites(p, st, certId, st.certs[certId], d, now);
  }

  // --- runs of whole requests ---------------------------------------------------------------------------

  /** A call of a public operation, or a change of the engine's inputs. */
  datatype Request =
    | Recomputing(now: int)
    | Creating(certId: Id, service: Id, reason: string, actor: string, expiresAt: Option<int>, active: bool, at: int)
    | Clearing(cert: Id, by_: string, why: string, clearedAt: int)
    | Sweeping(sweepCursor: Id, sweepLimit: nat, sweptAt: int)
    | Pruning(pruneCursor: Id, pruneLimit: nat, keepN: nat, cutoff: int, perCert: nat)
    | Changing(certs: map<Id, Signals>, rules: seq<Rule>)

  /** A request checked on what `read` held and, if let through, carried out on `st`. */
  ghost function Served(p: Platform, threshold: nat, read: State, st: State, r: Request): State {
    match r
    case Creating(certId, service, reason, actor, expiresAt, active, now) =>
      var o := Override(certId, service, reason, actor, now, expiresAt, None);
      if CreateCheck(read, o, active).Some? then st else Committed(st, CreateTx(p, st, o, now))
    case Clearing(certId, actor, reason, now) =>
      (match ClearCheck(read, certId, actor, reason)
       case Err(_) => st
       case Ok(id) => Committed(st, ClearTx(p, st, certId, id, actor, reason, now)))
    case Recomputing(now) => Committed(st, Recompute(p, st, threshold, now))
    case Sweeping(cursor, limit, now) => Committed(st, SweepPageTx(p, st, cursor, limit, now))
    case Pruning(cursor, limit, keepN, cutoff, perCert) => PrunePageTx(st, cursor, limit, keepN, cutoff, perCert)
    case Changing(certs, rules) => st.(certs := certs, rules := rules)
  }

  /** The transaction a request runs, if its checks let it through, as a step of the tables. */
  ghost function StepOf(read: State, st: State, r: Request): Step {
    match r
    case Creating(certId, service, reason, actor, expiresAt, active, now) =>
      var o := Override(certId, service, reason, actor, now, expiresAt, None);
      if CreateCheck(read, o, active).Some? then ChangeInputs(st.certs, st.rules) else DoCreate(o, now)
    case Clearing(certId, actor, reason, now) =>
      (match ClearCheck(read, certId, actor, reason)
       case Err(_) => ChangeInputs(st.certs, st.rules)
       case Ok(id) => DoClear(certId, id, actor, reason, now))
    case Recomputing(now) => DoRecompute(now)
    case Sweeping(cursor, limit, now) => DoSweep(cursor, limit, now)
    case Pruning(cursor, limit, keepN, cutoff, perCert) => DoPrune(cursor, limit, keepN, cutoff, perCert)
    case Changing(certs, rules) => ChangeInputs(certs, rules)
  }

  /** What the checks read establishes what the transaction needs, also on later tables. */
  lemma {:induction false} CheckedIsEnabled(p: Platform, threshold: nat, read: State, st: State, r: Request)
    requires SameCerts(read, st)
    ensures Enabled(st, StepOf(read, st, r))
    ensures Served(p, threshold, read, st, r) == Apply(p, threshold, st, StepOf(read, st, r))
  {
    match r {
      case Creating(certId, service, reason, actor, expiresAt, active, now) =>
        CreateCheckExact(read, certId, service, reason, actor, expiresAt, active, now);
      case Clearing(certId, actor, reason, now) => ClearCheckExact(read, certId, actor, reason);
      case _ =>
    }
  }

  lemma {:induction false} RecomputeSameCerts(p: Platform, st: State, threshold: nat, now: int)
    requires Recompute(p, st, threshold, now).Ok?
    ensures SameCerts(st, Recompute(p, st, threshold, now).value)
  {
    var q := SortedIds(st.certs.Keys);
    CertOrder(st);
    PassSameCerts(p, st, Compiled(p.lib, st.rules).value.rules, q, |q|, now);
  }

  lemma {:induction false} CreateSameCerts(p: Platform, st: State, o: Override, now: int)
    requires SupplyFresh(p, st) && CreateTx(p, st, o, now).Ok?
    ensures SameCerts(st, CreateTx(p, st, o, now).value)
  {
    assert p.mint(st.nextId) !in st.explanations.Keys + st.overrides.Keys;
  }

  lemma {:induction false} ClearSameCerts(
      p: Platform, st: State, c: Id, id: Id, actor: string, reason: string, now: int)
    requires ClearTx(p, st, c, id, actor, reason, now).Ok?
    ensures SameCerts(st, ClearTx(p, st, c, id, actor, reason, now).value)
  {
  }

  lemma {:induction false} SweepSameCerts(p: Platform, st: State, cursor: Id, limit: nat, now: int)
    requires Inv(p, st) && SweepPageTx(p, st, cursor, limit, now).Ok?
    ensures SameCerts(st, SweepPageTx(p, st, cursor, limit, now).value)
  {
    ExpiringPage(st, now, cursor, limit);
    SweepKeeps(p, st, Page(ExpiringCerts(st, now), cursor, limit), now);
  }

  /** No step deletes an override or moves it to another certificate. */
  lemma {:induction false} StepSameCerts(p: Platform, threshold: nat, st: State, s: Step)
    requires Inv(p, st)
    ensures SameCerts(st, Apply(p, threshold, st, s))
  {
    match s {
      case DoRecompute(now) => if Recompute(p, st, threshold, now).Ok? { RecomputeSameCerts(p, st, threshold, now); }
      case DoCreate(o, now) => if CreateTx(p, st, o, now).Ok? { CreateSameCerts(p, st, o, now); }
      case DoClear(c, id, actor, reason, now) =>
        if ClearTx(p, st, c, id, actor, reason, now).Ok? { ClearSameCerts(p, st, c, id, actor, reason, now); }
      case DoSweep(cursor, limit, now) =>
        if SweepPageTx(p, st, cursor, limit, now).Ok? { SweepSameCerts(p, st, cursor, limit, now); }
      case DoPrune(cursor, limit, keepN, cutoff, perCert) =>
        PruneSameOverrides(st, cursor, limit, keepN, cutoff, perCert);
      case ChangeInputs(certs, rules) =>
    }
  }

  lemma {:induction false} FirstSameOverrides(step: PruneStep, st: State, page: seq<Id>, n: nat)
    requires n <= |page| && forall s, c :: step(s, c).0.overrides == s.overrides
    ensures PruneFirst(step, st, page, n).0.overrides == st.overrides
  {
    if n > 0 { FirstSameOverrides(step, st, page, n - 1); }
  }

  lemma {:induction false} PruneSameOverrides(
      st: State, cursor: Id, limit: nat, keepN: nat, cutoff: int, perCert: nat)
    ensures PrunePageTx(st, cursor, limit, keepN, cutoff, perCert).overrides == st.overrides
  {
    var page := Page(ExplainedCerts(st.explanations), cursor, limit);
    FirstSameOverrides(PruneCertAt(keepN, cutoff, perCert), st, page, |page|);
  }

  /** Each request is checked on some earlier, or the same, tables. */
  ghost predicate ServesRequests(
      p: Platform, threshold: nat, states: seq<State>, requests: seq<Request>, checkedAt: seq<nat>)
  {
    && |states| == |requests| + 1 && |checkedAt| == |requests|
    && forall i | 0 <= i < |requests| ::
         checkedAt[i] <= i && states[i + 1] == Served(p, threshold, states[checkedAt[i]], states[i], requests[i])
  }

  ghost predicate Steady(states: seq<State>, n: nat)
    requires n < |states|
  {
    forall i | 0 <= i <= n :: SameCerts(states[i], states[n])
  }

  lemma {:induction false} RequestsKeep(
      p: Platform, threshold: nat, states: seq<State>, requests: seq<Request>, checkedAt: seq<nat>, k: nat)
    requires ServesRequests(p, threshold, states, requests, checkedAt) && Initial(p, states[0]) && k < |states|
    ensures Inv(p, states[k]) && Steady(states, k)
  {
    if k == 0 {
      forall c ensures PinAgrees(states[0], c) { }
    } else {
      var n := k - 1;
      RequestsKeep(p, threshold, states, requests, checkedAt, n);
      RequestKeeps(p, threshold, states[checkedAt[n]], states[n], requests[n], states[k]);
      forall i | 0 <= i <= k ensures SameCerts(states[i], states[k]) {
        if i < k { CertsChain(states[i], states[n], states[k]); }
      }
    }
  }

  lemma {:induction false} RequestKeeps(
      p: Platform, threshold: nat, read: State, st: State, r: Request, st': State)
    requires Inv(p, st) && SameCerts(read, st) && st' == Served(p, threshold, read, st, r)
    ensures Inv(p, st') && SameCerts(st, st')
  {
    CheckedIsEnabled(p, threshold, read, st, r);
    ApplyKeeps(p, threshold, st, StepOf(read, st, r));
    StepSameCerts(p, threshold, st, StepOf(read, st, r));
  }

  lemma {:induction false} CertsChain(a: State, b: State, c: State)
    requires SameCerts(a, b) && SameCerts(b, c)
    ensures SameCerts(a, c)
  {
  }

  /**
    Over every run of public requests, however stale their checks: at most one override per certificate is
    uncleared, o is uncleared for c iff the row of c is overridden with o, and each row points at a surviving
    explanation of the same decision.
  */
  lemma {:induction false} RequestsAgreeWithRows(
      p: Platform, threshold: nat, states: seq<State>, requests: seq<Request>, checkedAt: seq<nat>, k: nat)
    requires ServesRequests(p, threshold, states, requests, checkedAt) && Initial(p, states[0]) && k < |states|
    ensures var st := states[k];
      && OneActive(st.overrides)
      && (forall c, o ::
           (o in st.overrides && st.overrides[o].certId == c && st.overrides[o].cleared.None?)
           <==> (c in st.rows && st.rows[c].kind == Overridden && st.rows[c].overrideId == Some(o)))
      && forall c | c in st.rows :: Explained(st, c)
  {
    RequestsKeep(p, threshold, states, requests, checkedAt, k);
    InvMeans(p, states[k]);
  }
}
