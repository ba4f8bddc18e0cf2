/**
  The lifecycle bounds of a deployment package, spelled out: which enrollment succeeds, which bound refuses
  the others, and what follows for every agent and every revocation in any interleaving.
*/
module EnrollmentBounds {
  import opened Wrappers
  import opened Enrollment
  import opened EnrollmentTheorems

  // --- the increment -------------------------------------------------------------------------

  /** Not revoked, not expired, not used up. */
  predicate Usable(p: Package, now: int) {
    p.revokedAt.None? && now < p.expiresAt && p.uses < p.maxUses
  }

  /** The bound that refuses: revocation before expiry before exhaustion. */
  predicate RefusedBy(p: Package, now: int, reason: Reason) {
    match reason
    case PackageRevoked => p.revokedAt.Some?
    case PackageExpired => p.revokedAt.None? && p.expiresAt <= now
    case PackageExhausted => p.revokedAt.None? && now < p.expiresAt && p.maxUses <= p.uses
    case _ => false
  }

  /** The conditional increment adds one use iff the package is there and usable; else it names the bound. */
  lemma {:induction false} IncrementExact(st: Store, id: nat, now: int)
    ensures match Incremented(st, id, now)
      case Ok(st') =>
        && id in st.packages && Usable(st.packages[id], now)
        && st' == st.(packages := st'.packages) && st'.packages.Keys == st.packages.Keys
        && (forall x | x in st.packages && x != id :: st'.packages[x] == st.packages[x])
        && st'.packages[id] == st.packages[id].(uses := st.packages[id].uses + 1)
      case Err(reason) =>
        if id in st.packages then !Usable(st.packages[id], now) && RefusedBy(st.packages[id], now, reason)
        else reason == PackageGone
  {
  }

  // --- an enrollment nobody interrupts -----------------------------------------------------------

  /** The store and the caller's answer when the transaction directly follows the pre-check. */
  function Enroll(
      st: Store, hash: string, installId: string, now: int, checkAuditOk: bool, auditOk: bool, rejectOk: bool)
    : (Store, Result<nat, Failure>)
  {
    var (st1, begun) := BeginEnroll(st, hash, installId, now, checkAuditOk);
    match begun
    case Err(e) => (st1, Err(e))
    case Ok(at) => CommitEnroll(st1, at, auditOk, rejectOk)
  }

  ghost predicate TakenIn(st: Store, org: string, installId: string) {
    installId != "" && exists a :: a in st.agents && st.agents[a].org == org && st.agents[a].installId == installId
  }

  /** One more use, one more agent of the package's organization, one enrollment row. */
  ghost predicate EnrolledOne(st: Store, st': Store, id: nat, installId: string, now: int, agent: nat)
    requires id in st.packages
  {
    var p := st.packages[id];
    && agent == st.nextAgent && st'.nextAgent == agent + 1 && st'.nextPackage == st.nextPackage
    && st'.packages == st.packages[id := p.(uses := p.uses + 1)]
    && st'.agents == st.agents[agent := Agent(p.org, id, installId, now)]
    && st'.audit == st.audit + [AgentEnrolled(agent, id)]
  }

  /** A refusal audited under the package's organization, or an internal error if that row cannot be written. */
  ghost predicate TurnedAway(st: Store, st': Store, e: Failure, event: Event, ok: bool) {
    if ok then e == Rejected && st' == st.(audit := st.audit + [event]) else e == Internal && st' == st
  }

  /**
    An enrollment succeeds iff its secret belongs to a usable package, its install id is not taken in that
    organization, and its row can be written; otherwise nothing is enrolled and the refusal is audited with
    its reason.
  */
  lemma {:induction false} EnrollExact(
      st: Store, hash: string, installId: string, now: int, checkAuditOk: bool, auditOk: bool, rejectOk: bool)
    ensures var (st', r) := Enroll(st, hash, installId, now, checkAuditOk, auditOk, rejectOk);
      match FindBySecret(st.packages, hash, st.nextPackage)
      case None =>
        && r == Err(Rejected)
        && st' == if checkAuditOk then st.(audit := st.audit + [EnrollmentRejected("anchorix", None, SecretUnknown)])
                  else st
      case Some(id) =>
        var p := st.packages[id];
        match r
        case Ok(agent) =>
          Usable(p, now) && !TakenIn(st, p.org, installId) && auditOk && EnrolledOne(st, st', id, installId, now, agent)
        case Err(e) =>
          if !Usable(p, now) then
            exists reason | RefusedBy(p, now, reason) ::
              TurnedAway(st, st', e, EnrollmentRejected(p.org, Some(id), reason), checkAuditOk)
          else if TakenIn(st, p.org, installId) then
            TurnedAway(st, st', e, EnrollmentRejected(p.org, Some(id), InstallIdTaken), rejectOk)
          else !auditOk && e == Internal && st' == st
  {
    var found := FindBySecret(st.packages, hash, st.nextPackage);
    if found.Some? {
      var p := st.packages[found.value];
      var reason := ActiveAt(p, now);
      if reason.Some? {
        assert RefusedBy(p, now, reason.value);
      } else {
        IncrementExact(st, found.value, now);
        assert InstallTaken(st, p.org, installId) <==> TakenIn(st, p.org, installId);
      }
    }
  }

  /** A new package takes the next id and nothing else changes but its creation row. */
  lemma {:induction false} CreationExact(st: Store, p: Package)
    requires IdsBelow(st)
    ensures var st' := Created(st, p);
      && st.nextPackage !in st.packages && st'.packages == st.packages[st.nextPackage := p]
      && st'.nextPackage == st.nextPackage + 1 && st'.agents == st.agents && st'.nextAgent == st.nextAgent
      && st'.audit == st.audit + [PackageCreated(st.nextPackage)]
  {
  }

  // --- a revocation nobody interrupts ---------------------------------------------------------------

  function Revoke(st: Store, id: nat, org: string, actor: string, now: int, auditOk: bool)
    : (Store, Result<bool, Failure>)
  {
    match BeginRevoke(st, id, org)
    case Err(e) => (st, Err(e))
    case Ok(true) => (st, Ok(true))
    case Ok(false) => CommitRevoke(st, id, org, actor, now, auditOk)
  }

  /**
    A revocation finds only packages of its own organization. It stamps an unrevoked one and writes one row
    about it, or changes nothing; a package already revoked is reported so.
  */
  lemma {:induction false} RevokeExact(st: Store, id: nat, org: string, actor: string, now: int, auditOk: bool)
    ensures var (st', r) := Revoke(st, id, org, actor, now, auditOk);
      if id !in st.packages || st.packages[id].org != org then r == Err(NotFound) && st' == st
      else if st.packages[id].revokedAt.Some? then r == Ok(true) && st' == st
      else if !auditOk then r == Err(Internal) && st' == st
      else
        && r == Ok(false) && st' == st.(packages := st'.packages, audit := st'.audit)
        && st'.packages == st.packages[id := st.packages[id].(revokedAt := Some(now))]
        && st'.audit == st.audit + [PackageRevocation(id, actor)]
  {
  }

  // --- over every interleaving ----------------------------------------------------------------------

  /** Each agent of a stored package was enrolled before the package expired, into its organization. */
  ghost predicate AgentsFit(st: Store) {
    forall a | a in st.agents :: AgentFits(st, st.agents[a])
  }

  ghost predicate AgentFits(st: Store, a: Agent) {
    && a.packageId < st.nextPackage
    && (a.packageId in st.packages ==>
          a.enrolledAt < st.packages[a.packageId].expiresAt && a.org == st.packages[a.packageId].org)
  }

  /** What is in flight belongs to the organization of its package. */
  ghost predicate PendingFits(st: Store, p: Pending) {
    match p
    case Enrolling(at) =>
      at.packageId < st.nextPackage && (at.packageId in st.packages ==> at.org == st.packages[at.packageId].org)
    case Revoking(id, org, _) => id < st.nextPackage && (id in st.packages ==> org == st.packages[id].org)
  }

  ghost predicate Fits(s: System) {
    && IdsBelow(s.store) && AgentsFit(s.store)
    && forall c | c in s.pending :: PendingFits(s.store, s.pending[c])
  }

  /** Agents and clients in flight still fit when packages are only used, revoked, added or deleted. */
  lemma {:induction false} WornFits(st: Store, st': Store)
    requires IdsBelow(st) && AllWorn(st, st')
    ensures forall p | PendingFits(st, p) :: PendingFits(st', p)
    ensures forall a | AgentFits(st, a) :: AgentFits(st', a)
  {
  }

  lemma {:induction false} CommitFits(st: Store, at: Attempt, auditOk: bool, rejectOk: bool)
    requires IdsBelow(st) && AgentsFit(st) && PendingFits(st, Enrolling(at))
    ensures AgentsFit(CommitEnroll(st, at, auditOk, rejectOk).0)
    ensures IdsBelow(CommitEnroll(st, at, auditOk, rejectOk).0)
  {
    var st' := CommitEnroll(st, at, auditOk, rejectOk).0;
    IncrementExact(st, at.packageId, at.now);
    CommitWears(st, at, auditOk, rejectOk);
    WornFits(st, st');
    forall a | a in st'.agents ensures AgentFits(st', st'.agents[a]) {
      if a in st.agents && st'.agents[a] == st.agents[a] { assert AgentFits(st, st.agents[a]); }
    }
  }

  lemma {:induction false} StepFits(s: System, step: Step)
    requires Fits(s) && Enabled(s, step)
    ensures Fits(Apply(s, step))
  {
    var s' := Apply(s, step);
    ApplyWears(s, step);
    WornFits(s.store, s'.store);
    if step.FinishEnroll? {
      CommitFits(s.store, s.pending[step.client].attempt, step.txAuditOk, step.rejectOk);
    } else {
      SameAgents(s, step);
      forall a | a in s'.store.agents ensures AgentFits(s'.store, s'.store.agents[a]) {
        assert AgentFits(s.store, s.store.agents[a]);
      }
    }
    forall c | c in s'.pending ensures PendingFits(s'.store, s'.pending[c]) {
      if c in s.pending && s'.pending[c] == s.pending[c] { assert PendingFits(s.store, s.pending[c]); }
    }
  }

  lemma {:induction false} SameAgents(s: System, step: Step)
    requires Enabled(s, step) && !step.FinishEnroll?
    ensures Apply(s, step).store.agents == s.store.agents
    ensures IdsBelow(s.store) ==> IdsBelow(Apply(s, step).store)
  {
  }

  lemma {:induction false} RunFits(states: seq<System>, steps: seq<Step>, k: nat)
    requires IsRun(states, steps) && Initial(states[0]) && k < |states|
    ensures Fits(states[k])
  {
    if k > 0 {
      RunFits(states, steps, k - 1);
      StepFits(states[k - 1], steps[k - 1]);
    }
  }

  /** In every interleaving each agent of a stored package was enrolled before its expiry, into its organization. */
  lemma {:induction false} AgentsEnrolledInTime(states: seq<System>, steps: seq<Step>, k: nat, a: nat)
    requires IsRun(states, steps) && Initial(states[0]) && k < |states|
    requires a in states[k].store.agents && states[k].store.agents[a].packageId in states[k].store.packages
    ensures var agent := states[k].store.agents[a];
      var p := states[k].store.packages[agent.packageId];
      agent.enrolledAt < p.expiresAt && agent.org == p.org
  {
    RunFits(states, steps, k);
    assert AgentFits(states[k].store, states[k].store.agents[a]);
  }

  /**
    In every interleaving a package becomes revoked only by a commit of a client that asked for it in the
    package's own organization, which stamps it and writes its one revocation row.
  */
  lemma {:induction false} OnlyItsOrganizationRevokes(states: seq<System>, steps: seq<Step>, k: nat, id: nat)
    requires IsRun(states, steps) && Initial(states[0]) && k < |steps|
    requires id in states[k].store.packages && id in states[k + 1].store.packages
    requires states[k].store.packages[id].revokedAt.None? && states[k + 1].store.packages[id].revokedAt.Some?
    ensures var st, st', step := states[k].store, states[k + 1].store, steps[k];
      && step.FinishRevoke? && step.client in states[k].pending
      && var asked := states[k].pending[step.client];
         && asked.Revoking? && asked.id == id && asked.org == st.packages[id].org
         && st'.packages[id] == st.packages[id].(revokedAt := Some(step.at))
         && st'.audit == st.audit + [PackageRevocation(id, asked.actor)]
  {
    RunFits(states, steps, k);
    RevokingStep(states[k], steps[k], id);
  }

  lemma {:induction false} RevokingStep(s: System, step: Step, id: nat)
    requires Enabled(s, step) && Fits(s) && id in s.store.packages && id in Apply(s, step).store.packages
    requires s.store.packages[id].revokedAt.None? && Apply(s, step).store.packages[id].revokedAt.Some?
    ensures step.FinishRevoke? && step.client in s.pending
    ensures var asked, st' := s.pending[step.client], Apply(s, step).store;
      && asked.Revoking? && asked.id == id && asked.org == s.store.packages[id].org
      && st'.packages[id] == s.store.packages[id].(revokedAt := Some(step.at))
      && st'.audit == s.store.audit + [PackageRevocation(id, asked.actor)]
  {
    assert id < s.store.nextPackage;
    match step {
      case FinishRevoke(c, at, auditOk) => assert PendingFits(s.store, s.pending[c]);
      case _ =>
    }
  }
}
