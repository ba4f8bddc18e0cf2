/**
  Every interleaving of enrollments, revocations, creations and deletions of packages, with
  pre-checks and reads that may be stale by the time their transaction commits.
*/
module EnrollmentTheorems {
  import opened Wrappers
  import opened Enrollment

  /** What a client has in flight between its read and its transaction. */
  datatype Pending = Enrolling(attempt: Attempt) | Revoking(id: nat, org: string, actor: string)

  datatype System = System(store: Store, pending: map<nat, Pending>)

  datatype Step =
    | Create(package: Package)
    | Delete(id: nat)
    | StartEnroll(client: nat, hash: string, installId: string, now: int, auditOk: bool)
    | FinishEnroll(client: nat, txAuditOk: bool, rejectOk: bool)
    | StartRevoke(client: nat, target: nat, org: string, actor: string)
    | FinishRevoke(client: nat, at: int, revokeAuditOk: bool)
    | Abandon(client: nat)

  predicate Enabled(s: System, step: Step) {
    match step
    case Create(p) => p.uses == 0 && p.maxUses > 0 && p.revokedAt.None?
    case StartEnroll(c, _, _, _, _) => c !in s.pending
    case StartRevoke(c, _, _, _) => c !in s.pending
    case FinishEnroll(c, _, _) => c in s.pending && s.pending[c].Enrolling?
    case FinishRevoke(c, _, _) => c in s.pending && s.pending[c].Revoking?
    case _ => true
  }

  function Apply(s: System, step: Step): System
    requires Enabled(s, step)
  {
    match step
    case Create(p) => s.(store := Created(s.store, p))
    case Delete(id) => s.(store := s.store.(packages := s.store.packages - {id}))
    case StartEnroll(c, hash, installId, now, auditOk) =>
      var (st, r) := BeginEnroll(s.store, hash, installId, now, auditOk);
      System(st, if r.Ok? then s.pending[c := Enrolling(r.value)] else s.pending)
    case FinishEnroll(c, auditOk, rejectOk) =>
      System(CommitEnroll(s.store, s.pending[c].attempt, auditOk, rejectOk).0, s.pending - {c})
    case StartRevoke(c, id, org, actor) =>
      if BeginRevoke(s.store, id, org) == Ok(false)
      then s.(pending := s.pending[c := Revoking(id, org, actor)]) else s
    case FinishRevoke(c, at, auditOk) =>
      var p := s.pending[c];
      System(CommitRevoke(s.store, p.id, p.org, p.actor, at, auditOk).0, s.pending - {c})
    case Abandon(c) => s.(pending := s.pending - {c})
  }

  ghost predicate IsRun(states: seq<System>, steps: seq<Step>) {
    && |states| == |steps| + 1
    && forall i | 0 <= i < |steps| :: Enabled(states[i], steps[i]) && states[i + 1] == Apply(states[i], steps[i])
  }

  ghost predicate Initial(s: System) {
    s == System(Store(map[], map[], [], 0, 0), map[])
  }

  // --- counting ------------------------------------------------------------------------------------------

  function AgentsOf(agents: map<nat, Agent>, id: nat): set<nat> {
    set a | a in agents && agents[a].packageId == id
  }

  function EnrolledCount(audit: seq<Event>, id: nat): nat {
    if audit == [] then 0
    else
      var e := audit[|audit| - 1];
      EnrolledCount(audit[..|audit| - 1], id) + if e.AgentEnrolled? && e.packageId == id then 1 else 0
  }

  function RevocationCount(audit: seq<Event>, id: nat): nat {
    if audit == [] then 0
    else
      var e := audit[|audit| - 1];
      RevocationCount(audit[..|audit| - 1], id) + if e.PackageRevocation? && e.packageId == id then 1 else 0
  }

  lemma {:induction false} CountAppend(audit: seq<Event>, e: Event, id: nat)
    ensures EnrolledCount(audit + [e], id)
         == EnrolledCount(audit, id) + if e.AgentEnrolled? && e.packageId == id then 1 else 0
    ensures RevocationCount(audit + [e], id)
         == RevocationCount(audit, id) + if e.PackageRevocation? && e.packageId == id then 1 else 0
  {
    assert (audit + [e])[..|audit + [e]| - 1] == audit;
  }

  /** No enrollment through a package is recorded after its revocation. */
  ghost predicate NoneAfterRevocation(audit: seq<Event>) {
    forall i, j | 0 <= i < j < |audit| && audit[i].PackageRevocation? && audit[j].AgentEnrolled? ::
      audit[i].packageId != audit[j].packageId
  }

  lemma {:induction false} NoRevocationYet(audit: seq<Event>, id: nat, i: nat)
    requires RevocationCount(audit, id) == 0 && i < |audit|
    ensures !(audit[i].PackageRevocation? && audit[i].packageId == id)
  {
    if i < |audit| - 1 { NoRevocationYet(audit[..|audit| - 1], id, i); }
  }

  // --- the invariant -------------------------------------------------------------------------------------------

  /** One package's numbers: its uses are its agents and its enrollment rows, at most MaxUses. */
  ghost predicate Counted(st: Store, id: nat)
    requires id in st.packages
  {
    var p := st.packages[id];
    && p.uses == |AgentsOf(st.agents, id)| == EnrolledCount(st.audit, id) && p.uses <= p.maxUses
    && RevocationCount(st.audit, id) == if p.revokedAt.Some? then 1 else 0
  }

  ghost predicate Unused(st: Store, id: nat) {
    AgentsOf(st.agents, id) == {} && EnrolledCount(st.audit, id) == 0 && RevocationCount(st.audit, id) == 0
  }

  ghost predicate InstallIdsUnique(st: Store) {
    forall a, b | a in st.agents && b in st.agents && st.agents[a].installId != "" ::
      st.agents[a].org == st.agents[b].org && st.agents[a].installId == st.agents[b].installId ==> a == b
  }

  ghost predicate Inv(st: Store) {
    && (forall id | id in st.packages :: id < st.nextPackage && Counted(st, id))
    && (forall id: nat | id >= st.nextPackage :: Unused(st, id))
    && (forall a | a in st.agents :: a < st.nextAgent)
    && NoneAfterRevocation(st.audit) && InstallIdsUnique(st)
  }

  /** Rows about neither an enrollment nor a revocation change nothing the invariant speaks of. */
  lemma {:induction false} NoteKeeps(st: Store, e: Event)
    requires Inv(st) && !e.AgentEnrolled? && !e.PackageRevocation?
    ensures Inv(Audited(st, e))
  {
    var st' := Audited(st, e);
    forall id ensures EnrolledCount(st'.audit, id) == EnrolledCount(st.audit, id)
                      && RevocationCount(st'.audit, id) == RevocationCount(st.audit, id) {
      CountAppend(st.audit, e, id);
    }
    forall id | id in st'.packages ensures id < st'.nextPackage && Counted(st', id) {
      assert Counted(st, id);
    }
    forall id: nat | id >= st'.nextPackage ensures Unused(st', id) {
      assert Unused(st, id);
    }
  }

  lemma {:induction false} CreateKeeps(st: Store, p: Package)
    requires Inv(st) && p.uses == 0 && p.maxUses > 0 && p.revokedAt.None?
    ensures Inv(Created(st, p))
  {
    var st1 := st.(packages := st.packages[st.nextPackage := p], nextPackage := st.nextPackage + 1);
    assert Unused(st, st.nextPackage);
    forall id | id in st1.packages ensures id < st1.nextPackage && Counted(st1, id) {
      if id != st.nextPackage { assert Counted(st, id); }
    }
    forall id: nat | id >= st1.nextPackage ensures Unused(st1, id) {
      assert Unused(st, id);
    }
    NoteKeeps(st1, PackageCreated(st.nextPackage));
  }

  lemma {:induction false} DeleteKeeps(st: Store, id: nat)
    requires Inv(st)
    ensures Inv(st.(packages := st.packages - {id}))
  {
    var st' := st.(packages := st.packages - {id});
    forall x | x in st'.packages ensures x < st'.nextPackage && Counted(st', x) {
      assert Counted(st, x);
    }
    forall x: nat | x >= st'.nextPackage ensures Unused(st', x) {
      assert Unused(st, x);
    }
  }

  lemma {:induction false} RevocationRowLast(audit: seq<Event>, id: nat, actor: string)
    requires NoneAfterRevocation(audit)
    ensures NoneAfterRevocation(audit + [PackageRevocation(id, actor)])
  {
  }

  lemma {:induction false} RevokedCounts(st: Store, st': Store, id: nat, actor: string, x: nat)
    requires id in st.packages && st.packages[id].revokedAt.None? && Counted(st, id)
    requires x in st.packages && Counted(st, x) && x in st'.packages && st'.agents == st.agents
    requires st'.audit == st.audit + [PackageRevocation(id, actor)]
    requires st'.packages[x] == st.packages[x].(revokedAt := st'.packages[x].revokedAt)
    requires if x == id then st'.packages[x].revokedAt.Some? else st'.packages[x] == st.packages[x]
    ensures Counted(st', x)
  {
    CountAppend(st.audit, PackageRevocation(id, actor), x);
  }

  lemma {:induction false} RevokeKeeps(st: Store, id: nat, actor: string, now: int)
    requires Inv(st) && RevokeOnce(st, id, actor, now).Some?
    ensures Inv(RevokeOnce(st, id, actor, now).value)
  {
    var st', e := RevokeOnce(st, id, actor, now).value, PackageRevocation(id, actor);
    RevocationRowLast(st.audit, id, actor);
    forall x | x in st'.packages ensures x < st'.nextPackage && Counted(st', x) {
      RevokedCounts(st, st', id, actor, x);
    }
    forall x: nat | x >= st'.nextPackage ensures Unused(st', x) {
      CountAppend(st.audit, e, x);
      assert Unused(st, x);
    }
  }

  lemma {:induction false} AgentAdded(st: Store, a: Agent, id: nat)
    requires forall x | x in st.agents :: x < st.nextAgent
    ensures |AgentsOf(WithAgent(st, a).agents, id)| == |AgentsOf(st.agents, id)| + if a.packageId == id then 1 else 0
    ensures a.packageId != id ==> AgentsOf(WithAgent(st, a).agents, id) == AgentsOf(st.agents, id)
  {
    var st' := WithAgent(st, a);
    if a.packageId == id {
      assert AgentsOf(st'.agents, id) == AgentsOf(st.agents, id) + {st.nextAgent};
    } else {
      assert AgentsOf(st'.agents, id) == AgentsOf(st.agents, id);
    }
  }

  lemma {:induction false} InstallsStayUnique(st: Store, a: Agent)
    requires InstallIdsUnique(st) && !InstallTaken(st, a.org, a.installId)
    requires forall x | x in st.agents :: x < st.nextAgent
    ensures InstallIdsUnique(WithAgent(st, a))
  {
  }

  lemma {:induction false} EnrolledRowLast(audit: seq<Event>, agentId: nat, id: nat)
    requires NoneAfterRevocation(audit) && RevocationCount(audit, id) == 0
    ensures NoneAfterRevocation(audit + [AgentEnrolled(agentId, id)])
  {
    forall i | 0 <= i < |audit| ensures !(audit[i].PackageRevocation? && audit[i].packageId == id) {
      NoRevocationYet(audit, id, i);
    }
  }

  lemma {:induction false} EnrollKeeps(st: Store, at: Attempt)
    requires Inv(st) && EnrollTx(st, at, true).Ok?
    ensures Inv(EnrollTx(st, at, true).value)
  {
    var id, a := at.packageId, Agent(at.org, at.packageId, at.installId, at.now);
    var st1 := Incremented(st, id, at.now).value;
    var st', e := EnrollTx(st, at, true).value, AgentEnrolled(st.nextAgent, id);
    assert Counted(st, id);
    forall x | x in st'.packages ensures x < st'.nextPackage && Counted(st', x) {
      assert Counted(st, x);
      AgentAdded(st1, a, x);
      CountAppend(st.audit, e, x);
    }
    forall x: nat | x >= st'.nextPackage ensures Unused(st', x) {
      assert Unused(st, x);
      AgentAdded(st1, a, x);
      CountAppend(st.audit, e, x);
    }
    InstallsStayUnique(st1, a);
    EnrolledRowLast(st.audit, st.nextAgent, id);
  }

  lemma {:induction false} ApplyKeeps(s: System, step: Step)
    requires Inv(s.store) && Enabled(s, step)
    ensures Inv(Apply(s, step).store)
  {
    match step {
      case Create(p) => CreateKeeps(s.store, p);
      case Delete(id) => DeleteKeeps(s.store, id);
      case StartEnroll(c, hash, installId, now, auditOk) => BeginKeeps(s.store, hash, installId, now, auditOk);
      case FinishEnroll(c, auditOk, rejectOk) => CommitKeeps(s.store, s.pending[c].attempt, auditOk, rejectOk);
      case StartRevoke(c, id, org, actor) =>
      case FinishRevoke(c, at, auditOk) =>
        var p := s.pending[c];
        if RevokeOnce(s.store, p.id, p.actor, at).Some? { RevokeKeeps(s.store, p.id, p.actor, at); }
      case Abandon(c) =>
    }
  }

  lemma {:induction false} RefusedKeeps<T>(st: Store, org: string, id: nat, reason: Reason, auditOk: bool)
    requires Inv(st)
    ensures Inv(Refused<T>(st, org, id, reason, auditOk).0)
  {
    NoteKeeps(st, EnrollmentRejected(org, Some(id), reason));
  }

  lemma {:induction false} BeginKeeps(st: Store, hash: string, installId: string, now: int, auditOk: bool)
    requires Inv(st)
    ensures Inv(BeginEnroll(st, hash, installId, now, auditOk).0)
  {
    NoteKeeps(st, EnrollmentRejected(FALLBACK_ORG, None, SecretUnknown));
    var found := FindBySecret(st.packages, hash, st.nextPackage);
    if found.Some? {
      var p := st.packages[found.value];
      var reason := ActiveAt(p, now);
      if reason.Some? { RefusedKeeps<Attempt>(st, p.org, found.value, reason.value, auditOk); }
    }
  }

  lemma {:induction false} CommitKeeps(st: Store, at: Attempt, auditOk: bool, rejectOk: bool)
    requires Inv(st)
    ensures Inv(CommitEnroll(st, at, auditOk, rejectOk).0)
  {
    match EnrollTx(st, at, auditOk) {
      case Ok(_) => EnrollKeeps(st, at);
      case Err(None) =>
      case Err(Some(reason)) => RefusedKeeps<nat>(st, at.org, at.packageId, reason, rejectOk);
    }
  }

  lemma {:induction false} RunKeeps(states: seq<System>, steps: seq<Step>, k: nat)
    requires IsRun(states, steps) && Initial(states[0]) && k < |states|
    ensures Inv(states[k].store)
  {
    if k > 0 {
      RunKeeps(states, steps, k - 1);
      ApplyKeeps(states[k - 1], steps[k - 1]);
    }
  }

  /**
    In every interleaving a package's uses are exactly its agents and its enrollment rows and never
    exceed MaxUses; it is revoked iff it has exactly one revocation row; no enrollment is recorded
    after a revocation; and no two agents of an organization share an install id.
  */
  lemma {:induction false} UsesAreEnrollments(states: seq<System>, steps: seq<Step>, k: nat, id: nat)
    requires IsRun(states, steps) && Initial(states[0]) && k < |states| && id in states[k].store.packages
    ensures var st := states[k].store;
      var p := st.packages[id];
      && p.uses == |AgentsOf(st.agents, id)| && p.uses == EnrolledCount(st.audit, id) && p.uses <= p.maxUses
      && (p.revokedAt.Some? <==> RevocationCount(st.audit, id) == 1)
      && RevocationCount(st.audit, id) <= 1
      && NoneAfterRevocation(st.audit) && InstallIdsUnique(st)
  {
    RunKeeps(states, steps, k);
    assert Counted(states[k].store, id);
  }

  // --- the pre-check -----------------------------------------------------------------------------------------

  /** A package only ever moves towards inactivity. */
  ghost predicate Worn(p: Package, p': Package) {
    && p'.org == p.org && p'.secretHash == p.secretHash && p'.maxUses == p.maxUses && p'.expiresAt == p.expiresAt
    && p'.uses >= p.uses && (p.revokedAt.Some? ==> p'.revokedAt == p.revokedAt)
  }

  ghost predicate AllWorn(a: Store, b: Store) {
    && a.nextPackage <= b.nextPackage
    && (forall id | id in b.packages :: id in a.packages || id >= a.nextPackage)
    && forall id | id in a.packages && id in b.packages :: Worn(a.packages[id], b.packages[id])
  }

  lemma {:induction false} ApplyWears(s: System, step: Step)
    requires IdsBelow(s.store) && Enabled(s, step)
    ensures AllWorn(s.store, Apply(s, step).store)
  {
    match step {
      case FinishEnroll(c, auditOk, rejectOk) => CommitWears(s.store, s.pending[c].attempt, auditOk, rejectOk);
      case _ =>
    }
  }

  lemma {:induction false} CommitWears(st: Store, at: Attempt, auditOk: bool, rejectOk: bool)
    ensures AllWorn(st, CommitEnroll(st, at, auditOk, rejectOk).0)
  {
  }

  ghost predicate IdsBelow(st: Store) {
    forall id | id in st.packages :: id < st.nextPackage
  }

  lemma {:induction false} WornChain(a: Store, b: Store, c: Store)
    requires AllWorn(a, b) && AllWorn(b, c)
    requires IdsBelow(a)
    ensures AllWorn(a, c)
  {
  }

  lemma {:induction false} RunIdsBelow(states: seq<System>, steps: seq<Step>, k: nat)
    requires IsRun(states, steps) && Initial(states[0]) && k < |states|
    ensures IdsBelow(states[k].store)
  {
    RunKeeps(states, steps, k);
  }

  lemma {:induction false} StepWears(states: seq<System>, steps: seq<Step>, k: nat)
    requires IsRun(states, steps) && Initial(states[0]) && 0 < k < |states|
    ensures AllWorn(states[k - 1].store, states[k].store)
  {
    RunIdsBelow(states, steps, k - 1);
    ApplyWears(states[k - 1], steps[k - 1]);
  }

  lemma {:induction false} RunWears(states: seq<System>, steps: seq<Step>, j: nat, k: nat)
    requires IsRun(states, steps) && Initial(states[0]) && j <= k < |states|
    ensures AllWorn(states[j].store, states[k].store)
    decreases k
  {
    if j < k {
      RunWears(states, steps, j, k - 1);
      RunIdsBelow(states, steps, j);
      StepWears(states, steps, k);
      WornChain(states[j].store, states[k - 1].store, states[k].store);
    }
  }

  /**
    A pre-check only rejects what the transaction would also reject: once a package fails the check at
    `now`, the conditional increment with the same `now` fails in every later state.
  */
  lemma {:induction false} PreCheckIsSound(states: seq<System>, steps: seq<Step>, j: nat, k: nat, id: nat, now: int)
    requires IsRun(states, steps) && Initial(states[0]) && j <= k < |states|
    requires id in states[j].store.packages && ActiveAt(states[j].store.packages[id], now).Some?
    ensures Incremented(states[k].store, id, now).Err?
  {
    RunWears(states, steps, j, k);
  }

  /** After a committed revocation the package never enrolls again, whatever attempts are in flight. */
  lemma {:induction false} RevocationIsFinal(
      states: seq<System>, steps: seq<Step>, j: nat, k: nat, id: nat, at: Attempt, auditOk: bool)
    requires IsRun(states, steps) && Initial(states[0]) && j <= k < |states|
    requires id in states[j].store.packages && states[j].store.packages[id].revokedAt.Some?
    requires at.packageId == id
    ensures EnrollTx(states[k].store, at, auditOk).Err?
    ensures id in states[k].store.packages ==>
      states[k].store.packages[id].uses == states[j].store.packages[id].uses
  {
    RunWears(states, steps, j, k);
    UsesFrozen(states, steps, j, k, id);
  }

  lemma {:induction false} UsesFrozen(states: seq<System>, steps: seq<Step>, j: nat, k: nat, id: nat)
    requires IsRun(states, steps) && Initial(states[0]) && j <= k < |states|
    requires id in states[j].store.packages && states[j].store.packages[id].revokedAt.Some?
    ensures id in states[k].store.packages ==>
      states[k].store.packages[id].uses == states[j].store.packages[id].uses
    decreases k
  {
    if j < k {
      UsesFrozen(states, steps, j, k - 1, id);
      RunWears(states, steps, j, k - 1);
      RunIdsBelow(states, steps, k - 1);
      RunIdsBelow(states, steps, j);
      StepFreezes(states[k - 1], steps[k - 1], id);
    }
  }

  lemma {:induction false} StepFreezes(s: System, step: Step, id: nat)
    requires Enabled(s, step) && IdsBelow(s.store) && id < s.store.nextPackage
    requires id in s.store.packages ==> s.store.packages[id].revokedAt.Some?
    ensures var st' := Apply(s, step).store;
      id in st'.packages ==> id in s.store.packages && st'.packages[id].uses == s.store.packages[id].uses
  {
  }
}
