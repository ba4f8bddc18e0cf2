/**
  Agent enrollment against use-limited deployment packages: a stale pre-check, then one transaction
  whose conditional increment is the authority.
*/
module Enrollment {
  import opened Wrappers

  datatype Package = Package(
    org: string, secretHash: string, maxUses: int, uses: int, expiresAt: int, revokedAt: Option<int>)

  datatype Agent = Agent(org: string, packageId: nat, installId: string, enrolledAt: int)

  datatype Reason =
    | PackageRevoked | PackageExpired | PackageExhausted
    | InstallIdTaken | PackageGone | SecretUnknown

  datatype Event =
    | PackageCreated(packageId: nat)
    | AgentEnrolled(agentId: nat, packageId: nat)
    | EnrollmentRejected(org: string, target: Option<nat>, reason: Reason)
    | PackageRevocation(packageId: nat, actor: string)

  /** `nextPackage` and `nextAgent` supply fresh ids. */
  datatype Store = Store(
    packages: map<nat, Package>, agents: map<nat, Agent>, audit: seq<Event>, nextPackage: nat, nextAgent: nat)

  /** What the caller sees: a rejection without its reason, a missing package, or an internal error. */
  datatype Failure = Rejected | NotFound | InvalidInput | Internal

  /** An enrollment between its pre-check and its transaction. */
  datatype Attempt = Attempt(packageId: nat, org: string, installId: string, now: int)

  const FALLBACK_ORG: string := "anchorix"

  // --- the lifecycle bounds --------------------------------------------------------------------------

  /** The first failing precondition, if any. */
  function ActiveAt(p: Package, now: int): Option<Reason> {
    if p.revokedAt.Some? then Some(PackageRevoked)
    else if now >= p.expiresAt then Some(PackageExpired)
    else if p.uses >= p.maxUses then Some(PackageExhausted)
    else None
  }

  /** The conditional increment. */
  function Incremented(st: Store, id: nat, now: int): Result<Store, Reason> {
    if id !in st.packages then Err(PackageGone)
    else
      var p := st.packages[id];
      match ActiveAt(p, now)
      case Some(reason) => Err(reason)
      case None => Ok(st.(packages := st.packages[id := p.(uses := p.uses + 1)]))
  }

  predicate InstallTaken(st: Store, org: string, installId: string) {
    installId != "" && exists a :: a in st.agents && st.agents[a].org == org && st.agents[a].installId == installId
  }

  function WithAgent(st: Store, a: Agent): Store {
    st.(agents := st.agents[st.nextAgent := a], nextAgent := st.nextAgent + 1)
  }

  function Audited(st: Store, e: Event): Store {
    st.(audit := st.audit + [e])
  }

  // --- enrollment -------------------------------------------------------------------------------------

  /** The package of a bootstrap secret hash among ids below n. */
  function FindBySecret(packages: map<nat, Package>, hash: string, n: nat): (r: Option<nat>)
    ensures r.Some? ==> r.value in packages && r.value < n && packages[r.value].secretHash == hash
    ensures r.None? ==> forall id | id in packages && id < n :: packages[id].secretHash != hash
  {
    if n == 0 then None
    else if n - 1 in packages && packages[n - 1].secretHash == hash then Some(n - 1)
    else FindBySecret(packages, hash, n - 1)
  }

  /** Lookup and pre-check, outside any transaction; `auditOk` says whether a rejection row can be written. */
  function BeginEnroll(st: Store, hash: string, installId: string, now: int, auditOk: bool)
    : (Store, Result<Attempt, Failure>)
  {
    match FindBySecret(st.packages, hash, st.nextPackage)
    case None =>
      (if auditOk then Audited(st, EnrollmentRejected(FALLBACK_ORG, None, SecretUnknown)) else st, Err(Rejected))
    case Some(id) =>
      var p := st.packages[id];
      match ActiveAt(p, now)
      case None => (st, Ok(Attempt(id, p.org, installId, now)))
      case Some(reason) => Refused(st, p.org, id, reason, auditOk)
  }

  /** A rejection of a known package must be audited, or it surfaces as an internal error. */
  function Refused<T>(st: Store, org: string, id: nat, reason: Reason, auditOk: bool): (Store, Result<T, Failure>) {
    if auditOk then (Audited(st, EnrollmentRejected(org, Some(id), reason)), Err(Rejected)) else (st, Err(Internal))
  }

  /** The transaction: increment, create, audit, all or nothing. None is an audit failure. */
  function EnrollTx(st: Store, at: Attempt, auditOk: bool): Result<Store, Option<Reason>> {
    match Incremented(st, at.packageId, at.now)
    case Err(reason) => Err(Some(reason))
    case Ok(st1) =>
      if InstallTaken(st1, at.org, at.installId) then Err(Some(InstallIdTaken))
      else if !auditOk then Err(None)
      else Ok(Audited(WithAgent(st1, Agent(at.org, at.packageId, at.installId, at.now)),
                      AgentEnrolled(st.nextAgent, at.packageId)))
  }

  function CommitEnroll(st: Store, at: Attempt, auditOk: bool, rejectOk: bool): (Store, Result<nat, Failure>) {
    match EnrollTx(st, at, auditOk)
    case Ok(st') => (st', Ok(st.nextAgent))
    case Err(None) => (st, Err(Internal))
    case Err(Some(reason)) => Refused(st, at.org, at.packageId, reason, rejectOk)
  }

  // --- revocation -----------------------------------------------------------------------------------------

  /** The conditional update and its audit row: None when the package is gone or already revoked. */
  function RevokeOnce(st: Store, id: nat, actor: string, now: int): Option<Store> {
    if id !in st.packages || st.packages[id].revokedAt.Some? then None
    else Some(Audited(st.(packages := st.packages[id := st.packages[id].(revokedAt := Some(now))]),
                      PackageRevocation(id, actor)))
  }

  /** The second half of a revocation whose read found the package unrevoked: true if someone was faster. */
  function CommitRevoke(st: Store, id: nat, org: string, actor: string, now: int, auditOk: bool)
    : (Store, Result<bool, Failure>)
  {
    match RevokeOnce(st, id, actor, now)
    case Some(st') => if auditOk then (st', Ok(false)) else (st, Err(Internal))
    case None => if id in st.packages && st.packages[id].org == org then (st, Ok(true)) else (st, Err(NotFound))
  }

  /** The read of a revocation: refused, already done, or to be committed. */
  function BeginRevoke(st: Store, id: nat, org: string): Result<bool, Failure> {
    if id !in st.packages || st.packages[id].org != org then Err(NotFound)
    else Ok(st.packages[id].revokedAt.Some?)
  }

  // --- creation ----------------------------------------------------------------------------------------------

  function Created(st: Store, p: Package): Store {
    Audited(st.(packages := st.packages[st.nextPackage := p], nextPackage := st.nextPackage + 1),
            PackageCreated(st.nextPackage))
  }

  class EnrollmentService {
    const hash: string -> string
    const trim: string -> string
    var packages: map<nat, Package>
    var agents: map<nat, Agent>
    var audit: seq<Event>
    var nextPackage: nat
    var nextAgent: nat

    constructor (hash: string -> string, trim: string -> string)
      ensures this.hash == hash && this.trim == trim && View() == Store(map[], map[], [], 0, 0)
    {
      this.hash, this.trim := hash, trim;
      packages, agents, audit, nextPackage, nextAgent := map[], map[], [], 0, 0;
    }

    function View(): Store
      reads this
    {
      Store(packages, agents, audit, nextPackage, nextAgent)
    }

    method IncrementUses(id: nat, at: int) returns (refusal: Option<Reason>)
      modifies this`packages
      ensures match Incremented(old(View()), id, at)
        case Ok(st) => refusal == None && View() == st
        case Err(reason) => refusal == Some(reason) && View() == old(View())
    {
      if id !in packages {
        return Some(PackageGone);
      }
      var p := packages[id];
      if p.revokedAt.Some? {
        return Some(PackageRevoked);
      }
      if !(at < p.expiresAt) {
        return Some(PackageExpired);
      }
      if p.uses >= p.maxUses {
        return Some(PackageExhausted);
      }
      packages := packages[id := p.(uses := p.uses + 1)];
      return None;
    }

    method CreateAgent(a: Agent) returns (refusal: Option<Reason>)
      modifies this`agents, this`nextAgent
      ensures if InstallTaken(old(View()), a.org, a.installId)
              then refusal == Some(InstallIdTaken) && View() == old(View())
              else refusal == None && View() == WithAgent(old(View()), a)
    {
      if a.installId != "" && exists x :: x in agents && agents[x].org == a.org && agents[x].installId == a.installId {
        return Some(InstallIdTaken);
      }
      agents := agents[nextAgent := a];
      nextAgent := nextAgent + 1;
      return None;
    }

    method Record(e: Event, ok: bool)
      modifies this`audit
      ensures View() == if ok then Audited(old(View()), e) else old(View())
    {
      if ok {
        audit := audit + [e];
      }
    }

    /** The body of the enrollment transaction; a failure leaves the store as it was. */
    method RunEnrollTx(at: Attempt, auditOk: bool) returns (r: Result<nat, Option<Reason>>)
      modifies this`packages, this`agents, this`audit, this`nextAgent
      ensures match EnrollTx(old(View()), at, auditOk)
        case Ok(st) => View() == st && r == Ok(old(nextAgent))
        case Err(reason) => View() == old(View()) && r == Err(reason)
    {
      var packages0, agents0, next0 := packages, agents, nextAgent;
      var refusal := IncrementUses(at.packageId, at.now);
      if refusal.Some? {
        return Err(refusal);
      }
      refusal := CreateAgent(Agent(at.org, at.packageId, at.installId, at.now));
      if refusal.Some? {
        packages := packages0;
        return Err(refusal);
      }
      if !auditOk {
        packages, agents, nextAgent := packages0, agents0, next0;
        return Err(None);
      }
      Record(AgentEnrolled(next0, at.packageId), true);
      return Ok(next0);
    }

    /** Lookup and pre-check: an attempt to commit, or the failure the caller sees. */
    method PreCheck(
        secretHash: string, installId: string, now: int, auditOk: bool)
      returns (r: Result<Attempt, Failure>)
      modifies this`audit
      ensures (View(), r) == BeginEnroll(old(View()), secretHash, installId, now, auditOk)
    {
      var found := FindBySecret(packages, secretHash, nextPackage);
      if found.None? {
        Record(EnrollmentRejected(FALLBACK_ORG, None, SecretUnknown), auditOk);
        return Err(Rejected);
      }
      var p := packages[found.value];
      var reason := ActiveAt(p, now);
      if reason.Some? {
        Record(EnrollmentRejected(p.org, found, reason.value), auditOk);
        return Err(if auditOk then Rejected else Internal);
      }
      return Ok(Attempt(found.value, p.org, installId, now));
    }

    /** The transaction and the mapping of its errors to what the caller sees. */
    method Commit(at: Attempt, auditOk: bool, rejectOk: bool) returns (r: Result<nat, Failure>)
      modifies this`packages, this`agents, this`audit, this`nextAgent
      ensures (View(), r) == CommitEnroll(old(View()), at, auditOk, rejectOk)
    {
      var tx := RunEnrollTx(at, auditOk);
      if tx.Ok? {
        return Ok(tx.value);
      }
      if tx.error.None? {
        return Err(Internal);
      }
      Record(EnrollmentRejected(at.org, Some(at.packageId), tx.error.value), rejectOk);
      return Err(if rejectOk then Rejected else Internal);
    }

    /** An enrollment nobody interrupts between pre-check and transaction. */
    method EnrollAgent(secret: string, hostname: string, installId: string, now: int,
                       checkAuditOk: bool, auditOk: bool, rejectOk: bool) returns (r: Result<nat, Failure>)
      modifies this`packages, this`agents, this`audit, this`nextAgent
      ensures if trim(secret) == "" || trim(hostname) == "" then r == Err(Rejected) && View() == old(View())
        else
          var (st, begun) := BeginEnroll(old(View()), hash(secret), trim(installId), now, checkAuditOk);
          match begun
          case Err(e) => r == Err(e) && View() == st
          case Ok(at) => (View(), r) == CommitEnroll(st, at, auditOk, rejectOk)
    {
      if trim(secret) == "" || trim(hostname) == "" {
        return Err(Rejected);
      }
      var begun := PreCheck(hash(secret), trim(installId), now, checkAuditOk);
      if begun.Err? {
        return Err(begun.error);
      }
      r := Commit(begun.value, auditOk, rejectOk);
    }

    /** Revokes once; a repeat succeeds, reports so and writes nothing. */
    method RevokePackage(id: nat, org: string, actor: string, now: int, auditOk: bool)
      returns (r: Result<bool, Failure>)
      modifies this`packages, this`audit
      ensures if trim(org) == "" || trim(actor) == "" then r == Err(InvalidInput) && View() == old(View())
        else match BeginRevoke(old(View()), id, org)
          case Err(e) => r == Err(e) && View() == old(View())
          case Ok(true) => r == Ok(true) && View() == old(View())
          case Ok(false) => (View(), r) == CommitRevoke(old(View()), id, org, actor, now, auditOk)
    {
      if trim(org) == "" || trim(actor) == "" {
        return Err(InvalidInput);
      }
      if id !in packages || packages[id].org != org {
        return Err(NotFound);
      }
      if packages[id].revokedAt.Some? {
        return Ok(true);
      }
      if !auditOk {
        return Err(Internal);
      }
      packages := packages[id := packages[id].(revokedAt := Some(now))];
      Record(PackageRevocation(id, actor), true);
      return Ok(false);
    }

    /** `freshHash` is the hash of a newly generated secret; `validType` says whether the package type is known. */
    method CreatePackage(org: string, creator: string, name: string, validType: bool, freshHash: string,
                         ttl: int, maxUses: int, now: int, auditOk: bool)
      returns (r: Result<nat, Failure>)
      modifies this`packages, this`audit, this`nextPackage
      ensures if trim(org) == "" || trim(creator) == "" || trim(name) == "" || !validType || ttl <= 0 || maxUses <= 0
        then r == Err(InvalidInput) && View() == old(View())
        else if !auditOk then r == Err(Internal) && View() == old(View())
        else r == Ok(old(nextPackage))
             && View() == Created(old(View()), Package(org, freshHash, maxUses, 0, now + ttl, None))
    {
      if trim(org) == "" || trim(creator) == "" || trim(name) == "" || !validType || ttl <= 0 || maxUses <= 0 {
        return Err(InvalidInput);
      }
      if !auditOk {
        return Err(Internal);
      }
      var id := nextPackage;
      packages := packages[id := Package(org, freshHash, maxUses, 0, now + ttl, None)];
      nextPackage := nextPackage + 1;
      Record(PackageCreated(id), true);
      return Ok(id);
    }
  }
}
