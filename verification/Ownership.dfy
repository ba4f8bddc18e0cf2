/**
  The ownership tables of one organization and the state transitions every writer performs.
  Rows are keyed by certificate; overrides and explanations by id.
*/
module Ownership {
  import opened Wrappers
  import opened Ids
  import opened Engine
  import opened AuditRollup
  import Retention

  datatype Clearance = Clearance(at: int, actor: string, reason: string)

  datatype Override = Override(
    certId: Id, service: Id, reason: string, setBy: string, setAt: int,
    expiresAt: Option<int>, cleared: Option<Clearance>)

  datatype Row = Row(
    service: Option<Id>, kind: DecisionKind, winningRule: Option<Id>, overrideId: Option<Id>,
    explanationId: Id, confidence: Confidence,
    firstAssigned: int, lastEvaluated: int, lastChanged: int)

  datatype Explanation = Explanation(
    certId: Id, decidedAt: int, kind: DecisionKind, service: Option<Id>, winningRule: Option<Id>,
    losing: seq<LosingRule>, signalsSeen: Signals)

  datatype Summary = Summary(
    evaluated: nat, changed: nat, untouched: nat, reclassified: nat,
    becameOwned: nat, becameUnowned: nat, flippedOwner: nat, createdUnowned: nat)

  datatype Event =
    | RuleCompileFailed(failure: CompileFailure)
    | OverrideExpired(certId: Id, overrideId: Id, service: Id)
    | OwnershipTransition(transition: TransitionEvent)
    | Recomputed(firstRun: bool, summary: Summary, compileFailures: seq<CompileFailure>)
    | OverrideSet(certId: Id, overrideId: Id, service: Id, actor: string)
    | OverrideCleared(certId: Id, overrideId: Id, actor: string)
    | ExplanationsPruned(deleted: nat, scanned: nat, cursor: Id, nextCursor: Id)

  datatype State = State(
    certs: map<Id, Signals>, rules: seq<Rule>,
    rows: map<Id, Row>, overrides: map<Id, Override>, explanations: map<Id, Explanation>,
    audit: seq<Event>, nextId: nat)

  /** Library text functions and the supply of fresh ids. */
  datatype Platform = Platform(lib: TextLibrary, mint: nat -> Id)

  ghost predicate SupplyFresh(p: Platform, st: State) {
    FreshFrom(p.mint, st.nextId, st.explanations.Keys + st.overrides.Keys)
  }

  // --- overrides ---------------------------------------------------------------------

  function ActiveIds(overrides: map<Id, Override>, certId: Id): set<Id> {
    set o | o in overrides && overrides[o].certId == certId && overrides[o].cleared.None?
  }

  /** The active override of a certificate, if any. */
  function ActiveOverride(overrides: map<Id, Override>, certId: Id): (r: Option<Id>)
    ensures r.Some? <==> ActiveIds(overrides, certId) != {}
    ensures r.Some? ==> r.value in ActiveIds(overrides, certId)
  {
    var ids := ActiveIds(overrides, certId);
    if ids == {} then None else Some(Minimum(ids))
  }

  /** The store's partial unique index: at most one uncleared override per certificate. */
  ghost predicate OneActive(overrides: map<Id, Override>) {
    forall a, b | a in overrides && b in overrides ::
      overrides[a].certId == overrides[b].certId && overrides[a].cleared.None? && overrides[b].cleared.None?
      ==> a == b
  }

  /** Certificates that have an active override. */
  function ActiveCerts(overrides: map<Id, Override>): set<Id> {
    set o | o in overrides && overrides[o].cleared.None? :: overrides[o].certId
  }

  lemma ActiveCertsMembers(overrides: map<Id, Override>, c: Id)
    ensures c in ActiveCerts(overrides) <==> ActiveOverride(overrides, c).Some?
  {
    if c in ActiveCerts(overrides) {
      var o :| o in overrides && overrides[o].cleared.None? && overrides[o].certId == c;
      assert o in ActiveIds(overrides, c);
    }
  }

  function PinOf(id: Id, o: Override): Pin {
    Pin(id, o.service, o.expiresAt)
  }

  predicate Expired(o: Override, now: int) {
    o.expiresAt.Some? && o.expiresAt.value <= now
  }

  function ClearOne(st: State, id: Id, now: int, actor: string, reason: string): State
    requires id in st.overrides
  {
    st.(overrides := st.overrides[id := st.overrides[id].(cleared := Some(Clearance(now, actor, reason)))])
  }

  // --- writing one decision -------------------------------------------------------------

  datatype Move = Created | Refreshed | Reclassified | Moved

  /** Same owner, same basis. */
  predicate Agrees(row: Row, d: Decision) {
    && row.kind == d.kind && row.service == d.service
    && row.winningRule == d.winningRule && row.overrideId == d.overrideId && row.confidence == d.confidence
  }

  function MoveOf(prior: Option<Row>, d: Decision): Move {
    if prior.None? then Created
    else if prior.value.kind != d.kind || prior.value.service != d.service then Moved
    else if Agrees(prior.value, d) then Refreshed
    else Reclassified
  }

  function BuildRow(d: Decision, explanationId: Id, firstAssigned: int, lastEvaluated: int, lastChanged: int): Row {
    Row(d.service, d.kind, d.winningRule, d.overrideId, explanationId, d.confidence,
        firstAssigned, lastEvaluated, lastChanged)
  }

  /** The row after a decision: new decision and explanation unless nothing changed. */
  function RowAfter(prior: Option<Row>, d: Decision, explanationId: Id, now: int): Row {
    match MoveOf(prior, d)
    case Created => BuildRow(d, explanationId, now, now, now)
    case Refreshed => prior.value.(lastEvaluated := now)
    case Reclassified => BuildRow(d, explanationId, prior.value.firstAssigned, now, prior.value.lastChanged)
    case Moved =>
      var first := if prior.value.service.None? && d.service.Some? then now else prior.value.firstAssigned;
      BuildRow(d, explanationId, first, now, now)
  }

  function Explain(certId: Id, d: Decision, sig: Signals, now: int): Explanation {
    Explanation(certId, now, d.kind, d.service, d.winningRule, d.losing, sig)
  }

  /** The whole effect of deciding one certificate on rows, explanations and the id supply. */
  function Settle(p: Platform, st: State, certId: Id, sig: Signals, d: Decision, now: int): State {
    var prior := if certId in st.rows then Some(st.rows[certId]) else None;
    var id := p.mint(st.nextId);
    var st' := st.(rows := st.rows[certId := RowAfter(prior, d, id, now)]);
    if MoveOf(prior, d) == Refreshed then st'
    else st'.(explanations := st.explanations[id := Explain(certId, d, sig, now)], nextId := st.nextId + 1)
  }

  function PriorRow(st: State, certId: Id): Option<Row> {
    if certId in st.rows then Some(st.rows[certId]) else None
  }

  const MAX_OVERRIDE_REASON_LEN: nat := 1000

  // --- single-certificate writers ----------------------------------------------------------

  datatype Refusal =
    | CertificateNotFound | OverrideConflict | InvalidInput
    | ExpiryInPast | ServiceNotFound | CompileRefused(error: CompileError)

  /** Re-derives one certificate, with the override the caller passes. */
  function Rederive(p: Platform, st: State, certId: Id, pin: Option<Pin>, now: int): Result<State, Refusal> {
    if certId !in st.certs then Err(CertificateNotFound)
    else
      match Compiled(p.lib, st.rules)
      case Err(e) => Err(CompileRefused(e))
      case Ok(rs) =>
        Ok(Settle(p, st, certId, st.certs[certId], Decide(p.lib, st.certs[certId], pin, rs.rules, now), now))
  }

  function Inserted(p: Platform, st: State, o: Override): State {
    st.(overrides := st.overrides[p.mint(st.nextId) := o], nextId := st.nextId + 1)
  }

  /** The locked body of CreateOverride. */
  function CreateTx(p: Platform, st: State, o: Override, now: int): Result<State, Refusal> {
    if ActiveIds(st.overrides, o.certId) != {} then Err(OverrideConflict)
    else
      var id := p.mint(st.nextId);
      match Rederive(p, Inserted(p, st, o), o.certId, Some(PinOf(id, o)), now)
      case Err(e) => Err(e)
      case Ok(st2) => Ok(st2.(audit := st2.audit + [OverrideSet(o.certId, id, o.service, o.setBy)]))
  }

  predicate ValidOverrideReason(reason: string) {
    0 < |reason| <= MAX_OVERRIDE_REASON_LEN
  }

  /** What CreateOverride refuses before it opens its transaction, in the order it checks. */
  function CreateCheck(st: State, o: Override, activeService: bool): Option<Refusal> {
    if o.certId == "" || o.service == "" || o.setBy == "" || !ValidOverrideReason(o.reason) then Some(InvalidInput)
    else if Expired(o, o.setAt) then Some(ExpiryInPast)
    else if o.certId !in st.certs then Some(CertificateNotFound)
    else if !activeService then Some(ServiceNotFound)
    else None
  }

  /** The override ClearOverride resolves before its transaction, or why it refuses. */
  function ClearCheck(st: State, certId: Id, actor: string, reason: string): Result<Id, Refusal> {
    if certId == "" || actor == "" || !ValidOverrideReason(reason) then Err(InvalidInput)
    else
      match ActiveOverride(st.overrides, certId)
      case None => Err(CertificateNotFound)
      case Some(id) => Ok(id)
  }

  predicate Clearable(st: State, id: Id) {
    id in st.overrides && st.overrides[id].cleared.None?
  }

  /** The locked body of ClearOverride for an override id resolved earlier. */
  function ClearTx(p: Platform, st: State, certId: Id, id: Id, actor: string, reason: string, now: int)
    : Result<State, Refusal>
  {
    if !Clearable(st, id) then Err(CertificateNotFound)
    else
      match Rederive(p, ClearOne(st, id, now, actor, reason), certId, None, now)
      case Err(e) => Err(e)
      case Ok(st1) => Ok(st1.(audit := st1.audit + [OverrideCleared(certId, id, actor)]))
  }

  /** One row of a sweep page: a row already cleared is skipped silently. */
  function SweepOne(p: Platform, st: State, certId: Id, id: Id, o: Override, now: int): Result<State, Refusal> {
    if !Clearable(st, id) then Ok(st)
    else
      match Rederive(p, ClearOne(st, id, now, "system", "auto-expired"), certId, None, now)
      case Err(e) => Err(e)
      case Ok(st1) => Ok(st1.(audit := st1.audit + [OverrideExpired(certId, id, o.service)]))
  }

  /** Certificates whose active override has expired by `now`. */
  function ExpiringCerts(st: State, now: int): set<Id> {
    set o | o in st.overrides && st.overrides[o].cleared.None? && Expired(st.overrides[o], now)
      :: st.overrides[o].certId
  }

  /** Sweeping the listed certificates in order, each against its override in the listing snapshot. */
  function SweepAll(p: Platform, snapshot: State, st: State, page: seq<Id>, now: int): Result<State, Refusal>
    requires forall c | c in page :: ActiveOverride(snapshot.overrides, c).Some?
  {
    if page == [] then Ok(st)
    else
      var n := |page| - 1;
      match SweepAll(p, snapshot, st, page[..n], now)
      case Err(e) => Err(e)
      case Ok(mid) =>
        var id := ActiveOverride(snapshot.overrides, page[n]).value;
        SweepOne(p, mid, page[n], id, snapshot.overrides[id], now)
  }

  /** The cursor a page hands back: its last key, or the cursor it was given when it is empty. */
  function NextCursor(page: seq<Id>, cursor: Id): Id {
    if page == [] then cursor else page[|page| - 1]
  }

  /** One sweep page as a transaction. */
  function SweepPageTx(p: Platform, st: State, cursor: Id, limit: nat, now: int): Result<State, Refusal> {
    var page := Page(ExpiringCerts(st, now), cursor, limit);
    assert forall c | c in page :: ActiveOverride(st.overrides, c).Some? by {
      forall c | c in page ensures ActiveOverride(st.overrides, c).Some? {
        var o :| o in st.overrides && st.overrides[o].cleared.None? && st.overrides[o].certId == c;
        assert o in ActiveIds(st.overrides, c);
      }
    }
    SweepAll(p, st, st, page, now)
  }

  // --- retention ---------------------------------------------------------------------------------

  /** The explanation history of one certificate. */
  function TimelineOf(explanations: map<Id, Explanation>, certId: Id): Retention.Timeline {
    map id | id in explanations && explanations[id].certId == certId :: explanations[id].decidedAt
  }

  function CurrentExplanation(st: State, certId: Id): Option<Id> {
    if certId in st.rows then Some(st.rows[certId].explanationId) else None
  }

  function ExplainedCerts(explanations: map<Id, Explanation>): set<Id> {
    set id | id in explanations :: explanations[id].certId
  }

  function PruneBatch(st: State, certId: Id, keepN: nat, cutoff: int, limit: nat): seq<Id> {
    Retention.Batch(TimelineOf(st.explanations, certId), CurrentExplanation(st, certId), keepN, cutoff, limit)
  }

  /** The guarded delete: only this certificate's rows, never its current explanation. */
  function Deletable(st: State, certId: Id, ids: seq<Id>): set<Id> {
    set id | id in ids && id in st.explanations && st.explanations[id].certId == certId
             && Some(id) != CurrentExplanation(st, certId)
  }

  /** Deletes one batch of a certificate's history; the number counts deleted rows. */
  function PruneCert(st: State, certId: Id, keepN: nat, cutoff: int, limit: nat): (State, nat) {
    var gone := Deletable(st, certId, PruneBatch(st, certId, keepN, cutoff, limit));
    (st.(explanations := st.explanations - gone), |gone|)
  }

  type PruneStep = (State, Id) -> (State, nat)

  function PruneCertAt(keepN: nat, cutoff: int, limit: nat): PruneStep {
    (st: State, certId: Id) => PruneCert(st, certId, keepN, cutoff, limit)
  }

  /** Applies the step to the first n listed certificates, adding up the deletions. */
  function PruneFirst(step: PruneStep, st: State, page: seq<Id>, n: nat): (State, nat)
    requires n <= |page|
  {
    if n == 0 then (st, 0)
    else
      var (mid, deleted) := PruneFirst(step, st, page, n - 1);
      var (st', more) := step(mid, page[n - 1]);
      (st', deleted + more)
  }

  function PruneAll(st: State, page: seq<Id>, keepN: nat, cutoff: int, limit: nat): (State, nat) {
    PruneFirst(PruneCertAt(keepN, cutoff, limit), st, page, |page|)
  }

  /** One prune page as a transaction: audited iff it deleted something. */
  function PrunePageTx(st: State, cursor: Id, limit: nat, keepN: nat, cutoff: int, perCert: nat): State {
    var page := Page(ExplainedCerts(st.explanations), cursor, limit);
    var (st', deleted) := PruneAll(st, page, keepN, cutoff, perCert);
    if deleted == 0 then st'
    else st'.(audit := st'.audit + [ExplanationsPruned(deleted, |page|, cursor, NextCursor(page, cursor))])
  }

  // --- the recompute pass --------------------------------------------------------------------

  /** Counters and audit intents of a pass; `log` is every audited transition, in order, by group. */
  datatype Tally = Tally(summary: Summary, expired: seq<(Id, Id, Id)>, newlyAmbiguous: nat, log: Log)

  const EMPTY_TALLY: Tally := Tally(Summary(0, 0, 0, 0, 0, 0, 0, 0), [], 0, map[])

  /** Which audit row, if any, a transition gets. */
  function AuditAction(from: DecisionKind, d: Decision, serviceChanged: bool, priorAmbiguous: bool): Option<Action> {
    var fromOwned, nowOwned := from != Unowned, d.service.Some?;
    if !fromOwned && nowOwned then Some(if d.kind == Ambiguous then AmbiguousMatch else Assigned)
    else if fromOwned && !nowOwned then Some(Cleared)
    else if fromOwned && nowOwned && serviceChanged then Some(if d.kind == Ambiguous then AmbiguousMatch else Flipped)
    else if fromOwned && nowOwned && d.kind == Ambiguous && !priorAmbiguous then Some(AmbiguousMatch)
    else None
  }

  function KeyFor(action: Action, from: DecisionKind, d: Decision): GroupKey {
    GroupKey(action, from, d.kind, if d.winningRule.Some? then d.winningRule.value else "")
  }

  ghost function LogTransition(log: Log, certId: Id, from: DecisionKind, d: Decision,
                               serviceChanged: bool, priorAmbiguous: bool): Log {
    match AuditAction(from, d, serviceChanged, priorAmbiguous)
    case None => log
    case Some(a) => Logged(log, KeyFor(a, from, d), certId)
  }

  /** The change counters and the audit log after one decision. */
  ghost function Counted(t: Tally, certId: Id, prior: Option<Row>, d: Decision): Tally {
    var s := t.summary;
    match MoveOf(prior, d)
    case Created =>
      if d.kind == Unowned
      then t.(summary := s.(untouched := s.untouched + 1, createdUnowned := s.createdUnowned + 1))
      else t.(summary := s.(changed := s.changed + 1, becameOwned := s.becameOwned + 1),
              log := LogTransition(t.log, certId, Unowned, d, false, false))
    case Refreshed => t.(summary := s.(untouched := s.untouched + 1))
    case Reclassified => t.(summary := s.(changed := s.changed + 1, reclassified := s.reclassified + 1))
    case Moved =>
      var row := prior.value;
      t.(summary := CountMove(s, row, d),
         newlyAmbiguous := t.newlyAmbiguous + (if NewlyAmbiguous(row, d) then 1 else 0),
         log := LogTransition(t.log, certId, row.kind, d, ServiceFlipped(row, d), row.kind == Ambiguous))
  }

  predicate ServiceFlipped(row: Row, d: Decision) {
    row.service.Some? && d.service.Some? && row.service != d.service
  }

  /** Same owner, now ambiguous. */
  predicate NewlyAmbiguous(row: Row, d: Decision) {
    row.service.Some? && row.service == d.service && d.kind == Ambiguous
  }

  function CountMove(s: Summary, row: Row, d: Decision): Summary {
    var changed := s.(changed := s.changed + 1);
    if row.service.None? && d.service.Some? then changed.(becameOwned := s.becameOwned + 1)
    else if row.service.Some? && d.service.None? then changed.(becameUnowned := s.becameUnowned + 1)
    else if ServiceFlipped(row, d) then changed.(flippedOwner := s.flippedOwner + 1)
    else changed
  }

  /** The active override of a certificate with its id, as a pass loads it. */
  function EntryOf(st: State, certId: Id): Option<(Id, Override)> {
    match ActiveOverride(st.overrides, certId)
    case None => None
    case Some(id) => Some((id, st.overrides[id]))
  }

  /** The override a decision uses: the active one unless it has expired. */
  function UsablePin(active: Option<(Id, Override)>, now: int): Option<Pin> {
    if active.None? || Expired(active.value.1, now) then None
    else Some(PinOf(active.value.0, active.value.1))
  }

  /** The tables once the active override is cleared if it has expired. */
  function Cleaned(st: State, active: Option<(Id, Override)>, now: int): State
    requires active.Some? ==> active.value.0 in st.overrides
  {
    if active.Some? && Expired(active.value.1, now)
    then ClearOne(st, active.value.0, now, "system", "auto-expired") else st
  }

  function Expiry(certId: Id, active: Option<(Id, Override)>, now: int): seq<(Id, Id, Id)> {
    if active.Some? && Expired(active.value.1, now)
    then [(certId, active.value.0, active.value.1.service)] else []
  }

  function EffectivePin(st: State, certId: Id, now: int): Option<Pin> {
    UsablePin(EntryOf(st, certId), now)
  }

  /** The decision of a pass for one certificate, from the state before the pass. */
  function PassDecision(p: Platform, pre: State, rules: seq<CompiledRule>, certId: Id, now: int): Decision
    requires certId in pre.certs
  {
    Decide(p.lib, pre.certs[certId], EffectivePin(pre, certId, now), rules, now)
  }

  /** One certificate of a pass: expire its override if due, decide, write. `pre` is the state before the pass. */
  function PassStep(p: Platform, pre: State, st: State, rules: seq<CompiledRule>, certId: Id, now: int): State
    requires certId in pre.certs
    requires forall id | id in pre.overrides :: id in st.overrides
  {
    Settle(p, Cleaned(st, EntryOf(pre, certId), now), certId, pre.certs[certId],
           PassDecision(p, pre, rules, certId, now), now)
  }

  /** The tables after the first n certificates of the pass. */
  function Pass(p: Platform, pre: State, rules: seq<CompiledRule>, certs: seq<Id>, n: nat, now: int): (st: State)
    requires n <= |certs| && forall c | c in certs :: c in pre.certs
    ensures st.overrides.Keys == pre.overrides.Keys
  {
    if n == 0 then pre
    else PassStep(p, pre, Pass(p, pre, rules, certs, n - 1, now), rules, certs[n - 1], now)
  }

  ghost function Seen(t: Tally, expired: seq<(Id, Id, Id)>): Tally {
    t.(summary := t.summary.(evaluated := t.summary.evaluated + 1), expired := t.expired + expired)
  }

  ghost function PassTally(p: Platform, pre: State, rules: seq<CompiledRule>, certs: seq<Id>, n: nat, now: int): Tally
    requires n <= |certs| && forall c | c in certs :: c in pre.certs
  {
    if n == 0 then EMPTY_TALLY
    else
      var t := PassTally(p, pre, rules, certs, n - 1, now);
      var c := certs[n - 1];
      Counted(Seen(t, Expiry(c, EntryOf(pre, c), now)), c, PriorRow(pre, c), PassDecision(p, pre, rules, c, now))
  }

  function CompileFailureEvents(failures: seq<CompileFailure>): seq<Event> {
    seq(|failures|, i requires 0 <= i < |failures| => RuleCompileFailed(failures[i]))
  }

  function ExpiredEvents(expired: seq<(Id, Id, Id)>): seq<Event> {
    seq(|expired|, i requires 0 <= i < |expired| => OverrideExpired(expired[i].0, expired[i].1, expired[i].2))
  }

  function TransitionEvents(events: seq<TransitionEvent>): seq<Event> {
    seq(|events|, i requires 0 <= i < |events| => OwnershipTransition(events[i]))
  }

  ghost function GroupsOf(log: Log, threshold: nat): map<GroupKey, Group> {
    map k | k in log :: GroupOf(log[k], threshold)
  }

  ghost predicate FirstRun(pre: State) {
    forall c | c in pre.certs :: c !in pre.rows
  }

  /** The audit rows a pass appends. */
  ghost function PassEvents(firstRun: bool, t: Tally, failures: seq<CompileFailure>, threshold: nat): seq<Event> {
    var groups := GroupsOf(t.log, threshold);
    CompileFailureEvents(failures) + ExpiredEvents(t.expired)
    + TransitionEvents(EventsFor(KeyOrder(groups.Keys), groups))
    + [Recomputed(firstRun, t.summary, failures)]
  }

  /** A full recompute: fails as a whole on rule drift, otherwise decides every certificate once. */
  ghost function Recompute(p: Platform, pre: State, threshold: nat, now: int): Result<State, CompileError> {
    match Compiled(p.lib, pre.rules)
    case Err(e) => Err(e)
    case Ok(rs) =>
      var certs := SortedIds(pre.certs.Keys);
      SortedIdsOrder(pre.certs.Keys);
      var post := Pass(p, pre, rs.rules, certs, |certs|, now);
      var t := PassTally(p, pre, rs.rules, certs, |certs|, now);
      Ok(post.(audit := pre.audit + PassEvents(FirstRun(pre), t, rs.failures, threshold)))
  }
}
