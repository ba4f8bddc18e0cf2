/**
  The ownership engine over its tables: the recompute pass, the two override mutations, the
  expiring-override sweep and the explanation prune. Each public method is one locked
  transaction: on a refusal the tables are as they were.
*/
module OwnershipService {
  import opened Wrappers
  import opened Ids
  import opened Engine
  import opened AuditRollup
  import opened Ownership
  import opened OwnershipKeys
  import opened PassLemmas
  import Retention

  /** Per-pass counters and grouped audit intents. */
  class RecomputeOutcome {
    const threshold: nat
    var firstRun: bool
    var evaluated: nat
    var changed: nat
    var untouched: nat
    var reclassified: nat
    var becameOwned: nat
    var becameUnowned: nat
    var flippedOwner: nat
    var createdUnowned: nat
    var expiredOverrides: seq<(Id, Id, Id)>
    var auditGroups: map<GroupKey, Group>
    ghost var newlyAmbiguous: nat
    ghost var log: Log

    ghost predicate Valid()
      reads this
    {
      GroupsReflect(auditGroups, log, threshold)
    }

    function Counters(): Summary
      reads this
    {
      Summary(evaluated, changed, untouched, reclassified, becameOwned, becameUnowned, flippedOwner, createdUnowned)
    }

    ghost function View(): Tally
      reads this
    {
      Tally(Counters(), expiredOverrides, newlyAmbiguous, log)
    }

    constructor (threshold: nat)
      ensures Valid() && View() == EMPTY_TALLY && firstRun && this.threshold == threshold
    {
      this.threshold := threshold;
      firstRun := true;
      evaluated, changed, untouched, reclassified := 0, 0, 0, 0;
      becameOwned, becameUnowned, flippedOwner, createdUnowned := 0, 0, 0, 0;
      expiredOverrides, auditGroups := [], map[];
      newlyAmbiguous, log := 0, map[];
    }

    /** Classifies one transition and adds it to its audit group, if it is audited at all. */
    method AccumAudit(certId: Id, from: DecisionKind, d: Decision, serviceChanged: bool, priorAmbiguous: bool)
      requires Valid()
      modifies this`auditGroups, this`log
      ensures Valid()
      ensures log == LogTransition(old(log), certId, from, d, serviceChanged, priorAmbiguous)
    {
      var action := ClassifyTransition(from, d, serviceChanged, priorAmbiguous);
      if action.None? {
        return;
      }
      var driver := if d.winningRule.Some? then d.winningRule.value else "";
      var key := GroupKey(action.value, from, d.kind, driver);
      auditGroups := AddAudit(auditGroups, log, key, certId, threshold);
      log := Logged(log, key, certId);
    }

    /** A pass that meets any prior row is not a first run. */
    method NoteFirstRun(allNew: bool)
      requires Valid()
      modifies this`firstRun
      ensures Valid() && View() == old(View()) && firstRun == (old(firstRun) && allNew)
    {
      if !allNew {
        firstRun := false;
      }
    }

    /** A first unowned row is counted as unchanged and not audited. */
    method CountFirst(certId: Id, d: Decision)
      requires Valid()
      modifies this
      ensures Valid() && firstRun == old(firstRun)
      ensures View() == Counted(old(View()), certId, None, d)
    {
      if d.kind == Unowned {
        untouched := untouched + 1;
        createdUnowned := createdUnowned + 1;
        return;
      }
      changed := changed + 1;
      becameOwned := becameOwned + 1;
      AccumAudit(certId, Unowned, d, false, false);
    }

    method BumpTransition(row: Row, d: Decision)
      modifies this`changed, this`becameOwned, this`becameUnowned, this`flippedOwner
      ensures Counters() == CountMove(old(Counters()), row, d)
    {
      var priorOwned, nowOwned := row.service.Some?, d.service.Some?;
      changed := changed + 1;
      if !priorOwned && nowOwned {
        becameOwned := becameOwned + 1;
      } else if priorOwned && !nowOwned {
        becameUnowned := becameUnowned + 1;
      } else if priorOwned && nowOwned && row.service != d.service {
        flippedOwner := flippedOwner + 1;
      }
    }

    /** Counters and audit intent of an owner transition. */
    method CountTransition(certId: Id, row: Row, d: Decision)
      requires Valid() && (row.kind != d.kind || row.service != d.service)
      modifies this
      ensures Valid() && firstRun == old(firstRun)
      ensures View() == Counted(old(View()), certId, Some(row), d)
    {
      BumpTransition(row, d);
      newlyAmbiguous := newlyAmbiguous + if NewlyAmbiguous(row, d) then 1 else 0;
      AccumAudit(certId, row.kind, d, ServiceFlipped(row, d), row.kind == Ambiguous);
    }
  }

  method ClassifyTransition(from: DecisionKind, d: Decision, serviceChanged: bool, priorAmbiguous: bool)
    returns (action: Option<Action>)
    ensures action == AuditAction(from, d, serviceChanged, priorAmbiguous)
  {
    var fromOwned := from != Unowned;
    var nowOwned := d.service.Some?;
    if !fromOwned && nowOwned {
      action := Some(if d.kind == Ambiguous then AmbiguousMatch else Assigned);
    } else if fromOwned && !nowOwned {
      action := Some(Cleared);
    } else if fromOwned && nowOwned && serviceChanged {
      action := Some(if d.kind == Ambiguous then AmbiguousMatch else Flipped);
    } else if fromOwned && nowOwned && d.kind == Ambiguous && !priorAmbiguous {
      action := Some(AmbiguousMatch);
    } else {
      action := None;
    }
  }

  const DEFAULT_BULK_THRESHOLD: nat := 500
  const DEFAULT_KEEP_N: nat := 10

  /** 90 days in nanoseconds. */
  const DEFAULT_MAX_AGE: int := 90 * 24 * 3600 * 1_000_000_000

  class OwnershipService {
    const platform: Platform
    const bulkAuditThreshold: nat
    const retention: Retention.Policy
    var pageOverride: int
    var prunePerCertOverride: int

    var certs: map<Id, Signals>
    var rules: seq<Rule>
    var rows: map<Id, Row>
    var overrides: map<Id, Override>
    var explanations: map<Id, Explanation>
    var audit: seq<Event>
    var nextId: nat

    function View(): State
      reads this
    {
      State(certs, rules, rows, overrides, explanations, audit, nextId)
    }

    ghost predicate Valid()
      reads this
    {
      WellKeyed(View())
    }

    /** Opens the service over stored tables; settings that are not positive take their defaults. */
    constructor (platform: Platform, bulkAuditThreshold: int, retention: Retention.Policy, tables: State)
      requires WellKeyed(tables)
      ensures Valid() && View() == tables && this.platform == platform
      ensures pageOverride == 0 && prunePerCertOverride == 0
      ensures this.bulkAuditThreshold == if bulkAuditThreshold > 0 then bulkAuditThreshold else DEFAULT_BULK_THRESHOLD
      ensures this.retention.keepN == if retention.keepN > 0 then retention.keepN else DEFAULT_KEEP_N
      ensures this.retention.maxAge == if retention.maxAge > 0 then retention.maxAge else DEFAULT_MAX_AGE
    {
      this.platform := platform;
      this.bulkAuditThreshold := if bulkAuditThreshold <= 0 then DEFAULT_BULK_THRESHOLD else bulkAuditThreshold;
      this.retention := Retention.Policy(
        if retention.keepN <= 0 then DEFAULT_KEEP_N else retention.keepN,
        if retention.maxAge <= 0 then DEFAULT_MAX_AGE else retention.maxAge);
      pageOverride, prunePerCertOverride := 0, 0;
      certs, rules, rows := tables.certs, tables.rules, tables.rows;
      overrides, explanations := tables.overrides, tables.explanations;
      audit, nextId := tables.audit, tables.nextId;
    }

    function PrunePerCertLimit(): (limit: nat)
      reads this
      ensures limit >= 1 && (prunePerCertOverride > 0 ==> limit == prunePerCertOverride)
      ensures prunePerCertOverride <= 0 ==> limit == 256
    {
      if prunePerCertOverride > 0 then prunePerCertOverride else 256
    }

    // --- store writes ------------------------------------------------------------------

    method NewId() returns (id: Id)
      modifies this`nextId
      ensures id == platform.mint(old(nextId)) && nextId == old(nextId) + 1
    {
      id := platform.mint(nextId);
      nextId := nextId + 1;
    }

    method UpsertCertificateOwnership(certId: Id, row: Row)
      modifies this`rows
      ensures rows == old(rows)[certId := row]
    {
      rows := rows[certId := row];
    }

    method WriteExplanation(id: Id, certId: Id, sig: Signals, d: Decision, now: int)
      modifies this`explanations
      ensures explanations == old(explanations)[id := Explain(certId, d, sig, now)]
    {
      explanations := explanations[id :=
        Explanation(certId, now, d.kind, d.service, d.winningRule, d.losing, sig)];
    }

    /** Clears the override if it is still uncleared; false on a miss. */
    method ClearOwnershipOverride(id: Id, actor: string, reason: string, now: int) returns (found: bool)
      modifies this`overrides
      ensures found == Clearable(old(View()), id)
      ensures View() == if found then ClearOne(old(View()), id, now, actor, reason) else old(View())
    {
      if id !in overrides || overrides[id].cleared.Some? {
        return false;
      }
      overrides := overrides[id := overrides[id].(cleared := Some(Clearance(now, actor, reason)))];
      found := true;
    }

    method RecordAudit(e: Event)
      modifies this`audit
      ensures audit == old(audit) + [e]
    {
      audit := audit + [e];
    }

    // --- recompute ---------------------------------------------------------------------

    ghost predicate Loaded(active: map<Id, (Id, Override)>, read: seq<Id>)
      reads this`overrides
    {
      && (forall c :: c in active <==> c in read)
      && (forall c | c in active :: ActiveOverride(overrides, c) == Some(active[c].0)
                                    && active[c].0 in overrides && active[c].1 == overrides[active[c].0])
    }

    method LoadPage(active: map<Id, (Id, Override)>, ghost read: seq<Id>, page: seq<Id>)
      returns (active': map<Id, (Id, Override)>)
      requires Loaded(active, read) && forall c | c in page :: c in ActiveCerts(overrides)
      ensures Loaded(active', read + page)
    {
      active' := active;
      for i := 0 to |page|
        invariant Loaded(active', read + page[..i])
      {
        var c := page[i];
        assert c in page;
        ActiveCertsMembers(overrides, c);
        var id := ActiveOverride(overrides, c).value;
        active' := active'[c := (id, overrides[id])];
        assert read + page[..i + 1] == (read + page[..i]) + [c];
      }
      assert page[..|page|] == page;
    }

    /** Pages every active override into a map keyed by certificate. */
    method LoadActiveOverrides() returns (active: map<Id, (Id, Override)>)
      requires "" !in ActiveCerts(overrides)
      ensures Loaded(active, SortedIds(ActiveCerts(overrides)))
    {
      active := map[];
      var keys := ActiveCerts(overrides);
      ghost var q := SortedIds(keys);
      ghost var n := 0;
      var cursor := "";
      var limit := PageSize(pageOverride);
      var more := true;
      while more
        invariant n <= |q| && cursor == CursorAt(q, n)
        invariant Loaded(active, q[..n])
        invariant more || n == |q|
        decreases |q| - n, more
      {
        var page := NextPage(keys, q, n, cursor, limit);
        if |page| == 0 {
          break;
        }
        SliceAppend(q, n, page);
        active := LoadPage(active, q[..n], page);
        n := n + |page|;
        cursor := page[|page| - 1];
        more := |page| == limit;
      }
      assert q[..n] == q;
    }

    /** Clears the override now if it has expired; returns the one still in force. */
    method ExpireIfDue(certId: Id, active: Option<(Id, Override)>, now: int, out: RecomputeOutcome)
      returns (override: Option<(Id, Override)>)
      requires active.Some? ==> Clearable(View(), active.value.0)
      modifies this`overrides, out`expiredOverrides
      ensures View() == Cleaned(old(View()), active, now)
      ensures out.expiredOverrides == old(out.expiredOverrides) + Expiry(certId, active, now)
      ensures override == if active.Some? && Expired(active.value.1, now) then None else active
    {
      override := active;
      if active.Some? && active.value.1.expiresAt.Some? && !(active.value.1.expiresAt.value > now) {
        var found := ClearOwnershipOverride(active.value.0, "system", "auto-expired", now);
        out.expiredOverrides := out.expiredOverrides + [(certId, active.value.0, active.value.1.service)];
        override := None;
      }
    }

    /** A fresh explanation plus the ownership row that points at it. */
    method WriteDecision(certId: Id, sig: Signals, d: Decision, firstAssigned: int, now: int, lastChanged: int)
      modifies this`rows, this`explanations, this`nextId
      ensures var id := platform.mint(old(nextId));
        View() == old(View()).(
          rows := old(rows)[certId := BuildRow(d, id, firstAssigned, now, lastChanged)],
          explanations := old(explanations)[id := Explain(certId, d, sig, now)],
          nextId := old(nextId) + 1)
    {
      var id := NewId();
      WriteExplanation(id, certId, sig, d, now);
      UpsertCertificateOwnership(certId, BuildRow(d, id, firstAssigned, now, lastChanged));
    }

    /** First decision of a certificate: always explained; an unowned one is not an audited transition. */
    method RecordFirst(certId: Id, sig: Signals, d: Decision, now: int, out: RecomputeOutcome)
      requires out.Valid() && certId !in rows
      modifies this`rows, this`explanations, this`nextId, out
      ensures out.Valid() && out.firstRun == old(out.firstRun)
      ensures View() == Settle(platform, old(View()), certId, sig, d, now)
      ensures out.View() == Counted(old(out.View()), certId, None, d)
    {
      WriteDecision(certId, sig, d, now, now, now);
      out.CountFirst(certId, d);
    }

    /** Same decision and service: refresh the basis if it moved, else only the evaluation time. */
    method RecordSameOwner(certId: Id, sig: Signals, row: Row, d: Decision, now: int, out: RecomputeOutcome)
      requires out.Valid() && certId in rows && rows[certId] == row
      requires row.kind == d.kind && row.service == d.service
      modifies this`rows, this`explanations, this`nextId, out
      ensures out.Valid() && out.firstRun == old(out.firstRun)
      ensures View() == Settle(platform, old(View()), certId, sig, d, now)
      ensures out.View() == Counted(old(out.View()), certId, Some(row), d)
    {
      var basisChanged := row.winningRule != d.winningRule || row.overrideId != d.overrideId
                          || row.confidence != d.confidence;
      if !basisChanged {
        UpsertCertificateOwnership(certId, row.(lastEvaluated := now));
        out.untouched := out.untouched + 1;
        return;
      }
      WriteDecision(certId, sig, d, row.firstAssigned, now, row.lastChanged);
      out.changed := out.changed + 1;
      out.reclassified := out.reclassified + 1;
    }

    /** The decision or the service moved: new explanation, change time, audit intent. */
    method RecordTransition(certId: Id, sig: Signals, row: Row, d: Decision, now: int, out: RecomputeOutcome)
      requires out.Valid() && certId in rows && rows[certId] == row
      requires row.kind != d.kind || row.service != d.service
      modifies this`rows, this`explanations, this`nextId, out
      ensures out.Valid() && out.firstRun == old(out.firstRun)
      ensures View() == Settle(platform, old(View()), certId, sig, d, now)
      ensures out.View() == Counted(old(out.View()), certId, Some(row), d)
    {
      var priorOwned, nowOwned := row.service.Some?, d.service.Some?;
      var firstAssigned := row.firstAssigned;
      if !priorOwned && nowOwned {
        firstAssigned := now;
      }
      WriteDecision(certId, sig, d, firstAssigned, now, now);
      out.CountTransition(certId, row, d);
    }

    /**
      Decides one certificate, diffs it against its prior row, writes explanation and ownership
      rows, and accumulates counters and audit intent.
    */
    method ProcessCert(certId: Id, sig: Signals, prior: Option<Row>, active: Option<(Id, Override)>,
                       compiled: seq<CompiledRule>, now: int, out: RecomputeOutcome)
      requires out.Valid() && prior == PriorRow(View(), certId)
      requires active.Some? ==> Clearable(View(), active.value.0)
      modifies this`rows, this`overrides, this`explanations, this`nextId, out
      ensures out.Valid() && out.firstRun == old(out.firstRun)
      ensures var d := Decide(platform.lib, sig, UsablePin(active, now), compiled, now);
        && View() == Settle(platform, Cleaned(old(View()), active, now), certId, sig, d, now)
        && out.View() == Counted(Seen(old(out.View()), Expiry(certId, active, now)), certId, prior, d)
    {
      out.evaluated := out.evaluated + 1;
      var override := ExpireIfDue(certId, active, now, out);
      ghost var st, t := View(), out.View();
      assert t == Seen(old(out.View()), Expiry(certId, active, now));
      assert PriorRow(st, certId) == prior;
      var pin := if override.None? then None else Some(PinOf(override.value.0, override.value.1));
      var d := DecideOwnership(platform.lib, sig, pin, compiled, now);
      if prior.None? {
        RecordFirst(certId, sig, d, now, out);
      } else if prior.value.kind == d.kind && prior.value.service == d.service {
        RecordSameOwner(certId, sig, prior.value, d, now, out);
      } else {
        RecordTransition(certId, sig, prior.value, d, now, out);
      }
    }

    ghost predicate At(good: Stage, n: nat, out: RecomputeOutcome)
      reads this, out
    {
      out.Valid() && good(View(), out.View(), n)
    }

    /** The next certificate of the pass, with the prior row and override it had before the pass. */
    method ProcessNext(ghost good: Stage, ghost pre: State, ghost q: seq<Id>, ghost n: nat, c: Id, prior: Option<Row>,
                       entry: Option<(Id, Override)>, compiled: seq<CompiledRule>, now: int, out: RecomputeOutcome)
      returns (ghost n': nat)
      requires IsStage(good, platform, pre, compiled, q, now) && At(good, n, out)
      requires n < |q| && PassInput(pre, q) && c == q[n]
      requires prior == PriorRow(pre, c) && entry == EntryOf(pre, c)
      modifies this`rows, this`overrides, this`explanations, this`nextId, out
      ensures out.firstRun == old(out.firstRun) && n' == n + 1 && At(good, n', out)
    {
      StageMeans(good, platform, pre, compiled, q, now, View(), out.View(), n);
      assert c !in q[..n] && c in q;
      PassFrame(platform, pre, compiled, q, n, now, c);
      PassKeepsInputs(platform, pre, compiled, q, n, now);
      n' := n + 1;
      NextByEntry(platform, pre, compiled, q, n, n', now, View(), out.View(), entry,
                  Decide(platform.lib, certs[c], UsablePin(entry, now), compiled, now));
      ProcessCert(c, certs[c], prior, entry, compiled, now, out);
      StageMeans(good, platform, pre, compiled, q, now, View(), out.View(), n');
    }

    /** The next certificate of a page, with what was looked up for it. */
    method ProcessRow(ghost good: Stage, ghost pre: State, ghost q: seq<Id>, ghost n: nat, ghost page: seq<Id>, c: Id,
                      priorById: map<Id, Row>, active: map<Id, (Id, Override)>, compiled: seq<CompiledRule>,
                      now: int, out: RecomputeOutcome)
      returns (ghost n': nat)
      requires IsStage(good, platform, pre, compiled, q, now) && At(good, n, out)
      requires n < |q| && PassInput(pre, q) && c == q[n] && c in page
      requires LoadedFrom(pre, active) && priorById == map x | x in page && x in pre.rows :: pre.rows[x]
      modifies this`rows, this`overrides, this`explanations, this`nextId, out
      ensures out.firstRun == old(out.firstRun) && n' == n + 1 && At(good, n', out)
    {
      var prior := if c in priorById then Some(priorById[c]) else None;
      var entry := if c in active then Some(active[c]) else None;
      assert EntryLoaded(pre, active, c);
      n' := ProcessNext(good, pre, q, n, c, prior, entry, compiled, now, out);
    }

    /**
      One page of the pass: the prior rows of the page are read in one lookup before any of its
      certificates is written.
    */
    method ProcessPage(ghost good: Stage, ghost pre: State, ghost q: seq<Id>, ghost n: nat, page: seq<Id>,
                       active: map<Id, (Id, Override)>, compiled: seq<CompiledRule>, now: int, out: RecomputeOutcome)
      returns (ghost n': nat)
      requires IsStage(good, platform, pre, compiled, q, now) && At(good, n, out)
      requires PassInput(pre, q) && LoadedFrom(pre, active)
      requires n + |page| <= |q| && page == q[n..n + |page|]
      modifies this`rows, this`overrides, this`explanations, this`nextId, out
      ensures out.firstRun == (old(out.firstRun) && AllNew(pre, page))
      ensures n' == n + |page| && At(good, n', out)
    {
      var priorById := PriorRows(good, pre, q, n, page, compiled, now, out);
      out.NoteFirstRun(|priorById| == 0);
      FirstRunOfPage(pre, page, priorById);
      n' := n;
      for i := 0 to |page|
        invariant out.firstRun == (old(out.firstRun) && AllNew(pre, page))
        invariant n' == n + i && At(good, n', out)
      {
        n' := ProcessRow(good, pre, q, n', page, page[i], priorById, active, compiled, now, out);
      }
    }

    /** The page's prior rows in one lookup; none of them has been written by this pass yet. */
    method PriorRows(ghost good: Stage, ghost pre: State, ghost q: seq<Id>, ghost n: nat, page: seq<Id>,
                     ghost compiled: seq<CompiledRule>, ghost now: int, ghost out: RecomputeOutcome)
      returns (priorById: map<Id, Row>)
      requires IsStage(good, platform, pre, compiled, q, now) && At(good, n, out)
      requires PassInput(pre, q) && n + |page| <= |q| && page == q[n..n + |page|]
      ensures priorById == map c | c in page && c in pre.rows :: pre.rows[c]
    {
      StageMeans(good, platform, pre, compiled, q, now, View(), out.View(), n);
      priorById := map c | c in page && c in rows :: rows[c];
      PageUnread(platform, pre, compiled, q, n, page, now, View());
      RowsOfPage(View(), pre, page, priorById);
    }

    /** The next slice of the stream, keeping track of whether any prior row was met. */
    method StreamRows(ghost good: Stage, ghost pre: State, ghost q: seq<Id>, ghost n: nat, page: seq<Id>,
                      active: map<Id, (Id, Override)>, compiled: seq<CompiledRule>, now: int, out: RecomputeOutcome)
      returns (ghost n': nat)
      requires IsStage(good, platform, pre, compiled, q, now) && At(good, n, out)
      requires PassInput(pre, q) && LoadedFrom(pre, active)
      requires n + |page| <= |q| && page == q[n..n + |page|]
      requires out.firstRun == AllNewUpTo(pre, q, n)
      modifies this`rows, this`overrides, this`explanations, this`nextId, out
      ensures n' == n + |page| && At(good, n', out)
      ensures out.firstRun == AllNewUpTo(pre, q, n')
    {
      n' := ProcessPage(good, pre, q, n, page, active, compiled, now, out);
      AllNewNext(pre, q, n, n', page);
    }

    /** Reads one page of the certificate stream and processes it; `more` is false at the end of the stream. */
    method StreamPage(ghost good: Stage, ghost pre: State, ghost q: seq<Id>, ghost n: nat, cursor: Id, limit: nat,
                      active: map<Id, (Id, Override)>, compiled: seq<CompiledRule>, now: int, out: RecomputeOutcome)
      returns (ghost n': nat, cursor': Id, more: bool)
      requires IsStage(good, platform, pre, compiled, q, now)
      requires PassInput(pre, q) && q == SortedIds(certs.Keys) && "" !in certs && LoadedFrom(pre, active)
      requires n <= |q| && cursor == CursorAt(q, n) && limit >= 1 && At(good, n, out)
      requires out.firstRun == AllNewUpTo(pre, q, n)
      modifies this`rows, this`overrides, this`explanations, this`nextId, out
      ensures n <= n' <= |q| && cursor' == CursorAt(q, n') && At(good, n', out)
      ensures out.firstRun == AllNewUpTo(pre, q, n')
      ensures if more then n < n' else n' == |q|
    {
      var page := NextPage(certs.Keys, q, n, cursor, limit);
      if |page| == 0 {
        return n, cursor, false;
      }
      cursor', more := page[|page| - 1], |page| == limit;
      n' := StreamRows(good, pre, q, n, page, active, compiled, now, out);
    }

    /** Walks the certificate stream once, page by page. */
    method StreamAndDecide(ghost good: Stage, ghost pre: State, ghost q: seq<Id>, active: map<Id, (Id, Override)>,
                           compiled: seq<CompiledRule>, now: int, out: RecomputeOutcome)
      returns (ghost n: nat)
      requires IsStage(good, platform, pre, compiled, q, now)
      requires PassInput(pre, q) && q == SortedIds(certs.Keys) && "" !in certs && pre == View()
      requires LoadedFrom(pre, active) && out.firstRun && At(good, 0, out)
      modifies this`rows, this`overrides, this`explanations, this`nextId, out
      ensures n == |q| && out.firstRun == AllNewUpTo(pre, q, n) && At(good, n, out)
    {
      n := 0;
      var cursor := "";
      var limit := PageSize(pageOverride);
      var more := true;
      while more
        invariant n <= |q| && cursor == CursorAt(q, n)
        invariant At(good, n, out)
        invariant out.firstRun == AllNewUpTo(pre, q, n)
        invariant more || n == |q|
        decreases |q| - n, more
      {
        n, cursor, more := StreamPage(good, pre, q, n, cursor, limit, active, compiled, now, out);
      }
    }

    /** A full recompute. */
    method RunRecompute(now: int) returns (r: Result<Summary, CompileError>)
      requires Valid()
      modifies this`rows, this`overrides, this`explanations, this`nextId, this`audit
      ensures match Recompute(platform, old(View()), bulkAuditThreshold, now)
        case Err(e) => r == Err(e) && View() == old(View())
        case Ok(st) => r.Ok? && View() == st
      ensures r.Ok? ==> audit != [] && audit[|audit| - 1].Recomputed? && audit[|audit| - 1].summary == r.value
      ensures Valid()
    {
      ghost var pre := View();
      r := RunRecomputeTx(now);
      if r.Ok? { RecomputeKeyed(platform, pre, bulkAuditThreshold, now); }
    }

    /**
      The locked transaction: rule drift refuses the whole pass, otherwise every certificate is
      decided once against its row from before the pass and the audit is appended.
    */
    method RunRecomputeTx(now: int) returns (r: Result<Summary, CompileError>)
      requires Valid()
      modifies this`rows, this`overrides, this`explanations, this`nextId, this`audit
      ensures match Recompute(platform, old(View()), bulkAuditThreshold, now)
        case Err(e) => r == Err(e) && View() == old(View())
        case Ok(st) => r.Ok? && View() == st
      ensures r.Ok? ==> audit != [] && audit[|audit| - 1].Recomputed? && audit[|audit| - 1].summary == r.value
    {
      ghost var pre := View();
      var ruleSet := CompileRules(platform.lib, rules);
      if ruleSet.Err? {
        return Err(ruleSet.error);
      }
      ghost var q := SortedIds(certs.Keys);
      CertOrder(pre);
      var active := LoadSnapshot(pre);
      var out := new RecomputeOutcome(bulkAuditThreshold);
      ghost var good := MakeStage(platform, pre, ruleSet.value.rules, q, now);
      ghost var n := StreamAndDecide(good, pre, q, active, ruleSet.value.rules, now, out);
      StageMeans(good, platform, pre, ruleSet.value.rules, q, now, View(), out.View(), n);
      PassKeepsInputs(platform, pre, ruleSet.value.rules, q, n, now);
      RecomputeValue(platform, pre, bulkAuditThreshold, now, q, n, ruleSet.value, View(), out.View());
      EmitPassAudit(ruleSet.value.failures, out);
      r := Ok(out.Counters());
    }

    /** The overrides in force when the pass starts. */
    method LoadSnapshot(ghost pre: State) returns (active: map<Id, (Id, Override)>)
      requires Valid() && pre == View()
      ensures LoadedFrom(pre, active)
    {
      assert "" !in ActiveCerts(overrides);
      active := LoadActiveOverrides();
      LoadedIsLoadedFrom(active);
    }

    lemma {:induction false} LoadedIsLoadedFrom(active: map<Id, (Id, Override)>)
      requires Loaded(active, SortedIds(ActiveCerts(overrides)))
      ensures LoadedFrom(View(), active)
    {
      SortedIdsOrder(ActiveCerts(overrides));
      forall c ensures c in active <==> ActiveOverride(overrides, c).Some? {
        ActiveCertsMembers(overrides, c);
      }
    }

    /** Compile failures, expired overrides, transition groups, then the summary row. */
    method EmitPassAudit(failures: seq<CompileFailure>, out: RecomputeOutcome)
      requires out.Valid() && out.threshold == bulkAuditThreshold
      modifies this`audit
      ensures audit == old(audit) + PassEvents(out.firstRun, out.View(), failures, bulkAuditThreshold)
    {
      var compileEvents := CompileFailureEvents(failures);
      var expiredEvents := ExpiredEvents(out.expiredOverrides);
      var transitions := EmitAuditGroups(out.auditGroups);
      assert out.auditGroups == GroupsOf(out.log, bulkAuditThreshold);
      var events := compileEvents + expiredEvents + TransitionEvents(transitions)
                    + [Recomputed(out.firstRun, out.Counters(), failures)];
      audit := audit + events;
    }

    // --- single-certificate writers ------------------------------------------------------

    /** Recomputes ownership of one certificate inside the caller's transaction. */
    method RederiveCertificate(certId: Id, pin: Option<Pin>, now: int) returns (refusal: Option<Refusal>)
      modifies this`rows, this`explanations, this`nextId
      ensures match Rederive(platform, old(View()), certId, pin, now)
        case Err(e) => refusal == Some(e) && View() == old(View())
        case Ok(st) => refusal == None && View() == st
      ensures old(Valid()) ==> Valid()
    {
      ghost var pre := View();
      if certId !in certs {
        return Some(CertificateNotFound);
      }
      var sig := certs[certId];
      var ruleSet := CompileRules(platform.lib, rules);
      if ruleSet.Err? {
        return Some(CompileRefused(ruleSet.error));
      }
      var d := DecideOwnership(platform.lib, sig, pin, ruleSet.value.rules, now);
      WriteIfChanged(certId, sig, d, now);
      refusal := None;
      if WellKeyed(pre) { RederiveKeyed(platform, pre, certId, pin, now); }
    }

    /** The row and explanation writes of a re-derivation. */
    method WriteIfChanged(certId: Id, sig: Signals, d: Decision, now: int)
      modifies this`rows, this`explanations, this`nextId
      ensures View() == Settle(platform, old(View()), certId, sig, d, now)
    {
      if certId !in rows {
        WriteDecision(certId, sig, d, now, now, now);
        return;
      }
      var row := rows[certId];
      var sameService := row.service == d.service;
      var ownerChanged := row.kind != d.kind || !sameService;
      if !ownerChanged {
        var basisChanged := row.winningRule != d.winningRule || row.overrideId != d.overrideId
                            || row.confidence != d.confidence;
        if !basisChanged {
          UpsertCertificateOwnership(certId, row.(lastEvaluated := now));
          return;
        }
        WriteDecision(certId, sig, d, row.firstAssigned, now, row.lastChanged);
        return;
      }
      var firstAssigned := row.firstAssigned;
      if row.service.None? && d.service.Some? {
        firstAssigned := now;
      }
      WriteDecision(certId, sig, d, firstAssigned, now, now);
    }

    method InsertOverride(o: Override) returns (id: Id)
      modifies this`overrides, this`nextId
      ensures id == platform.mint(old(nextId)) && View() == Inserted(platform, old(View()), o)
    {
      id := NewId();
      overrides := overrides[id := o];
    }

    /** The locked transaction of CreateOverride; the override row was built before the lock was taken. */
    method CreateOverrideTx(o: Override, now: int) returns (refusal: Option<Refusal>)
      modifies this`rows, this`overrides, this`explanations, this`nextId, this`audit
      ensures match CreateTx(platform, old(View()), o, now)
        case Err(e) => refusal == Some(e) && View() == old(View())
        case Ok(st) => refusal == None && View() == st
      ensures old(Valid()) ==> Valid()
    {
      ghost var pre := View();
      if ActiveIds(overrides, o.certId) != {} {
        return Some(OverrideConflict);
      }
      var before := (overrides, nextId);
      var id := InsertOverride(o);
      refusal := RederiveCertificate(o.certId, Some(PinOf(id, o)), now);
      if refusal.Some? {
        overrides, nextId := before.0, before.1;
        return;
      }
      RecordAudit(OverrideSet(o.certId, id, o.service, o.setBy));
      if WellKeyed(pre) { CreateKeyed(platform, pre, o, now); }
    }

    /**
      Pins a certificate to a service. The input checks, the existence checks and the clock read
      happen before the transaction; `activeService` is the resolver's answer for the service.
    */
    method CreateOverride(certId: Id, service: Id, reason: string, actor: string, expiresAt: Option<int>,
                          activeService: bool, now: int) returns (refusal: Option<Refusal>)
      modifies this`rows, this`overrides, this`explanations, this`nextId, this`audit
      ensures var o := Override(certId, service, reason, actor, now, expiresAt, None);
        match CreateCheck(old(View()), o, activeService)
        case Some(e) => refusal == Some(e) && View() == old(View())
        case None =>
          match CreateTx(platform, old(View()), o, now)
          case Err(e) => refusal == Some(e) && View() == old(View())
          case Ok(st) => refusal == None && View() == st
      ensures var bad := certId == "" || service == "" || actor == "" || reason == "" || |reason| > 1000;
        var past := expiresAt.Some? && expiresAt.value <= now;
        && (refusal == Some(InvalidInput) <==> bad)
        && (refusal == Some(ExpiryInPast) <==> !bad && past)
        && (refusal == Some(CertificateNotFound) <==> !bad && !past && certId !in certs)
        && (refusal == Some(ServiceNotFound) <==> !bad && !past && certId in certs && !activeService)
      ensures old(Valid()) ==> Valid()
    {
      if certId == "" || service == "" || reason == "" || |reason| > MAX_OVERRIDE_REASON_LEN || actor == "" {
        return Some(InvalidInput);
      }
      if expiresAt.Some? && !(expiresAt.value > now) {
        return Some(ExpiryInPast);
      }
      if certId !in certs {
        return Some(CertificateNotFound);
      }
      if !activeService {
        return Some(ServiceNotFound);
      }
      refusal := CreateOverrideTx(Override(certId, service, reason, actor, now, expiresAt, None), now);
    }

    /** The locked transaction of ClearOverride for an override id resolved before the lock. */
    method ClearOverrideTx(certId: Id, id: Id, actor: string, reason: string, now: int)
      returns (refusal: Option<Refusal>)
      modifies this`rows, this`overrides, this`explanations, this`nextId, this`audit
      ensures match ClearTx(platform, old(View()), certId, id, actor, reason, now)
        case Err(e) => refusal == Some(e) && View() == old(View())
        case Ok(st) => refusal == None && View() == st
      ensures old(Valid()) ==> Valid()
    {
      ghost var pre := View();
      var before := overrides;
      var found := ClearOwnershipOverride(id, actor, reason, now);
      if !found {
        return Some(CertificateNotFound);
      }
      refusal := RederiveCertificate(certId, None, now);
      if refusal.Some? {
        overrides := before;
        return;
      }
      RecordAudit(OverrideCleared(certId, id, actor));
      if WellKeyed(pre) { ClearKeyed(platform, pre, certId, id, actor, reason, now); }
    }

    /** Resolves the active override, then clears it; a missing one is reported as not found. */
    method ClearOverride(certId: Id, actor: string, reason: string, now: int) returns (refusal: Option<Refusal>)
      modifies this`rows, this`overrides, this`explanations, this`nextId, this`audit
      ensures match ClearCheck(old(View()), certId, actor, reason)
        case Err(e) => refusal == Some(e) && View() == old(View())
        case Ok(id) =>
          match ClearTx(platform, old(View()), certId, id, actor, reason, now)
          case Err(e) => refusal == Some(e) && View() == old(View())
          case Ok(st) => refusal == None && View() == st
      ensures refusal == Some(InvalidInput) <==> certId == "" || actor == "" || reason == "" || |reason| > 1000
      ensures old(Valid()) ==> Valid()
    {
      if certId == "" || actor == "" || reason == "" || |reason| > MAX_OVERRIDE_REASON_LEN {
        return Some(InvalidInput);
      }
      var active := ActiveOverride(overrides, certId);
      if active.None? {
        return Some(CertificateNotFound);
      }
      refusal := ClearOverrideTx(certId, active.value, actor, reason, now);
    }

    /** Clear, re-derive, audit, for one expired override; an override already cleared is skipped. */
    method SweepOneExpiringOverride(certId: Id, id: Id, o: Override, now: int)
      returns (cleared: bool, refusal: Option<Refusal>)
      modifies this`rows, this`overrides, this`explanations, this`nextId, this`audit
      ensures match SweepOne(platform, old(View()), certId, id, o, now)
        case Err(e) => refusal == Some(e)
        case Ok(st) => refusal == None && View() == st && cleared == Clearable(old(View()), id)
    {
      cleared := ClearOwnershipOverride(id, "system", "auto-expired", now);
      if !cleared {
        return false, None;
      }
      refusal := RederiveCertificate(certId, None, now);
      if refusal.Some? {
        return;
      }
      RecordAudit(OverrideExpired(certId, id, o.service));
    }

    /** The rows of a sweep page in order; stops at the first refusal. */
    method SweepRows(ghost pre: State, page: seq<Id>, now: int) returns (clearedCount: nat, refusal: Option<Refusal>)
      requires pre == View() && OneActive(overrides)
      requires (forall c | c in page :: ActiveOverride(overrides, c).Some?)
      requires forall i, j | 0 <= i < j < |page| :: page[i] != page[j]
      modifies this`rows, this`overrides, this`explanations, this`nextId, this`audit
      ensures match SweepAll(platform, pre, pre, page, now)
        case Err(e) => refusal == Some(e)
        case Ok(st) => refusal == None && View() == st && clearedCount == |page|
    {
      clearedCount, refusal := 0, None;
      var snapshot := overrides;
      for i := 0 to |page|
        invariant refusal == None && clearedCount == i
        invariant SweepAll(platform, pre, pre, page[..i], now) == Ok(View())
      {
        var c := page[i];
        assert page[..i + 1][..i] == page[..i] && page[..i + 1][i] == c;
        var id := ActiveOverride(snapshot, c).value;
        SweepFrame(platform, pre, page[..i], now, id);
        var cleared;
        cleared, refusal := SweepOneExpiringOverride(c, id, snapshot[id], now);
        if refusal.Some? {
          SweepErrorSticks(platform, pre, page, i + 1, now);
          return;
        }
        if cleared {
          clearedCount := clearedCount + 1;
        }
      }
      assert page[..|page|] == page;
    }

    /** One bounded page of the expiring-override sweep; any refusal rolls the whole page back. */
    method SweepExpiringOverridesPage(cursor: Id, pageSize: int, now: int)
      returns (nextCursor: Id, scanned: nat, clearedCount: nat, done: bool, refusal: Option<Refusal>)
      requires Valid()
      modifies this`rows, this`overrides, this`explanations, this`nextId, this`audit
      ensures match SweepPageTx(platform, old(View()), cursor, SweepLimit(pageSize), now)
        case Err(e) => refusal == Some(e) && View() == old(View())
        case Ok(st) => refusal == None && View() == st && scanned == clearedCount
      ensures var page := Page(ExpiringCerts(old(View()), now), cursor, SweepLimit(pageSize));
        && scanned == |page| && done == (|page| < SweepLimit(pageSize))
        && nextCursor == NextCursor(page, cursor)
      ensures Valid()
    {
      ghost var pre := View();
      var limit := SweepLimit(pageSize);
      var before := (rows, overrides, explanations, nextId, audit);
      var page := Page(ExpiringCerts(View(), now), cursor, limit);
      ExpiringPage(View(), now, cursor, limit);
      scanned, done := |page|, |page| < limit;
      nextCursor := NextCursor(page, cursor);
      clearedCount, refusal := SweepRows(View(), page, now);
      if refusal.Some? {
        rows, overrides, explanations, nextId, audit := before.0, before.1, before.2, before.3, before.4;
      } else {
        SweepKeyed(platform, pre, page, now);
      }
    }

    // --- retention -------------------------------------------------------------------------

    /** Deletes one bounded batch of a certificate's prunable explanations. */
    method PruneCertificateExplanations(certId: Id, now: int) returns (deleted: nat)
      requires retention.keepN >= 1
      modifies this`explanations
      ensures (View(), deleted) ==
        PruneCert(old(View()), certId, retention.keepN, now - retention.maxAge, PrunePerCertLimit())
    {
      var ids := PruneBatch(View(), certId, retention.keepN, now - retention.maxAge, PrunePerCertLimit());
      var gone := Deletable(View(), certId, ids);
      explanations := explanations - gone;
      deleted := |gone|;
    }

    ghost predicate PrunedTo(step: PruneStep, pre: State, page: seq<Id>, n: nat, deleted: nat)
      requires n <= |page|
      reads this
    {
      PruneFirst(step, pre, page, n) == (View(), deleted)
    }

    method PruneNext(ghost step: PruneStep, ghost pre: State, page: seq<Id>, n: nat, deleted: nat, now: int)
      returns (n': nat, deleted': nat)
      requires retention.keepN >= 1 && n < |page| && PrunedTo(step, pre, page, n, deleted)
      requires step == PruneCertAt(retention.keepN, now - retention.maxAge, PrunePerCertLimit())
      modifies this`explanations
      ensures n' == n + 1 && PrunedTo(step, pre, page, n', deleted')
    {
      ghost var mid := View();
      var more := PruneCertificateExplanations(page[n], now);
      n', deleted' := n + 1, deleted + more;
      PruneFirstNext(step, pre, page, n, mid, deleted, n', View(), more, deleted');
    }

    method PruneRows(page: seq<Id>, now: int) returns (deleted: nat)
      requires retention.keepN >= 1
      modifies this`explanations
      ensures PruneAll(old(View()), page, retention.keepN, now - retention.maxAge, PrunePerCertLimit())
           == (View(), deleted)
    {
      ghost var pre := View();
      ghost var step := PruneCertAt(retention.keepN, now - retention.maxAge, PrunePerCertLimit());
      var n := 0;
      deleted := 0;
      while n < |page|
        invariant n <= |page| && PrunedTo(step, pre, page, n, deleted)
      {
        n, deleted := PruneNext(step, pre, page, n, deleted, now);
      }
    }

    /** One bounded page of the prune; a page that deleted something writes one rollup audit row. */
    method PruneExplanationsPage(cursor: Id, pageSize: int, now: int)
      returns (nextCursor: Id, scanned: nat, deleted: nat, done: bool, refusal: Option<Refusal>)
      modifies this`explanations, this`audit
      ensures retention.keepN < 1 || retention.maxAge <= 0 ==> refusal == Some(InvalidInput) && View() == old(View())
      ensures retention.keepN >= 1 && retention.maxAge > 0 ==>
        && refusal == None
        && View() == PrunePageTx(old(View()), cursor, SweepLimit(pageSize), retention.keepN,
                                 now - retention.maxAge, PrunePerCertLimit())
        && var page := Page(ExplainedCerts(old(explanations)), cursor, SweepLimit(pageSize));
           && scanned == |page| && done == (|page| < SweepLimit(pageSize))
           && nextCursor == NextCursor(page, cursor)
           && deleted == PruneAll(old(View()), page, retention.keepN, now - retention.maxAge, PrunePerCertLimit()).1
      ensures old(Valid()) ==> Valid()
    {
      ghost var pre := View();
      nextCursor, scanned, deleted, done, refusal := cursor, 0, 0, false, Some(InvalidInput);
      if retention.keepN < 1 || retention.maxAge <= 0 {
        return;
      }
      refusal := None;
      var limit := SweepLimit(pageSize);
      var page := Page(ExplainedCerts(explanations), cursor, limit);
      scanned, done, nextCursor := |page|, |page| < limit, NextCursor(page, cursor);
      deleted := PruneRows(page, now);
      if deleted > 0 {
        RecordAudit(ExplanationsPruned(deleted, scanned, cursor, nextCursor));
      }
      if WellKeyed(pre) {
        PruneKeyed(pre, cursor, limit, retention.keepN, now - retention.maxAge, PrunePerCertLimit());
      }
    }
  }

  /** Page sizes default to 500 and are clamped to 1000. */
  function SweepLimit(pageSize: int): (limit: nat)
    ensures 1 <= limit <= 1000 && (1 <= pageSize <= 1000 ==> limit == pageSize)
    ensures (pageSize <= 0 ==> limit == 500) && (pageSize > 1000 ==> limit == 1000)
  {
    if pageSize <= 0 then 500 else Min(pageSize, 1000)
  }
}
