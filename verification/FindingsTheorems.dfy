/**
  What the findings recompute guarantees: the streaming and load-all diffs agree, the table reflects
  the rules, a repeat changes nothing, and the finding lifecycle over every run.
*/
module FindingsTheorems {
  import opened Wrappers
  import opened Ids
  import opened Findings

  // --- the two diffs agree ------------------------------------------------------------------------

  /** Equal on the rows of `pre`; the new rows of each are, ids aside, the new rows of the other. */
  ghost predicate SameUpToNewIds(pre: Table, a: Table, b: Table) {
    && (forall id | id in pre :: id in a && id in b && a[id] == b[id])
    && NewRowsAppear(pre, a, b) && NewRowsAppear(pre, b, a)
  }

  ghost predicate NewRowsAppear(pre: Table, a: Table, b: Table) {
    forall x | x in a && x !in pre :: exists y :: y in b && y !in pre && b[y] == a[x]
  }

  /**
    Any two successful recomputes of the same table agree: same counters, same rows up to the ids
    of new rows. Both diff algorithms only succeed as recomputes, so they are interchangeable.
  */
  lemma {:induction false} DiffsAgree(
      pre: Table, a: Table, b: Table, certs: map<Id, CertificateSummary>, rules: seq<Rule>, now: int,
      sa: DiffSummary, sb: DiffSummary)
    requires Recompute(pre, a, certs, rules, now, sa) && Recompute(pre, b, certs, rules, now, sb)
    ensures sa == sb && SameUpToNewIds(pre, a, b)
  {
    var mt, pairs := MatchingAt(certs, rules, now), Pairs(pre, certs, rules, now);
    NewRowsCarryOver(pre, a, b, mt, now, pairs);
    NewRowsCarryOver(pre, b, a, mt, now, pairs);
    StoredRowsAgree(pre, a, b, mt, now, pairs);
  }

  lemma {:induction false} StoredRowsAgree(pre: Table, a: Table, b: Table, mt: Matching, now: int, pairs: set<Key>)
    requires StoredMoved(pre, a, mt, now, pairs) && StoredMoved(pre, b, mt, now, pairs)
    ensures forall id | id in pre :: id in a && id in b && a[id] == b[id]
  {
  }

  lemma {:induction false} NewRowsCarryOver(pre: Table, a: Table, b: Table, mt: Matching, now: int, pairs: set<Key>)
    requires Progress(pre, a, mt, now, pairs) && Progress(pre, b, mt, now, pairs)
    ensures NewRowsAppear(pre, a, b)
  {
    forall x | x in a && x !in pre ensures exists y :: y in b && y !in pre && b[y] == a[x] {
      var k := KeyOf(a[x]);
      assert k in KeysOf(b);
      var y :| y in b && KeyOf(b[y]) == k;
      KeyOfStored(pre, b, mt, now, pairs, y);
      assert b[y] == a[x];
    }
  }

  lemma {:induction false} KeyOfStored(pre: Table, post: Table, mt: Matching, now: int, pairs: set<Key>, id: Id)
    requires StoredMoved(pre, post, mt, now, pairs) && id in post
    ensures id in pre ==> KeyOf(post[id]) in KeysOf(pre)
  {
    if id in pre {
      RewriteKeepsKey(pre[id], mt(KeyOf(pre[id])), now);
      assert KeyOf(pre[id]) in KeysOf(pre);
    }
  }

  // --- the table reflects the rules -----------------------------------------------------------------

  ghost predicate RuleMatches(certs: map<Id, CertificateSummary>, rules: seq<Rule>, now: int, k: Key) {
    k.certId in certs && exists r :: r in rules && r.id == k.ruleId && r.evaluate(k.certId, certs[k.certId], now).Some?
  }

  ghost predicate Live(t: Table, k: Key) {
    exists id :: id in t && KeyOf(t[id]) == k && t[id].status != Resolved
  }

  /** Right after a recompute a (certificate, rule) has a non-resolved finding iff the rule matches. */
  lemma {:induction false} LiveIffRuleMatches(
      pre: Table, post: Table, certs: map<Id, CertificateSummary>, rules: seq<Rule>, now: int,
      summary: DiffSummary, k: Key)
    requires Recompute(pre, post, certs, rules, now, summary)
    ensures Live(post, k) <==> RuleMatches(certs, rules, now, k)
  {
    var mt, pairs := MatchingAt(certs, rules, now), Pairs(pre, certs, rules, now);
    MatchingMeans(certs, rules, now, k);
    MatchKeysExact(certs, rules, now, k);
    if mt(k).Some? {
      assert k in KeysOf(post);
      var id :| id in post && KeyOf(post[id]) == k;
      RowStatus(pre, post, mt, now, pairs, id);
    }
    if Live(post, k) {
      var id :| id in post && KeyOf(post[id]) == k && post[id].status != Resolved;
      RowStatus(pre, post, mt, now, pairs, id);
    }
  }

  lemma {:induction false} RowStatus(pre: Table, post: Table, mt: Matching, now: int, pairs: set<Key>, id: Id)
    requires Progress(pre, post, mt, now, pairs) && KeysOf(pre) <= pairs && id in post
    ensures post[id].status != Resolved <==> mt(KeyOf(post[id])).Some?
  {
    if id in pre {
      assert KeyOf(pre[id]) in KeysOf(pre);
      RewriteKeepsKey(pre[id], mt(KeyOf(pre[id])), now);
    }
  }

  /** Written by this recompute from this match. */
  ghost predicate CarriesMatch(f: Finding, m: MatchEntry, now: int) {
    && f.ruleVersion == m.rule.version && f.severity == m.rule.severity && f.title == m.rule.title
    && f.evidence == m.evidence && f.lastSeen == now && f.updatedAt == now
  }

  /** A row whose rule no longer matches: last seen when it last matched, resolved now or before. */
  ghost predicate GoneSince(f: Finding, f': Finding, now: int) {
    && f'.status == Resolved && f'.lastSeen == f.lastSeen && f'.evidence == f.evidence
    && (f.status != Resolved ==> f'.resolvedAt == Some(now) && f'.updatedAt == now)
    && (f.status == Resolved ==> f' == f)
  }

  /**
    After a recompute every row of a matching pair carries that match and this time, and every other
    row is resolved, at this time unless it already was. A new row is open and first seen now.
  */
  lemma {:induction false} RowsAreCurrent(
      pre: Table, post: Table, certs: map<Id, CertificateSummary>, rules: seq<Rule>, now: int,
      summary: DiffSummary, id: Id)
    requires Recompute(pre, post, certs, rules, now, summary) && id in post
    ensures var m := MatchingAt(certs, rules, now)(KeyOf(post[id]));
      if m.Some? then CarriesMatch(post[id], m.value, now) else id in pre && GoneSince(pre[id], post[id], now)
    ensures id !in pre ==>
      post[id].status == Open && post[id].firstSeen == now && post[id].resolvedAt == None && NoIntent(post[id])
  {
    CurrentRow(pre, post, MatchingAt(certs, rules, now), now, Pairs(pre, certs, rules, now), id);
  }

  lemma {:induction false} CurrentRow(pre: Table, post: Table, mt: Matching, now: int, pairs: set<Key>, id: Id)
    requires StoredMoved(pre, post, mt, now, pairs) && NewRowsMatch(pre, post, mt, now, pairs)
    requires KeysOf(pre) <= pairs && id in post
    ensures var m := mt(KeyOf(post[id]));
      if m.Some? then CarriesMatch(post[id], m.value, now) else id in pre && GoneSince(pre[id], post[id], now)
    ensures id !in pre ==>
      post[id].status == Open && post[id].firstSeen == now && post[id].resolvedAt == None && NoIntent(post[id])
  {
    if id in pre {
      assert KeyOf(pre[id]) in KeysOf(pre);
      RewriteKeepsKey(pre[id], mt(KeyOf(pre[id])), now);
    }
  }

  /** The operator's intent on a finding, word for word. */
  ghost predicate SameOverride(f: Finding, f': Finding) {
    && f'.status == f.status && f'.statusReason == f.statusReason && f'.statusActor == f.statusActor
    && f'.statusChangedAt == f.statusChangedAt && f'.suppressExpiresAt == f.suppressExpiresAt
  }

  /**
    A recompute keeps an operator's acknowledgement or suppression, with its reason, actor, time and
    expiry, iff the rule still matches and the suppression has not run out.
  */
  lemma {:induction false} OverrideSurvivesIff(
      pre: Table, post: Table, certs: map<Id, CertificateSummary>, rules: seq<Rule>, now: int,
      summary: DiffSummary, id: Id)
    requires Recompute(pre, post, certs, rules, now, summary) && id in pre && Overridden(pre[id])
    ensures id in post
    ensures SameOverride(pre[id], post[id]) <==>
      (RuleMatches(certs, rules, now, KeyOf(pre[id])) && !Reopens(pre[id], now))
  {
    var k, mt := KeyOf(pre[id]), MatchingAt(certs, rules, now);
    MatchingMeans(certs, rules, now, k);
    SurvivingRow(pre, post, mt, now, Pairs(pre, certs, rules, now), id);
  }

  lemma {:induction false} MatchingMeans(certs: map<Id, CertificateSummary>, rules: seq<Rule>, now: int, k: Key)
    ensures MatchingAt(certs, rules, now)(k).Some? <==> RuleMatches(certs, rules, now, k)
  {
    if k.certId in certs { LastMatchMeaning(rules, k.certId, certs[k.certId], now, k.ruleId); }
  }

  lemma {:induction false} SurvivingRow(pre: Table, post: Table, mt: Matching, now: int, pairs: set<Key>, id: Id)
    requires StoredMoved(pre, post, mt, now, pairs) && KeysOf(pre) <= pairs && id in pre && Overridden(pre[id])
    ensures id in post
    ensures SameOverride(pre[id], post[id]) <==> (mt(KeyOf(pre[id])).Some? && !Reopens(pre[id], now))
  {
    assert KeyOf(pre[id]) in KeysOf(pre);
  }

  /** What a recompute makes of an intent written at `at`: kept, reopened or resolved. */
  ghost predicate IntentAfter(
      f: Finding, matches: bool, status: Status, reason: string, actor: string, expiresAt: Option<int>, at: int,
      now: int)
  {
    if !matches then
      f.status == Resolved && f.resolvedAt == Some(now) && NoIntent(f)
    else if status == Suppressed && expiresAt.Some? && expiresAt.value <= now then
      f.status == Open && f.resolvedAt == None && NoIntent(f)
    else HasIntent(f, status, reason, actor, expiresAt, at)
  }

  ghost predicate HasIntent(
      f: Finding, status: Status, reason: string, actor: string, expiresAt: Option<int>, at: int)
  {
    && f.status == status && f.statusReason == reason && f.statusActor == actor
    && f.statusChangedAt == Some(at) && f.suppressExpiresAt == expiresAt && f.resolvedAt == None
  }

  ghost predicate NoIntent(f: Finding) {
    f.statusReason == "" && f.statusActor == "" && f.statusChangedAt == None && f.suppressExpiresAt == None
  }

  /**
    After an acknowledgement or suppression the next recompute keeps it, with its reason, actor, time and
    expiry, if the rule still matches and the suppression has no expiry or one still to come; a suppression
    that has run out is open again, and a finding whose rule no longer matches is resolved.
  */
  lemma {:induction false} IntentUntilNextRecompute(
      pre: Table, id: Id, f: Finding, post: Table, certs: map<Id, CertificateSummary>, rules: seq<Rule>,
      status: Status, reason: string, actor: string, expiresAt: Option<int>, at: int, now: int, summary: DiffSummary)
    requires id in pre && (status == Acknowledged || status == Suppressed)
    requires CarriesIntent(pre[id], f, status, reason, actor, expiresAt, at)
    requires Recompute(pre[id := f], post, certs, rules, now, summary)
    ensures id in post && KeyOf(post[id]) == KeyOf(pre[id])
    ensures IntentAfter(post[id], RuleMatches(certs, rules, now, KeyOf(pre[id])), status, reason, actor, expiresAt,
                        at, now)
  {
    var mid, mt, k := pre[id := f], MatchingAt(certs, rules, now), KeyOf(pre[id]);
    MatchingMeans(certs, rules, now, k);
    assert KeyOf(mid[id]) == k && k in KeysOf(mid);
    RewrittenIntent(f, mt(k), status, reason, actor, expiresAt, at, now);
    assert post[id] == Rewritten(f, mt(k), now);
  }

  lemma {:induction false} RewrittenIntent(
      f: Finding, m: Option<MatchEntry>, status: Status, reason: string, actor: string, expiresAt: Option<int>,
      at: int, now: int)
    requires (status == Acknowledged || status == Suppressed) && HasIntent(f, status, reason, actor, expiresAt, at)
    ensures IntentAfter(Rewritten(f, m, now), m.Some?, status, reason, actor, expiresAt, at, now)
    ensures KeyOf(Rewritten(f, m, now)) == KeyOf(f)
  {
  }

  /** The four counters partition the matching and the stored pairs. */
  lemma {:induction false} CountersPartition(
      pre: Table, post: Table, certs: map<Id, CertificateSummary>, rules: seq<Rule>, now: int, summary: DiffSummary)
    requires Recompute(pre, post, certs, rules, now, summary)
    ensures var c := summary.counters;
      c.openings + c.updated + c.resolved + c.same == |MatchKeys(certs, rules, now) + KeysOf(pre)|
  {
    BucketsPartition(Buckets(pre, MatchingAt(certs, rules, now), now), Pairs(pre, certs, rules, now));
  }

  /** A stored finding a match brings back to the operator: resolved, or suppressed until a time now past. */
  ghost predicate Reopens(f: Finding, now: int) {
    f.status == Resolved || (f.status == Suppressed && SuppressionOver(f, now))
  }

  /** What each bucket means for a pair, from its stored row and its match. */
  lemma {:induction false} BucketMeaning(pre: Table, mt: Matching, now: int, k: Key)
    requires AllSupported(pre)
    ensures var b, prior := Buckets(pre, mt, now)(k), PriorFor(pre, k);
      && (b == CountOpened <==> (mt(k).Some? && (prior.None? || Reopens(prior.value, now))))
      && (b == CountUpdated <==> (mt(k).Some? && prior.Some? && !Reopens(prior.value, now)))
      && (b == CountResolved <==> mt(k).None? && prior.Some? && prior.value.status != Resolved)
      && (b == CountUnchanged <==> mt(k).None? && (prior.None? || prior.value.status == Resolved))
  {
  }

  // --- a repeat changes nothing ------------------------------------------------------------------------

  ghost predicate SettledAt(mid: Table, mt: Matching, now: int) {
    forall id | id in mid ::
      Rewritten(mid[id], mt(KeyOf(mid[id])), now) == mid[id]
      && BucketOf(Some(mid[id]), KeyOf(mid[id]), mt(KeyOf(mid[id])), now)
         == if mt(KeyOf(mid[id])).Some? then CountUpdated else CountUnchanged
  }

  lemma {:induction false} RewriteTwice(f: Finding, m: Option<MatchEntry>, now: int)
    requires !f.status.Unsupported?
    ensures var f' := Rewritten(f, m, now);
      Rewritten(f', m, now) == f' && BucketOf(Some(f'), KeyOf(f'), m, now)
         == if m.Some? then CountUpdated else CountUnchanged
  {
  }

  lemma {:induction false} RecomputeSettlesRows(pre: Table, post: Table, mt: Matching, now: int, pairs: set<Key>)
    requires Progress(pre, post, mt, now, pairs) && KeysOf(pre) <= pairs
    ensures SettledAt(post, mt, now)
  {
    forall id | id in post
      ensures Rewritten(post[id], mt(KeyOf(post[id])), now) == post[id]
      ensures BucketOf(Some(post[id]), KeyOf(post[id]), mt(KeyOf(post[id])), now)
           == if mt(KeyOf(post[id])).Some? then CountUpdated else CountUnchanged
    {
      if id in pre {
        assert KeyOf(pre[id]) in KeysOf(pre);
        RewriteKeepsKey(pre[id], mt(KeyOf(pre[id])), now);
        RewriteTwice(pre[id], mt(KeyOf(pre[id])), now);
      }
    }
  }

  /** Running a recompute again at the same time on the same inputs changes no row: nothing opens, nothing resolves. */
  lemma {:induction false} RecomputeIdempotent(
      pre: Table, mid: Table, post: Table, certs: map<Id, CertificateSummary>, rules: seq<Rule>, now: int,
      first: DiffSummary, second: DiffSummary)
    requires Recompute(pre, mid, certs, rules, now, first) && Recompute(mid, post, certs, rules, now, second)
    ensures post == mid && second.counters.openings == 0 && second.counters.resolved == 0
  {
    var mt := MatchingAt(certs, rules, now);
    RecomputeSettlesRows(pre, mid, mt, now, Pairs(pre, certs, rules, now));
    AllMatchesStored(pre, mid, certs, rules, now, mt);
    SettledStays(mid, post, mt, now, Pairs(mid, certs, rules, now));
    SettledBuckets(mid, mt, now, Pairs(mid, certs, rules, now), second.counters);
  }

  lemma {:induction false} AllMatchesStored(
      pre: Table, mid: Table, certs: map<Id, CertificateSummary>, rules: seq<Rule>, now: int, mt: Matching)
    requires mt == MatchingAt(certs, rules, now) && MatchesStored(pre, mid, mt, Pairs(pre, certs, rules, now))
    ensures forall k | mt(k).Some? :: k in KeysOf(mid)
  {
    forall k | mt(k).Some? ensures k in KeysOf(mid) {
      MatchKeysExact(certs, rules, now, k);
    }
  }

  lemma {:induction false} SettledStays(mid: Table, post: Table, mt: Matching, now: int, pairs: set<Key>)
    requires Progress(mid, post, mt, now, pairs) && SettledAt(mid, mt, now)
    requires forall k | mt(k).Some? :: k in KeysOf(mid)
    ensures post == mid
  {
    assert post.Keys == mid.Keys;
  }

  lemma {:induction false} SettledBuckets(mid: Table, mt: Matching, now: int, pairs: set<Key>, c: Counters)
    requires SettledAt(mid, mt, now) && Tallied(Buckets(mid, mt, now), pairs, c)
    requires forall k | mt(k).Some? :: k in KeysOf(mid)
    ensures c.openings == 0 && c.resolved == 0
  {
    var bucket := Buckets(mid, mt, now);
    forall k ensures bucket(k) == CountUpdated || bucket(k) == CountUnchanged {
      if k in KeysOf(mid) {
        var id :| id in mid && KeyOf(mid[id]) == k;
      }
    }
    assert InBucket(bucket, pairs, CountOpened) == {};
    assert InBucket(bucket, pairs, CountResolved) == {};
  }

  // --- the lifecycle over runs ---------------------------------------------------------------------------

  ghost predicate Overridden(f: Finding) {
    f.status == Acknowledged || f.status == Suppressed
  }

  /** The row invariants at clock time `clock`. */
  ghost predicate WellKept(f: Finding, clock: int) {
    && !f.status.Unsupported?
    && (f.resolvedAt.Some? <==> f.status == Resolved)
    && (f.resolvedAt.Some? ==> f.resolvedAt.value == f.updatedAt)
    && (if Overridden(f) then f.statusReason != "" && f.statusActor != "" && f.statusChangedAt.Some?
        else f.statusReason == "" && f.statusActor == "" && f.statusChangedAt.None?)
    && (f.suppressExpiresAt.Some? ==> f.status == Suppressed)
    && f.firstSeen <= f.lastSeen <= f.updatedAt <= clock
  }

  datatype World = World(certs: map<Id, CertificateSummary>, rules: seq<Rule>, findings: Table, clock: int)

  datatype Step =
    | DoRecompute(summary: DiffSummary)
    | DoAcknowledge(id: Id, actor: string, reason: string)
    | DoSuppress(target: Id, by_: string, why: string, expiresAt: Option<int>)
    | ChangeInputs

  /** One committed transaction, at a clock reading not before the previous one. */
  ghost predicate Next(w: World, w': World, s: Step) {
    && w'.clock >= w.clock
    && match s
       case DoRecompute(summary) =>
         Recompute(w.findings, w'.findings, w.certs, w.rules, w'.clock, summary)
       case DoAcknowledge(id, actor, reason) =>
         && id in w.findings && actor != "" && reason != ""
         && w'.findings == w.findings[id := OverrideRow(w.findings[id], Acknowledged, reason, actor, None, w'.clock)]
       case DoSuppress(id, actor, reason, expiresAt) =>
         && id in w.findings && actor != "" && reason != ""
         && w'.findings == w.findings[id := OverrideRow(w.findings[id], Suppressed, reason, actor, expiresAt, w'.clock)]
       case ChangeInputs => w'.findings == w.findings
  }

  ghost predicate Follows(w: World, w': World) {
    exists s :: Next(w, w', s)
  }

  ghost predicate IsRun(ws: seq<World>) {
    && |ws| > 0 && ws[0].findings == map[]
    && forall i, j | 0 <= i < j < |ws| && j == i + 1 :: Follows(ws[i], ws[j])
  }

  ghost predicate AllWellKept(w: World) {
    UniqueKeys(w.findings) && forall id | id in w.findings :: WellKept(w.findings[id], w.clock)
  }

  /** What no transaction ever changes about a stored finding. */
  ghost predicate SameOrigin(f: Finding, f': Finding) {
    KeyOf(f') == KeyOf(f) && f'.firstSeen == f.firstSeen
  }

  ghost predicate OriginsKept(a: Table, b: Table) {
    forall id | id in a :: id in b && SameOrigin(a[id], b[id])
  }

  lemma {:induction false} RewriteKeepsRow(f: Finding, m: Option<MatchEntry>, clock: int, now: int)
    requires WellKept(f, clock) && clock <= now
    ensures WellKept(Rewritten(f, m, now), now) && SameOrigin(f, Rewritten(f, m, now))
  {
  }

  lemma {:induction false} OverrideKeepsRow(
      f: Finding, status: Status, reason: string, actor: string, expiresAt: Option<int>, clock: int, now: int)
    requires WellKept(f, clock) && clock <= now && reason != "" && actor != ""
    requires (status == Acknowledged && expiresAt == None) || status == Suppressed
    ensures WellKept(OverrideRow(f, status, reason, actor, expiresAt, now), now)
    ensures SameOrigin(f, OverrideRow(f, status, reason, actor, expiresAt, now))
  {
  }

  lemma {:induction false} RecomputeKeepsRows(w: World, post: Table, mt: Matching, now: int, pairs: set<Key>)
    requires AllWellKept(w) && w.clock <= now && Progress(w.findings, post, mt, now, pairs)
    requires KeysOf(w.findings) <= pairs
    ensures OriginsKept(w.findings, post)
    ensures forall id | id in post :: WellKept(post[id], now)
  {
    forall id | id in w.findings
      ensures id in post && SameOrigin(w.findings[id], post[id]) && WellKept(post[id], now)
    {
      var k := KeyOf(w.findings[id]);
      assert k in KeysOf(w.findings);
      RewriteKeepsRow(w.findings[id], mt(k), w.clock, now);
    }
  }

  lemma {:induction false} StepKeeps(w: World, w': World, s: Step)
    requires AllWellKept(w) && Next(w, w', s)
    ensures AllWellKept(w') && OriginsKept(w.findings, w'.findings)
  {
    match s {
      case DoRecompute(summary) =>
        RecomputeKeepsRows(w, w'.findings, MatchingAt(w.certs, w.rules, w'.clock), w'.clock,
                           Pairs(w.findings, w.certs, w.rules, w'.clock));
      case DoAcknowledge(id, actor, reason) =>
        OverrideKeepsRow(w.findings[id], Acknowledged, reason, actor, None, w.clock, w'.clock);
        SameKeys(w.findings, id, w'.findings[id]);
      case DoSuppress(id, actor, reason, expiresAt) =>
        OverrideKeepsRow(w.findings[id], Suppressed, reason, actor, expiresAt, w.clock, w'.clock);
        SameKeys(w.findings, id, w'.findings[id]);
      case ChangeInputs =>
    }
  }

  /**
    Over every run with non-decreasing time: resolved_at is set iff resolved, override metadata is set
    iff acknowledged or suppressed, an expiry only while suppressed, and
    first_seen <= last_seen <= updated_at <= now. No recompute of such a run is ever refused.
  */
  lemma {:induction false} RunsKeepTheLifecycle(ws: seq<World>, i: nat)
    requires IsRun(ws) && i < |ws|
    ensures AllWellKept(ws[i]) && AllSupported(ws[i].findings)
  {
    if i > 0 {
      RunsKeepTheLifecycle(ws, i - 1);
      assert Follows(ws[i - 1], ws[i]);
      var s :| Next(ws[i - 1], ws[i], s);
      StepKeeps(ws[i - 1], ws[i], s);
    }
  }

  lemma {:induction false} OriginsChain(a: Table, b: Table, c: Table)
    requires OriginsKept(a, b) && OriginsKept(b, c)
    ensures OriginsKept(a, c)
  {
  }

  lemma {:induction false} FollowsKeepsOrigins(w: World, w': World)
    requires AllWellKept(w) && Follows(w, w')
    ensures OriginsKept(w.findings, w'.findings)
  {
    var s :| Next(w, w', s);
    StepKeeps(w, w', s);
  }

  lemma {:induction false} RunStepKeepsOrigins(ws: seq<World>, j: nat)
    requires IsRun(ws) && 0 < j < |ws|
    ensures OriginsKept(ws[j - 1].findings, ws[j].findings)
  {
    RunsKeepTheLifecycle(ws, j - 1);
    FollowsKeepsOrigins(ws[j - 1], ws[j]);
  }

  ghost predicate StepsKeepOrigins(ts: seq<Table>) {
    forall k, l | 0 <= k < l < |ts| && l == k + 1 :: OriginsKept(ts[k], ts[l])
  }

  lemma {:induction false} OriginsAlong(ts: seq<Table>, i: nat, j: nat)
    requires StepsKeepOrigins(ts) && i <= j < |ts|
    ensures OriginsKept(ts[i], ts[j])
    decreases j
  {
    if i < j {
      OriginsAlong(ts, i, j - 1);
      OriginsChain(ts[i], ts[j - 1], ts[j]);
    }
  }

  /** No run deletes a finding, moves it to another pair or changes its first_seen. */
  lemma {:induction false} RunsKeepFirstSeen(ws: seq<World>, i: nat, j: nat)
    requires IsRun(ws) && i <= j < |ws|
    ensures OriginsKept(ws[i].findings, ws[j].findings)
  {
    var ts := seq(|ws|, n requires 0 <= n < |ws| => ws[n].findings);
    forall k, l | 0 <= k < l < |ts| && l == k + 1 ensures OriginsKept(ts[k], ts[l]) {
      RunStepKeepsOrigins(ws, l);
    }
    OriginsAlong(ts, i, j);
  }
}
