/**
  Findings: the lifecycle kernel that decides one (certificate, rule) pair, and what a whole
  recompute of a findings table is, independent of the order in which pairs are visited.
*/
module Findings {
  import opened Wrappers
  import opened Ids

  type Evidence = string

  datatype Status = Open | Resolved | Acknowledged | Suppressed | Unsupported(name: string)

  /** The identity of a finding within an organization. */
  datatype Key = Key(certId: Id, ruleId: Id)

  datatype Finding = Finding(
    certId: Id, ruleId: Id, ruleVersion: int, severity: string, status: Status, title: string, evidence: Evidence,
    firstSeen: int, lastSeen: int, resolvedAt: Option<int>, updatedAt: int,
    statusReason: string, statusActor: string, statusChangedAt: Option<int>, suppressExpiresAt: Option<int>)

  datatype CertificateSummary = CertificateSummary(
    fingerprint: string, subject: string, issuer: string, notBefore: int, notAfter: int,
    signatureAlg: string, publicKeyAlg: string, publicKeyBits: int, isSelfSigned: bool, isCA: bool)

  /** `evaluate` stands for the rule body: a pure function of certificate and time. */
  datatype Rule = Rule(
    id: Id, version: int, severity: string, title: string,
    evaluate: (Id, CertificateSummary, int) -> Option<Evidence>)

  datatype MatchEntry = MatchEntry(rule: Rule, evidence: Evidence)

  datatype Error =
    | UnsupportedStatus(findingId: Id, status: string)
    | FindingNotFound | DuplicateFinding | InvalidOverride

  datatype Op = NoChange | Insert | Update

  datatype Bucket = CountOpened | CountUpdated | CountResolved | CountUnchanged

  datatype Decided = Decided(next: Option<Finding>, op: Op, bucket: Bucket)

  function KeyOf(f: Finding): Key {
    Key(f.certId, f.ruleId)
  }

  // --- the kernel ----------------------------------------------------------------------------

  function NewFinding(k: Key, m: MatchEntry, now: int): Finding {
    Finding(k.certId, k.ruleId, m.rule.version, m.rule.severity, Open, m.rule.title, m.evidence,
            now, now, None, now, "", "", None, None)
  }

  /** The fields a rule that still matches refreshes. */
  function Confirmed(f: Finding, m: MatchEntry, now: int): Finding {
    f.(lastSeen := now, updatedAt := now, severity := m.rule.severity, title := m.rule.title,
       ruleVersion := m.rule.version, evidence := m.evidence)
  }

  function WithoutOverride(f: Finding): Finding {
    f.(statusReason := "", statusActor := "", statusChangedAt := None, suppressExpiresAt := None)
  }

  predicate SuppressionOver(f: Finding, now: int) {
    f.suppressExpiresAt.Some? && f.suppressExpiresAt.value <= now
  }

  /** The rule matches this certificate. `id` is the stored row's id, used only in the error. */
  function DecideMatch(id: Id, prior: Option<Finding>, k: Key, m: MatchEntry, now: int): Result<Decided, Error> {
    if prior.None? then Ok(Decided(Some(NewFinding(k, m, now)), Insert, CountOpened))
    else
      var f := prior.value;
      match f.status
      case Open => Ok(Decided(Some(Confirmed(f, m, now)), Update, CountUpdated))
      case Resolved =>
        Ok(Decided(Some(Confirmed(f, m, now).(status := Open, resolvedAt := None)), Update, CountOpened))
      case Acknowledged => Ok(Decided(Some(Confirmed(f, m, now)), Update, CountUpdated))
      case Suppressed =>
        if SuppressionOver(f, now)
        then Ok(Decided(Some(WithoutOverride(Confirmed(f, m, now)).(status := Open, resolvedAt := None)),
                        Update, CountOpened))
        else Ok(Decided(Some(Confirmed(f, m, now)), Update, CountUpdated))
      case Unsupported(name) => Err(UnsupportedStatus(id, name))
  }

  /** The rule no longer matches this certificate. */
  function DecideNoMatch(id: Id, prior: Option<Finding>, now: int): Result<Decided, Error> {
    if prior.None? then Ok(Decided(None, NoChange, CountUnchanged))
    else
      var f := prior.value;
      match f.status
      case Open =>
        Ok(Decided(Some(f.(status := Resolved, resolvedAt := Some(now), updatedAt := now)), Update, CountResolved))
      case Acknowledged =>
        Ok(Decided(Some(WithoutOverride(f).(status := Resolved, resolvedAt := Some(now), updatedAt := now)),
                   Update, CountResolved))
      case Suppressed =>
        Ok(Decided(Some(WithoutOverride(f).(status := Resolved, resolvedAt := Some(now), updatedAt := now)),
                   Update, CountResolved))
      case Resolved => Ok(Decided(None, NoChange, CountUnchanged))
      case Unsupported(name) => Err(UnsupportedStatus(id, name))
  }

  /** The row an operator's acknowledge or suppress leaves. */
  function OverrideRow(
      f: Finding, status: Status, reason: string, actor: string, expiresAt: Option<int>, now: int): Finding {
    f.(status := status, statusReason := reason, statusActor := actor, statusChangedAt := Some(now),
       suppressExpiresAt := expiresAt, updatedAt := now, resolvedAt := None)
  }

  /** The row carries exactly this intent of the operator; what the rules found is as it was. */
  ghost predicate CarriesIntent(
      f: Finding, f': Finding, status: Status, reason: string, actor: string, expiresAt: Option<int>, now: int)
  {
    && f'.status == status && f'.statusReason == reason && f'.statusActor == actor
    && f'.statusChangedAt == Some(now) && f'.suppressExpiresAt == expiresAt
    && f'.resolvedAt == None && f'.updatedAt == now
    && f'.certId == f.certId && f'.ruleId == f.ruleId && f'.ruleVersion == f.ruleVersion
    && f'.severity == f.severity && f'.title == f.title && f'.evidence == f.evidence
    && f'.firstSeen == f.firstSeen && f'.lastSeen == f.lastSeen
  }

  // --- which rules match ---------------------------------------------------------------------

  /** The entry a rule loop leaves for one rule id: the last registered rule of that id that matches. */
  function LastMatch(rules: seq<Rule>, certId: Id, cert: CertificateSummary, now: int, ruleId: Id): Option<MatchEntry> {
    if rules == [] then None
    else
      var r := rules[|rules| - 1];
      var e := r.evaluate(certId, cert, now);
      if r.id == ruleId && e.Some? then Some(MatchEntry(r, e.value))
      else LastMatch(rules[..|rules| - 1], certId, cert, now, ruleId)
  }

  /** Whether, and by which rule, a (certificate, rule) pair matches. */
  type Matching = Key -> Option<MatchEntry>

  function MatchingAt(certs: map<Id, CertificateSummary>, rules: seq<Rule>, now: int): Matching {
    (k: Key) => if k.certId in certs then LastMatch(rules, k.certId, certs[k.certId], now, k.ruleId) else None
  }

  function RuleIds(rules: seq<Rule>): set<Id> {
    set i | 0 <= i < |rules| :: rules[i].id
  }

  /** The i-th rule has the id and matches with this evidence, and no later rule of the id matches. */
  ghost predicate MatchesLast(
      rules: seq<Rule>, certId: Id, cert: CertificateSummary, now: int, ruleId: Id, i: nat, m: MatchEntry)
  {
    && i < |rules| && rules[i].id == ruleId && m.rule == rules[i]
    && rules[i].evaluate(certId, cert, now) == Some(m.evidence)
    && forall j | i < j < |rules| && rules[j].id == ruleId :: rules[j].evaluate(certId, cert, now).None?
  }

  lemma {:induction false} LastMatchMeaning(
      rules: seq<Rule>, certId: Id, cert: CertificateSummary, now: int, ruleId: Id)
    ensures LastMatch(rules, certId, cert, now, ruleId).Some? <==>
      exists r :: r in rules && r.id == ruleId && r.evaluate(certId, cert, now).Some?
    ensures LastMatch(rules, certId, cert, now, ruleId).Some? ==> ruleId in RuleIds(rules)
    ensures LastMatch(rules, certId, cert, now, ruleId).Some? ==>
      exists i: nat ::
        MatchesLast(rules, certId, cert, now, ruleId, i, LastMatch(rules, certId, cert, now, ruleId).value)
  {
    if rules != [] {
      var n := |rules| - 1;
      LastMatchMeaning(rules[..n], certId, cert, now, ruleId);
      assert rules == rules[..n] + [rules[n]];
      var found := LastMatch(rules, certId, cert, now, ruleId);
      if rules[n].id == ruleId && rules[n].evaluate(certId, cert, now).Some? {
        assert MatchesLast(rules, certId, cert, now, ruleId, n, found.value);
      } else if found.Some? {
        var i: nat :| MatchesLast(rules[..n], certId, cert, now, ruleId, i, found.value);
        assert MatchesLast(rules, certId, cert, now, ruleId, i, found.value);
      }
    }
  }

  /** Every matching pair. */
  function MatchKeys(certs: map<Id, CertificateSummary>, rules: seq<Rule>, now: int): set<Key> {
    set c, r | c in certs.Keys && r in RuleIds(rules) && MatchingAt(certs, rules, now)(Key(c, r)).Some? :: Key(c, r)
  }

  lemma {:induction false} MatchKeysExact(certs: map<Id, CertificateSummary>, rules: seq<Rule>, now: int, k: Key)
    ensures k in MatchKeys(certs, rules, now) <==> MatchingAt(certs, rules, now)(k).Some?
  {
    if MatchingAt(certs, rules, now)(k).Some? {
      LastMatchMeaning(rules, k.certId, certs[k.certId], now, k.ruleId);
      assert k == Key(k.certId, k.ruleId);
    }
  }

  // --- one pair, one row -------------------------------------------------------------------------

  /** The findings of one organization, by finding id. */
  type Table = map<Id, Finding>

  function KeysOf(t: Table): set<Key> {
    set id | id in t :: KeyOf(t[id])
  }

  /** The unique constraint on (certificate, rule). */
  ghost predicate UniqueKeys(t: Table) {
    forall a, b | a in t && b in t && KeyOf(t[a]) == KeyOf(t[b]) :: a == b
  }

  function DecidePair(id: Id, prior: Option<Finding>, k: Key, m: Option<MatchEntry>, now: int): Result<Decided, Error> {
    if m.Some? then DecideMatch(id, prior, k, m.value, now) else DecideNoMatch(id, prior, now)
  }

  /** The row a recompute leaves for a stored finding. */
  function Rewritten(f: Finding, m: Option<MatchEntry>, now: int): Finding {
    match DecidePair("", Some(f), KeyOf(f), m, now)
    case Err(_) => f
    case Ok(d) => if d.next.Some? then d.next.value else f
  }

  function BucketOf(prior: Option<Finding>, k: Key, m: Option<MatchEntry>, now: int): Bucket {
    match DecidePair("", prior, k, m, now)
    case Err(_) => CountUnchanged
    case Ok(d) => d.bucket
  }

  /** The stored row of a pair, if any. */
  ghost function PriorFor(t: Table, k: Key): Option<Finding> {
    if id :| id in t && KeyOf(t[id]) == k then Some(t[id]) else None
  }

  lemma {:induction false} PriorIs(t: Table, id: Id)
    requires UniqueKeys(t) && id in t
    ensures PriorFor(t, KeyOf(t[id])) == Some(t[id])
  {
  }

  lemma {:induction false} PriorMissing(t: Table, k: Key)
    requires k !in KeysOf(t)
    ensures PriorFor(t, k) == None
  {
  }

  ghost predicate AllSupported(t: Table) {
    forall id | id in t :: !t[id].status.Unsupported?
  }

  // --- a recompute, pair by pair -----------------------------------------------------------------

  /**
    `post` is `pre` with exactly the pairs in `done` recomputed: stored rows of those pairs moved by
    the kernel, one new row for every matching pair without a stored row, nothing else touched.
  */
  ghost predicate Progress(pre: Table, post: Table, mt: Matching, now: int, done: set<Key>) {
    && StoredMoved(pre, post, mt, now, done)
    && NewRowsMatch(pre, post, mt, now, done)
    && MatchesStored(pre, post, mt, done)
    && UniqueKeys(post)
  }

  ghost predicate StoredMoved(pre: Table, post: Table, mt: Matching, now: int, done: set<Key>) {
    forall id | id in pre ::
      && id in post
      && post[id] == (if KeyOf(pre[id]) in done then Rewritten(pre[id], mt(KeyOf(pre[id])), now) else pre[id])
      && (KeyOf(pre[id]) in done ==> !pre[id].status.Unsupported?)
  }

  ghost predicate NewRowsMatch(pre: Table, post: Table, mt: Matching, now: int, done: set<Key>) {
    forall id | id in post && id !in pre ::
      && KeyOf(post[id]) in done && KeyOf(post[id]) !in KeysOf(pre)
      && mt(KeyOf(post[id])).Some?
      && post[id] == NewFinding(KeyOf(post[id]), mt(KeyOf(post[id])).value, now)
  }

  ghost predicate MatchesStored(pre: Table, post: Table, mt: Matching, done: set<Key>) {
    forall k | k in done && mt(k).Some? :: k in KeysOf(post)
  }

  /** The pairs a recompute has to look at. */
  function Pairs(pre: Table, certs: map<Id, CertificateSummary>, rules: seq<Rule>, now: int): set<Key> {
    MatchKeys(certs, rules, now) + KeysOf(pre)
  }

  lemma {:induction false} ProgressStart(pre: Table, mt: Matching, now: int)
    requires UniqueKeys(pre)
    ensures Progress(pre, pre, mt, now, {})
  {
  }

  lemma {:induction false} RewriteKeepsKey(f: Finding, m: Option<MatchEntry>, now: int)
    ensures KeyOf(Rewritten(f, m, now)) == KeyOf(f)
  {
  }

  /** The rows of a table keep their keys when one row is replaced by one of the same key. */
  lemma {:induction false} SameKeys(t: Table, id: Id, f: Finding)
    requires id in t && KeyOf(f) == KeyOf(t[id]) && UniqueKeys(t)
    ensures UniqueKeys(t[id := f]) && KeysOf(t[id := f]) == KeysOf(t)
  {
    var t' := t[id := f];
    assert forall x | x in t :: KeyOf(t'[x]) == KeyOf(t[x]);
    assert t'.Keys == t.Keys;
    forall k ensures k in KeysOf(t') <==> k in KeysOf(t) {
      if k in KeysOf(t) { var x :| x in t && KeyOf(t[x]) == k; assert x in t' && KeyOf(t'[x]) == k; }
      if k in KeysOf(t') { var x :| x in t' && KeyOf(t'[x]) == k; assert x in t && KeyOf(t[x]) == k; }
    }
  }

  lemma {:induction false} ProgressUpdate(
      pre: Table, post: Table, mt: Matching, now: int, done: set<Key>, id: Id, k: Key, f: Finding)
    requires Progress(pre, post, mt, now, done) && UniqueKeys(pre)
    requires id in pre && k == KeyOf(pre[id]) && k !in done && !pre[id].status.Unsupported?
    requires f == Rewritten(pre[id], mt(k), now)
    ensures id in post && Progress(pre, post[id := f], mt, now, done + {k})
  {
    RewriteKeepsKey(pre[id], mt(k), now);
    SameKeys(post, id, f);
    assert k in KeysOf(post);
  }

  lemma {:induction false} AddedKeys(t: Table, id: Id, f: Finding)
    requires id !in t
    ensures KeysOf(t[id := f]) == KeysOf(t) + {KeyOf(f)}
  {
    var t' := t[id := f];
    forall k | k in KeysOf(t) ensures k in KeysOf(t') {
      var x :| x in t && KeyOf(t[x]) == k;
      assert x in t' && KeyOf(t'[x]) == k;
    }
    assert id in t' && KeyOf(t'[id]) == KeyOf(f);
  }

  lemma {:induction false} ProgressInsert(
      pre: Table, post: Table, mt: Matching, now: int, done: set<Key>, id: Id, k: Key, f: Finding)
    requires Progress(pre, post, mt, now, done) && k !in done && k !in KeysOf(pre)
    requires id !in post && mt(k).Some? && f == NewFinding(k, mt(k).value, now)
    ensures k !in KeysOf(post) && Progress(pre, post[id := f], mt, now, done + {k})
  {
    AddedKeys(post, id, f);
    UnseenKey(pre, post, mt, now, done, k);
  }

  /** A pair not yet handled and not stored before has no row yet. */
  lemma {:induction false} UnseenKey(pre: Table, post: Table, mt: Matching, now: int, done: set<Key>, k: Key)
    requires Progress(pre, post, mt, now, done) && k !in done && k !in KeysOf(pre)
    ensures k !in KeysOf(post)
  {
    forall x | x in post ensures KeyOf(post[x]) != k {
      if x in pre {
        RewriteKeepsKey(pre[x], mt(KeyOf(pre[x])), now);
        assert KeyOf(pre[x]) in KeysOf(pre);
      }
    }
  }

  // --- counting ----------------------------------------------------------------------------------

  datatype Counters = Counters(openings: nat, updated: nat, resolved: nat, same: nat)

  function Bump(c: Counters, b: Bucket): Counters {
    match b
    case CountOpened => c.(openings := c.openings + 1)
    case CountUpdated => c.(updated := c.updated + 1)
    case CountResolved => c.(resolved := c.resolved + 1)
    case CountUnchanged => c.(same := c.same + 1)
  }

  ghost function InBucket(bucket: Key -> Bucket, done: set<Key>, b: Bucket): set<Key> {
    set k | k in done && bucket(k) == b
  }

  /** Each counter is the number of handled pairs in its bucket. */
  ghost predicate Tallied(bucket: Key -> Bucket, done: set<Key>, c: Counters) {
    && c.openings == |InBucket(bucket, done, CountOpened)|
    && c.updated == |InBucket(bucket, done, CountUpdated)|
    && c.resolved == |InBucket(bucket, done, CountResolved)|
    && c.same == |InBucket(bucket, done, CountUnchanged)|
  }

  lemma {:induction false} DisjointUnion(a: set<Key>, b: set<Key>)
    requires a !! b
    ensures |a + b| == |a| + |b|
  {
  }

  /** Every handled pair is in exactly one of the four buckets. */
  lemma {:induction false} BucketsPartition(bucket: Key -> Bucket, done: set<Key>)
    ensures |InBucket(bucket, done, CountOpened)| + |InBucket(bucket, done, CountUpdated)|
          + |InBucket(bucket, done, CountResolved)| + |InBucket(bucket, done, CountUnchanged)| == |done|
  {
    var a, b := InBucket(bucket, done, CountOpened), InBucket(bucket, done, CountUpdated);
    var c, d := InBucket(bucket, done, CountResolved), InBucket(bucket, done, CountUnchanged);
    DisjointUnion(a, b);
    DisjointUnion(c, d);
    DisjointUnion(a + b, c + d);
    forall k | k in done ensures k in a + b + (c + d) {
      match bucket(k) {
        case CountOpened => assert k in a;
        case CountUpdated => assert k in b;
        case CountResolved => assert k in c;
        case CountUnchanged => assert k in d;
      }
    }
    assert a + b + (c + d) == done;
  }

  lemma {:induction false} BucketGrows(bucket: Key -> Bucket, done: set<Key>, k: Key, b: Bucket)
    requires k !in done
    ensures |InBucket(bucket, done + {k}, b)| == |InBucket(bucket, done, b)| + if bucket(k) == b then 1 else 0
  {
    if bucket(k) == b {
      assert InBucket(bucket, done + {k}, b) == InBucket(bucket, done, b) + {k};
    } else {
      assert InBucket(bucket, done + {k}, b) == InBucket(bucket, done, b);
    }
  }

  lemma {:induction false} TallyNext(bucket: Key -> Bucket, done: set<Key>, c: Counters, k: Key)
    requires Tallied(bucket, done, c) && k !in done
    ensures Tallied(bucket, done + {k}, Bump(c, bucket(k)))
  {
    BucketGrows(bucket, done, k, CountOpened);
    BucketGrows(bucket, done, k, CountUpdated);
    BucketGrows(bucket, done, k, CountResolved);
    BucketGrows(bucket, done, k, CountUnchanged);
    assert |done + {k}| == |done| + 1;
  }

  /** The bucket a pair falls into, judged on the table before the recompute. */
  ghost function Buckets(pre: Table, mt: Matching, now: int): Key -> Bucket {
    (k: Key) => BucketOf(PriorFor(pre, k), k, mt(k), now)
  }

  datatype DiffSummary = DiffSummary(certificates: nat, findings: nat, counters: Counters)

  /** What a successful recompute of `pre` must have done. */
  ghost predicate Recompute(
      pre: Table, post: Table, certs: map<Id, CertificateSummary>, rules: seq<Rule>, now: int, summary: DiffSummary)
  {
    var pairs := Pairs(pre, certs, rules, now);
    && Progress(pre, post, MatchingAt(certs, rules, now), now, pairs)
    && Tallied(Buckets(pre, MatchingAt(certs, rules, now), now), pairs, summary.counters)
    && summary.certificates == |certs| && summary.findings == |pre|
  }

  /** The error names a stored finding whose status the kernel does not know. */
  ghost predicate UnsupportedRow(pre: Table, e: Error) {
    e.UnsupportedStatus? && e.findingId in pre && pre[e.findingId].status == Unsupported(e.status)
  }

  /** A recompute exists only for a table of known statuses. */
  lemma {:induction false} RecomputeSupported(
      pre: Table, post: Table, certs: map<Id, CertificateSummary>, rules: seq<Rule>, now: int, summary: DiffSummary)
    requires Recompute(pre, post, certs, rules, now, summary)
    ensures AllSupported(pre)
  {
    forall id | id in pre ensures !pre[id].status.Unsupported? {
      assert KeyOf(pre[id]) in KeysOf(pre);
    }
  }
}
