/**
  The findings service: the production diff that pages through certificates and through the table
  it is updating, the load-all diff it replaces, and the operator overrides.
*/
module FindingsService {
  import opened Wrappers
  import opened Ids
  import opened Findings

  datatype Event =
    | Recomputed(actor: string, summary: DiffSummary, ruleCount: nat, at: int)
    | Overridden(findingId: Id, actor: string, previous: Status, next: Status, reason: string,
                 expiresAt: Option<int>, at: int)

  const MAX_REASON_LENGTH: nat := 1000

  ghost predicate SupplyFresh(mint: nat -> Id, findings: Table, nextId: nat) {
    FreshFrom(mint, nextId, findings.Keys) && "" !in findings
  }

  /** The matches map holds exactly the matching pairs of the certificates reached. */
  ghost predicate Collected(matches: map<Key, MatchEntry>, mt: Matching, reached: set<Id>) {
    forall k: Key ::
      && (k in matches <==> k.certId in reached && mt(k).Some?)
      && (k in matches ==> mt(k) == Some(matches[k]))
  }

  /** The matches map holds exactly the matching pairs not yet handled. */
  ghost predicate Remaining(matches: map<Key, MatchEntry>, mt: Matching, done: set<Key>) {
    forall k: Key ::
      && (k in matches <==> mt(k).Some? && k !in done)
      && (k in matches ==> mt(k) == Some(matches[k]))
  }

  /** A fact about the table, the handled pairs and the counters at one point of a diff. */
  type Stage = (Table, set<Key>, Counters) -> bool

  ghost predicate Fixed(pre: Table, mt: Matching, now: int, bucket: Key -> Bucket) {
    UniqueKeys(pre) && bucket == Buckets(pre, mt, now)
  }

  /** `good` is the diff's loop invariant: the handled pairs are recomputed and counted. */
  ghost predicate IsStage(good: Stage, pre: Table, mt: Matching, now: int, bucket: Key -> Bucket) {
    forall t, d, c {:trigger Progress(pre, t, mt, now, d), Tallied(bucket, d, c)} ::
      good(t, d, c) <==> Progress(pre, t, mt, now, d) && Tallied(bucket, d, c) && Fixed(pre, mt, now, bucket)
  }

  lemma {:induction false} MakeStage(pre: Table, mt: Matching, now: int, bucket: Key -> Bucket)
    returns (good: Stage)
    requires Fixed(pre, mt, now, bucket)
    ensures IsStage(good, pre, mt, now, bucket) && good(pre, {}, Counters(0, 0, 0, 0))
  {
    ProgressStart(pre, mt, now);
    forall b ensures InBucket(bucket, {}, b) == {} {
    }
    good := (t: Table, d: set<Key>, c: Counters) =>
      Progress(pre, t, mt, now, d) && Tallied(bucket, d, c) && Fixed(pre, mt, now, bucket);
  }

  lemma {:induction false} StageMeans(
      good: Stage, pre: Table, mt: Matching, now: int, bucket: Key -> Bucket, t: Table, d: set<Key>, c: Counters)
    requires IsStage(good, pre, mt, now, bucket)
    ensures good(t, d, c) <==> Progress(pre, t, mt, now, d) && Tallied(bucket, d, c) && Fixed(pre, mt, now, bucket)
  {
    var recomputed, counted := Progress(pre, t, mt, now, d), Tallied(bucket, d, c);
    assert good(t, d, c) <==> recomputed && counted && Fixed(pre, mt, now, bucket);
  }

  lemma {:induction false} StageUnique(
      good: Stage, pre: Table, mt: Matching, now: int, bucket: Key -> Bucket, t: Table, d: set<Key>, c: Counters)
    requires IsStage(good, pre, mt, now, bucket) && good(t, d, c)
    ensures UniqueKeys(pre)
  {
    StageMeans(good, pre, mt, now, bucket, t, d, c);
  }

  class FindingsService {
    const mint: nat -> Id
    const trim: string -> string
    const rules: seq<Rule>
    var pageOverride: int

    var certs: map<Id, CertificateSummary>
    var findings: Table
    var audit: seq<Event>
    var nextId: nat

    constructor (mint: nat -> Id, trim: string -> string, rules: seq<Rule>)
      ensures this.mint == mint && this.trim == trim && this.rules == rules && pageOverride == 0
      ensures certs == map[] && findings == map[] && audit == [] && nextId == 0
    {
      this.mint, this.trim, this.rules := mint, trim, rules;
      pageOverride, certs, findings, audit, nextId := 0, map[], map[], [], 0;
    }

    /** What the store guarantees: non-empty keys, one finding per (certificate, rule), unused fresh ids. */
    ghost predicate Valid()
      reads this
    {
      && "" !in certs
      && UniqueKeys(findings)
      && SupplyFresh(mint, findings, nextId)
    }

    ghost function Matches(now: int): Matching
      reads this
    {
      MatchingAt(certs, rules, now)
    }

    // --- store -------------------------------------------------------------------------------

    method InsertFinding(id: Id, f: Finding) returns (error: Option<Error>)
      modifies this`findings
      ensures if id in old(findings) || KeyOf(f) in KeysOf(old(findings))
              then error == Some(DuplicateFinding) && findings == old(findings)
              else error == None && findings == old(findings)[id := f]
    {
      if id in findings || KeyOf(f) in KeysOf(findings) {
        return Some(DuplicateFinding);
      }
      findings := findings[id := f];
      return None;
    }

    method UpdateFinding(id: Id, f: Finding) returns (error: Option<Error>)
      modifies this`findings
      ensures if id in old(findings) then error == None && findings == old(findings)[id := f]
              else error == Some(FindingNotFound) && findings == old(findings)
    {
      if id !in findings {
        return Some(FindingNotFound);
      }
      findings := findings[id := f];
      return None;
    }

    method ApplyDecision(id: Id, d: Decided) returns (error: Option<Error>)
      requires d.op != NoChange ==> d.next.Some?
      modifies this`findings
      ensures d.op == NoChange ==> error == None && findings == old(findings)
      ensures d.op == Update && id in old(findings) ==> error == None && findings == old(findings)[id := d.next.value]
      ensures d.op == Insert && id !in old(findings) && KeyOf(d.next.value) !in KeysOf(old(findings)) ==>
                error == None && findings == old(findings)[id := d.next.value]
    {
      match d.op {
        case NoChange => error := None;
        case Insert => error := InsertFinding(id, d.next.value);
        case Update => error := UpdateFinding(id, d.next.value);
      }
    }

    // --- one pair ----------------------------------------------------------------------------

    /** Decides one stored finding, writes it and counts it; `m` is the pair's match, if any. */
    method HandleStored(ghost good: Stage, ghost pre: Table, ghost mt: Matching, ghost bucket: Key -> Bucket,
                        ghost done: set<Key>, id: Id, prior: Finding, m: Option<MatchEntry>, now: int,
                        counters: Counters)
      returns (error: Option<Error>, ghost done': set<Key>, counters': Counters)
      requires IsStage(good, pre, mt, now, bucket) && good(findings, done, counters)
      requires id in pre && prior == pre[id] && KeyOf(prior) !in done && m == mt(KeyOf(prior))
      modifies this`findings
      ensures findings.Keys == old(findings).Keys && done' == done + {KeyOf(prior)}
      ensures error == None ==> good(findings, done', counters')
      ensures error != None ==> UnsupportedRow(pre, error.value)
    {
      done', counters' := done + {KeyOf(prior)}, counters;
      var decision := DecidePair(id, Some(prior), KeyOf(prior), m, now);
      if decision.Err? {
        return Some(decision.error), done', counters';
      }
      StageMeans(good, pre, mt, now, bucket, findings, done, counters);
      StoredDecision(pre, findings, mt, done, id, prior, m, now, bucket);
      error := ApplyDecision(id, decision.value);
      counters' := Bump(counters, decision.value.bucket);
      TallyNext(bucket, done, counters, KeyOf(prior));
      StageMeans(good, pre, mt, now, bucket, findings, done', counters');
    }

    /** Opens the finding of a matching pair that has none. */
    method HandleNew(ghost good: Stage, ghost pre: Table, ghost mt: Matching, ghost bucket: Key -> Bucket,
                     ghost done: set<Key>, k: Key, m: MatchEntry, now: int, counters: Counters)
      returns (error: Option<Error>, ghost done': set<Key>, counters': Counters)
      requires IsStage(good, pre, mt, now, bucket) && good(findings, done, counters)
      requires SupplyFresh(mint, findings, nextId)
      requires k !in done && k !in KeysOf(pre) && mt(k) == Some(m)
      modifies this`findings, this`nextId
      ensures error == None && done' == done + {k} && good(findings, done', counters')
      ensures SupplyFresh(mint, findings, nextId)
    {
      var id := mint(nextId);
      nextId := nextId + 1;
      var decision := DecideMatch(id, None, k, m, now);
      StageMeans(good, pre, mt, now, bucket, findings, done, counters);
      ProgressInsert(pre, findings, mt, now, done, id, k, decision.value.next.value);
      error := ApplyDecision(id, decision.value);
      counters' := Bump(counters, decision.value.bucket);
      done' := done + {k};
      PriorMissing(pre, k);
      TallyNext(bucket, done, counters, k);
      StageMeans(good, pre, mt, now, bucket, findings, done', counters');
    }

    // --- phase 1: which pairs match --------------------------------------------------------------

    /** Applies every rule to one certificate and records the matching pairs. */
    method EvaluateRulesForCert(certId: Id, cert: CertificateSummary, now: int, matches: map<Key, MatchEntry>,
                                ghost reached: set<Id>)
      returns (matches': map<Key, MatchEntry>)
      requires certId in certs && cert == certs[certId] && certId !in reached
      requires Collected(matches, Matches(now), reached)
      ensures Collected(matches', Matches(now), reached + {certId})
    {
      matches' := matches;
      for i := 0 to |rules|
        invariant ExtendsBy(matches, matches', certId, rules[..i], cert, now)
      {
        var m := rules[i].evaluate(certId, cert, now);
        ExtendNext(matches, matches', certId, rules, i, cert, now);
        if m.None? {
          continue;
        }
        matches' := matches'[Key(certId, rules[i].id) := MatchEntry(rules[i], m.value)];
      }
      assert rules[..|rules|] == rules;
    }

    /** Evaluates the listed certificates in order. */
    method EvaluatePage(page: seq<Id>, now: int, matches: map<Key, MatchEntry>, ghost reached: set<Id>)
      returns (matches': map<Key, MatchEntry>)
      requires forall c | c in page :: c in certs && c !in reached
      requires forall i, j | 0 <= i < j < |page| :: page[i] != page[j]
      requires Collected(matches, Matches(now), reached)
      ensures Collected(matches', Matches(now), reached + Members(page))
    {
      matches' := matches;
      ghost var reached' := reached;
      for i := 0 to |page|
        invariant Collected(matches', Matches(now), reached')
        invariant reached' == reached + Members(page[..i])
      {
        MembersNext(page, i);
        assert page[i] in page;
        matches' := EvaluateRulesForCert(page[i], certs[page[i]], now, matches', reached');
        reached' := reached' + {page[i]};
      }
      assert page[..|page|] == page;
    }

    method CollectAll(now: int) returns (matches: map<Key, MatchEntry>, total: nat)
      requires Valid()
      ensures Remaining(matches, Matches(now), {}) && total == |certs|
    {
      var all := SortedIds(certs.Keys);
      SortedIdsOrder(certs.Keys);
      AscendingDistinct(all);
      matches := EvaluatePage(all, now, map[], {});
      AllMembers(certs.Keys, all);
      assert all[..|all|] == all;
      total := |all|;
    }

    /** Reads and evaluates one page of certificates; `more` is false at the end of the stream. */
    method CollectPage(ghost q: seq<Id>, n: nat, cursor: Id, limit: nat, now: int,
                       matches: map<Key, MatchEntry>)
      returns (n': nat, cursor': Id, more: bool, matches': map<Key, MatchEntry>)
      requires "" !in certs && q == SortedIds(certs.Keys) && n <= |q| && cursor == CursorAt(q, n) && limit >= 1
      requires Collected(matches, Matches(now), Members(q[..n]))
      ensures n <= n' <= |q| && cursor' == CursorAt(q, n') && (if more then n < n' else n' == |q|)
      ensures Collected(matches', Matches(now), Members(q[..n']))
    {
      var page := NextPage(certs.Keys, q, n, cursor, limit);
      if |page| == 0 {
        return n, cursor, false, matches;
      }
      n' := n + |page|;
      FreshCerts(certs.Keys, q, n, page);
      matches' := EvaluatePage(page, now, matches, Members(q[..n]));
      cursor' := page[|page| - 1];
      more := |page| == limit;
    }

    method CollectPaged(now: int) returns (matches: map<Key, MatchEntry>, total: nat)
      requires Valid()
      ensures Remaining(matches, Matches(now), {}) && total == |certs|
    {
      ghost var q := SortedIds(certs.Keys);
      matches, total := map[], 0;
      var cursor, limit, more := "", PageSize(pageOverride), true;
      while more
        invariant total <= |q| && cursor == CursorAt(q, total)
        invariant Collected(matches, Matches(now), Members(q[..total]))
        invariant more || total == |q|
        decreases |q| - total, more
      {
        total, cursor, more, matches := CollectPage(q, total, cursor, limit, now, matches);
      }
      AllMembers(certs.Keys, q);
    }

    // --- the load-all diff -----------------------------------------------------------------------

    /** Indexes every stored finding by its pair. */
    method IndexExisting() returns (byKey: map<Key, (Id, Finding)>)
      requires Valid()
      ensures Indexes(byKey, findings, findings.Keys)
    {
      var all := SortedIds(findings.Keys);
      byKey := map[];
      for i := 0 to |all|
        invariant Indexes(byKey, findings, Members(all[..i]))
      {
        MembersNext(all, i);
        SortedIdsOrder(findings.Keys);
        assert all[i] in all;
        var f := findings[all[i]];
        IndexNext(byKey, findings, Members(all[..i]), all[i]);
        byKey := byKey[KeyOf(f) := (all[i], f)];
      }
      AllMembers(findings.Keys, all);
    }

    /** Decides one matching pair, stored or not. */
    method HandleMatch(ghost good: Stage, ghost pre: Table, ghost mt: Matching, ghost bucket: Key -> Bucket,
                       ghost done: set<Key>, existing: map<Key, (Id, Finding)>,
                       k: Key, m: MatchEntry, now: int, counters: Counters)
      returns (error: Option<Error>, ghost done': set<Key>, counters': Counters)
      requires IsStage(good, pre, mt, now, bucket) && good(findings, done, counters)
      requires SupplyFresh(mint, findings, nextId)
      requires Indexes(existing, pre, pre.Keys)
      requires k !in done && mt(k) == Some(m)
      modifies this`findings, this`nextId
      ensures SupplyFresh(mint, findings, nextId) && done' == done + {k}
      ensures error == None ==> good(findings, done', counters')
      ensures error != None ==> UnsupportedRow(pre, error.value)
    {
      if k in existing {
        var row := existing[k];
        error, done', counters' := HandleStored(good, pre, mt, bucket, done, row.0, row.1, Some(m), now, counters);
      } else {
        error, done', counters' := HandleNew(good, pre, mt, bucket, done, k, m, now, counters);
      }
    }

    /** Applies every match, in whatever order the map yields them. */
    method ApplyMatches(ghost good: Stage, ghost pre: Table, ghost mt: Matching, ghost bucket: Key -> Bucket,
                        existing: map<Key, (Id, Finding)>, matches: map<Key, MatchEntry>, now: int)
      returns (error: Option<Error>, ghost done: set<Key>, counters: Counters)
      requires IsStage(good, pre, mt, now, bucket) && good(findings, {}, Counters(0, 0, 0, 0))
      requires SupplyFresh(mint, findings, nextId)
      requires Indexes(existing, pre, pre.Keys) && Remaining(matches, mt, {})
      modifies this`findings, this`nextId
      ensures SupplyFresh(mint, findings, nextId)
      ensures error == None ==> done == matches.Keys && good(findings, done, counters)
      ensures error != None ==> UnsupportedRow(pre, error.value)
    {
      error, done, counters := None, {}, Counters(0, 0, 0, 0);
      var todo := matches.Keys;
      while todo != {}
        invariant done == matches.Keys - todo && todo <= matches.Keys
        invariant SupplyFresh(mint, findings, nextId) && good(findings, done, counters)
        invariant error == None
        decreases |todo|
      {
        var k :| k in todo;
        error, done, counters := HandleMatch(good, pre, mt, bucket, done, existing, k, matches[k], now, counters);
        if error.Some? {
          return;
        }
        todo := todo - {k};
      }
    }

    /** One step of the walk over stored findings: a pair that matched was handled before. */
    method HandleUnmatched(ghost good: Stage, ghost pre: Table, ghost mt: Matching, ghost bucket: Key -> Bucket,
                           ghost done: set<Key>, existing: map<Key, (Id, Finding)>,
                           matches: map<Key, MatchEntry>, ghost todo: set<Key>, k: Key, now: int, counters: Counters)
      returns (error: Option<Error>, ghost done': set<Key>, counters': Counters)
      requires IsStage(good, pre, mt, now, bucket) && good(findings, done, counters)
      requires Indexes(existing, pre, pre.Keys)
      requires forall k | k in existing && k !in matches :: mt(k) == None
      requires k in todo && todo <= existing.Keys && done == Handled(matches.Keys, existing.Keys, todo)
      modifies this`findings
      ensures findings.Keys == old(findings).Keys
      ensures done' == Handled(matches.Keys, existing.Keys, todo - {k})
      ensures error == None ==> good(findings, done', counters')
      ensures error != None ==> UnsupportedRow(pre, error.value)
    {
      HandledNext(matches.Keys, existing.Keys, todo, k);
      if k in matches {
        return None, done, counters;
      }
      var row := existing[k];
      error, done', counters' := HandleStored(good, pre, mt, bucket, done, row.0, row.1, None, now, counters);
    }

    /** Walks the stored findings that did not match. */
    method ApplyNoMatches(ghost good: Stage, ghost pre: Table, ghost mt: Matching, ghost bucket: Key -> Bucket,
                          existing: map<Key, (Id, Finding)>, matches: map<Key, MatchEntry>, now: int,
                          ghost done0: set<Key>, counters0: Counters)
      returns (error: Option<Error>, ghost done: set<Key>, counters: Counters)
      requires IsStage(good, pre, mt, now, bucket) && good(findings, done0, counters0)
      requires Indexes(existing, pre, pre.Keys) && done0 == Handled(matches.Keys, existing.Keys, existing.Keys)
      requires forall k | k in existing && k !in matches :: mt(k) == None
      modifies this`findings
      ensures findings.Keys == old(findings).Keys
      ensures done == Handled(matches.Keys, existing.Keys, {}) || error != None
      ensures error == None ==> good(findings, done, counters)
      ensures error != None ==> UnsupportedRow(pre, error.value)
    {
      error, done, counters := None, done0, counters0;
      var todo := existing.Keys;
      while todo != {}
        invariant done == Handled(matches.Keys, existing.Keys, todo) && todo <= existing.Keys
        invariant findings.Keys == old(findings).Keys && good(findings, done, counters)
        invariant error == None
        decreases |todo|
      {
        var k :| k in todo;
        error, done, counters :=
          HandleUnmatched(good, pre, mt, bucket, done, existing, matches, todo, k, now, counters);
        if error.Some? {
          return;
        }
        todo := todo - {k};
      }
    }

    /** The load-all diff: every certificate, every stored finding, then two walks over the maps. */
    method DiffLoadAll(ghost good: Stage, ghost pre: Table, ghost mt: Matching, ghost bucket: Key -> Bucket, now: int)
      returns (error: Option<Error>, ghost done: set<Key>, summary: DiffSummary)
      requires Valid() && pre == findings && mt == Matches(now)
      requires IsStage(good, pre, mt, now, bucket) && good(findings, {}, Counters(0, 0, 0, 0))
      modifies this`findings, this`nextId
      ensures SupplyFresh(mint, findings, nextId)
      ensures error == None ==> done == Pairs(pre, certs, rules, now) && good(findings, done, summary.counters)
                                && summary.certificates == |certs| && summary.findings == |pre|
      ensures error != None ==> UnsupportedRow(pre, error.value)
    {
      var matches, total := CollectAll(now);
      var existing := IndexExisting();
      UnmatchedPairs(certs, mt, matches, existing, rules, now);
      AllPairs(pre, certs, rules, now, matches, existing);
      var counters;
      error, done, counters := ApplyMatches(good, pre, mt, bucket, existing, matches, now);
      summary := DiffSummary(total, |existing|, counters);
      if error.Some? {
        return;
      }
      error, done, counters := ApplyNoMatches(good, pre, mt, bucket, existing, matches, now, done, counters);
      summary := DiffSummary(total, |existing|, counters);
    }

    /** A successful load-all diff is a recompute; it fails only on a stored status it does not know. */
    method RunDiffLoadAll(now: int) returns (r: Result<DiffSummary, Error>)
      requires Valid()
      modifies this`findings, this`nextId
      ensures SupplyFresh(mint, findings, nextId)
      ensures match r
        case Ok(summary) => Recompute(old(findings), findings, certs, rules, now, summary)
        case Err(e) => UnsupportedRow(old(findings), e)
      ensures r.Ok? <==> AllSupported(old(findings))
    {
      ghost var pre, mt := findings, Matches(now);
      ghost var bucket := Buckets(pre, mt, now);
      ghost var good := MakeStage(pre, mt, now, bucket);
      var error, summary;
      ghost var done;
      error, done, summary := DiffLoadAll(good, pre, mt, bucket, now);
      if error.Some? {
        return Err(error.value);
      }
      Finished(good, pre, findings, certs, rules, now, done, summary);
      RecomputeSupported(pre, findings, certs, rules, now, summary);
      return Ok(summary);
    }

    // --- the streaming diff ------------------------------------------------------------------------

    /** One stored row of a page: by its match, which is then used up, or as no longer matching. */
    method HandleRow(ghost good: Stage, ghost pre: Table, ghost mt: Matching, ghost bucket: Key -> Bucket,
                     ghost done: set<Key>, id: Id, prior: Finding, matches: map<Key, MatchEntry>, now: int,
                     counters: Counters)
      returns (error: Option<Error>, ghost done': set<Key>, matches': map<Key, MatchEntry>, counters': Counters)
      requires IsStage(good, pre, mt, now, bucket) && good(findings, done, counters)
      requires Remaining(matches, mt, done)
      requires id in pre && prior == pre[id] && KeyOf(prior) !in done
      modifies this`findings
      ensures findings.Keys == old(findings).Keys && done' == done + {KeyOf(prior)}
      ensures Remaining(matches', mt, done')
      ensures error == None ==> good(findings, done', counters')
      ensures error != None ==> UnsupportedRow(pre, error.value)
    {
      var key := KeyOf(prior);
      var m := if key in matches then Some(matches[key]) else None;
      MatchTaken(matches, mt, done, key);
      matches' := matches - {key};
      error, done', counters' := HandleStored(good, pre, mt, bucket, done, id, prior, m, now, counters);
    }

    /** The next row of the walk. */
    method HandleNext(ghost good: Stage, ghost pre: Table, ghost mt: Matching, ghost bucket: Key -> Bucket,
                      ghost q: seq<Id>, ghost m: nat, id: Id, prior: Finding, matches: map<Key, MatchEntry>,
                      now: int, counters: Counters)
      returns (ghost m': nat, error: Option<Error>, matches': map<Key, MatchEntry>, counters': Counters)
      requires IsStage(good, pre, mt, now, bucket) && WalkOf(pre, q)
      requires m < |q| && id == q[m] && id in pre && prior == pre[id]
      requires good(findings, KeysUpTo(pre, q, m), counters) && Remaining(matches, mt, KeysUpTo(pre, q, m))
      modifies this`findings
      ensures findings.Keys == old(findings).Keys && m' == m + 1
      ensures error == None ==> good(findings, KeysUpTo(pre, q, m'), counters')
                                && Remaining(matches', mt, KeysUpTo(pre, q, m'))
      ensures error != None ==> UnsupportedRow(pre, error.value)
    {
      m' := m + 1;
      StageUnique(good, pre, mt, now, bucket, findings, KeysUpTo(pre, q, m), counters);
      NextKey(pre, q, m, m');
      ghost var done;
      error, done, matches', counters' :=
        HandleRow(good, pre, mt, bucket, KeysUpTo(pre, q, m), id, prior, matches, now, counters);
    }

    /** The rows of one page, as read before any of them is written. */
    method HandleRows(ghost good: Stage, ghost pre: Table, ghost mt: Matching, ghost bucket: Key -> Bucket,
                      ghost q: seq<Id>, ghost n: nat, ghost n': nat, page: seq<Id>, rows: seq<Finding>,
                      matches0: map<Key, MatchEntry>, now: int, counters0: Counters)
      returns (error: Option<Error>, matches: map<Key, MatchEntry>, counters: Counters)
      requires IsStage(good, pre, mt, now, bucket) && WalkOf(pre, q)
      requires n' == n + |page| <= |q| && page == q[n..n'] && |rows| == |page|
      requires forall i | 0 <= i < |page| :: page[i] in pre && rows[i] == pre[page[i]]
      requires good(findings, KeysUpTo(pre, q, n), counters0)
      requires Remaining(matches0, mt, KeysUpTo(pre, q, n))
      modifies this`findings
      ensures findings.Keys == old(findings).Keys
      ensures error == None ==> good(findings, KeysUpTo(pre, q, n'), counters)
                                && Remaining(matches, mt, KeysUpTo(pre, q, n'))
      ensures error != None ==> UnsupportedRow(pre, error.value)
    {
      error, matches, counters := None, matches0, counters0;
      ghost var m := n;
      for i := 0 to |page|
        invariant m == n + i && error == None && findings.Keys == old(findings).Keys
        invariant good(findings, KeysUpTo(pre, q, m), counters) && Remaining(matches, mt, KeysUpTo(pre, q, m))
      {
        assert page[i] == q[m];
        m, error, matches, counters :=
          HandleNext(good, pre, mt, bucket, q, m, page[i], rows[i], matches, now, counters);
        if error.Some? {
          return;
        }
      }
    }

    method ReadRows(page: seq<Id>) returns (rows: seq<Finding>)
      requires forall id | id in page :: id in findings
      ensures |rows| == |page| && forall i | 0 <= i < |page| :: page[i] in findings && rows[i] == findings[page[i]]
    {
      rows := seq(|page|, i requires 0 <= i < |page| && page[i] in findings reads this => findings[page[i]]);
    }

    /** One page of the findings table: its rows are still what they were before the diff. */
    method ReadPage(ghost good: Stage, ghost pre: Table, ghost mt: Matching, ghost bucket: Key -> Bucket,
                    ghost q: seq<Id>, ghost n: nat, cursor: Id, limit: nat, ghost now: int, ghost counters: Counters)
      returns (page: seq<Id>, rows: seq<Finding>)
      requires IsStage(good, pre, mt, now, bucket) && WalkOf(pre, q) && findings.Keys == pre.Keys
      requires n <= |q| && cursor == CursorAt(q, n) && limit >= 1
      requires good(findings, KeysUpTo(pre, q, n), counters)
      ensures n + |page| <= |q| && page == q[n..n + |page|] && |rows| == |page|
      ensures |page| <= limit && (|page| < limit ==> n + |page| == |q|)
      ensures page != [] ==> page[|page| - 1] == CursorAt(q, n + |page|)
      ensures forall i | 0 <= i < |page| :: page[i] in pre && rows[i] == pre[page[i]]
    {
      page := NextPage(findings.Keys, q, n, cursor, limit);
      rows := ReadRows(page);
      RowsUnwritten(good, pre, mt, now, bucket, findings, q, n, page, rows, counters);
    }

    /** Handles the rows of one page; `more` is false at the end of the table. */
    method HandlePage(ghost good: Stage, ghost pre: Table, ghost mt: Matching, ghost bucket: Key -> Bucket,
                      ghost q: seq<Id>, n: nat, cursor: Id, limit: nat,
                      matches: map<Key, MatchEntry>, now: int, counters: Counters)
      returns (error: Option<Error>, n': nat, cursor': Id, more: bool,
               matches': map<Key, MatchEntry>, counters': Counters)
      requires IsStage(good, pre, mt, now, bucket) && WalkOf(pre, q) && findings.Keys == pre.Keys
      requires n <= |q| && cursor == CursorAt(q, n) && limit >= 1
      requires good(findings, KeysUpTo(pre, q, n), counters)
      requires Remaining(matches, mt, KeysUpTo(pre, q, n))
      modifies this`findings
      ensures findings.Keys == pre.Keys && n <= n' <= |q| && cursor' == CursorAt(q, n')
      ensures if more then n < n' else n' == |q|
      ensures error == None ==> good(findings, KeysUpTo(pre, q, n'), counters')
                                && Remaining(matches', mt, KeysUpTo(pre, q, n'))
      ensures error != None ==> UnsupportedRow(pre, error.value)
    {
      var page, rows := ReadPage(good, pre, mt, bucket, q, n, cursor, limit, now, counters);
      if |page| == 0 {
        return None, n, cursor, false, matches, counters;
      }
      n' := n + |page|;
      cursor' := page[|page| - 1];
      more := |page| == limit;
      error, matches', counters' := HandleRows(good, pre, mt, bucket, q, n, n', page, rows, matches, now, counters);
    }

    /** Walks the findings table by id while updating it. */
    method StreamFindings(ghost good: Stage, ghost pre: Table, ghost mt: Matching, ghost bucket: Key -> Bucket,
                          ghost q: seq<Id>, matches0: map<Key, MatchEntry>, now: int)
      returns (error: Option<Error>, total: nat, matches: map<Key, MatchEntry>, counters: Counters)
      requires IsStage(good, pre, mt, now, bucket) && WalkOf(pre, q) && findings.Keys == pre.Keys
      requires good(findings, KeysUpTo(pre, q, 0), Counters(0, 0, 0, 0))
      requires Remaining(matches0, mt, KeysUpTo(pre, q, 0))
      modifies this`findings
      ensures findings.Keys == pre.Keys
      ensures error == None ==> total == |q| && good(findings, KeysUpTo(pre, q, |q|), counters)
                                && Remaining(matches, mt, KeysUpTo(pre, q, |q|))
      ensures error != None ==> UnsupportedRow(pre, error.value)
    {
      error, total, matches, counters := None, 0, matches0, Counters(0, 0, 0, 0);
      var cursor, limit, more := "", PageSize(pageOverride), true;
      while more
        invariant total <= |q| && cursor == CursorAt(q, total) && findings.Keys == pre.Keys && error == None
        invariant good(findings, KeysUpTo(pre, q, total), counters)
        invariant Remaining(matches, mt, KeysUpTo(pre, q, total))
        invariant more || total == |q|
        decreases |q| - total, more
      {
        error, total, cursor, more, matches, counters :=
          HandlePage(good, pre, mt, bucket, q, total, cursor, limit, matches, now, counters);
        if error.Some? {
          return;
        }
      }
    }

    /** Opens a finding for every match that met no stored row. */
    method InsertRemaining(ghost good: Stage, ghost pre: Table, ghost mt: Matching, ghost bucket: Key -> Bucket,
                           ghost done0: set<Key>, matches: map<Key, MatchEntry>, now: int, counters0: Counters)
      returns (error: Option<Error>, ghost done: set<Key>, counters: Counters)
      requires IsStage(good, pre, mt, now, bucket) && good(findings, done0, counters0)
      requires SupplyFresh(mint, findings, nextId)
      requires done0 == KeysOf(pre) && Remaining(matches, mt, done0)
      modifies this`findings, this`nextId
      ensures SupplyFresh(mint, findings, nextId) && error == None
      ensures done == done0 + matches.Keys && good(findings, done, counters)
    {
      error, done, counters := None, done0, counters0;
      var todo := matches.Keys;
      while todo != {}
        invariant done == Handled(done0, matches.Keys, todo) && todo <= matches.Keys && error == None
        invariant SupplyFresh(mint, findings, nextId) && good(findings, done, counters)
        decreases |todo|
      {
        var k :| k in todo;
        HandledNext(done0, matches.Keys, todo, k);
        error, done, counters := HandleNew(good, pre, mt, bucket, done, k, matches[k], now, counters);
        todo := todo - {k};
      }
      HandledEnds(done0, matches.Keys);
    }

    /** The first two phases: page certificates, page the findings being updated. */
    method DiffStored(ghost good: Stage, ghost pre: Table, ghost mt: Matching, ghost bucket: Key -> Bucket, now: int)
      returns (error: Option<Error>, certTotal: nat, total: nat, rest: map<Key, MatchEntry>, counters: Counters)
      requires Valid() && pre == findings && mt == Matches(now)
      requires IsStage(good, pre, mt, now, bucket) && good(findings, {}, Counters(0, 0, 0, 0))
      modifies this`findings
      ensures SupplyFresh(mint, findings, nextId) && certTotal == |certs|
      ensures error == None ==> total == |pre| && good(findings, KeysOf(pre), counters)
                                && Remaining(rest, mt, KeysOf(pre))
      ensures error != None ==> UnsupportedRow(pre, error.value)
    {
      var matches;
      matches, certTotal := CollectPaged(now);
      ghost var q := SortedIds(findings.Keys);
      StartsEmpty(pre, q);
      error, total, rest, counters := StreamFindings(good, pre, mt, bucket, q, matches, now);
      AllStored(pre, q);
    }

    /** The streaming diff: page certificates, page the findings being updated, insert what is left. */
    method DiffStreaming(ghost good: Stage, ghost pre: Table, ghost mt: Matching, ghost bucket: Key -> Bucket, now: int)
      returns (error: Option<Error>, ghost done: set<Key>, summary: DiffSummary)
      requires Valid() && pre == findings && mt == Matches(now)
      requires IsStage(good, pre, mt, now, bucket) && good(findings, {}, Counters(0, 0, 0, 0))
      modifies this`findings, this`nextId
      ensures SupplyFresh(mint, findings, nextId)
      ensures error == None ==> done == Pairs(pre, certs, rules, now) && good(findings, done, summary.counters)
                                && summary.certificates == |certs| && summary.findings == |pre|
      ensures error != None ==> UnsupportedRow(pre, error.value)
    {
      var certTotal, total, rest, counters;
      error, certTotal, total, rest, counters := DiffStored(good, pre, mt, bucket, now);
      summary := DiffSummary(certTotal, total, counters);
      done := {};
      if error.Some? {
        return;
      }
      RestPairs(pre, certs, rules, now, mt, rest);
      error, done, counters := InsertRemaining(good, pre, mt, bucket, KeysOf(pre), rest, now, counters);
      summary := DiffSummary(certTotal, total, counters);
    }

    /** A successful streaming diff is a recompute; it fails only on a stored status it does not know. */
    method RunDiffStreaming(now: int) returns (r: Result<DiffSummary, Error>)
      requires Valid()
      modifies this`findings, this`nextId
      ensures SupplyFresh(mint, findings, nextId)
      ensures match r
        case Ok(summary) => Recompute(old(findings), findings, certs, rules, now, summary)
        case Err(e) => UnsupportedRow(old(findings), e)
      ensures r.Ok? <==> AllSupported(old(findings))
    {
      ghost var pre, mt := findings, Matches(now);
      ghost var bucket := Buckets(pre, mt, now);
      ghost var good := MakeStage(pre, mt, now, bucket);
      var error, summary;
      ghost var done;
      error, done, summary := DiffStreaming(good, pre, mt, bucket, now);
      if error.Some? {
        return Err(error.value);
      }
      Finished(good, pre, findings, certs, rules, now, done, summary);
      RecomputeSupported(pre, findings, certs, rules, now, summary);
      return Ok(summary);
    }

    // --- public operations ---------------------------------------------------------------------------

    /** One recompute transaction: the diff and its audit row together, or nothing at all. */
    method RecomputeWithActor(actor: string, now: int) returns (r: Result<DiffSummary, Error>)
      requires Valid()
      modifies this`findings, this`nextId, this`audit
      ensures Valid()
      ensures match r
        case Ok(summary) =>
          && Recompute(old(findings), findings, certs, rules, now, summary)
          && audit == old(audit) + [Recomputed(actor, summary, |rules|, now)]
        case Err(e) => UnsupportedRow(old(findings), e) && findings == old(findings) && audit == old(audit)
      ensures r.Ok? <==> AllSupported(old(findings))
    {
      var before := (findings, nextId);
      r := RunDiffStreaming(now);
      if r.Err? {
        findings, nextId := before.0, before.1;
        return;
      }
      audit := audit + [Recomputed(actor, r.value, |rules|, now)];
    }

    /** The actor written to the audit: a blank one is the system. */
    function AuditActor(actorUserId: string): (actor: string)
      ensures trim(actorUserId) == "" ==> actor == "system"
      ensures trim(actorUserId) != "" ==> actor == trim(actorUserId)
    {
      if trim(actorUserId) == "" then "system" else trim(actorUserId)
    }

    /** The operator's recompute: an actor that is blank after trimming is recorded as the system. */
    method RecomputeByOperator(actorUserId: string, now: int) returns (r: Result<DiffSummary, Error>)
      requires Valid()
      modifies this`findings, this`nextId, this`audit
      ensures Valid()
      ensures match r
        case Ok(summary) =>
          && Recompute(old(findings), findings, certs, rules, now, summary)
          && audit == old(audit) + [Recomputed(AuditActor(actorUserId), summary, |rules|, now)]
        case Err(e) => UnsupportedRow(old(findings), e) && findings == old(findings) && audit == old(audit)
      ensures r.Ok? <==> AllSupported(old(findings))
    {
      var actor := trim(actorUserId);
      if actor == "" {
        actor := "system";
      }
      r := RecomputeWithActor(actor, now);
    }

    /** The same transaction over the load-all diff. */
    method RecomputeLegacyLoadAll(actorUserId: string, now: int) returns (r: Result<DiffSummary, Error>)
      requires Valid()
      modifies this`findings, this`nextId, this`audit
      ensures Valid()
      ensures match r
        case Ok(summary) =>
          && Recompute(old(findings), findings, certs, rules, now, summary)
          && audit == old(audit) + [Recomputed(AuditActor(actorUserId), summary, |rules|, now)]
        case Err(e) => UnsupportedRow(old(findings), e) && findings == old(findings) && audit == old(audit)
      ensures r.Ok? <==> AllSupported(old(findings))
    {
      var actor := trim(actorUserId);
      if actor == "" {
        actor := "system";
      }
      var before := (findings, nextId);
      r := RunDiffLoadAll(now);
      if r.Err? {
        findings, nextId := before.0, before.1;
        return;
      }
      audit := audit + [Recomputed(actor, r.value, |rules|, now)];
    }

    predicate BlankOrLong(reason: string) {
      trim(reason) == "" || |trim(reason)| > 1000
    }

    /** Writes the operator's intent on one finding, whatever its status, with its audit row. */
    method ApplyOverride(id: Id, actor: string, reason: string, status: Status, expiresAt: Option<int>, now: int)
      returns (r: Result<Finding, Error>)
      requires Valid()
      modifies this`findings, this`audit
      ensures Valid()
      ensures if id in old(findings)
        then var f := old(findings)[id]; var f' := OverrideRow(f, status, reason, actor, expiresAt, now);
             && r == Ok(f') && findings == old(findings)[id := f']
             && CarriesIntent(f, f', status, reason, actor, expiresAt, now)
             && audit == old(audit) + [Overridden(id, actor, f.status, status, reason, expiresAt, now)]
        else r == Err(FindingNotFound) && findings == old(findings) && audit == old(audit)
    {
      if id !in findings {
        return Err(FindingNotFound);
      }
      var f := findings[id];
      var next := OverrideRow(f, status, reason, actor, expiresAt, now);
      SameKeys(findings, id, next);
      var error := UpdateFinding(id, next);
      audit := audit + [Overridden(id, actor, f.status, status, reason, expiresAt, now)];
      return Ok(next);
    }

    method AcknowledgeFinding(id: Id, actor: string, reason: string, now: int) returns (r: Result<Finding, Error>)
      requires Valid()
      modifies this`findings, this`audit
      ensures Valid()
      ensures r == Err(InvalidOverride) <==> trim(id) == "" || trim(actor) == "" || BlankOrLong(reason)
      ensures r.Ok? ==> id in old(findings) && findings == old(findings)[id :=
                OverrideRow(old(findings)[id], Acknowledged, trim(reason), actor, None, now)]
      ensures r.Ok? ==> r == Ok(findings[id])
      ensures r.Ok? ==> CarriesIntent(old(findings)[id], r.value, Acknowledged, trim(reason), actor, None, now)
      ensures r.Ok? ==>
        audit == old(audit) + [Overridden(id, actor, old(findings)[id].status, Acknowledged, trim(reason), None, now)]
      ensures r.Err? && r.error != InvalidOverride ==> r.error == FindingNotFound && id !in findings
      ensures r.Err? ==> findings == old(findings) && audit == old(audit)
    {
      if trim(id) == "" || trim(actor) == "" || trim(reason) == "" || |trim(reason)| > MAX_REASON_LENGTH {
        return Err(InvalidOverride);
      }
      r := ApplyOverride(id, actor, trim(reason), Acknowledged, None, now);
    }

    /** `checkedAt` is the clock reading of the validation, `now` the one of the write. */
    method SuppressFinding(id: Id, actor: string, reason: string, expiresAt: Option<int>, checkedAt: int, now: int)
      returns (r: Result<Finding, Error>)
      requires Valid()
      modifies this`findings, this`audit
      ensures Valid()
      ensures r == Err(InvalidOverride) <==>
        trim(id) == "" || trim(actor) == "" || BlankOrLong(reason) || (expiresAt.Some? && expiresAt.value <= checkedAt)
      ensures r.Ok? ==> id in old(findings) && findings == old(findings)[id :=
                OverrideRow(old(findings)[id], Suppressed, trim(reason), actor, expiresAt, now)]
      ensures r.Ok? ==> r == Ok(findings[id])
      ensures r.Ok? ==> CarriesIntent(old(findings)[id], r.value, Suppressed, trim(reason), actor, expiresAt, now)
      ensures r.Ok? ==>
        audit == old(audit)
          + [Overridden(id, actor, old(findings)[id].status, Suppressed, trim(reason), expiresAt, now)]
      ensures r.Err? && r.error != InvalidOverride ==> r.error == FindingNotFound && id !in findings
      ensures r.Err? ==> findings == old(findings) && audit == old(audit)
    {
      if trim(id) == "" || trim(actor) == "" || trim(reason) == "" || |trim(reason)| > MAX_REASON_LENGTH {
        return Err(InvalidOverride);
      }
      if expiresAt.Some? && !(expiresAt.value > checkedAt) {
        return Err(InvalidOverride);
      }
      r := ApplyOverride(id, actor, trim(reason), Suppressed, expiresAt, now);
    }
  }

  /** The id order a walk over the table follows. */
  ghost predicate WalkOf(pre: Table, q: seq<Id>) {
    q == SortedIds(pre.Keys) && "" !in pre
  }

  /** The pairs of the first n rows of a walk. */
  ghost function KeysUpTo(pre: Table, q: seq<Id>, n: nat): set<Key> {
    if n == 0 then {}
    else KeysUpTo(pre, q, n - 1) + if n <= |q| && q[n - 1] in pre then {KeyOf(pre[q[n - 1]])} else {}
  }

  lemma {:induction false} KeysUpToMembers(pre: Table, q: seq<Id>, n: nat, k: Key)
    requires n <= |q| && forall i | 0 <= i < |q| :: q[i] in pre
    ensures k in KeysUpTo(pre, q, n) <==> exists i :: 0 <= i < n && KeyOf(pre[q[i]]) == k
  {
    if n > 0 {
      KeysUpToMembers(pre, q, n - 1, k);
    }
  }

  lemma {:induction false} WalkOrder(pre: Table, q: seq<Id>)
    requires WalkOf(pre, q)
    ensures (forall i | 0 <= i < |q| :: q[i] in pre) && (forall i, j | 0 <= i < j < |q| :: q[i] != q[j])
    ensures forall id | id in pre :: id in q
  {
    SortedIdsOrder(pre.Keys);
    AscendingDistinct(q);
    forall i | 0 <= i < |q| ensures q[i] in pre {
      assert q[i] in q;
    }
  }

  lemma {:induction false} NextKey(pre: Table, q: seq<Id>, m: nat, n: nat)
    requires WalkOf(pre, q) && UniqueKeys(pre) && m < |q| && n == m + 1
    ensures q[m] in pre && KeyOf(pre[q[m]]) !in KeysUpTo(pre, q, m)
    ensures KeysUpTo(pre, q, n) == KeysUpTo(pre, q, m) + {KeyOf(pre[q[m]])}
  {
    WalkOrder(pre, q);
    LaterKey(pre, q, m, m);
  }

  /** A row further along the walk has a pair not met before. */
  lemma {:induction false} LaterKey(pre: Table, q: seq<Id>, n: nat, m: nat)
    requires WalkOf(pre, q) && UniqueKeys(pre) && n <= m < |q|
    ensures q[m] in pre && KeyOf(pre[q[m]]) !in KeysUpTo(pre, q, n)
  {
    WalkOrder(pre, q);
    KeysUpToMembers(pre, q, n, KeyOf(pre[q[m]]));
  }

  lemma {:induction false} StartsEmpty(pre: Table, q: seq<Id>)
    ensures KeysUpTo(pre, q, 0) == {}
  {
  }

  lemma {:induction false} AllStored(pre: Table, q: seq<Id>)
    requires WalkOf(pre, q)
    ensures KeysUpTo(pre, q, |q|) == KeysOf(pre)
  {
    WalkOrder(pre, q);
    forall k ensures k in KeysUpTo(pre, q, |q|) <==> k in KeysOf(pre) {
      KeysUpToMembers(pre, q, |q|, k);
      if k in KeysOf(pre) {
        var id :| id in pre && KeyOf(pre[id]) == k;
        assert id in q;
        var i :| 0 <= i < |q| && q[i] == id;
      }
    }
  }

  lemma {:induction false} UnwrittenRow(
      good: Stage, pre: Table, mt: Matching, now: int, bucket: Key -> Bucket, t: Table,
      done: set<Key>, counters: Counters, id: Id)
    requires IsStage(good, pre, mt, now, bucket) && good(t, done, counters)
    requires id in pre && KeyOf(pre[id]) !in done
    ensures id in t && t[id] == pre[id]
  {
    StageMeans(good, pre, mt, now, bucket, t, done, counters);
  }

  /** The rows of the next page are still what they were before the diff. */
  lemma {:induction false} RowsUnwritten(
      good: Stage, pre: Table, mt: Matching, now: int, bucket: Key -> Bucket, t: Table,
      q: seq<Id>, n: nat, page: seq<Id>, rows: seq<Finding>, counters: Counters)
    requires IsStage(good, pre, mt, now, bucket) && WalkOf(pre, q) && good(t, KeysUpTo(pre, q, n), counters)
    requires n + |page| <= |q| && page == q[n..n + |page|] && |rows| == |page|
    requires forall i | 0 <= i < |page| :: page[i] in t && rows[i] == t[page[i]]
    ensures forall i | 0 <= i < |page| :: page[i] in pre && rows[i] == pre[page[i]]
  {
    StageUnique(good, pre, mt, now, bucket, t, KeysUpTo(pre, q, n), counters);
    forall i | 0 <= i < |page| ensures page[i] in pre && rows[i] == pre[page[i]] {
      var id := q[n + i];
      assert page[i] == id;
      LaterKey(pre, q, n, n + i);
      UnwrittenRow(good, pre, mt, now, bucket, t, KeysUpTo(pre, q, n), counters, id);
    }
  }

  lemma {:induction false} MatchTaken(
      matches: map<Key, MatchEntry>, mt: Matching, done: set<Key>, k: Key)
    requires Remaining(matches, mt, done) && k !in done
    ensures Remaining(matches - {k}, mt, done + {k})
    ensures mt(k) == if k in matches then Some(matches[k]) else None
  {
  }

  /** The matches left after the walk are the matching pairs that have no stored row. */
  lemma {:induction false} RestPairs(
      pre: Table, certs: map<Id, CertificateSummary>, rules: seq<Rule>, now: int, mt: Matching,
      rest: map<Key, MatchEntry>)
    requires mt == MatchingAt(certs, rules, now) && Remaining(rest, mt, KeysOf(pre))
    ensures KeysOf(pre) + rest.Keys == Pairs(pre, certs, rules, now)
  {
    forall k ensures k in KeysOf(pre) + rest.Keys <==> k in Pairs(pre, certs, rules, now) {
      MatchKeysExact(certs, rules, now, k);
    }
  }

  /** The matching pairs, and the stored pairs already walked. */
  ghost function Handled(matched: set<Key>, stored: set<Key>, todo: set<Key>): set<Key> {
    matched + (stored - todo)
  }

  lemma {:induction false} HandledNext(matched: set<Key>, stored: set<Key>, todo: set<Key>, k: Key)
    requires k in todo && todo <= stored
    ensures Handled(matched, stored, todo - {k}) == Handled(matched, stored, todo) + {k}
    ensures k in matched ==> Handled(matched, stored, todo - {k}) == Handled(matched, stored, todo)
    ensures k in Handled(matched, stored, todo) <==> k in matched
  {
  }

  lemma {:induction false} UnmatchedPairs(
      certs: map<Id, CertificateSummary>, mt: Matching, matches: map<Key, MatchEntry>,
      existing: map<Key, (Id, Finding)>, rules: seq<Rule>, now: int)
    requires mt == MatchingAt(certs, rules, now) && Remaining(matches, mt, {})
    ensures forall k | k in existing && k !in matches :: mt(k) == None
  {
  }

  /** A diff that handled every pair is a recompute. */
  lemma {:induction false} Finished(
      good: Stage, pre: Table, post: Table, certs: map<Id, CertificateSummary>, rules: seq<Rule>, now: int,
      done: set<Key>, summary: DiffSummary)
    requires IsStage(good, pre, MatchingAt(certs, rules, now), now, Buckets(pre, MatchingAt(certs, rules, now), now))
    requires good(post, done, summary.counters) && done == Pairs(pre, certs, rules, now)
    requires summary.certificates == |certs| && summary.findings == |pre|
    ensures Recompute(pre, post, certs, rules, now, summary)
  {
    StageMeans(good, pre, MatchingAt(certs, rules, now), now, Buckets(pre, MatchingAt(certs, rules, now), now),
               post, done, summary.counters);
  }

  /** byKey maps the pair of every listed finding to its id and row. */
  ghost predicate Indexes(byKey: map<Key, (Id, Finding)>, t: Table, ids: set<Id>) {
    && (forall id | id in ids :: id in t && KeyOf(t[id]) in byKey && byKey[KeyOf(t[id])] == (id, t[id]))
    && (forall k | k in byKey :: byKey[k].0 in ids && byKey[k].0 in t && KeyOf(t[byKey[k].0]) == k)
  }

  lemma {:induction false} IndexNext(byKey: map<Key, (Id, Finding)>, t: Table, ids: set<Id>, id: Id)
    requires Indexes(byKey, t, ids) && id in t && UniqueKeys(t)
    ensures Indexes(byKey[KeyOf(t[id]) := (id, t[id])], t, ids + {id})
  {
  }

  /** The pairs handled by the two walks are all the pairs, and the index has one entry per finding. */
  lemma {:induction false} AllPairs(
      pre: Table, certs: map<Id, CertificateSummary>, rules: seq<Rule>, now: int,
      matches: map<Key, MatchEntry>, existing: map<Key, (Id, Finding)>)
    requires Remaining(matches, MatchingAt(certs, rules, now), {})
    requires Indexes(existing, pre, pre.Keys) && UniqueKeys(pre)
    ensures Handled(matches.Keys, existing.Keys, existing.Keys) == matches.Keys
    ensures Handled(matches.Keys, existing.Keys, {}) == Pairs(pre, certs, rules, now) && |existing| == |pre|
  {
    MatchedKeys(certs, rules, now, matches);
    IndexedKeys(existing, pre);
    HandledEnds(matches.Keys, existing.Keys);
    OneKeyEach(pre);
  }

  lemma {:induction false} HandledEnds(matched: set<Key>, stored: set<Key>)
    ensures Handled(matched, stored, stored) == matched && Handled(matched, stored, {}) == matched + stored
  {
  }

  lemma {:induction false} IndexedKeys(byKey: map<Key, (Id, Finding)>, t: Table)
    requires Indexes(byKey, t, t.Keys)
    ensures byKey.Keys == KeysOf(t)
  {
    forall k ensures k in byKey.Keys <==> k in KeysOf(t) {
      if k in KeysOf(t) { var id :| id in t && KeyOf(t[id]) == k; }
    }
  }

  lemma {:induction false} MatchedKeys(
      certs: map<Id, CertificateSummary>, rules: seq<Rule>, now: int, matches: map<Key, MatchEntry>)
    requires Remaining(matches, MatchingAt(certs, rules, now), {})
    ensures matches.Keys == MatchKeys(certs, rules, now)
  {
    forall k ensures k in matches <==> k in MatchKeys(certs, rules, now) {
      MatchKeysExact(certs, rules, now, k);
    }
  }

  lemma {:induction false} OneKeyEach(t: Table)
    requires UniqueKeys(t)
    ensures |KeysOf(t)| == |t|
  {
    if t == map[] {
      assert KeysOf(t) == {};
    } else {
      var id :| id in t;
      var rest := t - {id};
      OneKeyEach(rest);
      assert t == rest[id := t[id]];
      AddedKeys(rest, id, t[id]);
      assert KeyOf(t[id]) !in KeysOf(rest);
    }
  }

  lemma {:induction false} AllMembers(keys: set<Id>, q: seq<Id>)
    requires q == SortedIds(keys)
    ensures Members(q[..|q|]) == keys
  {
    SortedIdsOrder(keys);
    assert q[..|q|] == q;
  }

  ghost function Members(q: seq<Id>): set<Id> {
    set i | 0 <= i < |q| :: q[i]
  }

  lemma {:induction false} MembersNext(q: seq<Id>, i: nat)
    requires i < |q|
    ensures Members(q[..i + 1]) == Members(q[..i]) + {q[i]}
    ensures (forall a, b | 0 <= a < b < |q| :: q[a] != q[b]) ==> q[i] !in Members(q[..i])
  {
    assert q[..i + 1] == q[..i] + [q[i]];
    assert forall x | x in Members(q[..i]) :: x in Members(q[..i + 1]) by {
      forall x | x in Members(q[..i]) ensures x in Members(q[..i + 1]) {
        var k :| 0 <= k < i && q[..i][k] == x;
        assert q[..i + 1][k] == x;
      }
    }
    assert q[..i + 1][i] in Members(q[..i + 1]);
  }

  /** The next slice of a walk over distinct keys brings only new members. */
  lemma {:induction false} FreshSlice(q: seq<Id>, n: nat, page: seq<Id>)
    requires n + |page| <= |q| && page == q[n..n + |page|] && forall a, b | 0 <= a < b < |q| :: q[a] != q[b]
    ensures Members(q[..n + |page|]) == Members(q[..n]) + Members(page)
    ensures forall c | c in page :: c in q && c !in Members(q[..n])
    ensures forall i, j | 0 <= i < j < |page| :: page[i] != page[j]
  {
    SliceAppend(q, n, page);
    MembersAppend(q[..n], page);
    forall c | c in page ensures c in q && c !in Members(q[..n]) {
      var i :| 0 <= i < |page| && page[i] == c;
      assert q[n + i] == c;
    }
    assert forall i | 0 <= i < |page| :: page[i] == q[n + i];
  }

  lemma {:induction false} FreshCerts(keys: set<Id>, q: seq<Id>, n: nat, page: seq<Id>)
    requires q == SortedIds(keys) && n + |page| <= |q| && page == q[n..n + |page|]
    ensures Members(q[..n + |page|]) == Members(q[..n]) + Members(page)
    ensures forall c | c in page :: c in keys && c !in Members(q[..n])
    ensures forall i, j | 0 <= i < j < |page| :: page[i] != page[j]
  {
    SortedIdsOrder(keys);
    AscendingDistinct(q);
    FreshSlice(q, n, page);
  }

  lemma {:induction false} MembersAppend(a: seq<Id>, b: seq<Id>)
    ensures Members(a + b) == Members(a) + Members(b)
  {
    forall x ensures x in Members(a + b) <==> x in Members(a) || x in Members(b) {
      assert x in Members(a + b) <==> x in a + b;
      assert x in Members(a) <==> x in a;
      assert x in Members(b) <==> x in b;
    }
  }

  /** matches' is matches plus what the listed rules find on one certificate. */
  ghost predicate ExtendsBy(
      matches: map<Key, MatchEntry>, matches': map<Key, MatchEntry>, certId: Id, rules: seq<Rule>,
      cert: CertificateSummary, now: int)
  {
    forall k: Key ::
      if k.certId == certId
      then (var e := LastMatch(rules, certId, cert, now, k.ruleId);
            (k in matches' <==> e.Some?) && (k in matches' ==> e == Some(matches'[k])))
      else (k in matches' <==> k in matches) && (k in matches' ==> matches'[k] == matches[k])
  }

  lemma {:induction false} ExtendNext(
      matches: map<Key, MatchEntry>, sofar: map<Key, MatchEntry>, certId: Id, rules: seq<Rule>, i: nat,
      cert: CertificateSummary, now: int)
    requires i < |rules| && ExtendsBy(matches, sofar, certId, rules[..i], cert, now)
    ensures var m := rules[i].evaluate(certId, cert, now);
      ExtendsBy(matches,
                if m.None? then sofar else sofar[Key(certId, rules[i].id) := MatchEntry(rules[i], m.value)],
                certId, rules[..i + 1], cert, now)
  {
    var longer := rules[..i + 1];
    assert longer[..i] == rules[..i] && longer[i] == rules[i];
    forall r ensures LastMatch(longer, certId, cert, now, r)
                  == (var e := rules[i].evaluate(certId, cert, now);
                      if rules[i].id == r && e.Some? then Some(MatchEntry(rules[i], e.value))
                      else LastMatch(rules[..i], certId, cert, now, r)) {
    }
  }

  lemma {:induction false} StoredDecision(
      pre: Table, post: Table, mt: Matching, done: set<Key>, id: Id, prior: Finding, m: Option<MatchEntry>,
      now: int, bucket: Key -> Bucket)
    requires Progress(pre, post, mt, now, done) && UniqueKeys(pre) && bucket == Buckets(pre, mt, now)
    requires id in pre && prior == pre[id] && KeyOf(prior) !in done && m == mt(KeyOf(prior))
    requires DecidePair(id, Some(prior), KeyOf(prior), m, now).Ok?
    ensures var d := DecidePair(id, Some(prior), KeyOf(prior), m, now).value;
      var post' := if d.op == Update then post[id := d.next.value] else post;
      && id in post && d.op != Insert && (d.op == Update ==> d.next.Some?)
      && Progress(pre, post', mt, now, done + {KeyOf(prior)})
      && d.bucket == bucket(KeyOf(prior))
  {
    var d := DecidePair(id, Some(prior), KeyOf(prior), m, now).value;
    ProgressUpdate(pre, post, mt, now, done, id, KeyOf(prior), Rewritten(prior, m, now));
    if d.op == NoChange {
      assert post[id := Rewritten(prior, m, now)] == post;
    }
    PriorIs(pre, id);
  }
}
