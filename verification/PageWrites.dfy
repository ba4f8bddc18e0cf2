/** What one page of the sweep and one page of the prune write and report, told from the tables before it. */
module PageWrites {
  import opened Wrappers
  import opened Ids
  import opened Engine
  import opened Ownership
  import opened PassLemmas
  import opened OwnershipInvariants
  import opened MaintenanceJobs
  import Runner

  // --- the sweep --------------------------------------------------------------------------------

  /** The overdue overrides of these certificates are cleared now by the system, the others are as they were. */
  ghost predicate ClearedAt(a: map<Id, Override>, b: map<Id, Override>, page: seq<Id>, now: int) {
    && b.Keys == a.Keys
    && forall o | o in a ::
         b[o] == if a[o].certId in page && Overdue(a[o], now)
                 then a[o].(cleared := Some(Clearance(now, "system", "auto-expired"))) else a[o]
  }

  /** One row for each certificate of the page, about its overdue override. */
  ghost predicate ExpiryRows(a: map<Id, Override>, page: seq<Id>, now: int, rows: seq<Event>) {
    |rows| == |page| && forall i | 0 <= i < |page| :: ExpiryRow(a, page[i], now, rows[i])
  }

  ghost predicate ExpiryRow(a: map<Id, Override>, c: Id, now: int, row: Event) {
    && row.OverrideExpired? && row.certId == c && row.overrideId in a && a[row.overrideId].certId == c
    && Overdue(a[row.overrideId], now) && a[row.overrideId].service == row.service
  }

  /** Certificates whose one uncleared override is overdue. */
  ghost predicate AllOverdue(a: map<Id, Override>, page: seq<Id>, now: int) {
    forall c | c in page :: ActiveOverride(a, c).Some? && Overdue(a[ActiveOverride(a, c).value], now)
  }

  lemma {:induction false} ClearedNext(
      a: map<Id, Override>, m: map<Id, Override>, page: seq<Id>, c: Id, id: Id, now: int, b: map<Id, Override>)
    requires OneActive(a) && ClearedAt(a, m, page, now) && c !in page
    requires id in a && a[id].certId == c && Overdue(a[id], now)
    requires b == m[id := m[id].(cleared := Some(Clearance(now, "system", "auto-expired")))]
    ensures ClearedAt(a, b, page + [c], now)
  {
  }

  /** The sweep of these certificates has left this. */
  ghost predicate SweptTo(pre: State, page: seq<Id>, now: int, post: State, rows: seq<Event>) {
    && ClearedAt(pre.overrides, post.overrides, page, now)
    && ExpiryRows(pre.overrides, page, now, rows) && post.audit == pre.audit + rows
  }

  lemma {:induction false} OneSwept(
      p: Platform, pre: State, mid: State, done: seq<Id>, c: Id, id: Id, now: int, post: State, rows: seq<Event>)
    returns (rows': seq<Event>)
    requires OneActive(pre.overrides) && SweptTo(pre, done, now, mid, rows) && c !in done
    requires id in pre.overrides && pre.overrides[id].certId == c && Overdue(pre.overrides[id], now)
    requires SweepOne(p, mid, c, id, pre.overrides[id], now) == Ok(post)
    ensures SweptTo(pre, done + [c], now, post, rows')
  {
    OneWritten(p, mid, c, id, pre.overrides[id], now, post);
    ClearedNext(pre.overrides, mid.overrides, done, c, id, now, post.overrides);
    rows' := rows + [OverrideExpired(c, id, pre.overrides[id].service)];
    RowAdded(pre.overrides, done, c, now, rows, OverrideExpired(c, id, pre.overrides[id].service));
  }

  lemma {:induction false} OneWritten(p: Platform, mid: State, c: Id, id: Id, o: Override, now: int, post: State)
    requires Clearable(mid, id) && SweepOne(p, mid, c, id, o, now) == Ok(post)
    ensures post.overrides
         == mid.overrides[id := mid.overrides[id].(cleared := Some(Clearance(now, "system", "auto-expired")))]
    ensures post.audit == mid.audit + [OverrideExpired(c, id, o.service)]
  {
  }

  lemma {:induction false} RowAdded(
      a: map<Id, Override>, done: seq<Id>, c: Id, now: int, rows: seq<Event>, row: Event)
    requires ExpiryRows(a, done, now, rows) && ExpiryRow(a, c, now, row)
    ensures ExpiryRows(a, done + [c], now, rows + [row])
  {
  }

  lemma {:induction false} NextOverdue(a: map<Id, Override>, page: seq<Id>, now: int, m: nat)
    requires AllOverdue(a, page, now) && m < |page|
    requires forall i, j | 0 <= i < j < |page| :: page[i] != page[j]
    ensures page[m] !in page[..m] && ActiveOverride(a, page[m]).Some?
    ensures var id := ActiveOverride(a, page[m]).value; a[id].certId == page[m] && Overdue(a[id], now)
  {
    assert page[m] in page;
  }

  lemma {:induction false} SweptRows(p: Platform, pre: State, page: seq<Id>, n: nat, now: int, post: State)
    returns (rows: seq<Event>)
    requires OneActive(pre.overrides) && AllOverdue(pre.overrides, page, now) && n <= |page|
    requires forall i, j | 0 <= i < j < |page| :: page[i] != page[j]
    requires SweepAll(p, pre, pre, page[..n], now) == Ok(post)
    ensures SweptTo(pre, page[..n], now, post, rows)
  {
    rows := [];
    if n > 0 {
      var m := n - 1;
      assert page[..n][..m] == page[..m] && page[..n] == page[..m] + [page[m]];
      var mid := SweepAll(p, pre, pre, page[..m], now).value;
      rows := SweptRows(p, pre, page, m, now, mid);
      NextOverdue(pre.overrides, page, now, m);
      rows := OneSwept(p, pre, mid, page[..m], page[m], ActiveOverride(pre.overrides, page[m]).value, now, post, rows);
    }
  }

  lemma {:induction false} ListedOverdue(st: State, now: int, page: seq<Id>)
    requires OneActive(st.overrides) && forall c | c in page :: c in ExpiringCerts(st, now)
    ensures AllOverdue(st.overrides, page, now)
  {
    forall c | c in page
      ensures ActiveOverride(st.overrides, c).Some? && Overdue(st.overrides[ActiveOverride(st.overrides, c).value], now)
    {
      var o :| o in st.overrides && st.overrides[o].cleared.None? && Expired(st.overrides[o], now)
               && st.overrides[o].certId == c;
      assert o in ActiveIds(st.overrides, c);
    }
  }

  /** The certificates with an overdue override, and only they, are listed. */
  lemma {:induction false} ListingMeaning(st: State, now: int, c: Id)
    ensures c in ExpiringCerts(st, now) <==>
      exists o :: o in st.overrides && st.overrides[o].certId == c && Overdue(st.overrides[o], now)
  {
    if o :| o in st.overrides && st.overrides[o].certId == c && Overdue(st.overrides[o], now) {
      assert st.overrides[o].cleared.None? && Expired(st.overrides[o], now);
    }
  }

  /**
    A sweep page that succeeds clears the overdue overrides of the certificates it lists, each now and as the
    system, and no other override; writes one row about each, in order; and reports them as scanned and changed.
  */
  lemma {:induction false} SweepPageWrites(
      p: Platform, limit: nat, found: Clocked, cursor: Id, left: Clocked, r: Runner.PageResult)
    returns (rows: seq<Event>)
    requires OneActive(found.tables.overrides) && SweepPage(p, limit, found, cursor) == Some((left, r))
    ensures var page := Page(ExpiringCerts(found.tables, found.now), cursor, limit);
      && ClearedAt(found.tables.overrides, left.tables.overrides, page, found.now) && left.now == found.now
      && ExpiryRows(found.tables.overrides, page, found.now, rows)
      && left.tables.audit == found.tables.audit + rows
      && r.itemsScanned == |page| == r.itemsChanged
  {
    var page := Page(ExpiringCerts(found.tables, found.now), cursor, limit);
    ExpiringPage(found.tables, found.now, cursor, limit);
    ListedOverdue(found.tables, found.now, page);
    assert page[..|page|] == page;
    rows := SweptRows(p, found.tables, page, |page|, found.now, left.tables);
  }

  // --- the prune --------------------------------------------------------------------------------------

  /** Some explanations are gone, as many as counted; everything else is as it was. */
  ghost predicate OnlyDeletes(st: State, st': State, deleted: nat) {
    && st' == st.(explanations := st'.explanations)
    && (forall e | e in st'.explanations :: e in st.explanations && st'.explanations[e] == st.explanations[e])
    && |st.explanations| == |st'.explanations| + deleted
  }

  lemma {:induction false} KeysLeft(a: map<Id, Explanation>, gone: set<Id>)
    requires gone <= a.Keys
    ensures |a| == |a - gone| + |gone|
  {
    assert (a - gone).Keys == a.Keys - gone;
    assert |a.Keys| == |a.Keys - gone| + |gone|;
    assert |a| == |a.Keys| && |a - gone| == |(a - gone).Keys|;
  }

  lemma {:induction false} PruneCertDeletes(st: State, c: Id, keepN: nat, cutoff: int, perCert: nat)
    ensures var (st', deleted) := PruneCert(st, c, keepN, cutoff, perCert); OnlyDeletes(st, st', deleted)
  {
    KeysLeft(st.explanations, Deletable(st, c, PruneBatch(st, c, keepN, cutoff, perCert)));
  }

  lemma {:induction false} DeletesTwice(a: State, b: State, c: State, m: nat, n: nat)
    requires OnlyDeletes(a, b, m) && OnlyDeletes(b, c, n)
    ensures OnlyDeletes(a, c, m + n)
  {
  }

  lemma {:induction false} FirstDeletes(step: PruneStep, st: State, page: seq<Id>, n: nat)
    requires n <= |page| && forall s, c :: OnlyDeletes(s, step(s, c).0, step(s, c).1)
    ensures OnlyDeletes(st, PruneFirst(step, st, page, n).0, PruneFirst(step, st, page, n).1)
  {
    if n > 0 {
      FirstDeletes(step, st, page, n - 1);
      var (mid, deleted) := PruneFirst(step, st, page, n - 1);
      var (st', more) := step(mid, page[n - 1]);
      assert OnlyDeletes(mid, st', more);
      DeletesTwice(st, mid, st', deleted, more);
    }
  }

  lemma {:induction false} AllDelete(st: State, page: seq<Id>, keepN: nat, cutoff: int, perCert: nat)
    ensures var (st', deleted) := PruneAll(st, page, keepN, cutoff, perCert); OnlyDeletes(st, st', deleted)
  {
    forall s: State, c: Id
      ensures OnlyDeletes(s, PruneCertAt(keepN, cutoff, perCert)(s, c).0, PruneCertAt(keepN, cutoff, perCert)(s, c).1)
    {
      PruneCertDeletes(s, c, keepN, cutoff, perCert);
    }
    FirstDeletes(PruneCertAt(keepN, cutoff, perCert), st, page, |page|);
  }

  /**
    A prune page only deletes explanations. It reports how many, and writes one row with that number, the
    certificates it looked at and both its cursors iff there were any.
  */
  lemma {:induction false} PrunePageWrites(r: Pruning, limit: nat, found: Clocked, cursor: Id)
    ensures PrunePage(r, limit, found, cursor).None? <==> r.policy.keepN < 1 || r.policy.maxAge <= 0
    ensures PrunePage(r, limit, found, cursor).Some? ==>
      var (left, answer) := PrunePage(r, limit, found, cursor).value;
      var deleted, st, st' := answer.itemsChanged, found.tables, left.tables;
      && left.now == found.now && OnlyDeletes(st.(audit := st'.audit), st', deleted)
      && answer.itemsScanned == |Page(ExplainedCerts(st.explanations), cursor, limit)|
      && st'.audit == if deleted == 0 then st.audit
           else st.audit + [ExplanationsPruned(deleted, answer.itemsScanned, cursor, answer.nextCursor)]
  {
    if ValidPruning(r) {
      AllDelete(found.tables, Page(ExplainedCerts(found.tables.explanations), cursor, limit), r.policy.keepN,
                found.now - r.policy.maxAge, r.perCert);
    }
  }
}
