/**
  What one step of a recompute pass touches, and how a step reads when its override is given
  as a loaded entry.
*/
module PassLemmas {
  import opened Wrappers
  import opened Ids
  import opened Engine
  import opened Ownership

  ghost predicate PassInput(pre: State, q: seq<Id>) {
    && (forall c | c in q :: c in pre.certs)
    && (forall i, j | 0 <= i < j < |q| :: q[i] != q[j])
  }

  /** The override snapshot a pass works from. */
  ghost predicate LoadedFrom(pre: State, active: map<Id, (Id, Override)>) {
    forall c :: EntryLoaded(pre, active, c)
  }

  ghost predicate EntryLoaded(pre: State, active: map<Id, (Id, Override)>, c: Id) {
    EntryOf(pre, c) == if c in active then Some(active[c]) else None
  }

  /** An uncleared override whose expiry has come. */
  ghost predicate Overdue(o: Override, now: int) {
    o.cleared.None? && o.expiresAt.Some? && o.expiresAt.value <= now
  }

  lemma {:induction false} PassNext(
      p: Platform, pre: State, rules: seq<CompiledRule>, q: seq<Id>, n: nat, n': nat, now: int, st: State)
    requires n < |q| && n' == n + 1 && (forall c | c in q :: c in pre.certs) && st == Pass(p, pre, rules, q, n, now)
    ensures q[n] in pre.certs && st.overrides.Keys == pre.overrides.Keys
    ensures Pass(p, pre, rules, q, n', now) == PassStep(p, pre, st, rules, q[n], now)
  {
    assert q[n] in q;
  }

  lemma {:induction false} PassTallyNext(
      p: Platform, pre: State, rules: seq<CompiledRule>, q: seq<Id>, n: nat, n': nat, now: int, t: Tally)
    requires n < |q| && n' == n + 1 && (forall c | c in q :: c in pre.certs) && t == PassTally(p, pre, rules, q, n, now)
    ensures q[n] in pre.certs
    ensures PassTally(p, pre, rules, q, n', now)
         == Counted(Seen(t, Expiry(q[n], EntryOf(pre, q[n]), now)), q[n], PriorRow(pre, q[n]),
                    PassDecision(p, pre, rules, q[n], now))
  {
    assert q[n] in q;
  }

  /** One more certificate, read through its loaded override. */
  lemma {:induction false} NextByEntry(
      p: Platform, pre: State, rules: seq<CompiledRule>, q: seq<Id>, n: nat, n': nat, now: int, st: State, t: Tally,
      entry: Option<(Id, Override)>, d: Decision)
    requires n < |q| && n' == n + 1 && (forall c | c in q :: c in pre.certs) && entry == EntryOf(pre, q[n])
    requires st == Pass(p, pre, rules, q, n, now) && t == PassTally(p, pre, rules, q, n, now)
    requires q[n] in pre.certs && d == Decide(p.lib, pre.certs[q[n]], UsablePin(entry, now), rules, now)
    ensures (entry.Some? ==> entry.value.0 in st.overrides)
    ensures Pass(p, pre, rules, q, n', now) == Settle(p, Cleaned(st, entry, now), q[n], pre.certs[q[n]], d, now)
    ensures PassTally(p, pre, rules, q, n', now)
         == Counted(Seen(t, Expiry(q[n], entry, now)), q[n], PriorRow(pre, q[n]), d)
  {
    PassNext(p, pre, rules, q, n, n', now, st);
    PassTallyNext(p, pre, rules, q, n, n', now, t);
  }

  lemma {:induction false} EarlierDiffer(pre: State, q: seq<Id>, n: nat)
    requires PassInput(pre, q) && n < |q|
    ensures q[n] !in q[..n] && q[n] in pre.certs
  {
    assert q[n] in q;
  }

  /** The certificate order a pass walks is a valid input and covers every certificate. */
  lemma {:induction false} CertOrder(pre: State)
    ensures PassInput(pre, SortedIds(pre.certs.Keys))
    ensures FirstRun(pre) <==> AllNewUpTo(pre, SortedIds(pre.certs.Keys), |pre.certs.Keys|)
  {
    SortedIdsOrder(pre.certs.Keys);
    AscendingDistinct(SortedIds(pre.certs.Keys));
  }

  ghost predicate AllNew(pre: State, page: seq<Id>) {
    forall c | c in page :: c !in pre.rows
  }

  ghost predicate AllNewUpTo(pre: State, q: seq<Id>, n: nat)
    requires n <= |q|
  {
    forall i | 0 <= i < n :: q[i] !in pre.rows
  }

  lemma {:induction false} AllNewNext(pre: State, q: seq<Id>, n: nat, n': nat, page: seq<Id>)
    requires n' == n + |page| <= |q| && page == q[n..n']
    ensures AllNewUpTo(pre, q, n') <==> AllNewUpTo(pre, q, n) && AllNew(pre, page)
  {
    if AllNewUpTo(pre, q, n) && AllNew(pre, page) {
      forall i | 0 <= i < n' ensures q[i] !in pre.rows {
        if i >= n { assert page[i - n] in page; }
      }
    }
    if AllNewUpTo(pre, q, n') {
      forall c | c in page ensures c !in pre.rows {
        var i :| 0 <= i < |page| && page[i] == c;
        assert q[n + i] == c;
      }
    }
  }

  lemma {:induction false} FirstRunOfPage(pre: State, page: seq<Id>, priorById: map<Id, Row>)
    requires priorById == map c | c in page && c in pre.rows :: pre.rows[c]
    ensures |priorById| == 0 <==> AllNew(pre, page)
  {
    if c :| c in page && c in pre.rows { assert c in priorById; }
    if |priorById| > 0 { var c :| c in priorById; }
  }

  lemma {:induction false} SettleFrame(p: Platform, st: State, c: Id, sig: Signals, d: Decision, now: int)
    ensures var st' := Settle(p, st, c, sig, d, now);
      && st'.certs == st.certs && st'.rules == st.rules && st'.audit == st.audit && st'.overrides == st.overrides
      && forall x | x != c :: PriorRow(st', x) == PriorRow(st, x)
  {
  }

  /** One step leaves inputs, other certificates' rows and other certificates' overrides alone. */
  lemma {:induction false} PassStepFrame(p: Platform, pre: State, st: State, rules: seq<CompiledRule>, c: Id, now: int)
    requires c in pre.certs && st.overrides.Keys == pre.overrides.Keys
    ensures var st' := PassStep(p, pre, st, rules, c, now);
      && st'.certs == st.certs && st'.rules == st.rules && st'.audit == st.audit
      && st'.overrides.Keys == st.overrides.Keys
      && (forall x | x != c :: PriorRow(st', x) == PriorRow(st, x))
      && (forall o | o in st.overrides && pre.overrides[o].certId != c :: st'.overrides[o] == st.overrides[o])
  {
    SettleFrame(p, Cleaned(st, EntryOf(pre, c), now), c, pre.certs[c], PassDecision(p, pre, rules, c, now), now);
  }

  /** The first n steps touch only their own certificates: a later one still has its row and override. */
  lemma {:induction false} PassFrame(
      p: Platform, pre: State, rules: seq<CompiledRule>, q: seq<Id>, n: nat, now: int, x: Id)
    requires n <= |q| && (forall c | c in q :: c in pre.certs) && x !in q[..n]
    ensures var st := Pass(p, pre, rules, q, n, now);
      && PriorRow(st, x) == PriorRow(pre, x)
      && (forall o | o in pre.overrides && pre.overrides[o].certId == x :: st.overrides[o] == pre.overrides[o])
  {
    if n > 0 {
      assert q[..n] == q[..n - 1] + [q[n - 1]];
      PassFrame(p, pre, rules, q, n - 1, now, x);
      PassStepFrame(p, pre, Pass(p, pre, rules, q, n - 1, now), rules, q[n - 1], now);
    }
  }

  /** A certificate of the page about to be processed still has its pre-pass row. */
  lemma {:induction false} UnreadRow(
      p: Platform, pre: State, rules: seq<CompiledRule>, q: seq<Id>, n: nat, page: seq<Id>, now: int, c: Id)
    requires PassInput(pre, q) && n + |page| <= |q| && page == q[n..n + |page|] && c in page
    ensures PriorRow(Pass(p, pre, rules, q, n, now), c) == PriorRow(pre, c)
  {
    var i :| 0 <= i < |page| && page[i] == c;
    assert q[n + i] == c;
    PassFrame(p, pre, rules, q, n, now, c);
  }

  lemma {:induction false} PageUnread(
      p: Platform, pre: State, rules: seq<CompiledRule>, q: seq<Id>, n: nat, page: seq<Id>, now: int, st: State)
    requires PassInput(pre, q) && n + |page| <= |q| && page == q[n..n + |page|] && st == Pass(p, pre, rules, q, n, now)
    ensures forall c | c in page :: PriorRow(st, c) == PriorRow(pre, c)
  {
    forall c | c in page ensures PriorRow(st, c) == PriorRow(pre, c) {
      UnreadRow(p, pre, rules, q, n, page, now, c);
    }
  }

  lemma {:induction false} RowsOfPage(st: State, pre: State, page: seq<Id>, priorById: map<Id, Row>)
    requires forall c | c in page :: PriorRow(st, c) == PriorRow(pre, c)
    requires priorById == map c | c in page && c in st.rows :: st.rows[c]
    ensures priorById == map c | c in page && c in pre.rows :: pre.rows[c]
  {
    forall c | c in page ensures c in st.rows <==> c in pre.rows {
      assert PriorRow(st, c) == PriorRow(pre, c);
    }
    forall c | c in priorById ensures c in pre.rows && priorById[c] == pre.rows[c] {
      assert PriorRow(st, c) == PriorRow(pre, c);
    }
  }

  lemma {:induction false} PassKeepsInputs(
      p: Platform, pre: State, rules: seq<CompiledRule>, q: seq<Id>, n: nat, now: int)
    requires n <= |q| && (forall c | c in q :: c in pre.certs)
    ensures var st := Pass(p, pre, rules, q, n, now);
      st.certs == pre.certs && st.rules == pre.rules && st.audit == pre.audit && st.overrides.Keys == pre.overrides.Keys
  {
    if n > 0 {
      PassKeepsInputs(p, pre, rules, q, n - 1, now);
      PassStepFrame(p, pre, Pass(p, pre, rules, q, n - 1, now), rules, q[n - 1], now);
    }
  }

  lemma {:induction false} RecomputeValue(
      p: Platform, st: State, threshold: nat, now: int, q: seq<Id>, n: nat, rs: RuleSet, post: State, t: Tally)
    requires Compiled(p.lib, st.rules) == Ok(rs) && q == SortedIds(st.certs.Keys) && n == |q| && PassInput(st, q)
    requires post == Pass(p, st, rs.rules, q, n, now) && t == PassTally(p, st, rs.rules, q, n, now)
    ensures Recompute(p, st, threshold, now)
         == Ok(post.(audit := st.audit + PassEvents(FirstRun(st), t, rs.failures, threshold)))
  {
  }

  /** A fact about the tables, the tally and the number of certificates done, at one point of a pass. */
  type Stage = (State, Tally, nat) -> bool

  ghost predicate AtPoint(
      p: Platform, pre: State, rules: seq<CompiledRule>, q: seq<Id>, now: int, st: State, t: Tally, n: nat)
  {
    n <= |q| && PassInput(pre, q) && st == Pass(p, pre, rules, q, n, now) && t == PassTally(p, pre, rules, q, n, now)
  }

  /** `good` is the pass's loop invariant: its first n certificates are done and counted. */
  ghost predicate IsStage(good: Stage, p: Platform, pre: State, rules: seq<CompiledRule>, q: seq<Id>, now: int) {
    forall st: State, t: Tally, n: nat {:trigger AtPoint(p, pre, rules, q, now, st, t, n)} ::
      good(st, t, n) <==> AtPoint(p, pre, rules, q, now, st, t, n)
  }

  lemma {:induction false} StageMeans(
      good: Stage, p: Platform, pre: State, rules: seq<CompiledRule>, q: seq<Id>, now: int, st: State, t: Tally, n: nat)
    requires IsStage(good, p, pre, rules, q, now)
    ensures good(st, t, n) <==> AtPoint(p, pre, rules, q, now, st, t, n)
  {
    var here := AtPoint(p, pre, rules, q, now, st, t, n);
    assert good(st, t, n) <==> here;
  }

  lemma {:induction false} MakeStage(p: Platform, pre: State, rules: seq<CompiledRule>, q: seq<Id>, now: int)
    returns (good: Stage)
    requires PassInput(pre, q)
    ensures IsStage(good, p, pre, rules, q, now) && good(pre, EMPTY_TALLY, 0)
  {
    good := (st: State, t: Tally, n: nat) => AtPoint(p, pre, rules, q, now, st, t, n);
    assert AtPoint(p, pre, rules, q, now, pre, EMPTY_TALLY, 0);
  }

  // --- the sweep -----------------------------------------------------------------------------

  lemma {:induction false} ExpiringPage(st: State, now: int, cursor: Id, limit: nat)
    ensures var page := Page(ExpiringCerts(st, now), cursor, limit);
      && (forall c | c in page :: ActiveOverride(st.overrides, c).Some?)
      && (forall i, j | 0 <= i < j < |page| :: page[i] != page[j])
  {
    var page := Page(ExpiringCerts(st, now), cursor, limit);
    forall c | c in page ensures ActiveOverride(st.overrides, c).Some? {
      var o :| o in st.overrides && st.overrides[o].cleared.None? && st.overrides[o].certId == c;
      assert o in ActiveIds(st.overrides, c);
    }
    PageAscending(ExpiringCerts(st, now), cursor, limit);
    AscendingDistinct(page);
  }

  lemma {:induction false} SweepErrorSticks(p: Platform, pre: State, page: seq<Id>, i: nat, now: int)
    requires i <= |page| && forall c | c in page :: ActiveOverride(pre.overrides, c).Some?
    requires SweepAll(p, pre, pre, page[..i], now).Err?
    ensures SweepAll(p, pre, pre, page, now) == SweepAll(p, pre, pre, page[..i], now)
    decreases |page| - i
  {
    if i < |page| {
      assert page[..i + 1][..i] == page[..i];
      SweepErrorSticks(p, pre, page, i + 1, now);
    } else {
      assert page[..i] == page;
    }
  }

  /** Sweeping some certificates leaves every other certificate's override as it was. */
  lemma {:induction false} SweepFrame(p: Platform, pre: State, page: seq<Id>, now: int, id: Id)
    requires (forall c | c in page :: ActiveOverride(pre.overrides, c).Some?)
    requires id in pre.overrides && pre.overrides[id].certId !in page
    requires SweepAll(p, pre, pre, page, now).Ok?
    ensures var st := SweepAll(p, pre, pre, page, now).value;
      id in st.overrides && st.overrides[id] == pre.overrides[id]
  {
    if page != [] {
      var n := |page| - 1;
      SweepFrame(p, pre, page[..n], now, id);
      assert page == page[..n] + [page[n]];
      var mid := SweepAll(p, pre, pre, page[..n], now).value;
      var other := ActiveOverride(pre.overrides, page[n]).value;
      assert other != id;
      SweepOneFrame(p, mid, page[n], other, pre.overrides[other], now);
    }
  }

  lemma {:induction false} SweepOneFrame(p: Platform, st: State, c: Id, other: Id, o: Override, now: int)
    requires SweepOne(p, st, c, other, o, now).Ok?
    ensures var st' := SweepOne(p, st, c, other, o, now).value;
      st'.overrides == if Clearable(st, other) then ClearOne(st, other, now, "system", "auto-expired").overrides
                       else st.overrides
  {
  }

  lemma {:induction false} PruneFirstNext(
      step: PruneStep, st: State, page: seq<Id>, n: nat, mid: State, deleted: nat,
      n': nat, st': State, more: nat, deleted': nat)
    requires n < |page| && n' == n + 1 && deleted' == deleted + more
    requires PruneFirst(step, st, page, n) == (mid, deleted) && step(mid, page[n]) == (st', more)
    ensures PruneFirst(step, st, page, n') == (st', deleted')
  {
  }
}
