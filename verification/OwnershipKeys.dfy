/** What the store's keys and its partial unique index guarantee, kept by every writer. */
module OwnershipKeys {
  import opened Wrappers
  import opened Ids
  import opened Engine
  import opened Ownership
  import opened PassLemmas

  /** No certificate has the empty id, and at most one override of each is uncleared. */
  ghost predicate WellKeyed(st: State) {
    && "" !in st.certs
    && (forall o | o in st.overrides :: st.overrides[o].certId != "")
    && (forall e | e in st.explanations :: st.explanations[e].certId != "")
    && OneActive(st.overrides)
  }

  lemma {:induction false} SettleKeyed(p: Platform, st: State, c: Id, sig: Signals, d: Decision, now: int)
    requires WellKeyed(st) && c in st.certs
    ensures WellKeyed(Settle(p, st, c, sig, d, now))
  {
  }

  lemma {:induction false} ClearedKeyed(st: State, id: Id, now: int, actor: string, reason: string)
    requires WellKeyed(st) && id in st.overrides
    ensures WellKeyed(ClearOne(st, id, now, actor, reason))
  {
  }

  lemma {:induction false} RederiveKeyed(p: Platform, st: State, c: Id, pin: Option<Pin>, now: int)
    requires WellKeyed(st) && Rederive(p, st, c, pin, now).Ok?
    ensures WellKeyed(Rederive(p, st, c, pin, now).value)
  {
    var rs := Compiled(p.lib, st.rules).value;
    SettleKeyed(p, st, c, st.certs[c], Decide(p.lib, st.certs[c], pin, rs.rules, now), now);
  }

  lemma {:induction false} CreateKeyed(p: Platform, st: State, o: Override, now: int)
    requires WellKeyed(st) && CreateTx(p, st, o, now).Ok?
    ensures WellKeyed(CreateTx(p, st, o, now).value)
  {
    var id, st1 := p.mint(st.nextId), Inserted(p, st, o);
    forall a | a in st.overrides && st.overrides[a].certId == o.certId ensures st.overrides[a].cleared.Some? {
      assert a !in ActiveIds(st.overrides, o.certId);
    }
    RederiveKeyed(p, st1, o.certId, Some(PinOf(id, o)), now);
  }

  lemma {:induction false} ClearKeyed(
      p: Platform, st: State, c: Id, id: Id, actor: string, reason: string, now: int)
    requires WellKeyed(st) && ClearTx(p, st, c, id, actor, reason, now).Ok?
    ensures WellKeyed(ClearTx(p, st, c, id, actor, reason, now).value)
  {
    ClearedKeyed(st, id, now, actor, reason);
    RederiveKeyed(p, ClearOne(st, id, now, actor, reason), c, None, now);
  }

  lemma {:induction false} SweepOneKeyed(p: Platform, st: State, c: Id, id: Id, o: Override, now: int)
    requires WellKeyed(st) && SweepOne(p, st, c, id, o, now).Ok?
    ensures WellKeyed(SweepOne(p, st, c, id, o, now).value)
  {
    if Clearable(st, id) {
      ClearedKeyed(st, id, now, "system", "auto-expired");
      RederiveKeyed(p, ClearOne(st, id, now, "system", "auto-expired"), c, None, now);
    }
  }

  lemma {:induction false} SweepKeyed(p: Platform, pre: State, page: seq<Id>, now: int)
    requires WellKeyed(pre) && forall c | c in page :: ActiveOverride(pre.overrides, c).Some?
    requires SweepAll(p, pre, pre, page, now).Ok?
    ensures WellKeyed(SweepAll(p, pre, pre, page, now).value)
  {
    if page != [] {
      var n := |page| - 1;
      SweepKeyed(p, pre, page[..n], now);
      var id := ActiveOverride(pre.overrides, page[n]).value;
      SweepOneKeyed(p, SweepAll(p, pre, pre, page[..n], now).value, page[n], id, pre.overrides[id], now);
    }
  }

  lemma {:induction false} PruneFirstKeyed(
      st: State, page: seq<Id>, n: nat, keepN: nat, cutoff: int, perCert: nat, step: PruneStep)
    requires WellKeyed(st) && n <= |page| && step == PruneCertAt(keepN, cutoff, perCert)
    ensures WellKeyed(PruneFirst(step, st, page, n).0)
  {
    if n > 0 {
      PruneFirstKeyed(st, page, n - 1, keepN, cutoff, perCert, step);
    }
  }

  lemma {:induction false} PruneKeyed(
      st: State, cursor: Id, limit: nat, keepN: nat, cutoff: int, perCert: nat)
    requires WellKeyed(st)
    ensures WellKeyed(PrunePageTx(st, cursor, limit, keepN, cutoff, perCert))
  {
    var page := Page(ExplainedCerts(st.explanations), cursor, limit);
    PruneFirstKeyed(st, page, |page|, keepN, cutoff, perCert, PruneCertAt(keepN, cutoff, perCert));
  }

  lemma {:induction false} PassStepKeyed(p: Platform, pre: State, st: State, rules: seq<CompiledRule>, c: Id, now: int)
    requires WellKeyed(st) && c in pre.certs && st.certs == pre.certs && st.overrides.Keys == pre.overrides.Keys
    ensures WellKeyed(PassStep(p, pre, st, rules, c, now))
  {
    var entry := EntryOf(pre, c);
    if entry.Some? { ClearedKeyed(st, entry.value.0, now, "system", "auto-expired"); }
    SettleKeyed(p, Cleaned(st, entry, now), c, pre.certs[c], PassDecision(p, pre, rules, c, now), now);
  }

  lemma {:induction false} PassKeyed(p: Platform, pre: State, rules: seq<CompiledRule>, q: seq<Id>, n: nat, now: int)
    returns (st: State)
    requires WellKeyed(pre) && PassInput(pre, q) && n <= |q|
    ensures st == Pass(p, pre, rules, q, n, now) && WellKeyed(st)
  {
    if n == 0 {
      return pre;
    }
    var m := n - 1;
    var mid := PassKeyed(p, pre, rules, q, m, now);
    PassKeepsInputs(p, pre, rules, q, m, now);
    PassNext(p, pre, rules, q, m, n, now, mid);
    PassStepKeyed(p, pre, mid, rules, q[m], now);
    st := PassStep(p, pre, mid, rules, q[m], now);
  }

  lemma {:induction false} RecomputeKeyed(p: Platform, st: State, threshold: nat, now: int)
    requires WellKeyed(st) && Recompute(p, st, threshold, now).Ok?
    ensures WellKeyed(Recompute(p, st, threshold, now).value)
  {
    CertOrder(st);
    SortedIdsOrder(st.certs.Keys);
    var q := SortedIds(st.certs.Keys);
    var post := PassKeyed(p, st, Compiled(p.lib, st.rules).value.rules, q, |q|, now);
  }
}
