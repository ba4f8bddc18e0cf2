/**
  What the writers do to explanation histories: all but the prune only add explanations, and a current
  explanation that changes becomes a new one.
*/
module HistoryGrowth {
  import opened Wrappers
  import opened Ids
  import opened Engine
  import opened Ownership
  import opened OwnershipInvariants
  import opened PassLemmas

  ghost predicate OnlyAdded(a: map<Id, Explanation>, b: map<Id, Explanation>) {
    forall id | id in a :: id in b && b[id] == a[id]
  }

  /** The current explanation of a certificate is what it was, or one that did not exist before. */
  ghost predicate CurrentMoves(a: State, b: State, c: Id) {
    var now := CurrentExplanation(b, c);
    now == CurrentExplanation(a, c) || (now.Some? && now.value !in a.explanations)
  }

  ghost predicate Grew(a: State, b: State) {
    OnlyAdded(a.explanations, b.explanations) && forall c :: CurrentMoves(a, b, c)
  }

  lemma {:induction false} GrewTwice(a: State, b: State, c: State)
    requires Grew(a, b) && Grew(b, c)
    ensures Grew(a, c)
  {
    forall x ensures CurrentMoves(a, c, x) {
      assert CurrentMoves(a, b, x) && CurrentMoves(b, c, x);
    }
  }

  lemma {:induction false} SettleGrows(
      p: Platform, st: State, c: Id, sig: Signals, d: Decision, now: int, st': State)
    requires SupplyFresh(p, st) && st' == Settle(p, st, c, sig, d, now)
    ensures Grew(st, st')
  {
    var id := p.mint(st.nextId);
    assert id !in st.explanations.Keys + st.overrides.Keys;
    forall x ensures CurrentMoves(st, st', x) {
    }
  }

  /** Overrides and audit play no part. */
  lemma {:induction false} GrewBeside(a: State, a': State, b: State, b': State)
    requires Grew(a, b) && a'.explanations == a.explanations && a'.rows == a.rows
    requires b'.explanations == b.explanations && b'.rows == b.rows
    ensures Grew(a', b')
  {
    forall x ensures CurrentMoves(a', b', x) {
      assert CurrentMoves(a, b, x);
    }
  }

  lemma {:induction false} RederiveGrows(p: Platform, st: State, c: Id, pin: Option<Pin>, now: int)
    requires SupplyFresh(p, st) && Rederive(p, st, c, pin, now).Ok?
    ensures Grew(st, Rederive(p, st, c, pin, now).value)
  {
    var rules := Compiled(p.lib, st.rules).value.rules;
    SettleGrows(p, st, c, st.certs[c], Decide(p.lib, st.certs[c], pin, rules, now), now,
                Rederive(p, st, c, pin, now).value);
  }

  lemma {:induction false} PassGrows(p: Platform, pre: State, rules: seq<CompiledRule>, q: seq<Id>, n: nat, now: int)
    requires Inv(p, pre) && PassInput(pre, q) && n <= |q|
    ensures Grew(pre, Pass(p, pre, rules, q, n, now))
  {
    if n > 0 {
      var m := n - 1;
      PassGrows(p, pre, rules, q, m, now);
      var mid := PassKeeps(p, pre, rules, q, m, now);
      PassNext(p, pre, rules, q, m, n, now, mid);
      PassStepGrows(p, pre, mid, rules, q[m], now);
      GrewTwice(pre, mid, PassStep(p, pre, mid, rules, q[m], now));
    }
  }

  lemma {:induction false} PassStepGrows(
      p: Platform, pre: State, mid: State, rules: seq<CompiledRule>, c: Id, now: int)
    requires SupplyFresh(p, mid) && c in pre.certs && forall id | id in pre.overrides :: id in mid.overrides
    ensures Grew(mid, PassStep(p, pre, mid, rules, c, now))
  {
    var cleaned, next := Cleaned(mid, EntryOf(pre, c), now), PassStep(p, pre, mid, rules, c, now);
    assert cleaned.overrides.Keys == mid.overrides.Keys;
    SettleGrows(p, cleaned, c, pre.certs[c], PassDecision(p, pre, rules, c, now), now, next);
    GrewBeside(cleaned, mid, next, next);
  }

  lemma {:induction false} RecomputeGrows(p: Platform, st: State, threshold: nat, now: int)
    requires Inv(p, st) && Recompute(p, st, threshold, now).Ok?
    ensures Grew(st, Recompute(p, st, threshold, now).value)
  {
    var rules, q := Compiled(p.lib, st.rules).value.rules, SortedIds(st.certs.Keys);
    CertOrder(st);
    PassGrows(p, st, rules, q, |q|, now);
    GrewBeside(st, st, Pass(p, st, rules, q, |q|, now), Recompute(p, st, threshold, now).value);
  }

  lemma {:induction false} CreateGrows(p: Platform, st: State, o: Override, now: int)
    requires SupplyFresh(p, st) && CreateTx(p, st, o, now).Ok?
    ensures Grew(st, CreateTx(p, st, o, now).value)
  {
    var st1, pin := Inserted(p, st, o), Some(PinOf(p.mint(st.nextId), o));
    assert SupplyFresh(p, st1);
    RederiveGrows(p, st1, o.certId, pin, now);
    GrewBeside(st1, st, Rederive(p, st1, o.certId, pin, now).value, CreateTx(p, st, o, now).value);
  }

  lemma {:induction false} ClearGrows(
      p: Platform, st: State, c: Id, id: Id, actor: string, reason: string, now: int)
    requires SupplyFresh(p, st) && ClearTx(p, st, c, id, actor, reason, now).Ok?
    ensures Grew(st, ClearTx(p, st, c, id, actor, reason, now).value)
  {
    var st1 := ClearOne(st, id, now, actor, reason);
    assert st1.overrides.Keys == st.overrides.Keys;
    RederiveGrows(p, st1, c, None, now);
    GrewBeside(st1, st, Rederive(p, st1, c, None, now).value, ClearTx(p, st, c, id, actor, reason, now).value);
  }

  lemma {:induction false} SweepOneGrows(p: Platform, st: State, c: Id, id: Id, o: Override, now: int)
    requires SupplyFresh(p, st) && SweepOne(p, st, c, id, o, now).Ok?
    ensures Grew(st, SweepOne(p, st, c, id, o, now).value)
  {
    if Clearable(st, id) {
      var st1 := ClearOne(st, id, now, "system", "auto-expired");
      assert st1.overrides.Keys == st.overrides.Keys;
      RederiveGrows(p, st1, c, None, now);
      GrewBeside(st1, st, Rederive(p, st1, c, None, now).value, SweepOne(p, st, c, id, o, now).value);
    } else {
      Unmoved(st);
    }
  }

  lemma {:induction false} Unmoved(st: State)
    ensures Grew(st, st)
  {
    forall c ensures CurrentMoves(st, st, c) {
    }
  }

  lemma {:induction false} SweepGrows(p: Platform, pre: State, page: seq<Id>, now: int)
    requires Inv(p, pre) && (forall c | c in page :: ActiveOverride(pre.overrides, c).Some?)
    requires SweepAll(p, pre, pre, page, now).Ok?
    ensures Grew(pre, SweepAll(p, pre, pre, page, now).value)
  {
    if page == [] {
      Unmoved(pre);
    } else {
      var n := |page| - 1;
      var mid := SweepAll(p, pre, pre, page[..n], now).value;
      SweepGrows(p, pre, page[..n], now);
      SweepKeeps(p, pre, page[..n], now);
      var id := ActiveOverride(pre.overrides, page[n]).value;
      SweepOneGrows(p, mid, page[n], id, pre.overrides[id], now);
      GrewTwice(pre, mid, SweepAll(p, pre, pre, page, now).value);
    }
  }

  /** Every writer but the prune only adds explanations and never makes an old one current. */
  lemma {:induction false} WritersGrow(p: Platform, threshold: nat, st: State, s: Step)
    requires Inv(p, st) && Enabled(st, s) && !s.DoPrune?
    ensures Grew(st, Apply(p, threshold, st, s))
  {
    Unmoved(st);
    match s
    case DoRecompute(now) => if Recompute(p, st, threshold, now).Ok? { RecomputeGrows(p, st, threshold, now); }
    case DoCreate(o, now) => if CreateTx(p, st, o, now).Ok? { CreateGrows(p, st, o, now); }
    case DoClear(c, id, actor, reason, now) =>
      if ClearTx(p, st, c, id, actor, reason, now).Ok? { ClearGrows(p, st, c, id, actor, reason, now); }
    case DoSweep(cursor, limit, now) =>
      ExpiringPage(st, now, cursor, limit);
      if SweepPageTx(p, st, cursor, limit, now).Ok? {
        SweepGrows(p, st, Page(ExpiringCerts(st, now), cursor, limit), now);
      }
    case ChangeInputs(certs, rules) => GrewBeside(st, st, st, Apply(p, threshold, st, s));
  }
}
