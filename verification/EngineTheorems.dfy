/**
  What the ownership decision means, stated on the raw rule list: which rules can
  matter, who wins, when the result is ambiguous, and why each loser lost.
*/
module EngineTheorems {
  import opened Wrappers
  import opened Ids
  import opened Sorting
  import opened Engine

  ghost predicate DistinctIds(rules: seq<Rule>) {
    forall i, j | 0 <= i < j < |rules| :: rules[i].id != rules[j].id
  }

  /** A rule that can influence the decision for these signals. */
  predicate Relevant(lib: TextLibrary, sig: Signals, r: Rule) {
    Usable(r) && Matches(lib, CompileOne(lib, r), sig)
  }

  /** The rules that match, in walk order. */
  function MatchedRules(lib: TextLibrary, sig: Signals, rules: seq<Rule>): seq<CompiledRule>
    requires FirstDrift(rules).None?
  {
    Filter(Sort(CompileAll(lib, rules), WalkBefore), MatchTest(lib, sig))
  }

  // --- the order, written out ---------------------------------------------------------

  const LADDER: seq<Tier> :=
    [Explicit, ServiceMember, AgentGroup, SanPattern, SubjectPattern, TagTier, IssuerStore, Fallback]

  ghost predicate EarlierTier(a: Tier, b: Tier) {
    exists i, j | 0 <= i < j < |LADDER| :: LADDER[i] == a && LADDER[j] == b
  }

  predicate SamePlace(a: Rule, b: Rule) {
    a.tier == b.tier && a.priority == b.priority && a.createdAt == b.createdAt
  }

  /** An earlier tier, then a smaller priority number, then an earlier creation time, then the smaller id. */
  ghost predicate Outranks(a: Rule, b: Rule) {
    || EarlierTier(a.tier, b.tier)
    || (a.tier == b.tier && a.priority < b.priority)
    || (a.tier == b.tier && a.priority == b.priority && a.createdAt < b.createdAt)
    || (SamePlace(a, b) && Less(a.id, b.id))
  }

  lemma {:induction false} TiersDiffer(a: Tier, b: Tier)
    requires OrdinalOf(a).Some? && OrdinalOf(b).Some?
    ensures EarlierTier(a, b) <==> OrdinalOf(a).value < OrdinalOf(b).value
    ensures a == b <==> OrdinalOf(a) == OrdinalOf(b)
  {
    var i, j := OrdinalOf(a).value - 1, OrdinalOf(b).value - 1;
    assert LADDER[i] == a && LADDER[j] == b;
    assert forall k | 0 <= k < |LADDER| :: OrdinalOf(LADDER[k]) == Some(k + 1);
  }

  /** The walk order of compiled rules is that order. */
  lemma {:induction false} WalkOrderIsLadder(lib: TextLibrary, a: Rule, b: Rule)
    requires Usable(a) && Usable(b)
    ensures WalkBefore(CompileOne(lib, a), CompileOne(lib, b)) <==> Outranks(a, b)
  {
    TiersDiffer(a.tier, b.tier);
  }

  ghost predicate InLadderOrder(q: seq<CompiledRule>) {
    forall i, j | 0 <= i < j < |q| :: Outranks(q[i].rule, q[j].rule)
  }

  lemma {:induction false} SortedIsLadder(lib: TextLibrary, q: seq<CompiledRule>)
    requires Sorted(q, WalkBefore) && forall cr | cr in q :: Usable(cr.rule) && cr == CompileOne(lib, cr.rule)
    ensures InLadderOrder(q)
  {
    forall i, j | 0 <= i < j < |q| ensures Outranks(q[i].rule, q[j].rule) {
      assert q[i] in q && q[j] in q;
      WalkOrderIsLadder(lib, q[i].rule, q[j].rule);
    }
  }

  lemma WalkOrderStrict()
    ensures StrictOrder(WalkBefore)
  {
    forall a ensures !WalkBefore(a, a) {
      if Less(a.rule.id, a.rule.id) { LessAsymmetric(a.rule.id, a.rule.id); }
    }
    forall a, b, c | WalkBefore(a, b) && WalkBefore(b, c) ensures WalkBefore(a, c) {
      if Less(a.rule.id, b.rule.id) && Less(b.rule.id, c.rule.id) {
        LessTransitive(a.rule.id, b.rule.id, c.rule.id);
      }
    }
  }

  /** Compilation keeps exactly the unreserved rules, each with its own compiled form. */
  lemma {:induction false} CompileAllMembers(lib: TextLibrary, rules: seq<Rule>, cr: CompiledRule)
    requires FirstDrift(rules).None?
    ensures cr in CompileAll(lib, rules) <==> cr.rule in rules && Usable(cr.rule) && cr == CompileOne(lib, cr.rule)
  {
    if rules != [] {
      CompileAllMembers(lib, rules[1..], cr);
      assert rules == [rules[0]] + rules[1..];
    }
  }

  lemma {:induction false} CompileAllComparable(lib: TextLibrary, rules: seq<Rule>)
    requires FirstDrift(rules).None? && DistinctIds(rules)
    ensures Comparable(CompileAll(lib, rules), WalkBefore)
  {
    if rules != [] {
      CompileAllComparable(lib, rules[1..]);
      var rest := CompileAll(lib, rules[1..]);
      forall j | 0 <= j < |rest| && !Reserved(rules[0])
        ensures WalkBefore(CompileOne(lib, rules[0]), rest[j]) || WalkBefore(rest[j], CompileOne(lib, rules[0]))
      {
        CompileAllMembers(lib, rules[1..], rest[j]);
        var k :| 0 <= k < |rules[1..]| && rules[1..][k] == rest[j].rule;
        assert rules[0].id != rules[k + 1].id;
        LessTotal(rules[0].id, rest[j].rule.id);
      }
    }
  }

  /** The matched list is in ladder order and holds exactly the relevant rules. */
  lemma MatchedRulesSorted(lib: TextLibrary, sig: Signals, rules: seq<Rule>)
    requires FirstDrift(rules).None? && DistinctIds(rules)
    ensures Sorted(MatchedRules(lib, sig, rules), WalkBefore) && InLadderOrder(MatchedRules(lib, sig, rules))
    ensures forall cr :: cr in MatchedRules(lib, sig, rules) <==>
              cr.rule in rules && Relevant(lib, sig, cr.rule) && cr == CompileOne(lib, cr.rule)
  {
    var all := CompileAll(lib, rules);
    WalkOrderStrict();
    CompileAllComparable(lib, rules);
    SortSorted(all, WalkBefore);
    SameElements(Sort(all, WalkBefore), all);
    FilterSorted(Sort(all, WalkBefore), MatchTest(lib, sig), WalkBefore);
    forall cr ensures cr in all <==> cr.rule in rules && Usable(cr.rule) && cr == CompileOne(lib, cr.rule) {
      CompileAllMembers(lib, rules, cr);
    }
    SortedIsLadder(lib, MatchedRules(lib, sig, rules));
  }

  /**
    The decision depends only on which relevant rules are present: not on their order,
    and not on reserved, inert or non-matching rules.
  */
  lemma DecisionDependsOnRelevantRules(
      lib: TextLibrary, sig: Signals, o: Option<Pin>, now: int, rules: seq<Rule>, rules': seq<Rule>)
    requires Compiled(lib, rules).Ok? && Compiled(lib, rules').Ok?
    requires DistinctIds(rules) && DistinctIds(rules')
    requires forall r | Relevant(lib, sig, r) :: r in rules <==> r in rules'
    ensures Decide(lib, sig, o, Compiled(lib, rules).value.rules, now)
         == Decide(lib, sig, o, Compiled(lib, rules').value.rules, now)
  {
    MatchedRulesSorted(lib, sig, rules);
    MatchedRulesSorted(lib, sig, rules');
    WalkOrderStrict();
    SortedUnique(MatchedRules(lib, sig, rules), MatchedRules(lib, sig, rules'), WalkBefore);
  }

  lemma {:induction false} DriftIffSomeRuleDrifts(rules: seq<Rule>)
    ensures FirstDrift(rules).Some? <==> exists r :: r in rules && DriftOf(r).Some?
  {
    if rules != [] {
      DriftIffSomeRuleDrifts(rules[1..]);
      assert rules == [rules[0]] + rules[1..];
    }
  }

  lemma {:induction false} FailuresCount(lib: TextLibrary, rules: seq<Rule>, f: CompileFailure)
    ensures multiset(Failures(lib, rules))[f] ==
      |Filter(rules, (r: Rule) => !Reserved(r) && FailureOf(lib, r) == [f])|
  {
    var keep := (r: Rule) => !Reserved(r) && FailureOf(lib, r) == [f];
    if rules != [] {
      FailuresCount(lib, rules[1..], f);
      assert multiset(Failures(lib, rules)) ==
        multiset(if Reserved(rules[0]) then [] else FailureOf(lib, rules[0])) + multiset(Failures(lib, rules[1..]));
    }
  }

  lemma {:induction false} FilterLength<T(!new)>(s: seq<T>, t: seq<T>, keep: T -> bool)
    requires multiset(s) == multiset(t)
    ensures |Filter(s, keep)| == |Filter(t, keep)|
  {
    FilterMultiset(s, keep);
    FilterMultiset(t, keep);
    assert multiset(Filter(s, keep)) == multiset(Filter(t, keep));
    assert |multiset(Filter(s, keep))| == |Filter(s, keep)|;
    assert |multiset(Filter(t, keep))| == |Filter(t, keep)|;
  }

  /** Reordering the rules changes neither success, nor the walk order, nor the collection of failures. */
  lemma CompilationIgnoresRuleOrder(lib: TextLibrary, rules: seq<Rule>, rules': seq<Rule>)
    requires multiset(rules) == multiset(rules') && DistinctIds(rules) && DistinctIds(rules')
    ensures Compiled(lib, rules).Ok? <==> Compiled(lib, rules').Ok?
    ensures Compiled(lib, rules).Ok? ==>
      && Compiled(lib, rules).value.rules == Compiled(lib, rules').value.rules
      && multiset(Compiled(lib, rules).value.failures) == multiset(Compiled(lib, rules').value.failures)
  {
    SameElements(rules, rules');
    DriftIffSomeRuleDrifts(rules);
    DriftIffSomeRuleDrifts(rules');
    if FirstDrift(rules).None? {
      WalkOrderStrict();
      var all, all' := CompileAll(lib, rules), CompileAll(lib, rules');
      CompileAllComparable(lib, rules);
      CompileAllComparable(lib, rules');
      SortSorted(all, WalkBefore);
      SortSorted(all', WalkBefore);
      SameElements(Sort(all, WalkBefore), all);
      SameElements(Sort(all', WalkBefore), all');
      forall cr ensures cr in all <==> cr in all' {
        CompileAllMembers(lib, rules, cr);
        CompileAllMembers(lib, rules', cr);
      }
      SortedUnique(Sort(all, WalkBefore), Sort(all', WalkBefore), WalkBefore);
      forall f ensures multiset(Failures(lib, rules))[f] == multiset(Failures(lib, rules'))[f] {
        FailuresCount(lib, rules, f);
        FailuresCount(lib, rules', f);
        FilterLength(rules, rules', (r: Rule) => !Reserved(r) && FailureOf(lib, r) == [f]);
      }
    }
  }

  // --- who wins ---------------------------------------------------------------------

  /** r is relevant and outranks every other relevant rule of the list. */
  ghost predicate IsWinner(lib: TextLibrary, sig: Signals, rules: seq<Rule>, r: Rule) {
    && r in rules && Relevant(lib, sig, r)
    && forall q | q in rules && Relevant(lib, sig, q) && q != r :: Outranks(r, q)
  }

  lemma {:induction false} TwoTies(matched: seq<CompiledRule>)
    requires StrictOrder(WalkBefore) && Sorted(matched, WalkBefore) && matched != []
    ensures |Filter(matched, TieTest(matched[0]))| > 1 <==>
      exists m :: m in matched && m != matched[0] && Ties(m.rule, matched[0].rule)
  {
    var w := matched[0];
    var rest := matched[1..];
    assert forall m :: m in rest <==> m in matched && m != w by {
      forall m { TailElements(matched, WalkBefore, m); }
    }
    var t := Filter(rest, TieTest(w));
    if exists m :: m in matched && m != w && Ties(m.rule, w.rule) {
      var m :| m in matched && m != w && Ties(m.rule, w.rule);
      assert m in t;
    }
    if t != [] { assert t[0] in rest; }
  }

  /** The confidence that goes with the tier a rule won in. */
  ghost predicate ConfidenceOf(c: Confidence, tier: Tier) {
    match c
    case High => tier == Explicit || tier == ServiceMember
    case Medium => tier == AgentGroup || tier == SanPattern || tier == SubjectPattern || tier == TagTier
    case Low => tier == IssuerStore || tier == Fallback
  }

  ghost predicate NoOverrideInForce(o: Option<Pin>, now: int) {
    o.Some? ==> o.value.expiresAt.Some? && o.value.expiresAt.value <= now
  }

  /** An override without expiry, or with one still to come, decides alone. */
  lemma {:induction false} OverrideDecidesAlone(
      lib: TextLibrary, sig: Signals, pin: Pin, now: int, rules: seq<CompiledRule>)
    requires !NoOverrideInForce(Some(pin), now)
    ensures var d := Decide(lib, sig, Some(pin), rules, now);
      && d.kind == Overridden && d.service == Some(pin.service) && d.overrideId == Some(pin.overrideId)
      && d.winningRule.None? && d.confidence == High && d.losing == []
  {
  }

  /** Another relevant rule shares tier, priority and creation time. */
  ghost predicate Tied(lib: TextLibrary, sig: Signals, rules: seq<Rule>, w: Rule) {
    exists q :: q in rules && q != w && Relevant(lib, sig, q) && SamePlace(q, w)
  }

  /** The decision takes the winner's service, id and tier confidence, and is ambiguous iff it is tied. */
  ghost predicate WonBy(lib: TextLibrary, sig: Signals, rules: seq<Rule>, d: Decision, w: Rule) {
    && IsWinner(lib, sig, rules, w)
    && d.service == Some(w.serviceId) && d.winningRule == Some(w.id) && ConfidenceOf(d.confidence, w.tier)
    && d.kind == if Tied(lib, sig, rules, w) then Ambiguous else Matched
  }

  /**
    Without an override in force the decision is unowned iff no rule is relevant; otherwise the relevant
    rule that outranks all others wins, its service, id and tier confidence are taken, and the decision
    is ambiguous iff another relevant rule shares its tier, priority and creation time.
  */
  lemma DecisionFollowsTheLadder(lib: TextLibrary, sig: Signals, o: Option<Pin>, now: int, rules: seq<Rule>)
    requires Compiled(lib, rules).Ok? && DistinctIds(rules) && NoOverrideInForce(o, now)
    ensures var d := Decide(lib, sig, o, Compiled(lib, rules).value.rules, now);
      && d.overrideId.None?
      && (d.kind == Unowned <==> forall r | r in rules :: !Relevant(lib, sig, r))
      && (d.kind == Unowned ==> d.service.None? && d.winningRule.None? && d.confidence == Low && d.losing == [])
      && (d.kind != Unowned ==> exists w :: WonBy(lib, sig, rules, d, w))
  {
    var d := Decide(lib, sig, o, Compiled(lib, rules).value.rules, now);
    var matched := MatchedRules(lib, sig, rules);
    assert d == DecideFromMatched(matched);
    NoneMatches(lib, sig, rules, matched);
    if matched != [] {
      FirstMatchWins(lib, sig, rules, matched, matched[0].rule);
      assert WonBy(lib, sig, rules, d, matched[0].rule);
    }
  }

  lemma {:induction false} NoneMatches(lib: TextLibrary, sig: Signals, rules: seq<Rule>, matched: seq<CompiledRule>)
    requires FirstDrift(rules).None? && DistinctIds(rules) && matched == MatchedRules(lib, sig, rules)
    ensures matched == [] <==> forall r | r in rules :: !Relevant(lib, sig, r)
  {
    MatchedRulesSorted(lib, sig, rules);
    assert forall r | r in rules && Relevant(lib, sig, r) :: CompileOne(lib, r) in matched;
    if matched != [] { assert matched[0] in matched; }
  }

  lemma {:induction false} FirstMatchWins(
      lib: TextLibrary, sig: Signals, rules: seq<Rule>, matched: seq<CompiledRule>, w: Rule)
    requires FirstDrift(rules).None? && DistinctIds(rules) && matched == MatchedRules(lib, sig, rules)
    requires matched != [] && w == matched[0].rule
    ensures IsWinner(lib, sig, rules, w) && ConfidenceOf(ConfidenceForTier(w.tier), w.tier)
    ensures |Filter(matched, TieTest(matched[0]))| > 1 <==> Tied(lib, sig, rules, w)
  {
    MatchedRulesSorted(lib, sig, rules);
    WalkOrderStrict();
    assert matched[0] in matched;
    TwoTies(matched);
    forall q | q in rules && Relevant(lib, sig, q) && q != w
      ensures Outranks(w, q) && CompileOne(lib, q) in matched
    {
      assert CompileOne(lib, q) in matched;
      var k :| 0 <= k < |matched| && matched[k] == CompileOne(lib, q);
    }
    if m :| m in matched && m != matched[0] && Ties(m.rule, w) {
      assert m.rule in rules && m.rule != w && Relevant(lib, sig, m.rule) && SamePlace(m.rule, w);
    }
  }

  // --- why the others lost --------------------------------------------------------------

  function ReasonRank(r: Reason): nat {
    match r
    case TiedOnId => 0
    case LaterCreatedAt => 1
    case LowerPriority => 2
    case LowerPrecedenceThan(_) => 3
  }

  /** The stated reason is true of the loser and the winner. */
  ghost predicate TrueReason(reason: Reason, l: Rule, w: Rule) {
    match reason
    case LowerPrecedenceThan(tier) => tier == w.tier && EarlierTier(w.tier, l.tier)
    case LowerPriority => l.tier == w.tier && w.priority < l.priority
    case LaterCreatedAt => l.tier == w.tier && l.priority == w.priority && w.createdAt < l.createdAt
    case TiedOnId => SamePlace(l, w) && Less(w.id, l.id)
  }

  lemma WalkOrderWidensReasons(w: Rule, a: Rule, b: Rule)
    requires Usable(w) && Usable(a) && Usable(b) && Outranks(w, a) && Outranks(a, b)
    ensures ReasonRank(ReasonNotChosen(a, w)) <= ReasonRank(ReasonNotChosen(b, w))
  {
    TiersDiffer(w.tier, a.tier);
    TiersDiffer(a.tier, b.tier);
    TiersDiffer(w.tier, b.tier);
  }

  /** The entry names the rule and says truly why it lost. */
  ghost predicate LostTo(e: LosingRule, l: Rule, w: Rule) {
    e.ruleId == l.id && e.name == l.name && e.tier == l.tier && e.priority == l.priority && TrueReason(e.reason, l, w)
  }

  lemma {:induction false} EntryIsTrue(l: CompiledRule, w: CompiledRule)
    requires Usable(l.rule) && Usable(w.rule) && Outranks(w.rule, l.rule)
    ensures LostTo(LosingEntry(l, w), l.rule, w.rule)
  {
    TiersDiffer(w.rule.tier, l.rule.tier);
  }

  /** Usable rules in ladder order. */
  ghost predicate Laddered(q: seq<CompiledRule>) {
    InLadderOrder(q) && forall i | 0 <= i < |q| :: Usable(q[i].rule)
  }

  lemma {:induction false} MatchedLaddered(
      lib: TextLibrary, sig: Signals, rules: seq<Rule>, matched: seq<CompiledRule>)
    requires FirstDrift(rules).None? && DistinctIds(rules) && matched == MatchedRules(lib, sig, rules)
    ensures Laddered(matched)
  {
    MatchedRulesSorted(lib, sig, rules);
    forall i | 0 <= i < |matched| ensures Usable(matched[i].rule) {
      assert matched[i] in matched;
    }
  }

  lemma {:induction false} ListedPair(q: seq<CompiledRule>, i: nat, j: nat)
    requires Laddered(q) && i < j < |q|
    ensures Usable(q[i].rule) && Usable(q[j].rule) && Outranks(q[i].rule, q[j].rule)
  {
  }

  lemma {:induction false} LosersWiden(matched: seq<CompiledRule>, i: nat, j: nat)
    requires Laddered(matched) && 0 < i < j < |matched|
    ensures ReasonRank(ReasonNotChosen(matched[i].rule, matched[0].rule))
         <= ReasonRank(ReasonNotChosen(matched[j].rule, matched[0].rule))
  {
    ListedPair(matched, 0, i);
    ListedPair(matched, i, j);
    WalkOrderWidensReasons(matched[0].rule, matched[i].rule, matched[j].rule);
  }

  lemma {:induction false} LosingAt(matched: seq<CompiledRule>, i: nat)
    requires i < |LosingOf(matched)|
    ensures LosingOf(matched)[i] == LosingEntry(matched[i + 1], matched[0])
  {
  }

  ghost predicate EachLost(matched: seq<CompiledRule>, losing: seq<LosingRule>) {
    |losing| < |matched| && forall i | 0 <= i < |losing| :: LostTo(losing[i], matched[i + 1].rule, matched[0].rule)
  }

  ghost predicate MoveOutward(losing: seq<LosingRule>) {
    forall i, j | 0 <= i < j < |losing| :: ReasonRank(losing[i].reason) <= ReasonRank(losing[j].reason)
  }

  /** The entries are the next matched rules after the winner, at most eight, with reasons moving outward. */
  ghost predicate ListsLosers(matched: seq<CompiledRule>, losing: seq<LosingRule>) {
    && |losing| == (if matched == [] then 0 else Min(|matched| - 1, 8))
    && (matched != [] ==> EachLost(matched, losing)) && MoveOutward(losing)
  }

  /**
    The losing list is the next rules of the matched list after the winner, at most eight, each with the
    reason that is true of it, and the reasons only move outward: id tie, then creation time, then priority,
    then tier.
  */
  lemma {:induction false} LosingListIsNextMatches(
      lib: TextLibrary, sig: Signals, o: Option<Pin>, now: int, rules: seq<Rule>)
    requires Compiled(lib, rules).Ok? && DistinctIds(rules) && NoOverrideInForce(o, now)
    ensures ListsLosers(MatchedRules(lib, sig, rules),
                        Decide(lib, sig, o, Compiled(lib, rules).value.rules, now).losing)
  {
    var matched := MatchedRules(lib, sig, rules);
    assert Decide(lib, sig, o, Compiled(lib, rules).value.rules, now) == DecideFromMatched(matched);
    MatchedLaddered(lib, sig, rules, matched);
    if matched != [] { LosersTrue(matched); }
    if matched != [] {
      AllWiden(matched);
      LosersInOrder(matched);
    }
  }

  ghost predicate ReasonsWiden(matched: seq<CompiledRule>)
    requires matched != []
  {
    forall i, j | 0 < i < j < |matched| ::
      ReasonRank(ReasonNotChosen(matched[i].rule, matched[0].rule))
        <= ReasonRank(ReasonNotChosen(matched[j].rule, matched[0].rule))
  }

  lemma {:induction false} AllWiden(matched: seq<CompiledRule>)
    requires Laddered(matched) && matched != []
    ensures ReasonsWiden(matched)
  {
    forall i, j | 0 < i < j < |matched|
      ensures ReasonRank(ReasonNotChosen(matched[i].rule, matched[0].rule))
           <= ReasonRank(ReasonNotChosen(matched[j].rule, matched[0].rule))
    {
      LosersWiden(matched, i, j);
    }
  }

  lemma {:induction false} LosersTrue(matched: seq<CompiledRule>)
    requires Laddered(matched) && matched != []
    ensures EachLost(matched, LosingOf(matched))
  {
    var losing := LosingOf(matched);
    forall i | 0 <= i < |losing| ensures LostTo(losing[i], matched[i + 1].rule, matched[0].rule) {
      ListedPair(matched, 0, i + 1);
      EntryIsTrue(matched[i + 1], matched[0]);
    }
  }

  lemma {:induction false} LosersInOrder(matched: seq<CompiledRule>)
    requires matched != [] && ReasonsWiden(matched)
    ensures MoveOutward(LosingOf(matched))
  {
    var losing := LosingOf(matched);
    forall i, j | 0 <= i < j < |losing| ensures ReasonRank(losing[i].reason) <= ReasonRank(losing[j].reason) {
      LosingAt(matched, i);
      LosingAt(matched, j);
      assert 0 < i + 1 < j + 1 < |matched|;
    }
  }
}
