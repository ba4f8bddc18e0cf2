/**
  Transition audit of one recompute pass: per-certificate rows for small groups, one
  rollup row for a group that outgrew the threshold, and nothing lost in between.
*/
module AuditRollup {
  import opened Wrappers
  import opened Ids
  import opened Sorting
  import opened Engine

  datatype Action = Assigned | Cleared | Flipped | AmbiguousMatch

  function ActionName(a: Action): string {
    match a
    case Assigned => "ownership.assigned"
    case Cleared => "ownership.cleared"
    case Flipped => "ownership.flipped"
    case AmbiguousMatch => "ownership.ambiguous_match"
  }

  function KindName(k: DecisionKind): string {
    match k
    case Matched => "matched"
    case Overridden => "overridden"
    case Unowned => "unowned"
    case Ambiguous => "ambiguous"
  }

  /** The action is part of the key, so each group is homogeneous. */
  datatype GroupKey = GroupKey(action: Action, from: DecisionKind, to: DecisionKind, driver: Id)

  datatype Group = Group(count: nat, samples: seq<Id>, certIds: seq<Id>, rolledUp: bool)

  datatype TransitionEvent =
    | PerCertificate(key: GroupKey, certId: Id)
    | Rollup(key: GroupKey, count: nat, samples: seq<Id>)

  const AUDIT_SAMPLE_CAP: nat := 100

  type Log = map<GroupKey, seq<Id>>

  /** What a group must look like after these certificates moved, in this order. */
  function GroupOf(ids: seq<Id>, threshold: nat): Group {
    Group(|ids|, ids[..Min(|ids|, AUDIT_SAMPLE_CAP)],
          if |ids| <= threshold then ids else [], |ids| > threshold)
  }

  ghost predicate GroupsReflect(groups: map<GroupKey, Group>, log: Log, threshold: nat) {
    && groups.Keys == log.Keys
    && forall k | k in log :: log[k] != [] && groups[k] == GroupOf(log[k], threshold)
  }

  ghost function Logged(log: Log, key: GroupKey, certId: Id): Log {
    log[key := (if key in log then log[key] else []) + [certId]]
  }

  lemma {:induction false} GroupGrows(ids: seq<Id>, certId: Id, threshold: nat)
    ensures var g, g' := GroupOf(ids, threshold), GroupOf(ids + [certId], threshold);
      && g'.count == g.count + 1
      && g'.samples == (if |g.samples| < AUDIT_SAMPLE_CAP then g.samples + [certId] else g.samples)
      && g'.rolledUp == (g.rolledUp || g.count + 1 > threshold)
      && g'.certIds == if g'.rolledUp then [] else g.certIds + [certId]
  {
  }

  /** Adds one transition to a group; past the threshold the retained ids are dropped. */
  method AddToGroup(group: Group, ghost ids: seq<Id>, certId: Id, threshold: nat) returns (g: Group)
    requires group == GroupOf(ids, threshold)
    ensures g == GroupOf(ids + [certId], threshold)
  {
    GroupGrows(ids, certId, threshold);
    g := group.(count := group.count + 1);
    if |g.samples| < AUDIT_SAMPLE_CAP {
      g := g.(samples := g.samples + [certId]);
    }
    if g.rolledUp {
      return;
    }
    if g.count > threshold {
      g := g.(rolledUp := true, certIds := []);
      return;
    }
    g := g.(certIds := g.certIds + [certId]);
  }

  /** Adds one transition to the group of its key, creating the group on first use. */
  method AddAudit(groups: map<GroupKey, Group>, ghost log: Log, key: GroupKey, certId: Id, threshold: nat)
    returns (groups': map<GroupKey, Group>)
    requires GroupsReflect(groups, log, threshold)
    ensures GroupsReflect(groups', Logged(log, key, certId), threshold)
  {
    var g := if key in groups then groups[key] else Group(0, [], [], false);
    g := AddToGroup(g, if key in log then log[key] else [], certId, threshold);
    groups' := groups[key := g];
  }

  // --- emission -----------------------------------------------------------------

  predicate KeyBefore(a: GroupKey, b: GroupKey) {
    if a.action != b.action then Less(ActionName(a.action), ActionName(b.action))
    else if a.from != b.from then Less(KindName(a.from), KindName(b.from))
    else if a.to != b.to then Less(KindName(a.to), KindName(b.to))
    else Less(a.driver, b.driver)
  }

  function PerCertificateRows(key: GroupKey, ids: seq<Id>): seq<TransitionEvent> {
    seq(|ids|, i requires 0 <= i < |ids| => PerCertificate(key, ids[i]))
  }

  /** The rows one group contributes. */
  function RowsFor(key: GroupKey, g: Group): seq<TransitionEvent> {
    if g.rolledUp then [Rollup(key, g.count, g.samples)] else PerCertificateRows(key, g.certIds)
  }

  function EventsFor(keys: seq<GroupKey>, groups: map<GroupKey, Group>): seq<TransitionEvent>
    requires forall k | k in keys :: k in groups
  {
    if keys == [] then []
    else EventsFor(keys[..|keys| - 1], groups) + RowsFor(keys[|keys| - 1], groups[keys[|keys| - 1]])
  }

  ghost function ListOf(s: set<GroupKey>): (q: seq<GroupKey>)
    ensures forall k :: k in q <==> k in s
    ensures |q| == |s|
  {
    if s == {} then []
    else
      var k :| k in s;
      [k] + ListOf(s - {k})
  }

  lemma {:induction false} ListOfDistinct(s: set<GroupKey>)
    ensures forall i, j | 0 <= i < j < |ListOf(s)| :: ListOf(s)[i] != ListOf(s)[j]
  {
    if s != {} {
      var q := ListOf(s);
      var rest := s - {q[0]};
      ListOfDistinct(rest);
      assert q == [q[0]] + ListOf(rest);
      forall i, j | 0 <= i < j < |q| ensures q[i] != q[j] {
        if i == 0 { assert q[j] in ListOf(rest); }
      }
    }
  }

  lemma {:induction false} KeyOrderStrict()
    ensures StrictOrder(KeyBefore)
    ensures forall a, b | a != b :: KeyBefore(a, b) || KeyBefore(b, a)
  {
    forall a ensures !KeyBefore(a, a) {
      if Less(a.driver, a.driver) { LessAsymmetric(a.driver, a.driver); }
    }
    forall a, b, c | KeyBefore(a, b) && KeyBefore(b, c) ensures KeyBefore(a, c) {
      KeyTransitive(a, b, c);
    }
    forall a, b | a != b ensures KeyBefore(a, b) || KeyBefore(b, a) {
      ActionNames(a.action, b.action);
      KindNames(a.from, b.from);
      KindNames(a.to, b.to);
      LessTotal(a.driver, b.driver);
    }
  }

  lemma {:induction false} ActionNamesDiffer(a: Action, b: Action)
    requires a != b
    ensures ActionName(a) != ActionName(b)
  {
    assert (ActionName(a)[10], ActionName(a)[11]) != (ActionName(b)[10], ActionName(b)[11]);
  }

  lemma {:induction false} ActionNames(a: Action, b: Action)
    ensures a != b ==> Less(ActionName(a), ActionName(b)) || Less(ActionName(b), ActionName(a))
  {
    if a != b { ActionNamesDiffer(a, b); }
    LessTotal(ActionName(a), ActionName(b));
  }

  lemma {:induction false} KindNames(a: DecisionKind, b: DecisionKind)
    ensures a != b ==> Less(KindName(a), KindName(b)) || Less(KindName(b), KindName(a))
  {
    LessTotal(KindName(a), KindName(b));
    if a != b {
      assert KindName(a)[0] != KindName(b)[0];
    }
  }

  lemma {:induction false} KeyTransitive(a: GroupKey, b: GroupKey, c: GroupKey)
    requires KeyBefore(a, b) && KeyBefore(b, c)
    ensures KeyBefore(a, c)
  {
    if a.action != b.action && b.action != c.action {
      LessTransitive(ActionName(a.action), ActionName(b.action), ActionName(c.action));
      if a.action == c.action { LessAsymmetric(ActionName(a.action), ActionName(c.action)); }
    } else if a.action == b.action == c.action {
      if a.from != b.from && b.from != c.from {
        LessTransitive(KindName(a.from), KindName(b.from), KindName(c.from));
        if a.from == c.from { LessAsymmetric(KindName(a.from), KindName(c.from)); }
      } else if a.from == b.from == c.from {
        if a.to != b.to && b.to != c.to {
          LessTransitive(KindName(a.to), KindName(b.to), KindName(c.to));
          if a.to == c.to { LessAsymmetric(KindName(a.to), KindName(c.to)); }
        } else if a.to == b.to == c.to {
          LessTransitive(a.driver, b.driver, c.driver);
        }
      }
    }
  }

  ghost predicate InKeyOrder(q: seq<GroupKey>, s: set<GroupKey>) {
    Sorted(q, KeyBefore) && forall k :: k in q <==> k in s
  }

  lemma {:induction false} KeyOrderExists(s: set<GroupKey>)
    ensures exists q :: InKeyOrder(q, s)
  {
    KeyOrderStrict();
    ListOfDistinct(s);
    SortSorted(ListOf(s), KeyBefore);
    SameElements(Sort(ListOf(s), KeyBefore), ListOf(s));
    assert InKeyOrder(Sort(ListOf(s), KeyBefore), s);
  }

  /** The one list of these keys in emission order. */
  ghost function KeyOrder(s: set<GroupKey>): (q: seq<GroupKey>)
    ensures InKeyOrder(q, s)
  {
    KeyOrderExists(s);
    var q :| InKeyOrder(q, s);
    q
  }

  /** The keys of the group map, in whatever order the map yields them. */
  method CollectKeys(groups: map<GroupKey, Group>) returns (keys: seq<GroupKey>)
    ensures forall k :: k in keys <==> k in groups.Keys
    ensures forall i, j | 0 <= i < j < |keys| :: keys[i] != keys[j]
  {
    var todo := groups.Keys;
    keys := [];
    while todo != {}
      invariant todo <= groups.Keys
      invariant forall k :: k in keys <==> k in groups.Keys && k !in todo
      invariant forall i, j | 0 <= i < j < |keys| :: keys[i] != keys[j]
    {
      var k :| k in todo;
      keys := keys + [k];
      todo := todo - {k};
    }
  }

  method EmitGroup(k: GroupKey, g: Group) returns (rows: seq<TransitionEvent>)
    ensures rows == RowsFor(k, g)
  {
    if g.rolledUp {
      return [Rollup(k, g.count, g.samples)];
    }
    rows := [];
    for j := 0 to |g.certIds|
      invariant rows == PerCertificateRows(k, g.certIds[..j])
    {
      rows := rows + [PerCertificate(k, g.certIds[j])];
    }
    assert g.certIds[..|g.certIds|] == g.certIds;
  }

  /** Sorts the keys and writes each group's rows. */
  method EmitAuditGroups(groups: map<GroupKey, Group>) returns (events: seq<TransitionEvent>)
    ensures forall k :: k in KeyOrder(groups.Keys) <==> k in groups
    ensures events == EventsFor(KeyOrder(groups.Keys), groups)
  {
    var keys := CollectKeys(groups);
    keys := SortKeys(groups.Keys, keys);
    events := [];
    for i := 0 to |keys|
      invariant events == EventsFor(keys[..i], groups)
    {
      var rows := EmitGroup(keys[i], groups[keys[i]]);
      events := events + rows;
      EventsStep(keys, i, groups);
    }
    assert keys[..|keys|] == keys;
  }

  lemma {:induction false} EventsStep(keys: seq<GroupKey>, i: nat, groups: map<GroupKey, Group>)
    requires i < |keys| && forall k | k in keys :: k in groups
    ensures EventsFor(keys[..i + 1], groups) == EventsFor(keys[..i], groups) + RowsFor(keys[i], groups[keys[i]])
  {
    assert keys[..i + 1][..i] == keys[..i];
  }

  method SortKeys(ghost s: set<GroupKey>, keys: seq<GroupKey>) returns (sorted: seq<GroupKey>)
    requires forall k :: k in keys <==> k in s
    requires forall i, j | 0 <= i < j < |keys| :: keys[i] != keys[j]
    ensures sorted == KeyOrder(s)
    ensures forall k | k in sorted :: k in s
  {
    sorted := Sort(keys, KeyBefore);
    KeyOrderStrict();
    SortSorted(keys, KeyBefore);
    SameElements(sorted, keys);
    SortedUnique(sorted, KeyOrder(s), KeyBefore);
  }

  // --- conservation ----------------------------------------------------------------

  ghost function Total(log: Log): nat
    decreases |log|
  {
    if log == map[] then 0
    else
      var k :| k in log;
      |log[k]| + Total(log - {k})
  }

  lemma {:induction false} TotalSplit(log: Log, k: GroupKey)
    requires k in log
    ensures Total(log) == |log[k]| + Total(log - {k})
    decreases |log|
  {
    var c :| c in log && Total(log) == |log[c]| + Total(log - {c});
    if c != k {
      TotalSplit(log - {c}, k);
      TotalSplit(log - {k}, c);
      assert log - {c} - {k} == log - {k} - {c};
    }
  }

  lemma TotalLogged(log: Log, key: GroupKey, certId: Id)
    ensures Total(Logged(log, key, certId)) == Total(log) + 1
  {
    var log' := Logged(log, key, certId);
    TotalSplit(log', key);
    assert log' - {key} == log - {key};
    if key in log {
      TotalSplit(log, key);
    } else {
      assert log - {key} == log;
    }
  }

  /** How many transitions one audit row stands for. */
  function Weight(e: TransitionEvent): nat {
    match e
    case PerCertificate(_, _) => 1
    case Rollup(_, count, _) => count
  }

  function TotalWeight(events: seq<TransitionEvent>): nat {
    if events == [] then 0 else TotalWeight(events[..|events| - 1]) + Weight(events[|events| - 1])
  }

  lemma {:induction false} TotalWeightAppend(a: seq<TransitionEvent>, b: seq<TransitionEvent>)
    ensures TotalWeight(a + b) == TotalWeight(a) + TotalWeight(b)
  {
    if b == [] {
      assert a + b == a;
    } else {
      assert (a + b)[..|a + b| - 1] == a + b[..|b| - 1];
      TotalWeightAppend(a, b[..|b| - 1]);
    }
  }

  lemma {:induction false} PerCertificateWeight(key: GroupKey, ids: seq<Id>)
    ensures TotalWeight(PerCertificateRows(key, ids)) == |ids|
  {
    if ids != [] {
      var rows := PerCertificateRows(key, ids);
      assert rows[..|rows| - 1] == PerCertificateRows(key, ids[..|ids| - 1]);
      PerCertificateWeight(key, ids[..|ids| - 1]);
    }
  }

  lemma RowsWeight(k: GroupKey, ids: seq<Id>, threshold: nat)
    ensures TotalWeight(RowsFor(k, GroupOf(ids, threshold))) == |ids|
  {
    if |ids| > threshold {
      var rows := RowsFor(k, GroupOf(ids, threshold));
      assert rows[..0] == [];
    } else {
      PerCertificateWeight(k, ids);
    }
  }

  ghost function Restricted(log: Log, keys: seq<GroupKey>): Log {
    map k | k in log && k in keys :: log[k]
  }

  lemma {:induction false} RestrictedButLast(log: Log, keys: seq<GroupKey>, n: nat)
    requires |keys| == n + 1 && keys[n] !in keys[..n]
    ensures Restricted(log, keys) - {keys[n]} == Restricted(log, keys[..n])
  {
    assert keys == keys[..n] + [keys[n]];
  }

  lemma {:induction false} EventsWeight(keys: seq<GroupKey>, groups: map<GroupKey, Group>, log: Log, threshold: nat)
    requires forall k | k in keys :: k in groups
    requires forall i, j | 0 <= i < j < |keys| :: keys[i] != keys[j]
    requires GroupsReflect(groups, log, threshold)
    ensures TotalWeight(EventsFor(keys, groups)) == Total(Restricted(log, keys))
  {
    if keys == [] {
      assert Restricted(log, keys) == map[];
    } else {
      var n := |keys| - 1;
      var last := keys[n];
      EventsWeight(keys[..n], groups, log, threshold);
      TotalWeightAppend(EventsFor(keys[..n], groups), RowsFor(last, groups[last]));
      RowsWeight(last, log[last], threshold);
      RestrictedButLast(log, keys, n);
      TotalSplit(Restricted(log, keys), last);
    }
  }

  /**
    Rollup conserves transitions: per-certificate rows count one, rollup rows count their group,
    and together they are exactly the logged transitions.
  */
  lemma {:induction false} RollupConservesTransitions(groups: map<GroupKey, Group>, log: Log, threshold: nat)
    requires GroupsReflect(groups, log, threshold)
    ensures forall k :: k in KeyOrder(groups.Keys) <==> k in groups
    ensures TotalWeight(EventsFor(KeyOrder(groups.Keys), groups)) == Total(log)
  {
    var keys := KeyOrder(groups.Keys);
    KeyOrderStrict();
    forall i, j | 0 <= i < j < |keys| ensures keys[i] != keys[j] {
      assert KeyBefore(keys[i], keys[j]);
    }
    EventsWeight(keys, groups, log, threshold);
    assert Restricted(log, keys) == log;
  }

  /** No group writes more than `threshold` rows, and it rolls up iff it outgrew the threshold. */
  lemma GroupRowsBounded(groups: map<GroupKey, Group>, log: Log, threshold: nat, k: GroupKey)
    requires GroupsReflect(groups, log, threshold) && k in log && threshold >= 1
    ensures 1 <= |RowsFor(k, groups[k])| <= threshold
    ensures (exists e :: e in RowsFor(k, groups[k]) && e.Rollup?) <==> |log[k]| > threshold
    ensures |log[k]| > threshold ==>
      RowsFor(k, groups[k]) == [Rollup(k, |log[k]|, log[k][..Min(|log[k]|, 100)])]
    ensures |log[k]| <= threshold ==>
      forall i | 0 <= i < |log[k]| :: RowsFor(k, groups[k])[i] == PerCertificate(k, log[k][i])
  {
    var rows := RowsFor(k, groups[k]);
    if |log[k]| > threshold {
      assert rows[0].Rollup?;
    }
  }
}
