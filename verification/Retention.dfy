/**
  Explanation retention. `Selected` is the sort-based rule of the program; `Eligible` is the
  rank-based rule the store's bounded batch query promises. They are shown to select the same
  rows, and bounded oldest-first batches are shown to drain a timeline to exactly the rule.
*/
module Retention {
  import opened Wrappers
  import opened Ids
  import opened Sorting

  datatype Record = Record(id: Id, decidedAt: int)

  datatype Policy = Policy(keepN: int, maxAge: int)

  /** Newest decision first; equal times by ascending id. */
  predicate NewerFirst(a: Record, b: Record) {
    a.decidedAt > b.decidedAt || (a.decidedAt == b.decidedAt && Less(a.id, b.id))
  }

  predicate OlderFirst(a: Record, b: Record) {
    NewerFirst(b, a)
  }

  // --- the rule by sorting --------------------------------------------------------

  predicate PastBoth(r: Record, current: Option<Id>, cutoff: int) {
    Some(r.id) != current && r.decidedAt < cutoff
  }

  function PruneTest(current: Option<Id>, cutoff: int): Record -> bool {
    (r: Record) => PastBoth(r, current, cutoff)
  }

  function IdsOf(records: seq<Record>): (ids: seq<Id>)
    ensures |ids| == |records|
  {
    seq(|records|, i requires 0 <= i < |records| => records[i].id)
  }

  function Selected(timeline: seq<Record>, current: Option<Id>, policy: Policy, now: int): seq<Id> {
    if policy.keepN < 1 || policy.maxAge <= 0 || |timeline| <= policy.keepN then []
    else IdsOf(Filter(Sort(timeline, NewerFirst)[policy.keepN..], PruneTest(current, now - policy.maxAge)))
  }

  method SelectExplanationsToPrune(timeline: seq<Record>, current: Option<Id>, policy: Policy, now: int)
    returns (prune: seq<Id>)
    ensures prune == Selected(timeline, current, policy, now)
  {
    if policy.keepN < 1 || policy.maxAge <= 0 {
      return [];
    }
    if |timeline| <= policy.keepN {
      return [];
    }
    var ordered := Sort(timeline, NewerFirst);
    var cutoff := now - policy.maxAge;
    prune := [];
    assert PruneRange(ordered, policy.keepN, policy.keepN, current, cutoff) == [];
    for index := 0 to |ordered|
      invariant prune == if index <= policy.keepN then []
                         else PruneRange(ordered, policy.keepN, index, current, cutoff)
    {
      var record := ordered[index];
      if index < policy.keepN {
        continue;
      }
      PruneRangeStep(ordered, policy.keepN, index, current, cutoff);
      if Some(record.id) == current {
        continue;
      }
      if !(record.decidedAt < cutoff) {
        continue;
      }
      prune := prune + [record.id];
    }
    assert ordered[policy.keepN..|ordered|] == ordered[policy.keepN..];
  }

  /** The ids selected from positions from..to of the ordered timeline. */
  function PruneRange(s: seq<Record>, from: nat, to: nat, current: Option<Id>, cutoff: int): seq<Id>
    requires from <= to <= |s|
  {
    IdsOf(Filter(s[from..to], PruneTest(current, cutoff)))
  }

  lemma {:induction false} PruneRangeStep(s: seq<Record>, from: nat, i: nat, current: Option<Id>, cutoff: int)
    requires from <= i < |s|
    ensures PruneRange(s, from, i + 1, current, cutoff)
         == PruneRange(s, from, i, current, cutoff) + if PastBoth(s[i], current, cutoff) then [s[i].id] else []
  {
    var keep := PruneTest(current, cutoff);
    assert s[from..i + 1] == s[from..i] + [s[i]];
    FilterAppend(s[from..i], [s[i]], keep);
    assert [s[i]][1..] == [];
  }

  // --- the rule by rank ----------------------------------------------------------------

  /** One certificate's explanations: id to decision time. */
  type Timeline = map<Id, int>

  function RecordOf(t: Timeline, id: Id): Record
    requires id in t
  {
    Record(id, t[id])
  }

  function NewerThan(t: Timeline, r: Id): set<Id>
    requires r in t
  {
    set q | q in t && NewerFirst(RecordOf(t, q), RecordOf(t, r))
  }

  /** Among the latest n by (decided_at descending, id ascending). */
  predicate InLatest(t: Timeline, n: nat, r: Id)
    requires r in t
  {
    |NewerThan(t, r)| < n
  }

  function Latest(t: Timeline, n: nat): set<Id> {
    set r | r in t && InLatest(t, n, r)
  }

  /** Older than the cutoff, not current, and not among the latest n. */
  function Eligible(t: Timeline, current: Option<Id>, n: nat, cutoff: int): set<Id> {
    set r | r in t && t[r] < cutoff && Some(r) != current && !InLatest(t, n, r)
  }

  function RecordsOf(t: Timeline, ids: set<Id>): (rs: seq<Record>)
    requires ids <= t.Keys
    ensures |rs| == |ids|
    ensures forall i | 0 <= i < |rs| :: SortedIds(ids)[i] in t && rs[i] == RecordOf(t, SortedIds(ids)[i])
  {
    var q := SortedIds(ids);
    SortedIdsOrder(ids);
    seq(|q|, i requires 0 <= i < |q| => RecordOf(t, q[i]))
  }

  function FirstIds(records: seq<Record>, limit: nat): seq<Id> {
    IdsOf(records[..Min(|records|, limit)])
  }

  /** The store's bounded batch: at most `limit` eligible ids, oldest first. */
  function Batch(t: Timeline, current: Option<Id>, n: nat, cutoff: int, limit: nat): seq<Id> {
    FirstIds(Sort(RecordsOf(t, Eligible(t, current, n, cutoff)), OlderFirst), limit)
  }

  lemma {:induction false} OrderStrict()
    ensures StrictOrder(NewerFirst) && StrictOrder(OlderFirst)
  {
    forall a ensures !NewerFirst(a, a) {
      if Less(a.id, a.id) { LessAsymmetric(a.id, a.id); }
    }
    forall a, b, c | NewerFirst(a, b) && NewerFirst(b, c) ensures NewerFirst(a, c) {
      if Less(a.id, b.id) && Less(b.id, c.id) { LessTransitive(a.id, b.id, c.id); }
    }
  }

  /** The records of a set of ids: each once, comparable both ways. */
  lemma {:induction false} RecordsOfMembers(t: Timeline, ids: set<Id>)
    requires ids <= t.Keys
    ensures forall r :: r in RecordsOf(t, ids) <==> r.id in ids && r == RecordOf(t, r.id)
    ensures Comparable(RecordsOf(t, ids), NewerFirst) && Comparable(RecordsOf(t, ids), OlderFirst)
  {
    var q, rs := SortedIds(ids), RecordsOf(t, ids);
    SortedIdsOrder(ids);
    forall r: Record | r.id in ids && r == RecordOf(t, r.id) ensures r in rs {
      assert r.id in q;
      var i :| 0 <= i < |q| && q[i] == r.id;
      assert rs[i] == r;
    }
    forall r | r in rs ensures r.id in ids && r == RecordOf(t, r.id) {
      var i :| 0 <= i < |rs| && rs[i] == r;
      assert q[i] in q;
    }
    AscendingDistinct(q);
    forall i, j | 0 <= i < j < |rs| ensures NewerFirst(rs[i], rs[j]) || NewerFirst(rs[j], rs[i]) {
      LessTotal(q[i], q[j]);
    }
  }

  ghost predicate Lists(ordered: seq<Record>, t: Timeline) {
    Sorted(ordered, NewerFirst) && forall r :: r in ordered <==> r.id in t && r == RecordOf(t, r.id)
  }

  lemma {:induction false} DistinctCount(q: seq<Id>, s: set<Id>)
    requires forall i, j | 0 <= i < j < |q| :: q[i] != q[j]
    requires forall x :: x in q <==> x in s
    ensures |s| == |q|
  {
    if q == [] {
      assert s == {};
    } else {
      DistinctCount(q[1..], s - {q[0]});
    }
  }

  lemma {:induction false} ListsDistinct(ordered: seq<Record>, t: Timeline)
    requires Lists(ordered, t)
    ensures forall i, j | 0 <= i < j < |ordered| :: ordered[i].id != ordered[j].id
  {
    OrderStrict();
    forall i, j | 0 <= i < j < |ordered| ensures ordered[i].id != ordered[j].id {
      assert ordered[i] in ordered && ordered[j] in ordered;
    }
  }

  lemma {:induction false} PositionBefore(ordered: seq<Record>, i: nat, k: nat)
    requires StrictOrder(NewerFirst) && Sorted(ordered, NewerFirst)
    requires i < |ordered| && k < |ordered| && NewerFirst(ordered[k], ordered[i])
    ensures k < i
  {
  }

  /** Rank and position agree. */
  lemma {:induction false} RankIsIndex(ordered: seq<Record>, t: Timeline, i: nat)
    requires Lists(ordered, t) && i < |ordered|
    ensures ordered[i].id in t && |NewerThan(t, ordered[i].id)| == i
  {
    OrderStrict();
    ListsDistinct(ordered, t);
    assert ordered[i] in ordered;
    var ids := IdsOf(ordered[..i]);
    forall x ensures x in ids <==> x in NewerThan(t, ordered[i].id) {
      if x in ids {
        var k :| 0 <= k < i && ordered[k].id == x;
        assert ordered[k] in ordered;
      }
      if x in NewerThan(t, ordered[i].id) {
        assert RecordOf(t, x) in ordered;
        var k :| 0 <= k < |ordered| && ordered[k] == RecordOf(t, x);
        PositionBefore(ordered, i, k);
        assert ids[k] == x;
      }
    }
    DistinctCount(ids, NewerThan(t, ordered[i].id));
  }

  ghost function Ordered(t: Timeline): (ordered: seq<Record>)
    ensures Lists(ordered, t) && |ordered| == |t|
  {
    RecordsOfMembers(t, t.Keys);
    OrderStrict();
    SortSorted(RecordsOf(t, t.Keys), NewerFirst);
    SameElements(Sort(RecordsOf(t, t.Keys), NewerFirst), RecordsOf(t, t.Keys));
    Sort(RecordsOf(t, t.Keys), NewerFirst)
  }

  lemma {:induction false} OrderedPosition(t: Timeline, r: Id) returns (i: nat)
    requires r in t
    ensures i < |Ordered(t)| && Ordered(t)[i] == RecordOf(t, r) && i == |NewerThan(t, r)|
  {
    assert RecordOf(t, r) in Ordered(t);
    i :| 0 <= i < |Ordered(t)| && Ordered(t)[i] == RecordOf(t, r);
    RankIsIndex(Ordered(t), t, i);
  }

  /** At least n rows of the history were decided later, or at the same time with a smaller id. */
  ghost predicate HasNewer(t: Timeline, id: Id, n: nat)
    requires id in t
  {
    |set q | q in t && (t[q] > t[id] || (t[q] == t[id] && Less(q, id)))| >= n
  }

  /** What the policy lets go: older than the age, not current, and behind the newest rows to keep. */
  ghost predicate OutOfPolicy(t: Timeline, current: Option<Id>, keepN: nat, cutoff: int, id: Id) {
    id in t && t[id] < cutoff && current != Some(id) && HasNewer(t, id, keepN)
  }

  lemma {:induction false} EligibleMeaning(t: Timeline, current: Option<Id>, keepN: nat, cutoff: int, id: Id)
    ensures id in Eligible(t, current, keepN, cutoff) <==> OutOfPolicy(t, current, keepN, cutoff, id)
  {
    if id in t {
      assert NewerThan(t, id) == set q | q in t && (t[q] > t[id] || (t[q] == t[id] && Less(q, id)));
    }
  }

  /** The sort-based rule selects exactly the eligible ids of the rank-based rule. */
  lemma {:induction false} SelectionIsEligibility(
      timeline: seq<Record>, t: Timeline, current: Option<Id>, policy: Policy, now: int)
    requires policy.keepN >= 1 && policy.maxAge > 0
    requires forall r :: r in timeline <==> r.id in t && r == RecordOf(t, r.id)
    requires forall i, j | 0 <= i < j < |timeline| :: timeline[i].id != timeline[j].id
    ensures forall id :: id in Selected(timeline, current, policy, now)
              <==> id in Eligible(t, current, policy.keepN, now - policy.maxAge)
  {
    var cutoff := now - policy.maxAge;
    OrderStrict();
    forall i, j | 0 <= i < j < |timeline|
      ensures NewerFirst(timeline[i], timeline[j]) || NewerFirst(timeline[j], timeline[i])
    {
      LessTotal(timeline[i].id, timeline[j].id);
    }
    var ordered := Sort(timeline, NewerFirst);
    SortSorted(timeline, NewerFirst);
    SameElements(ordered, timeline);
    assert Lists(ordered, t);
    forall id
      ensures id in Selected(timeline, current, policy, now) <==> id in Eligible(t, current, policy.keepN, cutoff)
    {
      SelectedOne(ordered, t, current, policy.keepN, cutoff, id);
    }
  }

  /** So it selects exactly what the policy lets go. */
  lemma {:induction false} SelectionIsPolicy(
      timeline: seq<Record>, t: Timeline, current: Option<Id>, policy: Policy, now: int, id: Id)
    requires policy.keepN >= 1 && policy.maxAge > 0
    requires forall r :: r in timeline <==> r.id in t && r == RecordOf(t, r.id)
    requires forall i, j | 0 <= i < j < |timeline| :: timeline[i].id != timeline[j].id
    ensures id in Selected(timeline, current, policy, now)
      <==> OutOfPolicy(t, current, policy.keepN, now - policy.maxAge, id)
  {
    SelectionIsEligibility(timeline, t, current, policy, now);
    EligibleMeaning(t, current, policy.keepN, now - policy.maxAge, id);
  }

  lemma {:induction false} SelectedOne(
      ordered: seq<Record>, t: Timeline, current: Option<Id>, n: nat, cutoff: int, id: Id)
    requires Lists(ordered, t)
    ensures id in Eligible(t, current, n, cutoff) <==>
      n < |ordered| && id in IdsOf(Filter(ordered[n..], PruneTest(current, cutoff)))
  {
    if id in Eligible(t, current, n, cutoff) {
      EligibleSelected(ordered, t, current, n, cutoff, id);
    }
    if n < |ordered| && id in IdsOf(Filter(ordered[n..], PruneTest(current, cutoff))) {
      SelectedEligible(ordered, t, current, n, cutoff, id, Filter(ordered[n..], PruneTest(current, cutoff)));
    }
  }

  lemma {:induction false} EligibleSelected(
      ordered: seq<Record>, t: Timeline, current: Option<Id>, n: nat, cutoff: int, id: Id)
    requires Lists(ordered, t) && id in Eligible(t, current, n, cutoff)
    ensures n < |ordered| && id in IdsOf(Filter(ordered[n..], PruneTest(current, cutoff)))
  {
    assert RecordOf(t, id) in ordered;
    var i :| 0 <= i < |ordered| && ordered[i] == RecordOf(t, id);
    RankIsIndex(ordered, t, i);
    assert ordered[n..][i - n] == ordered[i];
    IdKept(Filter(ordered[n..], PruneTest(current, cutoff)), ordered[i]);
  }

  lemma {:induction false} IdKept(kept: seq<Record>, r: Record)
    requires r in kept
    ensures r.id in IdsOf(kept)
  {
    var k :| 0 <= k < |kept| && kept[k] == r;
    assert IdsOf(kept)[k] == r.id;
  }

  lemma {:induction false} SelectedEligible(
      ordered: seq<Record>, t: Timeline, current: Option<Id>, n: nat, cutoff: int, id: Id, kept: seq<Record>)
    requires Lists(ordered, t) && n < |ordered|
    requires kept == Filter(ordered[n..], PruneTest(current, cutoff)) && id in IdsOf(kept)
    ensures id in Eligible(t, current, n, cutoff)
  {
    var k :| 0 <= k < |kept| && kept[k].id == id;
    assert kept[k] in kept;
    var j :| 0 <= j < |ordered[n..]| && ordered[n..][j] == kept[k];
    RankIsIndex(ordered, t, n + j);
    assert ordered[n + j] in ordered;
  }

  // --- deleting batches ------------------------------------------------------------------

  /** A row outside the latest n has n rows of the latest n before it. */
  lemma {:induction false} LatestComeFirst(t: Timeline, n: nat, r: Id) returns (first: set<Id>)
    requires r in t && !InLatest(t, n, r)
    ensures |first| == n && first <= NewerThan(t, r)
    ensures forall x | x in first :: x in t && InLatest(t, n, x)
  {
    var i := OrderedPosition(t, r);
    var ordered := Ordered(t);
    ListsDistinct(ordered, t);
    var ids := IdsOf(ordered[..n]);
    first := set x | x in ids;
    DistinctCount(ids, first);
    forall x | x in first ensures x in t && InLatest(t, n, x) && x in NewerThan(t, r) {
      var k :| 0 <= k < n && ids[k] == x;
      RankIsIndex(ordered, t, k);
      assert ordered[k] in ordered && NewerFirst(ordered[k], ordered[i]);
    }
  }

  /** Rank tests survive any deletion that spares the latest n. */
  lemma {:induction false} RankSurvives(t: Timeline, gone: set<Id>, n: nat, r: Id)
    requires r in t && r !in gone
    requires forall b | b in gone && b in t :: !InLatest(t, n, b)
    ensures InLatest(t - gone, n, r) <==> InLatest(t, n, r)
  {
    assert NewerThan(t - gone, r) <= NewerThan(t, r);
    Cardinality(NewerThan(t - gone, r), NewerThan(t, r));
    if !InLatest(t, n, r) {
      var first := LatestComeFirst(t, n, r);
      assert first <= NewerThan(t - gone, r);
      Cardinality(first, NewerThan(t - gone, r));
    }
  }

  lemma {:induction false} Cardinality(a: set<Id>, b: set<Id>)
    requires a <= b
    ensures |a| <= |b|
  {
    if a != {} {
      var x :| x in a;
      Cardinality(a - {x}, b - {x});
    }
  }

  /** Deleting eligible rows leaves the latest n alone and removes exactly those rows from the eligible set. */
  lemma {:induction false} DeletionIsLocal(t: Timeline, current: Option<Id>, n: nat, cutoff: int, gone: set<Id>)
    requires gone <= Eligible(t, current, n, cutoff)
    ensures Latest(t - gone, n) == Latest(t, n)
    ensures Eligible(t - gone, current, n, cutoff) == Eligible(t, current, n, cutoff) - gone
  {
    forall r | r in t && r !in gone ensures InLatest(t - gone, n, r) <==> InLatest(t, n, r) {
      RankSurvives(t, gone, n, r);
    }
  }

  ghost predicate OldestPart(b: seq<Id>, t: Timeline, all: set<Id>, limit: nat) {
    && |b| == Min(|all|, limit)
    && (forall id | id in b :: id in all && id in t)
    && (forall i, j | 0 <= i < j < |b| :: b[i] != b[j])
    && (forall i, e | 0 <= i < |b| && e in all && e in t && e !in b :: t[b[i]] <= t[e])
  }

  lemma {:induction false} PrefixIsOldestPart(sorted: seq<Record>, t: Timeline, all: set<Id>, limit: nat)
    requires StrictOrder(OlderFirst) && Sorted(sorted, OlderFirst) && |sorted| == |all| && all <= t.Keys
    requires forall r :: r in sorted <==> r.id in all && r == RecordOf(t, r.id)
    ensures OldestPart(FirstIds(sorted, limit), t, all, limit)
  {
    var b := FirstIds(sorted, limit);
    forall i | 0 <= i < |sorted| ensures sorted[i].id in all && sorted[i] == RecordOf(t, sorted[i].id) {
      assert sorted[i] in sorted;
    }
    forall i, j | 0 <= i < j < |b| ensures b[i] != b[j] {
      assert OlderFirst(sorted[i], sorted[j]);
    }
    assert forall k | 0 <= k < |b| :: sorted[k].id in b by {
      forall k | 0 <= k < |b| ensures sorted[k].id in b { assert b[k] in b; }
    }
    forall i, e | 0 <= i < |b| && e in all && e !in b ensures t[b[i]] <= t[e] {
      assert RecordOf(t, e) in sorted;
      var k :| 0 <= k < |sorted| && sorted[k] == RecordOf(t, e);
      assert i < k && OlderFirst(sorted[i], sorted[k]);
    }
  }

  /** The batch: as many eligible rows as the limit allows, none twice, no younger row before an older one. */
  lemma {:induction false} BatchMembers(t: Timeline, current: Option<Id>, n: nat, cutoff: int, limit: nat)
    ensures OldestPart(Batch(t, current, n, cutoff, limit), t, Eligible(t, current, n, cutoff), limit)
  {
    var all := Eligible(t, current, n, cutoff);
    var rs := RecordsOf(t, all);
    RecordsOfMembers(t, all);
    OrderStrict();
    SortSorted(rs, OlderFirst);
    SameElements(Sort(rs, OlderFirst), rs);
    PrefixIsOldestPart(Sort(rs, OlderFirst), t, all, limit);
  }

  /** One pass over one certificate at a fixed cutoff. */
  function PrunePass(t: Timeline, current: Option<Id>, n: nat, cutoff: int, limit: nat): Timeline {
    t - set id | id in Batch(t, current, n, cutoff, limit)
  }

  function Iterate(pass: Timeline -> Timeline, t: Timeline, passes: nat): Timeline {
    if passes == 0 then t else pass(Iterate(pass, t, passes - 1))
  }

  function PassAt(current: Option<Id>, n: nat, cutoff: int, limit: nat): Timeline -> Timeline {
    (t: Timeline) => PrunePass(t, current, n, cutoff, limit)
  }

  function EligibleAt(current: Option<Id>, n: nat, cutoff: int): Timeline -> set<Id> {
    (t: Timeline) => Eligible(t, current, n, cutoff)
  }

  /** Repeated passes over one certificate at a fixed cutoff. */
  function PrunePasses(t: Timeline, current: Option<Id>, n: nat, cutoff: int, limit: nat, passes: nat): Timeline {
    Iterate(PassAt(current, n, cutoff, limit), t, passes)
  }

  lemma {:induction false} OnePass(t: Timeline, current: Option<Id>, n: nat, cutoff: int, limit: nat)
    returns (gone: set<Id>)
    ensures gone <= Eligible(t, current, n, cutoff) && |gone| == Min(|Eligible(t, current, n, cutoff)|, limit)
    ensures PrunePass(t, current, n, cutoff, limit) == t - gone
    ensures Latest(t - gone, n) == Latest(t, n)
    ensures Eligible(t - gone, current, n, cutoff) == Eligible(t, current, n, cutoff) - gone
  {
    var b := Batch(t, current, n, cutoff, limit);
    BatchMembers(t, current, n, cutoff, limit);
    gone := set id | id in b;
    DistinctCount(b, gone);
    DeletionIsLocal(t, current, n, cutoff, gone);
  }

  /** An eligible row stays eligible while rows are added, the cutoff grows and it is not made current. */
  lemma {:induction false} StaysEligible(
      t: Timeline, t': Timeline, current: Option<Id>, current': Option<Id>, n: nat, cutoff: int, cutoff': int, e: Id)
    requires e in Eligible(t, current, n, cutoff) && cutoff <= cutoff' && Some(e) != current'
    requires forall id | id in t :: id in t' && t'[id] == t[id]
    ensures e in Eligible(t', current', n, cutoff')
  {
    assert NewerThan(t, e) <= NewerThan(t', e);
    Cardinality(NewerThan(t, e), NewerThan(t', e));
  }

  /** A pass over a history with a row eligible at an earlier cutoff removes a row. */
  lemma {:induction false} PassRemovesSome(
      t: Timeline, current: Option<Id>, n: nat, cutoff: int, cutoff': int, limit: nat, e: Id)
    requires e in Eligible(t, current, n, cutoff) && cutoff <= cutoff' && limit >= 1
    ensures PrunePass(t, current, n, cutoff', limit) != t
  {
    StaysEligible(t, t, current, current, n, cutoff, cutoff', e);
    var gone := OnePass(t, current, n, cutoff', limit);
    assert |gone| >= 1;
    var x :| x in gone;
    assert x in t && x !in t - gone;
  }

  /** The pass removes `gone` from t, as much of the eligible rows as the limit allows. */
  ghost predicate Removal(
      elig: Timeline -> set<Id>, pass: Timeline -> Timeline, limit: nat, t: Timeline, gone: set<Id>) {
    && gone <= elig(t) && |gone| == Min(|elig(t)|, limit)
    && pass(t) == t - gone && elig(t - gone) == elig(t) - gone
  }

  ghost predicate Removes(elig: Timeline -> set<Id>, pass: Timeline -> Timeline, limit: nat, t: Timeline) {
    exists gone :: Removal(elig, pass, limit, t, gone)
  }

  lemma {:induction false} PassRemoves(current: Option<Id>, n: nat, cutoff: int, limit: nat, t: Timeline)
    ensures Removes(EligibleAt(current, n, cutoff), PassAt(current, n, cutoff, limit), limit, t)
  {
    var gone := OnePass(t, current, n, cutoff, limit);
    assert Removal(EligibleAt(current, n, cutoff), PassAt(current, n, cutoff, limit), limit, t, gone);
  }

  /** What is left and still eligible once `done` rows' worth of passes ran. */
  ghost predicate Drained(t: Timeline, t': Timeline, e: set<Id>, e': set<Id>, done: nat) {
    e' <= e && t' == t - (e - e') && |e'| == if done >= |e| then 0 else |e| - done
  }

  lemma {:induction false} MinusTwice(t: Timeline, a: set<Id>, b: set<Id>, c: set<Id>)
    requires c == a + b
    ensures (t - a) - b == t - c
  {
  }

  lemma {:induction false} ShrinkBy(e: set<Id>, em: set<Id>, gone: set<Id>)
    requires gone <= em <= e
    ensures e - (em - gone) == (e - em) + gone && |em - gone| == |em| - |gone|
  {
    assert em == (em - gone) + gone;
  }

  lemma {:induction false} DrainedStep(
      t: Timeline, mid: Timeline, e: set<Id>, em: set<Id>, gone: set<Id>, done: nat, limit: nat)
    requires Drained(t, mid, e, em, done) && gone <= em && |gone| == Min(|em|, limit)
    ensures Drained(t, mid - gone, e, em - gone, done + limit)
  {
    ShrinkBy(e, em, gone);
    MinusTwice(t, e - em, gone, e - (em - gone));
  }

  lemma {:induction false} IterationDrains(
      elig: Timeline -> set<Id>, pass: Timeline -> Timeline, limit: nat, t: Timeline, passes: nat, done: nat)
    requires forall u :: Removes(elig, pass, limit, u)
    requires done == passes * limit
    ensures Drained(t, Iterate(pass, t, passes), elig(t), elig(Iterate(pass, t, passes)), done)
  {
    if passes == 0 {
      assert t - (elig(t) - elig(t)) == t;
    } else {
      assert done - limit == (passes - 1) * limit;
      IterationDrains(elig, pass, limit, t, passes - 1, done - limit);
      var mid := Iterate(pass, t, passes - 1);
      assert Removes(elig, pass, limit, mid);
      var gone :| Removal(elig, pass, limit, mid, gone);
      DrainedStep(t, mid, elig(t), elig(mid), gone, done - limit, limit);
    }
  }

  lemma {:induction false} PassesDrain(
      t: Timeline, current: Option<Id>, n: nat, cutoff: int, limit: nat, passes: nat, done: nat)
    requires done == passes * limit
    ensures var t' := PrunePasses(t, current, n, cutoff, limit, passes);
      Drained(t, t', Eligible(t, current, n, cutoff), Eligible(t', current, n, cutoff), done)
  {
    forall u ensures Removes(EligibleAt(current, n, cutoff), PassAt(current, n, cutoff, limit), limit, u) {
      PassRemoves(current, n, cutoff, limit, u);
    }
    IterationDrains(EligibleAt(current, n, cutoff), PassAt(current, n, cutoff, limit), limit, t, passes, done);
  }

  ghost predicate FullyDrained(t: Timeline, t': Timeline, current: Option<Id>, n: nat, cutoff: int, limit: nat) {
    && t' == t - Eligible(t, current, n, cutoff)
    && Batch(t', current, n, cutoff, limit) == []
    && Eligible(t', current, n, cutoff) == {}
  }

  function PassesNeeded(t: Timeline, current: Option<Id>, n: nat, cutoff: int, limit: nat): nat
    requires limit >= 1
  {
    CeilDiv(|Eligible(t, current, n, cutoff)|, limit)
  }

  /**
    At a fixed cutoff, exactly ceil(eligible / limit) passes delete something; after them the
    timeline is the original minus the eligible rows, and nothing is eligible any more.
  */
  lemma {:induction false} BatchesDrainToTheRule(
      t: Timeline, current: Option<Id>, n: nat, cutoff: int, limit: nat, passes: nat)
    requires limit >= 1
    ensures var t' := PrunePasses(t, current, n, cutoff, limit, passes);
      if passes < PassesNeeded(t, current, n, cutoff, limit)
      then Batch(t', current, n, cutoff, limit) != []
      else FullyDrained(t, t', current, n, cutoff, limit)
  {
    DrainedByCount(t, current, n, cutoff, limit, passes, passes * limit);
    CeilDivBound(|Eligible(t, current, n, cutoff)|, limit, passes);
  }

  lemma {:induction false} DrainedByCount(
      t: Timeline, current: Option<Id>, n: nat, cutoff: int, limit: nat, passes: nat, done: nat)
    requires limit >= 1 && done == passes * limit
    ensures var t' := PrunePasses(t, current, n, cutoff, limit, passes);
      if done < |Eligible(t, current, n, cutoff)|
      then Batch(t', current, n, cutoff, limit) != []
      else FullyDrained(t, t', current, n, cutoff, limit)
  {
    var t' := PrunePasses(t, current, n, cutoff, limit, passes);
    PassesDrain(t, current, n, cutoff, limit, passes, done);
    BatchSize(t', current, n, cutoff, limit);
    DrainedOrNot(t, t', Eligible(t, current, n, cutoff), Eligible(t', current, n, cutoff),
                 Batch(t', current, n, cutoff, limit), done, limit);
  }

  lemma {:induction false} BatchSize(t: Timeline, current: Option<Id>, n: nat, cutoff: int, limit: nat)
    ensures |Batch(t, current, n, cutoff, limit)| == Min(|Eligible(t, current, n, cutoff)|, limit)
  {
    BatchMembers(t, current, n, cutoff, limit);
  }

  lemma {:induction false} DrainedOrNot(
      t: Timeline, t': Timeline, e: set<Id>, e': set<Id>, b: seq<Id>, done: nat, limit: nat)
    requires Drained(t, t', e, e', done) && |b| == Min(|e'|, limit) && limit >= 1
    ensures if done < |e| then b != [] else t' == t - e && b == [] && e' == {}
  {
    if done >= |e| { assert e - e' == e; }
  }

  function CeilDiv(e: nat, limit: nat): nat
    requires limit >= 1
  {
    if e == 0 then 0 else 1 + CeilDiv(if e <= limit then 0 else e - limit, limit)
  }

  lemma {:induction false} CeilDivBound(e: nat, limit: nat, passes: nat)
    requires limit >= 1
    ensures passes < CeilDiv(e, limit) <==> passes * limit < e
    decreases e
  {
    if e > 0 && passes > 0 {
      CeilDivBound(if e <= limit then 0 else e - limit, limit, passes - 1);
      assert passes * limit == (passes - 1) * limit + limit;
    }
  }

  /** What the sort-based rule selects from a stored timeline. */
  ghost function SelectedFrom(t: Timeline, current: Option<Id>, policy: Policy, now: int): set<Id> {
    set id | id in Selected(Ordered(t), current, policy, now)
  }

  lemma {:induction false} SelectedFromIsEligible(
      t: Timeline, current: Option<Id>, policy: Policy, now: int, n: nat, cutoff: int)
    requires policy.keepN == n >= 1 && policy.maxAge > 0 && cutoff == now - policy.maxAge
    ensures SelectedFrom(t, current, policy, now) == Eligible(t, current, n, cutoff)
  {
    ListsDistinct(Ordered(t), t);
    SelectionIsEligibility(Ordered(t), t, current, policy, now);
  }

  ghost predicate MatchesSelection(t: Timeline, t': Timeline, current: Option<Id>, policy: Policy, now: int) {
    t' == t - SelectedFrom(t, current, policy, now) && SelectedFrom(t', current, policy, now) == {}
  }

  lemma {:induction false} FullyDrainedMatchesSelection(
      t: Timeline, t': Timeline, current: Option<Id>, policy: Policy, now: int, n: nat, cutoff: int, limit: nat)
    requires policy.keepN == n >= 1 && policy.maxAge > 0 && cutoff == now - policy.maxAge
    requires FullyDrained(t, t', current, n, cutoff, limit)
    ensures MatchesSelection(t, t', current, policy, now)
  {
    SelectedFromIsEligible(t, current, policy, now, n, cutoff);
    SelectedFromIsEligible(t', current, policy, now, n, cutoff);
  }

  /** The drained timeline is what the sort-based rule leaves, and that rule then selects nothing. */
  lemma {:induction false} DrainMatchesSelection(
      t: Timeline, t': Timeline, current: Option<Id>, policy: Policy, now: int, n: nat, cutoff: int,
      limit: nat, passes: nat)
    requires policy.keepN == n >= 1 && policy.maxAge > 0 && cutoff == now - policy.maxAge && limit >= 1
    requires t' == PrunePasses(t, current, n, cutoff, limit, passes)
    requires passes >= PassesNeeded(t, current, n, cutoff, limit)
    ensures MatchesSelection(t, t', current, policy, now)
  {
    BatchesDrainToTheRule(t, current, n, cutoff, limit, passes);
    FullyDrainedMatchesSelection(t, t', current, policy, now, n, cutoff, limit);
  }
}
