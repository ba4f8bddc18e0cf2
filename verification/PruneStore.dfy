/**
  The bounded prune on the stored tables: what one certificate's turn does to its history and to
  the others.
*/
module PruneStore {
  import opened Wrappers
  import opened Ids
  import opened Ownership
  import Retention

  /** The guard of the delete never fires: it removes exactly the selected batch. */
  lemma {:induction false} DeletableIsBatch(st: State, c: Id, keepN: nat, cutoff: int, limit: nat)
    ensures Deletable(st, c, PruneBatch(st, c, keepN, cutoff, limit))
         == set id | id in PruneBatch(st, c, keepN, cutoff, limit)
  {
    var t, current := TimelineOf(st.explanations, c), CurrentExplanation(st, c);
    Retention.BatchMembers(t, current, keepN, cutoff, limit);
    forall id | id in PruneBatch(st, c, keepN, cutoff, limit)
      ensures id in st.explanations && st.explanations[id].certId == c && Some(id) != current
    {
      assert id in Retention.Eligible(t, current, keepN, cutoff);
    }
  }

  lemma {:induction false} TimelineWithout(ex: map<Id, Explanation>, gone: set<Id>, c: Id)
    ensures TimelineOf(ex - gone, c) == TimelineOf(ex, c) - gone
  {
  }

  /** One page does one retention pass on its certificate and leaves every other history alone. */
  lemma {:induction false} PruneCertIsOnePass(st: State, c: Id, keepN: nat, cutoff: int, limit: nat)
    ensures var st' := PruneCert(st, c, keepN, cutoff, limit).0;
      && st'.rows == st.rows && CurrentExplanation(st', c) == CurrentExplanation(st, c)
      && TimelineOf(st'.explanations, c)
           == Retention.PrunePass(TimelineOf(st.explanations, c), CurrentExplanation(st, c), keepN, cutoff, limit)
      && forall x | x != c :: TimelineOf(st'.explanations, x) == TimelineOf(st.explanations, x)
  {
    var gone := Deletable(st, c, PruneBatch(st, c, keepN, cutoff, limit));
    DeletableIsBatch(st, c, keepN, cutoff, limit);
    TimelineWithout(st.explanations, gone, c);
    forall x | x != c ensures TimelineOf(st.explanations - gone, x) == TimelineOf(st.explanations, x) {
      TimelineWithout(st.explanations, gone, x);
      assert forall id | id in gone :: id !in TimelineOf(st.explanations, x);
    }
  }
}
