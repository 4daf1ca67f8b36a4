// A review over a run of browser updates: what an entry holds is the last decision
// accepted for it, and that decides what is materialized.
module ReviewHistory {
  import opened Outcomes
  import opened Reviews
  import opened Materialization

  // What an update needs to be accepted.
  ghost predicate Accepted(r: Review, u: Decision) {
    ValidReview(r, false) && u.fields == UPDATE_KEYS && u.confirmation in DECISIONS && exists i :: HasEntry(r, u.id, i)
  }

  // The reviews between the updates sent; a refused one leaves the review alone.
  ghost predicate IsHistory(reviews: seq<Review>, us: seq<Decision>) {
    && |reviews| == |us| + 1
    && forall k | 0 <= k < |us| ::
         if Accepted(reviews[k], us[k]) then StoresDecision(reviews[k], us[k], reviews[k + 1])
         else reviews[k + 1] == reviews[k]
  }

  // The last decision sent for an entry that was one.
  function LastDecision(us: seq<Decision>, id: Id): Option<string> {
    if us == [] then None
    else
      var u := us[|us| - 1];
      if u.id == id && u.fields == UPDATE_KEYS && u.confirmation in DECISIONS then Some(u.confirmation)
      else LastDecision(us[..|us| - 1], id)
  }

  lemma HistoryPrefix(reviews: seq<Review>, us: seq<Decision>)
    requires IsHistory(reviews, us) && us != []
    ensures IsHistory(reviews[..|us|], us[..|us| - 1])
  {
  }

  lemma StoredIsValid(before: Review, u: Decision, after: Review)
    requires Accepted(before, u) && StoresDecision(before, u, after)
    ensures ValidReview(after, false)
  {
    forall i | 0 <= i < |after.entries|
      ensures after.entries[i].id == before.entries[i].id && ValidEntry(after.entries[i], after.tilePx)
    {
      assert ValidEntry(before.entries[i], before.tilePx);
    }
  }

  // Over every run of updates an entry holds the last decision sent for it, or what
  // it held before when there is none.
  lemma {:induction false} LastDecisionCounts(reviews: seq<Review>, us: seq<Decision>, i: nat)
    requires IsHistory(reviews, us) && ValidReview(reviews[0], false) && i < |reviews[0].entries|
    ensures ValidReview(reviews[|us|], false)
    ensures var before, after := reviews[0], reviews[|us|];
            && |after.entries| == |before.entries| && after.(entries := before.entries) == before
            && var last := LastDecision(us, before.entries[i].id);
               Holds(before.entries[i], if last.Some? then last.value else before.entries[i].confirmation,
                     after.entries[i])
  {
    if us != [] {
      var n := |us| - 1;
      HistoryPrefix(reviews, us);
      LastDecisionCounts(reviews[..n + 1], us[..n], i);
      var middle, u := reviews[n], us[n];
      assert middle.entries[i].id == reviews[0].entries[i].id;
      assert u.id == middle.entries[i].id ==> HasEntry(middle, u.id, i);
      if Accepted(middle, u) {
        StoredIsValid(middle, u, reviews[|us|]);
      }
    }
  }

  // Nothing whose last decision was a rejection is materialized.
  lemma RejectedIsNotEmitted(reviews: seq<Review>, us: seq<Decision>, crops: Crops, e: Entry)
    requires IsHistory(reviews, us) && ValidReview(reviews[0], false) && e in Unique(reviews[|us|].entries, crops)
    ensures LastDecision(us, e.id) != Some("rejected")
  {
    var after := reviews[|us|];
    IsSelected(after.entries, crops, e);
    var i :| 0 <= i < |after.entries| && after.entries[i] == e;
    SameLength(reviews, us);
    LastDecisionCounts(reviews, us, i);
  }

  lemma {:induction false} SameLength(reviews: seq<Review>, us: seq<Decision>)
    requires IsHistory(reviews, us)
    ensures |reviews[|us|].entries| == |reviews[0].entries|
  {
    if us != [] {
      HistoryPrefix(reviews, us);
      SameLength(reviews[..|us|], us[..|us| - 1]);
    }
  }
}
