// ReviewSession: the review file behind the browser, updated one confirmation at
// a time and revalidated before every write.
module ReviewSession {
  import opened Outcomes
  import opened Labels
  import opened Reviews
  import opened Revalidation
  import H = HardNegatives
  import Q = QaSample
  import D = QaSpread
  import opened Sorting

  // A decision takes a review of the inputs to a review of the inputs.
  lemma DecisionStaysAccepted(r: Review, i: nat, c: string, labels: Document, b: Baseline, setup: H.Setup)
    requires IsReviewOf(r, labels, b, setup) && i < |r.entries| && c in DECISIONS
    ensures IsReviewOf(Decide(r, i, c), labels, b, setup)
  {
    DecideKeepsValid(r, i, c);
    DecidingOnlyDecides(r, i, c);
  }

  ghost predicate IsUpdate(before: Review, u: Decision, after: Review) {
    exists i :: HasEntry(before, u.id, i) && after == Decide(before, i, u.confirmation)
  }

  ghost predicate CanUpdate(r: Review, u: Decision) {
    u.fields == UPDATE_KEYS && u.confirmation in DECISIONS && exists i :: HasEntry(r, u.id, i)
  }

  // _load: validate the review and revalidate it against its inputs.
  method LoadReview(r: Review, labels: Document, b: Baseline, setup: H.Setup) returns (ok: bool)
    ensures ok == IsReviewOf(r, labels, b, setup)
  {
    AcceptedMeansRevalidates(r, labels, b, setup);
    var valid := RevalidateReview(r, labels, b, setup);
    return valid.Success?;
  }

  // Reload, apply the one authorized change, revalidate; the second revalidation
  // never refuses.
  method UpdateReview(r: Review, labels: Document, b: Baseline, setup: H.Setup, u: Decision)
    returns (out: Result<Review, ReviewError>)
    ensures out.Success? == (IsReviewOf(r, labels, b, setup) && CanUpdate(r, u))
    ensures out.Success? ==> StoresDecision(r, u, out.value)
    ensures out.Success? ==> IsUpdate(r, u, out.value) && IsReviewOf(out.value, labels, b, setup)
  {
    var loaded := LoadReview(r, labels, b, setup);
    if !loaded {
      return Failure(ProvenanceModified);
    }
    out := UpdateConfirmation(r, u);
    if out.Success? {
      ghost var i :| HasEntry(r, u.id, i) && out.value == Decide(r, i, u.confirmation);
      DecisionStaysAccepted(r, i, u.confirmation, labels, b, setup);
      var again := LoadReview(out.value, labels, b, setup);
    }
  }

  // The three files, which others may also rewrite.
  datatype Files = Files(review: Review, labels: Document, baseline: Baseline)

  // _review, _labels and _display_order.
  datatype Shown = Shown(review: Review, labels: Document, order: seq<nat>)

  // The display order fits the review it is used on.
  ghost predicate OrderFits(s: Shown) {
    Q.ValidOrder(s.order, |s.review.entries|)
  }

  ghost predicate Opens(f: Files, setup: H.Setup, qaSize: Option<int>) {
    && IsReviewOf(f.review, f.labels, f.baseline, setup)
    && (qaSize.Some? && qaSize.value < |f.review.entries| ==> qaSize.value >= 1)
  }

  method OpenReview(f: Files, setup: H.Setup, qaSize: Option<int>) returns (s: Option<Shown>)
    ensures s.Some? == Opens(f, setup, qaSize)
    ensures s.Some? ==> s.value.review == f.review && s.value.labels == f.labels && OrderFits(s.value)
    ensures s.Some? ==> D.IsDisplay(f.review.entries, f.labels.images, qaSize, setup, s.value.order)
  {
    var loaded := LoadReview(f.review, f.labels, f.baseline, setup);
    if !loaded {
      return None;
    }
    var sample := D.QaDisplayIndices(f.review, f.labels, qaSize, setup);
    if sample.Failure? {
      return None;
    }
    SampleIsValidOrder(f.review.entries, f.labels.images, setup, sample.value);
    return Some(Shown(f.review, f.labels, sample.value));
  }

  ghost predicate AllIntact(entries: seq<Entry>, intact: string -> bool) {
    forall i | 0 <= i < |entries| :: intact(entries[i].sourceSha256)
  }

  // _verify_source_hashes: every photo of an entry still has the hash it is listed
  // under; each is hashed once.
  method VerifySourceHashes(entries: seq<Entry>, intact: string -> bool) returns (ok: bool)
    ensures ok == AllIntact(entries, intact)
  {
    var checked: set<string> := {};
    for i := 0 to |entries|
      invariant forall j | 0 <= j < i :: intact(entries[j].sourceSha256)
      invariant forall h | h in checked :: intact(h)
    {
      var hash := entries[i].sourceSha256;
      if hash !in checked {
        if !intact(hash) {
          return false;
        }
        checked := checked + {hash};
      }
    }
    return true;
  }

  // A decision leaves the provenance, and so the number of entries, alone.
  lemma UpdateKeepsOrder(s: Shown, before: Review, u: Decision, after: Review)
    requires OrderFits(s) && Provenance(before) == Provenance(s.review) && IsUpdate(before, u, after)
    ensures OrderFits(s.(review := after))
  {
    assert |Provenance(before).entries| == |Provenance(s.review).entries|;
  }

  type Answer = Result<Option<nat>, Q.QaError>

  class Session {
    const setup: H.Setup
    var files: Files
    var shown: Shown

    constructor (digests: H.Setup, f: Files)
      ensures setup == digests && files == f
    {
      setup, files, shown := digests, f, Shown(f.review, f.labels, []);
    }

    // __init__: load and validate everything, check the photos, fix the order.
    method Open(qaSize: Option<int>, intact: string -> bool) returns (ok: bool)
      modifies this
      ensures files == old(files)
      ensures ok == (Opens(files, setup, qaSize) && AllIntact(files.review.entries, intact))
      ensures ok ==> shown.review == files.review && shown.labels == files.labels && OrderFits(shown)
      ensures ok ==> D.IsDisplay(files.review.entries, files.labels.images, qaSize, setup, shown.order)
    {
      var opened' := OpenReview(files, setup, qaSize);
      if opened'.None? {
        return false;
      }
      var intactSources := VerifySourceHashes(files.review.entries, intact);
      if !intactSources {
        return false;
      }
      shown := opened'.value;
      return true;
    }

    // update: reload, revalidate, apply the one authorized change, revalidate,
    // write. A refusal leaves the file and the session alone. The answer, the
    // position to show next, is never an error as long as nobody else changed the
    // review's provenance.
    method Update(u: Decision) returns (out: Result<Answer, ReviewError>)
      modifies this
      ensures out.Success? == (IsReviewOf(old(files).review, files.labels, files.baseline, setup)
                               && CanUpdate(old(files).review, u))
      ensures out.Failure? ==> files == old(files) && shown == old(shown)
      ensures out.Success? ==> StoresDecision(old(files).review, u, files.review)
      ensures out.Success? ==> IsUpdate(old(files).review, u, files.review)
      ensures out.Success? ==> files == old(files).(review := files.review)
      ensures out.Success? ==> shown == Shown(files.review, files.labels, old(shown).order)
      ensures out.Success? && OrderFits(old(shown))
              && Provenance(old(files).review) == Provenance(old(shown).review) ==>
                OrderFits(shown) && out.value.Success?
      ensures out.Success? ==> Q.IsResume(files.review, shown.order, out.value)
    {
      var f, s := files, shown;
      var updated := UpdateReview(f.review, f.labels, f.baseline, setup, u);
      if updated.Failure? {
        return Failure(updated.error);
      }
      var position := Reposition(s, f.review, u, updated.value);
      if updated.value != f.review {
        files := f.(review := updated.value);
      }
      shown := Shown(updated.value, f.labels, s.order);
      return Success(position);
    }
  }

  method Reposition(s: Shown, before: Review, ghost u: Decision, after: Review) returns (position: Answer)
    requires IsUpdate(before, u, after) && ValidReview(after, false)
    ensures Q.IsResume(after, s.order, position)
    ensures OrderFits(s) && Provenance(before) == Provenance(s.review) ==>
              OrderFits(s.(review := after)) && position.Success?
  {
    if OrderFits(s) && Provenance(before) == Provenance(s.review) {
      UpdateKeepsOrder(s, before, u, after);
    }
    position := Q.ResumePosition(after, s.order);
  }

  // Revalidation's last loop refuses nothing, so these are the same test.
  lemma AcceptedMeansRevalidates(r: Review, labels: Document, b: Baseline, setup: H.Setup)
    ensures IsReviewOf(r, labels, b, setup) <==> IsReviewOf(r, labels, b, setup) && AllStillSound(r, labels.images)
  {
    if IsReviewOf(r, labels, b, setup) {
      RecheckIsRedundant(r, labels, b, setup);
    }
  }

  lemma SampleIsValidOrder(entries: seq<Entry>, images: seq<Image>, setup: H.Setup, sample: seq<nat>)
    requires exists p :: sample == Filter(p, Q.DisplayIndices(entries, images, setup))
    requires DistinctBy(Q.Itself(), sample)
    ensures Q.ValidOrder(sample, |entries|)
  {
    Q.DisplayIsAnOrder(entries, images, setup);
    forall k | 0 <= k < |sample|
      ensures sample[k] < |entries|
    {
      assert sample[k] in sample && sample[k] in Q.DisplayIndices(entries, images, setup);
    }
  }
}
