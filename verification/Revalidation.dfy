// revalidate_review: a review may differ from its proposal in its confirmations
// and in nothing else, and every reachable review passes.
module Revalidation {
  import opened Outcomes
  import opened Labels
  import opened Reviews
  import opened HardNegatives

  // The entry still names a certified training photo and a tile clear of its annotations.
  predicate StillSound(e: Entry, im: Image, tile: int) {
    && im.sourceSha256 == e.sourceSha256 && im.source == e.source && Eligible(im)
    && |e.tileXyxy| == 4 && Clear(im, tile, (e.tileXyxy[0], e.tileXyxy[1]))
  }

  ghost predicate SomewhereSound(e: Entry, images: seq<Image>, tile: int) {
    exists i :: 0 <= i < |images| && StillSound(e, images[i], tile)
  }

  ghost predicate AllStillSound(r: Review, images: seq<Image>) {
    forall k | 0 <= k < |r.entries| :: SomewhereSound(r.entries[k], images, r.tilePx)
  }

  function FindImage(images: seq<Image>, hash: string): (r: Option<Image>)
    ensures r.Some? ==> r.value in images && r.value.sourceSha256 == hash
    ensures r.None? ==> forall im | im in images :: im.sourceSha256 != hash
  {
    if images == [] then None
    else if images[0].sourceSha256 == hash then Some(images[0])
    else FindImage(images[1..], hash)
  }

  lemma FoundIsUnique(images: seq<Image>, a: Image, b: Image)
    requires ValidImages(images) && a in images && b in images && a.sourceSha256 == b.sourceSha256
    ensures a == b
  {
    var i :| 0 <= i < |images| && images[i] == a;
    var j :| 0 <= j < |images| && images[j] == b;
    HashesIdentify(images, i, j);
  }

  method RecheckEntry(e: Entry, images: seq<Image>, tile: int) returns (bad: Option<ReviewError>)
    requires ValidImages(images) && |e.tileXyxy| == 4
    ensures bad.None? <==> SomewhereSound(e, images, tile)
  {
    var found := FindImage(images, e.sourceSha256);
    if found.Some? {
      forall i | 0 <= i < |images| && images[i].sourceSha256 == e.sourceSha256
        ensures images[i] == found.value
      {
        FoundIsUnique(images, images[i], found.value);
      }
    }
    if found.None? || found.value.source != e.source {
      return Some(SourceChanged);
    }
    if !Eligible(found.value) {
      return Some(NotEligible);
    }
    if Intersects(TileRect((e.tileXyxy[0], e.tileXyxy[1]), tile, found.value), found.value) {
      return Some(TileIntersects);
    }
    return None;
  }

  method RecheckEntries(r: Review, images: seq<Image>) returns (bad: Option<ReviewError>)
    requires ValidImages(images) && ValidReview(r, false)
    ensures bad.None? <==> AllStillSound(r, images)
  {
    for k := 0 to |r.entries|
      invariant forall j | 0 <= j < k :: SomewhereSound(r.entries[j], images, r.tilePx)
    {
      assert ValidEntry(r.entries[k], r.tilePx);
      bad := RecheckEntry(r.entries[k], images, r.tilePx);
      if bad.Some? {
        return;
      }
    }
    return None;
  }

  // The review is, up to its confirmations, the proposal of exactly these inputs.
  ghost predicate IsReviewOf(r: Review, labels: Document, b: Baseline, setup: Setup) {
    && ValidReview(r, false) && r.labels == labels && r.baseline == b && CanPropose(labels, b, setup)
    && Provenance(r) == Provenance(ProposalFor(labels, b, setup))
  }

  method RevalidateReview(r: Review, labels: Document, b: Baseline, setup: Setup)
    returns (out: Result<Document, ReviewError>)
    ensures out.Success? <==> IsReviewOf(r, labels, b, setup) && AllStillSound(r, labels.images)
    ensures out.Success? ==> out.value == labels
  {
    var valid := ValidateReview(r, false);
    if valid.Failure? {
      return Failure(valid.error);
    }
    if r.labels != labels {
      return Failure(LabelsChanged);
    }
    if r.baseline != b {
      return Failure(BaselineChanged);
    }
    var expected := Propose(labels, b, setup);
    if expected.Failure? {
      return Failure(expected.error);
    }
    if Provenance(r) != Provenance(expected.value) {
      return Failure(ProvenanceModified);
    }
    var bad := RecheckEntries(r, labels.images);
    if bad.Some? {
      return Failure(bad.value);
    }
    return Success(labels);
  }

  // The last loop of revalidation refuses nothing: whatever its decisions, a review
  // of these inputs holds only tiles that are clear in certified training photos.
  lemma RecheckIsRedundant(r: Review, labels: Document, b: Baseline, setup: Setup)
    requires IsReviewOf(r, labels, b, setup)
    ensures AllStillSound(r, labels.images)
  {
    var p := ProposalFor(labels, b, setup);
    ProposalIsSound(labels, b, setup, p);
    forall k | 0 <= k < |r.entries|
      ensures SomewhereSound(r.entries[k], labels.images, r.tilePx)
    {
      SameProvenance(r, p, k);
      var i :| 0 <= i < |labels.images| && Eligible(labels.images[i])
               && SoundFor(p.entries[k], labels.images[i], p.tilePx);
      assert StillSound(r.entries[k], labels.images[i], r.tilePx);
    }
  }

  lemma SameProvenance(r: Review, p: Review, k: nat)
    requires Provenance(r) == Provenance(p) && k < |r.entries|
    ensures |p.entries| == |r.entries| && r.tilePx == p.tilePx
    ensures r.entries[k].(confirmation := "") == p.entries[k].(confirmation := "")
    ensures p.entries[k] in p.entries
  {
    var a, b := Provenance(r), Provenance(p);
    assert a.entries[k] == b.entries[k];
  }

  // Every review the browser can reach from a proposal still revalidates.
  lemma ReachableStillRevalidates(labels: Document, b: Baseline, setup: Setup, p: Review, r: Review, steps: nat)
    requires IsProposal(labels, b, setup, p) && Reachable(p, r, steps)
    ensures IsReviewOf(r, labels, b, setup) && AllStillSound(r, labels.images)
    ensures StaysDecided(p, r) && CountOf(r.entries, "pending") <= CountOf(p.entries, "pending")
  {
    ProposalIsSound(labels, b, setup, p);
    UpdatesOnlyDecide(p, r, steps);
    var q := Provenance(r);
    assert q.labels == r.labels && q.baseline == r.baseline;
    RecheckIsRedundant(r, labels, b, setup);
  }
}
