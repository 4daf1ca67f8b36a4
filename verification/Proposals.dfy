// What a proposal holds, photo by photo, on the fields of the labels, the baseline
// and the entries.
module Proposals {
  import opened Outcomes
  import opened Sorting
  import opened Labels
  import opened Reviews
  import opened HardNegatives

  // ---- When there is a proposal ----

  ghost predicate IsTraining(im: Image) {
    (im.role == "training_candidate" || im.role == "hard_negative_pool") && im.reviewState == "certified"
  }

  lemma EligibleReads(im: Image)
    ensures Eligible(im) == IsTraining(im)
  {
  }

  // The record's candidates can be used for the photo.
  ghost predicate IsUsable(a: AuditRecord, im: Image, origins: seq<Origin>) {
    && a.sourceSha256 == im.sourceSha256 && a.width == im.width && a.height == im.height && a.candidates.Some?
    && forall c | c in a.candidates.value ::
         0.0 <= c.confidence <= 1.0 && (c.confidence >= 0.10 ==> (c.tileX, c.tileY) in origins)
  }

  ghost predicate HasUsable(audits: seq<AuditRecord>, im: Image, origins: seq<Origin>) {
    exists a :: a in audits && IsUsable(a, im, origins)
  }

  ghost predicate IsCovered(images: seq<Image>, b: Baseline)
    requires ValidGeometry(b.tilePx, b.overlapPx)
  {
    forall im | im in images && IsTraining(im) :: HasUsable(b.images, im, OriginsFor(im, b))
  }

  lemma {:induction false} FoundAudit(audits: seq<AuditRecord>, a: AuditRecord)
    requires DistinctHashes(audits) && a in audits
    ensures FindAudit(audits, a.sourceSha256) == Some(a)
  {
    if audits[0].sourceSha256 == a.sourceSha256 {
      var i :| 0 <= i < |audits| && audits[i] == a;
      assert i > 0 ==> audits[0].sourceSha256 != audits[i].sourceSha256;
    } else {
      assert a in audits[1..];
      FoundAudit(audits[1..], a);
    }
  }

  lemma AuditIsUsable(im: Image, audits: seq<AuditRecord>, origins: seq<Origin>)
    requires DistinctHashes(audits)
    ensures AuditFor(im, audits, origins).Success? <==> HasUsable(audits, im, origins)
  {
    if a :| a in audits && IsUsable(a, im, origins) {
      FoundAudit(audits, a);
      assert forall c | c in a.candidates.value :: CandidateOk(c, origins);
    }
    var found := FindAudit(audits, im.sourceSha256);
    if AuditFor(im, audits, origins).Success? {
      assert forall c | c in found.value.candidates.value :: CandidateOk(c, origins);
      assert IsUsable(found.value, im, origins);
    }
  }

  lemma CoverGrows(images: seq<Image>, b: Baseline)
    requires ValidGeometry(b.tilePx, b.overlapPx) && images != []
    ensures var n := |images| - 1;
            IsCovered(images, b)
            <==> IsCovered(images[..n], b)
                 && (IsTraining(images[n]) ==> HasUsable(b.images, images[n], OriginsFor(images[n], b)))
  {
    var n := |images| - 1;
    assert forall im | im in images :: im in images[..n] || im == images[n];
    assert forall im | im in images[..n] :: im in images;
  }

  lemma GatherGrows(images: seq<Image>, b: Baseline, setup: Setup)
    requires ValidGeometry(b.tilePx, b.overlapPx) && images != []
    ensures var n := |images| - 1;
            Gathered(images, b, setup).Success?
            <==> Gathered(images[..n], b, setup).Success?
                 && (Eligible(images[n]) ==> AuditFor(images[n], b.images, OriginsFor(images[n], b)).Success?)
  {
  }

  lemma {:induction false} GatheredIsCovered(images: seq<Image>, b: Baseline, setup: Setup)
    requires ValidGeometry(b.tilePx, b.overlapPx) && DistinctHashes(b.images)
    ensures Gathered(images, b, setup).Success? <==> IsCovered(images, b)
  {
    if images != [] {
      var n := |images| - 1;
      GatheredIsCovered(images[..n], b, setup);
      AuditIsUsable(images[n], b.images, OriginsFor(images[n], b));
      CoverGrows(images, b);
      GatherGrows(images, b, setup);
      EligibleReads(images[n]);
    }
  }

  // Exactly for certified, frozen labels and a baseline that lists no photo twice, keeps
  // candidates down to 0.10 and has usable candidates for every certified training photo.
  lemma ProposesExactly(labels: Document, b: Baseline, setup: Setup)
    ensures CanPropose(labels, b, setup)
        <==> Valid(labels, true, true) && DistinctHashes(b.images) && ValidGeometry(b.tilePx, b.overlapPx)
             && b.candidateFloor <= 0.10 && IsCovered(labels.images, b)
  {
    if ValidGeometry(b.tilePx, b.overlapPx) && DistinctHashes(b.images) {
      GatheredIsCovered(labels.images, b, setup);
    }
  }

  // ---- What it holds of one photo ----

  // The strongest confidence the baseline gives the tile, at least 0.10.
  ghost predicate IsStrongest(cs: seq<Candidate>, s: Strong) {
    && s.confidence >= 0.10
    && (exists c :: c in cs && (c.tileX, c.tileY) == s.origin && c.confidence == s.confidence)
    && forall c | c in cs && (c.tileX, c.tileY) == s.origin :: c.confidence <= s.confidence
  }

  ghost predicate RanksBefore(s: Strong, t: Strong) {
    || s.confidence > t.confidence
    || (s.confidence == t.confidence
        && (s.origin.1 < t.origin.1 || (s.origin.1 == t.origin.1 && s.origin.0 <= t.origin.0)))
  }

  // The eight strongest clear tiles, or all of them.
  ghost predicate AreDetections(found: seq<Strong>, im: Image, tile: int, cs: seq<Candidate>) {
    && |found| <= 8 && DistinctOrigins(found)
    && (forall s | s in found :: IsStrongest(cs, s) && Clear(im, tile, s.origin))
    && forall t | IsStrongest(cs, t) && Clear(im, tile, t.origin) && t !in found ::
         |found| == 8 && forall s | s in found :: RanksBefore(s, t)
  }

  // The two clear tiles of least digest that no detection took, or all of them.
  ghost predicate AreControls(clean: seq<Origin>, found: seq<Strong>, im: Image, tile: int, origins: seq<Origin>,
                              setup: Setup) {
    && |clean| <= 2 && (forall i, j | 0 <= i < j < |clean| :: clean[i] != clean[j])
    && (forall o | o in clean :: IsFreeTile(o, found, im, tile, origins))
    && forall o | IsFreeTile(o, found, im, tile, origins) && o !in clean ::
         && |clean| == 2
         && forall p | p in clean :: setup.ofOrigin(im.sourceSha256, p) <= setup.ofOrigin(im.sourceSha256, o)
  }

  ghost predicate IsFreeTile(o: Origin, found: seq<Strong>, im: Image, tile: int, origins: seq<Origin>) {
    o in origins && Clear(im, tile, o) && forall s | s in found :: s.origin != o
  }

  // A pending entry for one tile of the photo.
  ghost predicate IsEntryOf(e: Entry, im: Image, tile: int, o: Origin) {
    && e.source == im.source && e.sourceSha256 == im.sourceSha256
    && e.captureGroup == im.captureGroup && e.role == im.role && e.confirmation == "pending"
    && e.tileXyxy == [o.0, o.1, o.0 + tile, o.1 + tile]
    && e.id == CandidateId(im.sourceSha256, o.0, o.1, tile)
  }

  ghost predicate IsDetection(e: Entry, im: Image, tile: int, s: Strong) {
    IsEntryOf(e, im, tile, s.origin) && e.kind == "baseline_candidate" && e.baselineConfidence == Some(s.confidence)
  }

  ghost predicate IsControl(e: Entry, im: Image, tile: int, o: Origin) {
    IsEntryOf(e, im, tile, o) && e.kind == "deterministic_clean" && e.baselineConfidence == None
  }

  // The entries of the photo are its detections and its controls.
  ghost predicate HoldsPhoto(entries: seq<Entry>, im: Image, tile: int, found: seq<Strong>, clean: seq<Origin>) {
    && (forall s | s in found :: exists e :: e in entries && IsDetection(e, im, tile, s))
    && (forall o | o in clean :: exists e :: e in entries && IsControl(e, im, tile, o))
    && forall e | e in entries && e.sourceSha256 == im.sourceSha256 ::
         || (exists s :: s in found && IsDetection(e, im, tile, s))
         || (exists o :: o in clean && IsControl(e, im, tile, o))
  }

  lemma FoundIsStrongest(cs: seq<Candidate>, s: Strong)
    requires s in Strongest(cs)
    ensures IsStrongest(cs, s)
  {
    StrongestKeeps(cs);
    StrongestIsOffered(cs, s);
    forall c | c in cs && (c.tileX, c.tileY) == s.origin
      ensures c.confidence <= s.confidence
    {
      if c.confidence >= MIN_CONFIDENCE {
        var t := CandidateIsRepresented(cs, c);
        assert t == s;
      }
    }
  }

  lemma StrongestIsFound(cs: seq<Candidate>, s: Strong)
    requires IsStrongest(cs, s)
    ensures s in Strongest(cs)
  {
    var c :| c in cs && (c.tileX, c.tileY) == s.origin && c.confidence == s.confidence;
    var t := CandidateIsRepresented(cs, c);
    StrongestIsOffered(cs, t);
    assert t == s;
  }

  lemma DetectionsRead(im: Image, tile: int, cs: seq<Candidate>)
    ensures AreDetections(BaselineChoice(im, tile, cs), im, tile, cs)
  {
    var found := BaselineChoice(im, tile, cs);
    BaselineChoiceIsSound(im, tile, cs);
    forall i, j | 0 <= i < j < |found|
      ensures found[i].origin != found[j].origin
    {
      assert OriginOf()(found[i]) != OriginOf()(found[j]);
    }
    forall s | s in found
      ensures IsStrongest(cs, s) && Clear(im, tile, s.origin)
    {
      BaselineComesFromStrongest(im, tile, cs, s);
      FoundIsStrongest(cs, s);
    }
    forall t | IsStrongest(cs, t) && Clear(im, tile, t.origin) && t !in found
      ensures |found| == 8 && forall s | s in found :: RanksBefore(s, t)
    {
      StrongestIsFound(cs, t);
      ChosenBefore(im, tile, cs, t);
    }
  }

  lemma ControlsRead(im: Image, tile: int, origins: seq<Origin>, found: seq<Strong>, setup: Setup)
    requires DistinctBy(Itself(), origins)
    ensures AreControls(CleanChoice(im, tile, origins, Mapped(OriginOf(), found), setup),
                        found, im, tile, origins, setup)
  {
    var used := Mapped(OriginOf(), found);
    var clean := CleanChoice(im, tile, origins, used, setup);
    var sorted := SortBy(ByDigest(setup, im.sourceSha256), origins);
    ByDigestIsRanking(setup, im.sourceSha256);
    CleanChoiceIsSound(im, tile, origins, used, setup);
    SameElements(origins, sorted);
    UsedAreOrigins(found);
    forall i, j | 0 <= i < j < |clean|
      ensures clean[i] != clean[j]
    {
      assert Itself()(clean[i]) != Itself()(clean[j]);
    }
    forall o | o in clean
      ensures IsFreeTile(o, found, im, tile, origins)
    {
      assert o in Filter(Unused(im, tile, used), sorted);
    }
    forall o | IsFreeTile(o, found, im, tile, origins) && o !in clean
      ensures |clean| == 2
      ensures forall p | p in clean :: setup.ofOrigin(im.sourceSha256, p) <= setup.ofOrigin(im.sourceSha256, o)
    {
      FirstAreLeast(ByDigest(setup, im.sourceSha256), Unused(im, tile, used), sorted, CLEAN_PER_PHOTO, o);
    }
  }

  lemma UsedAreOrigins(found: seq<Strong>)
    ensures forall o :: o in Mapped(OriginOf(), found) <==> exists s :: s in found && s.origin == o
  {
    var used := Mapped(OriginOf(), found);
    forall o | o in used
      ensures exists s :: s in found && s.origin == o
    {
      var i :| 0 <= i < |used| && used[i] == o;
      assert found[i] in found && found[i].origin == o;
    }
    forall s | s in found
      ensures s.origin in used
    {
      var i :| 0 <= i < |found| && found[i] == s;
      assert used[i] == s.origin;
    }
  }

  lemma PhotoIsHeld(im: Image, cs: seq<Candidate>, origins: seq<Origin>, tile: int, setup: Setup)
    ensures var found := BaselineChoice(im, tile, cs);
            var clean := CleanChoice(im, tile, origins, Mapped(OriginOf(), found), setup);
            HoldsPhoto(PhotoEntries(im, cs, origins, tile, setup), im, tile, found, clean)
  {
    var found := BaselineChoice(im, tile, cs);
    var clean := CleanChoice(im, tile, origins, Mapped(OriginOf(), found), setup);
    var a, b := Mapped(StrongEntry(im, tile), found), Mapped(CleanEntry(im, tile), clean);
    forall s | s in found
      ensures exists e :: e in a + b && IsDetection(e, im, tile, s)
    {
      var i :| 0 <= i < |found| && found[i] == s;
      assert a[i] in a && IsDetection(a[i], im, tile, s);
    }
    forall o | o in clean
      ensures exists e :: e in a + b && IsControl(e, im, tile, o)
    {
      var i :| 0 <= i < |clean| && clean[i] == o;
      assert b[i] in b && IsControl(b[i], im, tile, o);
    }
    forall e | e in a + b
      ensures (exists s :: s in found && IsDetection(e, im, tile, s))
              || (exists o :: o in clean && IsControl(e, im, tile, o))
    {
      if e in a {
        var i :| 0 <= i < |a| && a[i] == e;
        assert found[i] in found && IsDetection(e, im, tile, found[i]);
      } else {
        var i :| 0 <= i < |b| && b[i] == e;
        assert clean[i] in clean && IsControl(e, im, tile, clean[i]);
      }
    }
  }

  lemma PhotoNamesItself(im: Image, cs: seq<Candidate>, origins: seq<Origin>, tile: int, setup: Setup)
    ensures forall e | e in PhotoEntries(im, cs, origins, tile, setup) :: e.sourceSha256 == im.sourceSha256
  {
  }

  // The gathered entries of a photo are those of that photo.
  lemma {:induction false} GatheredHasPhoto(images: seq<Image>, b: Baseline, setup: Setup, im: Image)
    requires ValidGeometry(b.tilePx, b.overlapPx) && ValidImages(images) && im in images
    requires Gathered(images, b, setup).Success?
    ensures Eligible(im) ==> AuditFor(im, b.images, OriginsFor(im, b)).Success?
    ensures forall e :: e in Gathered(images, b, setup).value && e.sourceSha256 == im.sourceSha256
                        <==> Eligible(im) && e in PhotoEntries(im, AuditFor(im, b.images, OriginsFor(im, b)).value,
                                                              OriginsFor(im, b), b.tilePx, setup)
  {
    var n := |images| - 1;
    var last, before := images[n], Gathered(images[..n], b, setup).value;
    PrefixIsValid(images, n);
    GatheredIsSound(images[..n], b, setup);
    LastIsNew(images, n, im);
    if im == last {
      forall e | e in before
        ensures e.sourceSha256 != im.sourceSha256
      {
        var i :| 0 <= i < n && Eligible(images[..n][i]) && SoundFor(e, images[..n][i], b.tilePx);
        assert Compatible(images[i], images[n]);
      }
    } else {
      GatheredHasPhoto(images[..n], b, setup, im);
    }
    if Eligible(last) {
      PhotoNamesItself(last, AuditFor(last, b.images, OriginsFor(last, b)).value, OriginsFor(last, b), b.tilePx, setup);
    }
  }

  lemma PrefixIsValid(images: seq<Image>, n: nat)
    requires ValidImages(images) && n <= |images|
    ensures ValidImages(images[..n])
  {
    forall i, j | 0 <= i < j < n
      ensures Compatible(images[..n][i], images[..n][j])
    {
      assert Compatible(images[i], images[j]);
    }
    forall i | 0 <= i < n
      ensures ValidImage(images[..n][i])
    {
      assert ValidImage(images[i]);
    }
  }

  lemma LastIsNew(images: seq<Image>, n: nat, im: Image)
    requires ValidImages(images) && |images| == n + 1 && im in images
    ensures im != images[n] ==> im in images[..n] && im.sourceSha256 != images[n].sourceSha256
  {
    var i :| 0 <= i < |images| && images[i] == im;
    if i < n {
      assert images[..n][i] == im && Compatible(images[i], images[n]);
    }
  }

  // A proposal holds of each certified training photo its strongest clear detections
  // and its controls, of every other photo nothing, in the order of the ids.
  lemma ProposalHoldsPhoto(labels: Document, b: Baseline, setup: Setup, r: Review, im: Image)
    returns (cs: seq<Candidate>, found: seq<Strong>, clean: seq<Origin>)
    requires IsProposal(labels, b, setup, r) && im in labels.images && IsTraining(im)
    ensures exists a :: a in b.images && IsUsable(a, im, OriginsFor(im, b)) && a.candidates == Some(cs)
    ensures AreDetections(found, im, b.tilePx, cs)
    ensures AreControls(clean, found, im, b.tilePx, OriginsFor(im, b), setup)
    ensures HoldsPhoto(r.entries, im, b.tilePx, found, clean)
  {
    cs := CandidatesOf(labels, b, setup, im);
    found, clean := ChoicesOf(im, cs, b, setup);
    GatheredHasPhoto(labels.images, b, setup, im);
    SortedHolds(r.entries, Gathered(labels.images, b, setup).value,
                PhotoEntries(im, cs, OriginsFor(im, b), b.tilePx, setup), im, b.tilePx, found, clean, setup);
  }

  lemma CandidatesOf(labels: Document, b: Baseline, setup: Setup, im: Image) returns (cs: seq<Candidate>)
    requires CanPropose(labels, b, setup) && im in labels.images && IsTraining(im)
    ensures exists a :: a in b.images && IsUsable(a, im, OriginsFor(im, b)) && a.candidates == Some(cs)
    ensures Eligible(im) && AuditFor(im, b.images, OriginsFor(im, b)) == Success(cs)
  {
    GatheredHasPhoto(labels.images, b, setup, im);
    AuditIsUsable(im, b.images, OriginsFor(im, b));
    var a :| a in b.images && IsUsable(a, im, OriginsFor(im, b));
    FoundAudit(b.images, a);
    cs := a.candidates.value;
  }

  lemma ChoicesOf(im: Image, cs: seq<Candidate>, b: Baseline, setup: Setup)
    returns (found: seq<Strong>, clean: seq<Origin>)
    requires ValidGeometry(b.tilePx, b.overlapPx)
    ensures AreDetections(found, im, b.tilePx, cs)
    ensures AreControls(clean, found, im, b.tilePx, OriginsFor(im, b), setup)
    ensures HoldsPhoto(PhotoEntries(im, cs, OriginsFor(im, b), b.tilePx, setup), im, b.tilePx, found, clean)
  {
    found := BaselineChoice(im, b.tilePx, cs);
    clean := CleanChoice(im, b.tilePx, OriginsFor(im, b), Mapped(OriginOf(), found), setup);
    OriginsAreDistinct(im, b);
    DetectionsRead(im, b.tilePx, cs);
    ControlsRead(im, b.tilePx, OriginsFor(im, b), found, setup);
    PhotoIsHeld(im, cs, OriginsFor(im, b), b.tilePx, setup);
  }

  lemma SortedHolds(sorted: seq<Entry>, entries: seq<Entry>, own: seq<Entry>, im: Image, tile: int,
                    found: seq<Strong>, clean: seq<Origin>, setup: Setup)
    requires IsRanking(ById(setup)) ==> sorted == SortBy(ById(setup), entries)
    requires HoldsPhoto(own, im, tile, found, clean)
    requires forall e :: e in entries && e.sourceSha256 == im.sourceSha256 <==> e in own
    ensures HoldsPhoto(sorted, im, tile, found, clean)
  {
    ByIdIsRanking(setup);
    SameElements(sorted, entries);
  }

  // The proposal names its inputs and the policy it follows.
  lemma ProposalRecordsInputs(labels: Document, b: Baseline, setup: Setup, r: Review)
    requires IsProposal(labels, b, setup, r)
    ensures r.labels == labels && r.baseline == b && r.tilePx == b.tilePx && r.overlapPx == b.overlapPx
    ensures r.labelsPath == setup.labelsPath && r.baselinePath == setup.baselinePath
    ensures r.policy == Policy(0.10, 8, 2, false, {"training_candidate", "hard_negative_pool"}, {"certified"})
  {
  }

  lemma OthersHoldNothing(labels: Document, b: Baseline, setup: Setup, r: Review, e: Entry)
    requires IsProposal(labels, b, setup, r) && e in r.entries
    ensures exists im :: im in labels.images && IsTraining(im) && im.sourceSha256 == e.sourceSha256
  {
    ProposalIsSound(labels, b, setup, r);
    SoundHasPhoto(e, labels.images, r.tilePx);
  }

  lemma SoundHasPhoto(e: Entry, images: seq<Image>, tile: int)
    requires SoundIn(e, images, tile)
    ensures exists im :: im in images && IsTraining(im) && im.sourceSha256 == e.sourceSha256
  {
    var i :| 0 <= i < |images| && Eligible(images[i]) && SoundFor(e, images[i], tile);
    assert images[i] in images && IsTraining(images[i]);
  }

  lemma EntriesInIdOrder(labels: Document, b: Baseline, setup: Setup, r: Review, i: nat, j: nat)
    requires IsProposal(labels, b, setup, r) && i < j < |r.entries|
    ensures setup.ofId(r.entries[i].id) <= setup.ofId(r.entries[j].id)
  {
    ByIdIsRanking(setup);
    assert ById(setup)(r.entries[i], r.entries[j]);
  }
}
