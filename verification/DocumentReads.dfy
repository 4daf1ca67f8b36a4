// What the checks on labels, reviews and locks accept, on their fields' own values.
module DocumentReads {
  import opened Outcomes
  import opened Sorting
  import opened Text
  import opened Labels
  import C = ClearTiles
  import R = Reviews
  import F = Folds

  // ---- Labels ----

  // A box with an inside, none of it outside the photo.
  ghost predicate LiesIn(xyxy: seq<real>, width: int, height: int) {
    && (exists x, y :: C.Inside(x, y, xyxy))
    && forall x, y | C.Inside(x, y, xyxy) :: 0.0 <= x <= width as real && 0.0 <= y <= height as real
  }

  lemma InsideExists(xyxy: seq<real>) returns (x: real, y: real)
    requires |xyxy| == 4 && xyxy[0] < xyxy[2] && xyxy[1] < xyxy[3]
    ensures C.Inside(x, y, xyxy)
  {
    x, y := (xyxy[0] + xyxy[2]) / 2.0, (xyxy[1] + xyxy[3]) / 2.0;
  }

  // A box is accepted exactly when it lies in the photo.
  lemma ValidBoxExactly(xyxy: seq<real>, width: int, height: int)
    ensures ValidBox(xyxy, width, height) <==> LiesIn(xyxy, width, height)
  {
    if ValidBox(xyxy, width, height) {
      var x, y := InsideExists(xyxy);
    } else if LiesIn(xyxy, width, height) {
      BoxStaysIn(xyxy, width, height);
    }
  }

  lemma BoxStaysIn(xyxy: seq<real>, width: int, height: int)
    requires LiesIn(xyxy, width, height)
    ensures ValidBox(xyxy, width, height)
  {
    var x, y :| C.Inside(x, y, xyxy);
    assert xyxy[0] < 0.0 ==> C.Inside((xyxy[0] + if x < 0.0 then x else 0.0) / 2.0, y, xyxy);
    assert xyxy[1] < 0.0 ==> C.Inside(x, (xyxy[1] + if y < 0.0 then y else 0.0) / 2.0, xyxy);
    assert xyxy[2] > width as real ==>
             C.Inside((xyxy[2] + if x > width as real then x else width as real) / 2.0, y, xyxy);
    assert xyxy[3] > height as real ==>
             C.Inside(x, (xyxy[3] + if y > height as real then y else height as real) / 2.0, xyxy);
  }

  lemma ImageReads(im: Image)
    ensures ValidImage(im)
        <==> && im.source != "" && IsSha256(im.sourceSha256) && im.width >= 1 && im.height >= 1
             && (exists i :: 0 <= i < |im.captureGroup| && !IsSpace(im.captureGroup[i]))
             && im.role in {"training_candidate", "development_eval", "final_holdout", "ood_holdout",
                            "hard_negative_pool"}
             && im.reviewState in {"unreviewed", "in_progress", "complete", "certified"}
             && (forall a | a in im.objects ::
                   LiesIn(a.xyxy, im.width, im.height)
                   && a.visibility in {"clear", "partial", "not_visible", "unknown"})
             && forall r | r in im.ignoreRegions :: LiesIn(r.xyxy, im.width, im.height) && NonBlank(r.reason)
  {
    forall a | a in im.objects
      ensures ValidBox(a.xyxy, im.width, im.height) <==> LiesIn(a.xyxy, im.width, im.height)
    {
      ValidBoxExactly(a.xyxy, im.width, im.height);
    }
    forall r | r in im.ignoreRegions
      ensures ValidBox(r.xyxy, im.width, im.height) <==> LiesIn(r.xyxy, im.width, im.height)
    {
      ValidBoxExactly(r.xyxy, im.width, im.height);
    }
  }

  lemma FinishedReads(im: Image)
    ensures Finished(im) <==> im.reviewState == "complete" || im.reviewState == "certified"
  {
  }

  ghost predicate SameIdentity(a: Image, b: Image) {
    && a.source == b.source && a.sourceSha256 == b.sourceSha256 && a.width == b.width && a.height == b.height
    && a.captureGroup == b.captureGroup && a.role == b.role
  }

  // What no annotation may change.
  lemma IdentitiesRead(a: seq<Image>, b: seq<Image>)
    ensures Identities(a) == Identities(b)
        <==> |a| == |b| && forall i | 0 <= i < |a| :: SameIdentity(a[i], b[i])
  {
    if Identities(a) == Identities(b) {
      forall i | 0 <= i < |a|
        ensures SameIdentity(a[i], b[i])
      {
        assert Identities(a)[i] == Identities(b)[i];
        assert Identities(a)[i].source == a[i].source && Identities(b)[i].source == b[i].source;
      }
    }
  }

  ghost predicate RecordsRole(a: Assignment, im: Image) {
    a.sourceSha256 == im.sourceSha256 && a.captureGroup == im.captureGroup && a.role == im.role
  }

  // What a freeze digests: for each photo its hash, group and role, by hash.
  lemma FrozenRolesRead(images: seq<Image>)
    ensures var s := RoleAssignments(images);
            && |s| == |images| && (forall im | im in images :: exists a | a in s :: RecordsRole(a, im))
            && (forall a | a in s :: exists im | im in images :: RecordsRole(a, im))
  {
    var s, plain := RoleAssignments(images), AssignmentsInOrder(images);
    SameElements(s, plain);
    forall im | im in images
      ensures exists a | a in s :: RecordsRole(a, im)
    {
      var i :| 0 <= i < |images| && images[i] == im;
      assert plain[i] in plain && RecordsRole(plain[i], im);
    }
    forall a | a in s
      ensures exists im | im in images :: RecordsRole(a, im)
    {
      var i :| 0 <= i < |plain| && plain[i] == a;
      assert images[i] in images && RecordsRole(a, images[i]);
    }
  }

  lemma FrozenRolesByHash(images: seq<Image>, i: nat, j: nat)
    requires i < j < |RoleAssignments(images)|
    ensures StringLe(RoleAssignments(images)[i].sourceSha256, RoleAssignments(images)[j].sourceSha256)
  {
    var s := RoleAssignments(images);
    AssignmentLeIsTotal();
    StringLeTotal(s[i].sourceSha256, s[j].sourceSha256);
    assert AssignmentLe(s[i], s[j]);
  }

  // ---- Reviews ----

  // A whole tile of the review's size, under its own id, with a confidence of at
  // least 0.10 exactly when it is a detection.
  ghost predicate IsTileEntry(e: R.Entry, tile: int) {
    && |e.tileXyxy| == 4
    && e.tileXyxy == [e.tileXyxy[0], e.tileXyxy[1], e.tileXyxy[0] + tile, e.tileXyxy[1] + tile]
    && e.id == R.CandidateId(e.sourceSha256, e.tileXyxy[0], e.tileXyxy[1], tile) && |e.sourceSha256| == 64
    && (e.confirmation == "pending" || e.confirmation == "confirmed" || e.confirmation == "rejected")
    && match e.baselineConfidence
       case Some(c) => e.kind == "baseline_candidate" && c >= 0.10
       case None => e.kind == "deterministic_clean"
  }

  lemma ReviewReads(r: R.Review, requireDecided: bool)
    ensures R.ValidReview(r, requireDecided)
        <==> && r.schema == "mission10-yolo-hard-negative-review/1"
             && 0 <= r.overlapPx < r.tilePx
             && (forall i, j | 0 <= i < j < |r.entries| :: r.entries[i].id != r.entries[j].id)
             && forall i | 0 <= i < |r.entries| ::
                  IsTileEntry(r.entries[i], r.tilePx)
                  && (requireDecided ==> r.entries[i].confirmation != "pending")
  {
    forall i | 0 <= i < |r.entries|
      ensures R.ValidEntry(r.entries[i], r.tilePx) <==> IsTileEntry(r.entries[i], r.tilePx)
    {
    }
  }

  // ---- Locks ----

  lemma LockItemReads(x: F.Item, folds: int)
    ensures F.ValidItem(x, folds)
        <==> && x.source != "" && IsSha256(x.sourceSha256) && 0 <= x.fold < folds
             && ((x.stratum == "negative" && x.objects == 0)
                 || ((x.stratum == "clear" || x.stratum == "partial") && x.objects == 1))
  {
  }
}
