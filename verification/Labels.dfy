// The label document: its validity, and the freeze, annotate and certify steps
// of its life.
module Labels {
  import opened Outcomes
  import opened Sorting
  import opened Text

  const LABEL_SCHEMA := "mission10-yolo-real-labels/1"
  const ROLES: set<string> :=
    {"training_candidate", "development_eval", "final_holdout", "ood_holdout", "hard_negative_pool"}
  const REVIEW_STATES: set<string> := {"unreviewed", "in_progress", "complete", "certified"}
  const VISIBILITIES: set<string> := {"clear", "partial", "not_visible", "unknown"}

  datatype Annotation = Annotation(xyxy: seq<real>, visibility: string)

  datatype Region = Region(xyxy: seq<real>, reason: string)

  datatype Image = Image(
    source: string, sourceSha256: string, width: int, height: int, captureGroup: string, role: string,
    reviewState: string, objects: seq<Annotation>, ignoreRegions: seq<Region>)

  // A document key may be missing, hold null, or hold a value.
  datatype Field<+T> = Absent | Null | Present(value: T)

  datatype RoleFreeze = RoleFreeze(state: string, frozenBy: string, frozenAt: string, assignmentsSha256: Digest)

  // `extra` stands for any further keys of the certification object.
  datatype Certification = Certification(
    certifiedBy: string, certifiedAt: string, annotationsSha256: Digest, extra: string)

  datatype Document = Document(
    schema: string, images: seq<Image>, roleFreeze: Field<RoleFreeze>, certification: Field<Certification>)

  datatype Assignment = Assignment(sourceSha256: string, captureGroup: string, role: string)

  // What the certification digest covers: the document without its certification,
  // and who certified it when.
  datatype Payload = Payload(
    schema: string, images: seq<Image>, roleFreeze: Field<RoleFreeze>, certified: Option<(string, string)>)

  // SHA-256 of a canonical encoding, taken to be collision-free: a digest is what
  // was digested.
  datatype Digest = OfAssignments(seq<Assignment>) | OfPayload(Payload) | OfAnythingElse(string)

  datatype LabelError =
    | BadSchema | NoImages | BadImage(index: nat) | DuplicateSource(index: nat) | DuplicateContent(index: nat)
    | GroupHasTwoRoles(index: nat) | BadRoleFreeze | RolesChanged | NotFrozen
    | UncertifiedImages | AnnotationsChanged | BlankCertifier | NotCertified
    | BlankName | AlreadyFrozen | AlreadyCertified | Incomplete
    | Immutable | NotAcknowledged | IndexOutOfRange | UnauthorizedFields | UnauthorizedState

  // ---- Validity ----

  predicate ValidBox(xyxy: seq<real>, width: int, height: int) {
    |xyxy| == 4 && 0.0 <= xyxy[0] < xyxy[2] <= width as real && 0.0 <= xyxy[1] < xyxy[3] <= height as real
  }

  predicate ValidImage(im: Image) {
    && im.source != "" && IsSha256(im.sourceSha256) && im.width >= 1 && im.height >= 1
    && NonBlank(im.captureGroup) && im.role in ROLES && im.reviewState in REVIEW_STATES
    && (forall a | a in im.objects :: ValidBox(a.xyxy, im.width, im.height) && a.visibility in VISIBILITIES)
    && (forall r | r in im.ignoreRegions :: ValidBox(r.xyxy, im.width, im.height) && NonBlank(r.reason))
  }

  function AssignmentOf(im: Image): Assignment {
    Assignment(im.sourceSha256, im.captureGroup, im.role)
  }

  function AssignmentsInOrder(images: seq<Image>): (r: seq<Assignment>)
    ensures |r| == |images| && forall i | 0 <= i < |r| :: r[i] == AssignmentOf(images[i])
  {
    seq(|images|, i requires 0 <= i < |images| => AssignmentOf(images[i]))
  }

  predicate AssignmentLe(a: Assignment, b: Assignment) {
    if a.sourceSha256 != b.sourceSha256 then StringLe(a.sourceSha256, b.sourceSha256)
    else if a.captureGroup != b.captureGroup then StringLe(a.captureGroup, b.captureGroup)
    else StringLe(a.role, b.role)
  }

  lemma AssignmentLeIsTotal()
    ensures IsTotalOrder(AssignmentLe)
  {
    forall a, b
      ensures AssignmentLe(a, b) || AssignmentLe(b, a)
      ensures AssignmentLe(a, b) && AssignmentLe(b, a) ==> a == b
    {
      StringLeTotal(a.sourceSha256, b.sourceSha256);
      StringLeTotal(a.captureGroup, b.captureGroup);
      StringLeTotal(a.role, b.role);
    }
    forall a, b, c | AssignmentLe(a, b) && AssignmentLe(b, c)
      ensures AssignmentLe(a, c)
    {
      AssignmentLeTransitive(a, b, c);
    }
  }

  lemma AssignmentLeTransitive(a: Assignment, b: Assignment, c: Assignment)
    requires AssignmentLe(a, b) && AssignmentLe(b, c)
    ensures AssignmentLe(a, c)
  {
    if a.sourceSha256 != b.sourceSha256 || b.sourceSha256 != c.sourceSha256 {
      StringLeTotal(a.sourceSha256, b.sourceSha256);
      StringLeTotal(b.sourceSha256, c.sourceSha256);
      StringLeTransitive(a.sourceSha256, b.sourceSha256, c.sourceSha256);
    } else if a.captureGroup != b.captureGroup || b.captureGroup != c.captureGroup {
      StringLeTotal(a.captureGroup, b.captureGroup);
      StringLeTotal(b.captureGroup, c.captureGroup);
      StringLeTransitive(a.captureGroup, b.captureGroup, c.captureGroup);
    } else {
      StringLeTransitive(a.role, b.role, c.role);
    }
  }

  // _role_assignments: sorted by source hash, which a valid document never repeats.
  function RoleAssignments(images: seq<Image>): (r: seq<Assignment>)
    ensures multiset(r) == multiset(AssignmentsInOrder(images))
  {
    AssignmentLeIsTotal();
    SortBy(AssignmentLe, AssignmentsInOrder(images))
  }

  function AnnotationPayload(d: Document): Payload {
    Payload(d.schema, d.images, d.roleFreeze,
            match d.certification
            case Present(c) => Some((c.certifiedBy, c.certifiedAt))
            case _ => None)
  }

  // Sources and hashes do not repeat, and a capture group has one role.
  ghost predicate Compatible(a: Image, b: Image) {
    a.source != b.source && a.sourceSha256 != b.sourceSha256 && (a.captureGroup == b.captureGroup ==> a.role == b.role)
  }

  ghost predicate ValidImages(images: seq<Image>) {
    && (forall i | 0 <= i < |images| :: ValidImage(images[i]))
    && forall i, j | 0 <= i < j < |images| :: Compatible(images[i], images[j])
  }

  predicate ValidFreeze(d: Document) {
    d.roleFreeze.Present? ==>
      var f := d.roleFreeze.value;
      f.state == "frozen" && f.assignmentsSha256 == OfAssignments(RoleAssignments(d.images)) && NonBlank(f.frozenBy)
  }

  predicate ValidCertification(d: Document) {
    d.certification.Present? ==>
      var c := d.certification.value;
      && (forall im | im in d.images :: im.reviewState == "certified")
      && c.annotationsSha256 == OfPayload(AnnotationPayload(d)) && NonBlank(c.certifiedBy)
  }

  ghost predicate Valid(d: Document, requireFrozen: bool, requireCertified: bool) {
    && d.schema == LABEL_SCHEMA && d.images != [] && ValidImages(d.images)
    && ValidFreeze(d) && (requireFrozen ==> d.roleFreeze.Present?)
    && ValidCertification(d) && (requireCertified ==> d.certification.Present?)
  }

  // ---- validate_labels ----

  // What the loop's three collections hold after `done` images.
  ghost predicate SeenSoFar(images: seq<Image>, done: nat,
                            sources: set<string>, hashes: set<string>, groupRoles: map<string, string>)
    requires done <= |images|
  {
    && (forall s :: s in sources <==> exists i :: 0 <= i < done && images[i].source == s)
    && (forall s :: s in hashes <==> exists i :: 0 <= i < done && images[i].sourceSha256 == s)
    && (forall g :: g in groupRoles ==> exists i :: 0 <= i < done && images[i].captureGroup == g)
    && forall i | 0 <= i < done ::
         images[i].captureGroup in groupRoles && groupRoles[images[i].captureGroup] == images[i].role
  }

  // The checks on one image against the collections.
  method CheckImage(im: Image, index: nat, sources: set<string>, hashes: set<string>, groupRoles: map<string, string>)
    returns (r: Option<LabelError>)
    ensures r.None? <==> ValidImage(im) && Fits(im, sources, hashes, groupRoles)
  {
    if !ValidImage(im) {
      return Some(BadImage(index));
    }
    if im.source in sources {
      return Some(DuplicateSource(index));
    }
    if im.sourceSha256 in hashes {
      return Some(DuplicateContent(index));
    }
    if im.captureGroup in groupRoles && groupRoles[im.captureGroup] != im.role {
      return Some(GroupHasTwoRoles(index));
    }
    return None;
  }

  predicate Fits(im: Image, sources: set<string>, hashes: set<string>, groupRoles: map<string, string>) {
    && im.source !in sources && im.sourceSha256 !in hashes
    && (im.captureGroup in groupRoles ==> groupRoles[im.captureGroup] == im.role)
  }

  // An image fits the collections exactly when it is compatible with every image before it.
  lemma FitsMeansCompatible(images: seq<Image>, done: nat,
                            sources: set<string>, hashes: set<string>, groupRoles: map<string, string>)
    requires done < |images| && SeenSoFar(images, done, sources, hashes, groupRoles)
    ensures Fits(images[done], sources, hashes, groupRoles)
            <==> forall j | 0 <= j < done :: Compatible(images[j], images[done])
  {
    var im := images[done];
    if Fits(im, sources, hashes, groupRoles) {
      forall j | 0 <= j < done
        ensures Compatible(images[j], im)
      {
        assert images[j].source in sources && images[j].sourceSha256 in hashes;
      }
    } else if im.source in sources {
      var j :| 0 <= j < done && images[j].source == im.source;
      assert !Compatible(images[j], im);
    } else if im.sourceSha256 in hashes {
      var j :| 0 <= j < done && images[j].sourceSha256 == im.sourceSha256;
      assert !Compatible(images[j], im);
    } else {
      var j :| 0 <= j < done && images[j].captureGroup == im.captureGroup;
      assert !Compatible(images[j], im);
    }
  }

  lemma ValidImagesGrow(images: seq<Image>, im: Image)
    requires ValidImages(images) && ValidImage(im) && forall j | 0 <= j < |images| :: Compatible(images[j], im)
    ensures ValidImages(images + [im])
  {
  }

  lemma ValidImagesSplit(images: seq<Image>, im: Image)
    requires ValidImages(images + [im])
    ensures ValidImage(im) && forall j | 0 <= j < |images| :: Compatible(images[j], im)
  {
    var longer := images + [im];
    assert longer[|images|] == im;
    forall j | 0 <= j < |images|
      ensures Compatible(images[j], im)
    {
      assert Compatible(longer[j], longer[|images|]);
    }
  }

  lemma ValidImagesAppend(images: seq<Image>, i: nat)
    requires i < |images| && ValidImages(images[..i])
    ensures ValidImages(images[..i + 1])
            <==> ValidImage(images[i]) && forall j | 0 <= j < i :: Compatible(images[j], images[i])
  {
    assert images[..i + 1] == images[..i] + [images[i]];
    if ValidImages(images[..i + 1]) {
      ValidImagesSplit(images[..i], images[i]);
    }
    if ValidImage(images[i]) && forall j | 0 <= j < i :: Compatible(images[j], images[i]) {
      ValidImagesGrow(images[..i], images[i]);
    }
  }

  lemma ValidImagesPrefix(images: seq<Image>, i: nat)
    requires i <= |images| && !ValidImages(images[..i])
    ensures !ValidImages(images)
  {
    var p := images[..i];
    assert forall j | 0 <= j < i :: p[j] == images[j];
  }

  method ValidateImages(images: seq<Image>) returns (r: Option<LabelError>)
    ensures r.None? <==> ValidImages(images)
  {
    var sources: set<string>, hashes: set<string>, groupRoles: map<string, string> := {}, {}, map[];
    for i := 0 to |images|
      invariant SeenSoFar(images, i, sources, hashes, groupRoles)
      invariant ValidImages(images[..i])
    {
      FitsMeansCompatible(images, i, sources, hashes, groupRoles);
      ValidImagesAppend(images, i);
      var bad := CheckImage(images[i], i, sources, hashes, groupRoles);
      if bad.Some? {
        ValidImagesPrefix(images, i + 1);
        return bad;
      }
      SeenStep(images, i, sources, hashes, groupRoles);
      sources := sources + {images[i].source};
      hashes := hashes + {images[i].sourceSha256};
      groupRoles := groupRoles[images[i].captureGroup := images[i].role];
    }
    assert images[..|images|] == images;
    return None;
  }

  lemma SeenStep(images: seq<Image>, i: nat, sources: set<string>, hashes: set<string>, groupRoles: map<string, string>)
    requires i < |images| && SeenSoFar(images, i, sources, hashes, groupRoles)
    requires Fits(images[i], sources, hashes, groupRoles)
    ensures var im := images[i];
            SeenSoFar(images, i + 1, sources + {im.source}, hashes + {im.sourceSha256},
                      groupRoles[im.captureGroup := im.role])
  {
    var im := images[i];
    forall s
      ensures s in sources + {im.source} <==> exists j :: 0 <= j < i + 1 && images[j].source == s
      ensures s in hashes + {im.sourceSha256} <==> exists j :: 0 <= j < i + 1 && images[j].sourceSha256 == s
    {
    }
  }

  method ValidateLabels(d: Document, requireFrozen: bool, requireCertified: bool)
    returns (r: Result<Document, LabelError>)
    ensures r.Success? <==> Valid(d, requireFrozen, requireCertified)
    ensures r.Success? ==> r.value == d
  {
    if d.schema != LABEL_SCHEMA {
      return Failure(BadSchema);
    }
    if d.images == [] {
      return Failure(NoImages);
    }
    var bad := ValidateImages(d.images);
    if bad.Some? {
      return Failure(bad.value);
    }
    if d.roleFreeze.Present? {
      var f := d.roleFreeze.value;
      if f.state != "frozen" {
        return Failure(BadRoleFreeze);
      }
      if f.assignmentsSha256 != OfAssignments(RoleAssignments(d.images)) {
        return Failure(RolesChanged);
      }
      if !NonBlank(f.frozenBy) {
        return Failure(BadRoleFreeze);
      }
    } else if requireFrozen {
      return Failure(NotFrozen);
    }
    if d.certification.Present? {
      var c := d.certification.value;
      if exists im | im in d.images :: im.reviewState != "certified" {
        return Failure(UncertifiedImages);
      }
      if c.annotationsSha256 != OfPayload(AnnotationPayload(d)) {
        return Failure(AnnotationsChanged);
      }
      if !NonBlank(c.certifiedBy) {
        return Failure(BlankCertifier);
      }
    } else if requireCertified {
      return Failure(NotCertified);
    }
    return Success(d);
  }

  // ---- freeze_roles ----

  function Frozen(d: Document, by': string, now: string): Document {
    d.(roleFreeze := Present(RoleFreeze("frozen", Strip(by'), now, OfAssignments(RoleAssignments(d.images)))))
  }

  // What a freeze writes, and nothing else.
  predicate StoresFreeze(before: Document, by': string, now: string, after: Document) {
    && after.(roleFreeze := before.roleFreeze) == before && after.roleFreeze.Present?
    && var f := after.roleFreeze.value;
       f.state == "frozen" && f.frozenBy == Strip(by') && f.frozenAt == now
  }

  // Freezing succeeds exactly on a valid document that was never frozen and is
  // not certified, under a name that is not blank.
  method FreezeRoles(d: Document, frozenBy: string, now: string) returns (r: Result<Document, LabelError>)
    ensures r.Success? <==>
              NonBlank(frozenBy) && Valid(d, false, false) && d.roleFreeze.Absent? && !d.certification.Present?
    ensures r.Success? ==> r.value == Frozen(d, frozenBy, now) && Valid(r.value, true, false)
    ensures r.Success? ==> StoresFreeze(d, frozenBy, now, r.value)
  {
    if !NonBlank(frozenBy) {
      return Failure(BlankName);
    }
    var checked := ValidateLabels(d, false, false);
    if checked.Failure? {
      return checked;
    }
    if !d.roleFreeze.Absent? {
      return Failure(AlreadyFrozen);
    }
    StripKeepsNonBlank(frozenBy);
    r := ValidateLabels(Frozen(d, frozenBy, now), true, false);
  }

  // ---- certify_labels ----

  function CertifyImages(images: seq<Image>): (r: seq<Image>)
    ensures |r| == |images|
    ensures forall i | 0 <= i < |r| :: r[i] == images[i].(reviewState := "certified")
  {
    seq(|images|, i requires 0 <= i < |images| => images[i].(reviewState := "certified"))
  }

  function Certified(d: Document, certifiedBy: string, now: string): Document {
    var reviewed := d.(images := CertifyImages(d.images));
    var payload := Payload(d.schema, reviewed.images, d.roleFreeze, Some((Strip(certifiedBy), now)));
    reviewed.(certification := Present(Certification(Strip(certifiedBy), now, OfPayload(payload), "")))
  }

  // What a certification writes: every image is certified, and who did it when.
  ghost predicate StoresCertificate(before: Document, by': string, now: string, after: Document) {
    && after.(images := before.images, certification := before.certification) == before
    && |after.images| == |before.images|
    && (forall i | 0 <= i < |before.images| ::
          && after.images[i].reviewState == "certified"
          && after.images[i].(reviewState := before.images[i].reviewState) == before.images[i])
    && after.certification.Present?
    && var c := after.certification.value; c.certifiedBy == Strip(by') && c.certifiedAt == now
  }

  lemma CertifiedStores(d: Document, certifiedBy: string, now: string)
    ensures StoresCertificate(d, certifiedBy, now, Certified(d, certifiedBy, now))
  {
  }

  predicate Finished(im: Image) {
    im.reviewState == "complete" || im.reviewState == "certified"
  }

  lemma CertifyKeepsImages(images: seq<Image>)
    requires ValidImages(images)
    ensures ValidImages(CertifyImages(images))
  {
    var after := CertifyImages(images);
    forall i | 0 <= i < |after|
      ensures ValidImage(after[i])
    {
      assert ValidImage(images[i]);
    }
    forall i, j | 0 <= i < j < |after|
      ensures Compatible(after[i], after[j])
    {
      assert Compatible(images[i], images[j]);
    }
  }

  lemma CertifyKeepsValid(d: Document, certifiedBy: string, now: string)
    requires Valid(d, true, false) && NonBlank(certifiedBy)
    ensures Valid(Certified(d, certifiedBy, now), true, true)
  {
    var after := Certified(d, certifiedBy, now);
    StripKeepsNonBlank(certifiedBy);
    CertifyKeepsImages(d.images);
    assert AssignmentsInOrder(after.images) == AssignmentsInOrder(d.images);
  }

  // Certification succeeds exactly when the document is valid and frozen, not yet
  // certified, every image is complete or certified, and the name is not blank.
  method CertifyLabels(d: Document, certifiedBy: string, now: string) returns (r: Result<Document, LabelError>)
    ensures r.Success? <==>
              NonBlank(certifiedBy) && Valid(d, true, false) && d.certification.Absent?
              && forall im | im in d.images :: Finished(im)
    ensures r.Success? ==> r.value == Certified(d, certifiedBy, now) && Valid(r.value, true, true)
    ensures r.Success? ==> StoresCertificate(d, certifiedBy, now, r.value)
  {
    if !NonBlank(certifiedBy) {
      return Failure(BlankName);
    }
    var checked := ValidateLabels(d, true, false);
    if checked.Failure? {
      return checked;
    }
    if !d.certification.Absent? {
      return Failure(AlreadyCertified);
    }
    if exists im | im in d.images :: !Finished(im) {
      return Failure(Incomplete);
    }
    CertifyKeepsValid(d, certifiedBy, now);
    CertifiedStores(d, certifiedBy, now);
    r := ValidateLabels(Certified(d, certifiedBy, now), true, true);
  }

  // ---- _update_annotation ----

  // A browser update, with the set of keys the browser sent.
  datatype Update = Update(
    fields: set<string>, index: int, objects: seq<Annotation>, ignoreRegions: seq<Region>, reviewState: string)

  const UPDATE_FIELDS: set<string> := {"index", "objects", "ignore_regions", "review_state"}

  function Updated(d: Document, u: Update): Document
    requires 0 <= u.index < |d.images|
  {
    d.(images := d.images[u.index := d.images[u.index].(
         objects := u.objects, ignoreRegions := u.ignoreRegions, reviewState := u.reviewState)])
  }

  // The image holds exactly what was sent and is otherwise the same.
  predicate Annotated(before: Image, u: Update, after: Image) {
    && after.objects == u.objects && after.ignoreRegions == u.ignoreRegions && after.reviewState == u.reviewState
    && after.(objects := before.objects, ignoreRegions := before.ignoreRegions,
              reviewState := before.reviewState) == before
  }

  // What an update writes: the record of the index, and nothing else.
  ghost predicate StoresUpdate(before: Document, u: Update, after: Document) {
    && after.(images := before.images) == before && |after.images| == |before.images|
    && 0 <= u.index < |before.images|
    && forall i | 0 <= i < |before.images| ::
         if i == u.index then Annotated(before.images[i], u, after.images[i])
         else after.images[i] == before.images[i]
  }

  lemma UpdatedStores(d: Document, u: Update)
    requires 0 <= u.index < |d.images|
    ensures StoresUpdate(d, u, Updated(d, u))
  {
  }

  predicate Authorized(d: Document, u: Update) {
    && d.certification.Absent? && 0 <= u.index < |d.images| && u.fields == UPDATE_FIELDS
    && u.reviewState in REVIEW_STATES - {"certified"}
  }

  method UpdateAnnotation(d: Document, u: Update) returns (r: Result<Document, LabelError>)
    ensures r.Success? <==> Authorized(d, u) && Valid(Updated(d, u), true, false)
    ensures r.Success? ==> r.value == Updated(d, u) && StoresUpdate(d, u, r.value)
  {
    if !d.certification.Absent? {
      return Failure(Immutable);
    }
    if !(0 <= u.index < |d.images|) {
      return Failure(IndexOutOfRange);
    }
    if u.fields != UPDATE_FIELDS {
      return Failure(UnauthorizedFields);
    }
    if u.reviewState !in REVIEW_STATES - {"certified"} {
      return Failure(UnauthorizedState);
    }
    UpdatedStores(d, u);
    r := ValidateLabels(Updated(d, u), true, false);
  }

  // ---- Lifecycle safety ----

  datatype Action =
    | Freeze(name: string, now: string)
    | Annotate(update: Update)
    | Certify(name: string, now: string)

  // What one action makes of the document; a refused action leaves it alone.
  ghost function Act(d: Document, a: Action): Document {
    match a
    case Freeze(name, now) =>
      if NonBlank(name) && Valid(d, false, false) && d.roleFreeze.Absent? && !d.certification.Present?
      then Frozen(d, name, now) else d
    case Annotate(u) => if Authorized(d, u) && Valid(Updated(d, u), true, false) then Updated(d, u) else d
    case Certify(name, now) =>
      if NonBlank(name) && Valid(d, true, false) && d.certification.Absent?
         && (forall im | im in d.images :: Finished(im))
      then Certified(d, name, now) else d
  }

  ghost function Live(d: Document, actions: seq<Action>): Document {
    if actions == [] then d else Act(Live(d, actions[..|actions| - 1]), actions[|actions| - 1])
  }

  ghost function Fold<S, A>(step: (S, A) -> S, start: S, actions: seq<A>): S {
    if actions == [] then start else step(Fold(step, start, actions[..|actions| - 1]), actions[|actions| - 1])
  }

  lemma {:induction false} FoldSplits<S, A>(step: (S, A) -> S, start: S, a: seq<A>, b: seq<A>)
    ensures Fold(step, start, a + b) == Fold(step, Fold(step, start, a), b)
  {
    if b == [] {
      assert a + b == a;
    } else {
      var n := |b| - 1;
      FoldSplits(step, start, a, b[..n]);
      assert (a + b)[..|a + b| - 1] == a + b[..n];
    }
  }

  ghost function Acting(): (Document, Action) -> Document {
    (d: Document, a: Action) => Act(d, a)
  }

  lemma {:induction false} LiveIsFold(d: Document, actions: seq<Action>)
    ensures Live(d, actions) == Fold(Acting(), d, actions)
  {
    if actions != [] {
      LiveIsFold(d, actions[..|actions| - 1]);
    }
  }

  // A run can be cut anywhere, so what holds from a document on holds from any
  // document reached.
  lemma LiveSplits(d: Document, a: seq<Action>, b: seq<Action>)
    ensures Live(d, a + b) == Live(Live(d, a), b)
  {
    LiveIsFold(d, a);
    LiveIsFold(d, a + b);
    LiveIsFold(Live(d, a), b);
    FoldSplits(Acting(), d, a, b);
  }

  // Everything about an image the annotator may not touch.
  datatype Identity = Identity(
    source: string, sourceSha256: string, width: int, height: int, group: string, role: string)

  function Identities(images: seq<Image>): (r: seq<Identity>)
    ensures |r| == |images|
  {
    seq(|images|, i requires 0 <= i < |images| =>
      var im := images[i];
      Identity(im.source, im.sourceSha256, im.width, im.height, im.captureGroup, im.role))
  }

  lemma FreezeIsSafe(d: Document, name: string, now: string)
    requires NonBlank(name) && Valid(d, false, false) && !d.certification.Present?
    ensures Valid(Frozen(d, name, now), true, false)
  {
    StripKeepsNonBlank(name);
  }

  lemma CertifyKeepsIdentities(images: seq<Image>)
    ensures Identities(CertifyImages(images)) == Identities(images)
  {
  }

  lemma UpdateKeepsIdentities(d: Document, u: Update)
    requires 0 <= u.index < |d.images|
    ensures Identities(Updated(d, u).images) == Identities(d.images)
  {
  }

  lemma ActIsSafe(d: Document, a: Action)
    requires Valid(d, false, false)
    ensures Valid(Act(d, a), d.roleFreeze.Present?, d.certification.Present?)
    ensures Identities(Act(d, a).images) == Identities(d.images)
    ensures d.roleFreeze.Present? ==> Act(d, a).roleFreeze == d.roleFreeze
    ensures d.certification.Present? ==> Act(d, a) == d
  {
    if Act(d, a) != d {
      match a {
        case Freeze(name, now) =>
          FreezeIsSafe(d, name, now);
        case Annotate(u) =>
          UpdateKeepsIdentities(d, u);
        case Certify(name, now) =>
          CertifyKeepsValid(d, name, now);
          CertifyKeepsIdentities(d.images);
      }
    }
  }

  // Over every run from a valid document: it stays valid; sources, dimensions,
  // groups and roles never change; a role freeze, once made, is never remade; and
  // once certified, nothing changes at all.
  lemma {:induction false} LifecycleIsSafe(d: Document, actions: seq<Action>)
    requires Valid(d, false, false)
    ensures Valid(Live(d, actions), d.roleFreeze.Present?, d.certification.Present?)
    ensures Identities(Live(d, actions).images) == Identities(d.images)
    ensures d.roleFreeze.Present? ==> Live(d, actions).roleFreeze == d.roleFreeze
    ensures d.certification.Present? ==> Live(d, actions) == d
  {
    if actions != [] {
      var before := actions[..|actions| - 1];
      LifecycleIsSafe(d, before);
      ActIsSafe(Live(d, before), actions[|actions| - 1]);
    }
  }

  // A document certified anywhere in a run is what the run ends with.
  lemma CertificationEndsTheRun(d: Document, before: seq<Action>, later: seq<Action>)
    requires Valid(d, false, false) && Live(d, before).certification.Present?
    ensures Live(d, before + later) == Live(d, before)
  {
    LifecycleIsSafe(d, before);
    LifecycleIsSafe(Live(d, before), later);
    LiveSplits(d, before, later);
  }

  // An update touches one record, and in it only the three annotation fields.
  lemma UpdateTouchesOneRecord(d: Document, u: Update)
    requires Authorized(d, u)
    ensures var after := Updated(d, u);
            && after.(images := d.images) == d && |after.images| == |d.images|
            && (forall i | 0 <= i < |d.images| && i != u.index :: after.images[i] == d.images[i])
            && after.images[u.index].(objects := d.images[u.index].objects,
                                      ignoreRegions := d.images[u.index].ignoreRegions,
                                      reviewState := d.images[u.index].reviewState) == d.images[u.index]
            && after.images[u.index].reviewState != "certified"
  {
  }

  function WithoutExtra(d: Document): Document {
    match d.certification
    case Present(c) => d.(certification := Present(c.(extra := "")))
    case _ => d
  }

  // No silent edit: two valid certified documents with the same digest differ at
  // most in further keys of the certification object,
  lemma CertifiedIsTamperEvident(d: Document, edited: Document)
    requires Valid(d, false, true) && Valid(edited, false, true)
    requires edited.certification.value.annotationsSha256 == d.certification.value.annotationsSha256
    ensures WithoutExtra(edited) == WithoutExtra(d)
  {
    assert AnnotationPayload(edited) == AnnotationPayload(d);
  }

  // which the digest leaves out: those can be edited unnoticed.
  lemma ExtraKeysAreNotCovered(d: Document, extra: string)
    requires Valid(d, false, true)
    ensures Valid(d.(certification := Present(d.certification.value.(extra := extra))), false, true)
  {
    var edited := d.(certification := Present(d.certification.value.(extra := extra)));
    assert AnnotationPayload(edited) == AnnotationPayload(d);
  }

  // ---- Keys that are present but null ----

  const ZEROS: string := seq(64, i => '0')
  const PHOTO := Image("a.jpg", ZEROS, 1, 1, "g", "training_candidate", "complete", [], [])

  lemma PhotoIsValid()
    ensures ValidImages([PHOTO])
  {
    assert HEX[0] == '0';
    assert !IsSpace(PHOTO.captureGroup[0]);
  }

  // A valid document whose freeze key holds null can never be frozen.
  lemma NullFreezeBlocksFreezing(name: string, now: string)
    ensures var d := Document(LABEL_SCHEMA, [PHOTO], Null, Absent);
            Valid(d, false, false) && Act(d, Freeze(name, now)) == d
  {
    PhotoIsValid();
  }

  // A valid, frozen, finished document whose certification key holds null can
  // neither be certified nor annotated.
  lemma NullCertificationBlocksCertifying(name: string, now: string, u: Update)
    ensures var d := Frozen(Document(LABEL_SCHEMA, [PHOTO], Absent, Null), "x", "now");
            && Valid(d, true, false) && (forall im | im in d.images :: Finished(im))
            && Act(d, Certify(name, now)) == d && Act(d, Annotate(u)) == d
  {
    PhotoIsValid();
    assert "x"[0] == 'x';
    StripKeepsNonBlank("x");
  }

  // Freezing after certifying would change what the certification digest covers.
  lemma FreezingBreaksCertification(d: Document, name: string, now: string)
    requires Valid(d, false, true) && !d.roleFreeze.Present?
    ensures !Valid(Frozen(d, name, now), true, false)
  {
    assert AnnotationPayload(Frozen(d, name, now)) != AnnotationPayload(d);
  }

  lemma HashesIdentify(images: seq<Image>, i: nat, k: nat)
    requires ValidImages(images) && i < |images| && k < |images|
    requires images[i].sourceSha256 == images[k].sourceSha256
    ensures i == k
  {
    assert i < k ==> Compatible(images[i], images[k]);
    assert k < i ==> Compatible(images[k], images[i]);
  }

  // No silent role change: a valid document that kept the freeze digest assigns
  // every source hash the group and role it had when frozen.
  lemma FrozenRolesAreTamperEvident(d: Document, edited: Document)
    requires Valid(d, true, false) && Valid(edited, true, false)
    requires edited.roleFreeze.value.assignmentsSha256 == d.roleFreeze.value.assignmentsSha256
    ensures multiset(AssignmentsInOrder(edited.images)) == multiset(AssignmentsInOrder(d.images))
    ensures forall i, j | 0 <= i < |d.images| && 0 <= j < |edited.images|
                          && d.images[i].sourceSha256 == edited.images[j].sourceSha256 ::
              AssignmentOf(d.images[i]) == AssignmentOf(edited.images[j])
  {
    var a, b := AssignmentsInOrder(d.images), AssignmentsInOrder(edited.images);
    assert multiset(a) == multiset(RoleAssignments(d.images)) == multiset(b);
    SameElements(a, b);
    forall i, j | 0 <= i < |d.images| && 0 <= j < |edited.images|
                  && d.images[i].sourceSha256 == edited.images[j].sourceSha256
      ensures AssignmentOf(d.images[i]) == AssignmentOf(edited.images[j])
    {
      assert b[j] in a;
      var k :| 0 <= k < |a| && a[k] == b[j];
      HashesIdentify(d.images, i, k);
    }
  }

  // ---- The stored document behind the annotation server ----

  class LabelFile {
    var document: Document

    constructor (d: Document)
      ensures document == d
    {
      document := d;
    }

    // POST /api/save: load, update, write; a refusal leaves the file alone.
    method Save(u: Update) returns (r: Result<Document, LabelError>)
      modifies this
      ensures r.Success? <==> Valid(old(document), true, false) && Authorized(old(document), u)
                              && Valid(Updated(old(document), u), true, false)
      ensures Valid(old(document), true, false) ==> document == Act(old(document), Annotate(u))
      ensures r.Success? ==> StoresUpdate(old(document), u, document)
      ensures r.Failure? ==> document == old(document)
    {
      var loaded := ValidateLabels(document, true, false);
      if loaded.Failure? {
        return loaded;
      }
      r := UpdateAnnotation(loaded.value, u);
      if r.Success? {
        document := r.value;
      }
    }

    // POST /api/certify, after the explicit acknowledgement.
    method CertifyAll(acknowledged: bool, certifiedBy: string, now: string) returns (r: Result<Document, LabelError>)
      modifies this
      ensures r.Success? <==>
                acknowledged && NonBlank(certifiedBy) && Valid(old(document), true, false)
                && old(document).certification.Absent? && forall im | im in old(document).images :: Finished(im)
      ensures r.Success? ==> document == Certified(old(document), certifiedBy, now) && Valid(document, true, true)
      ensures r.Success? ==> StoresCertificate(old(document), certifiedBy, now, document)
      ensures acknowledged && Valid(old(document), true, false) ==>
                document == Act(old(document), Certify(certifiedBy, now))
      ensures r.Failure? ==> document == old(document)
    {
      var loaded := ValidateLabels(document, true, false);
      if loaded.Failure? {
        return loaded;
      }
      if !acknowledged {
        return Failure(NotAcknowledged);
      }
      r := CertifyLabels(loaded.value, certifiedBy, now);
      if r.Success? {
        document := r.value;
      }
    }
  }
}
