// The hard-negative review document: validate_review, update_confirmation and
// confirmation_counts, and what every run of browser updates keeps.
module Reviews {
  import opened Outcomes
  import opened Labels

  const REVIEW_SCHEMA := "mission10-yolo-hard-negative-review/1"
  const MIN_CONFIDENCE := 0.10
  const CONFIRMATIONS: set<string> := {"pending", "confirmed", "rejected"}
  const DECISIONS: set<string> := {"confirmed", "rejected"}
  const BASELINE := "baseline_candidate"
  const CLEAN := "deterministic_clean"

  // An entry id is a truncated digest of the source hash and the tile, taken to
  // be collision-free; any other string is not such a digest.
  datatype Id = CandidateId(sourceSha256: string, x: int, y: int, tile: int) | OtherId(text: string)

  datatype Entry = Entry(
    id: Id, source: string, sourceSha256: string, captureGroup: string, role: string,
    tileXyxy: seq<int>, kind: string, baselineConfidence: Option<real>, confirmation: string)

  datatype Candidate = Candidate(confidence: real, tileX: int, tileY: int)

  datatype AuditRecord = AuditRecord(sourceSha256: string, width: int, height: int, candidates: Option<seq<Candidate>>)

  datatype Baseline = Baseline(tilePx: int, overlapPx: int, candidateFloor: real, images: seq<AuditRecord>)

  datatype Policy = Policy(
    minConfidence: real, maxBaselinePerPhoto: nat, cleanPerPhoto: nat, intersectionAllowed: bool,
    roles: set<string>, states: set<string>)

  // The digests of the two input files stand for their contents.
  datatype Review = Review(
    schema: string, labelsPath: string, labels: Document, baselinePath: string, baseline: Baseline,
    policy: Policy, tilePx: int, overlapPx: int, entries: seq<Entry>)

  datatype ReviewError =
    | BadReviewSchema | BadGeometry | DuplicateEntry(index: nat) | BadEntry(index: nat) | ReviewIncomplete(index: nat)
    | UnauthorizedUpdate | BadDecision | UnknownEntry
    | LabelsInvalid(error: LabelError) | BaselineInvalid | BaselineMissing(source: string)
    | LabelsChanged | BaselineChanged | ProvenanceModified | SourceChanged | NotEligible | TileIntersects
    | NothingToMaterialize

  predicate ValidGeometry(tile: int, overlap: int) {
    tile >= 1 && 0 <= overlap < tile
  }

  predicate ValidEntry(e: Entry, tile: int) {
    && e.confirmation in CONFIRMATIONS && (e.kind == BASELINE || e.kind == CLEAN) && |e.sourceSha256| == 64
    && |e.tileXyxy| == 4 && e.tileXyxy[2] - e.tileXyxy[0] == tile && e.tileXyxy[3] - e.tileXyxy[1] == tile
    && e.id == CandidateId(e.sourceSha256, e.tileXyxy[0], e.tileXyxy[1], tile)
    && (e.kind == BASELINE ==> e.baselineConfidence.Some? && e.baselineConfidence.value >= MIN_CONFIDENCE)
    && (e.kind == CLEAN ==> e.baselineConfidence.None?)
  }

  ghost predicate DistinctIds(entries: seq<Entry>) {
    forall i, j | 0 <= i < j < |entries| :: entries[i].id != entries[j].id
  }

  ghost predicate ValidReview(r: Review, requireDecided: bool) {
    && r.schema == REVIEW_SCHEMA && ValidGeometry(r.tilePx, r.overlapPx) && DistinctIds(r.entries)
    && forall i | 0 <= i < |r.entries| ::
         ValidEntry(r.entries[i], r.tilePx) && (requireDecided ==> r.entries[i].confirmation != "pending")
  }

  method ValidateReview(r: Review, requireDecided: bool) returns (out: Result<Review, ReviewError>)
    ensures out.Success? <==> ValidReview(r, requireDecided)
    ensures out.Success? ==> out.value == r
  {
    if r.schema != REVIEW_SCHEMA {
      return Failure(BadReviewSchema);
    }
    if !ValidGeometry(r.tilePx, r.overlapPx) {
      return Failure(BadGeometry);
    }
    var seen: set<Id> := {};
    for i := 0 to |r.entries|
      invariant forall d :: d in seen <==> exists j :: 0 <= j < i && r.entries[j].id == d
      invariant forall j, k | 0 <= j < k < i :: r.entries[j].id != r.entries[k].id
      invariant forall j | 0 <= j < i ::
                  ValidEntry(r.entries[j], r.tilePx) && (requireDecided ==> r.entries[j].confirmation != "pending")
    {
      var e := r.entries[i];
      if e.id in seen {
        return Failure(DuplicateEntry(i));
      }
      seen := seen + {e.id};
      if requireDecided && e.confirmation == "pending" {
        return Failure(ReviewIncomplete(i));
      }
      if !ValidEntry(e, r.tilePx) {
        return Failure(BadEntry(i));
      }
    }
    return Success(r);
  }

  // ---- Counting decisions ----

  function CountOf(entries: seq<Entry>, confirmation: string): nat {
    if entries == [] then 0
    else CountOf(entries[..|entries| - 1], confirmation)
         + if entries[|entries| - 1].confirmation == confirmation then 1 else 0
  }

  datatype Counts = Counts(total: nat, pending: nat, confirmed: nat, rejected: nat)

  // The three counts partition the entries.
  method ConfirmationCounts(r: Review) returns (out: Result<Counts, ReviewError>)
    ensures out.Success? <==> ValidReview(r, false)
    ensures out.Success? ==>
              var c := out.value;
              && c.total == |r.entries| && c.pending + c.confirmed + c.rejected == c.total
              && c.pending == CountOf(r.entries, "pending") && c.confirmed == CountOf(r.entries, "confirmed")
              && c.rejected == CountOf(r.entries, "rejected")
  {
    var valid := ValidateReview(r, false);
    if valid.Failure? {
      return Failure(valid.error);
    }
    var c := Counts(|r.entries|, 0, 0, 0);
    for i := 0 to |r.entries|
      invariant c.total == |r.entries| && c.pending + c.confirmed + c.rejected == i
      invariant c.pending == CountOf(r.entries[..i], "pending") && c.confirmed == CountOf(r.entries[..i], "confirmed")
      invariant c.rejected == CountOf(r.entries[..i], "rejected")
    {
      assert r.entries[..i + 1][..i] == r.entries[..i];
      assert ValidEntry(r.entries[i], r.tilePx);
      match r.entries[i].confirmation {
        case "pending" => c := c.(pending := c.pending + 1);
        case "confirmed" => c := c.(confirmed := c.confirmed + 1);
        case _ => c := c.(rejected := c.rejected + 1);
      }
    }
    assert r.entries[..|r.entries|] == r.entries;
    return Success(c);
  }

  // ---- The one authorized mutation ----

  datatype Decision = Decision(fields: set<string>, id: Id, confirmation: string)

  const UPDATE_KEYS: set<string> := {"id", "confirmation"}

  ghost predicate HasEntry(r: Review, id: Id, i: nat) {
    i < |r.entries| && r.entries[i].id == id
  }

  function Decide(r: Review, i: nat, confirmation: string): Review
    requires i < |r.entries|
  {
    r.(entries := r.entries[i := r.entries[i].(confirmation := confirmation)])
  }

  // The entry holds the decision and is otherwise the same.
  predicate Holds(before: Entry, confirmation: string, after: Entry) {
    after.confirmation == confirmation && after.(confirmation := before.confirmation) == before
  }

  // What storing a decision means: the entry with the id sent holds the decision
  // sent, every other entry is the same, and so is the rest of the review.
  ghost predicate StoresDecision(before: Review, u: Decision, after: Review) {
    && after.(entries := before.entries) == before && |after.entries| == |before.entries|
    && (exists i :: HasEntry(before, u.id, i))
    && forall i | 0 <= i < |before.entries| ::
         if before.entries[i].id == u.id then Holds(before.entries[i], u.confirmation, after.entries[i])
         else after.entries[i] == before.entries[i]
  }

  lemma DecideStores(r: Review, i: nat, u: Decision)
    requires DistinctIds(r.entries) && HasEntry(r, u.id, i)
    ensures StoresDecision(r, u, Decide(r, i, u.confirmation))
  {
    forall j | 0 <= j < |r.entries|
      ensures r.entries[j].id == u.id <==> j == i
    {
    }
  }

  method FindEntry(r: Review, id: Id) returns (at: Option<nat>)
    ensures at.Some? ==> HasEntry(r, id, at.value)
    ensures at.None? ==> forall i :: !HasEntry(r, id, i)
  {
    for i := 0 to |r.entries|
      invariant forall j | 0 <= j < i :: r.entries[j].id != id
    {
      if r.entries[i].id == id {
        return Some(i);
      }
    }
    return None;
  }

  lemma DecideKeepsValid(r: Review, i: nat, confirmation: string)
    requires ValidReview(r, false) && i < |r.entries| && confirmation in DECISIONS
    ensures ValidReview(Decide(r, i, confirmation), false)
  {
    var after := Decide(r, i, confirmation);
    forall j | 0 <= j < |after.entries|
      ensures ValidEntry(after.entries[j], after.tilePx)
    {
      assert ValidEntry(r.entries[j], r.tilePx);
    }
  }

  // The update is applied exactly when the review is valid, only the two keys
  // were sent, the decision is a decision and the id is an entry's.
  method UpdateConfirmation(r: Review, u: Decision) returns (out: Result<Review, ReviewError>)
    ensures out.Success? <==>
              ValidReview(r, false) && u.fields == UPDATE_KEYS && u.confirmation in DECISIONS
              && exists i :: HasEntry(r, u.id, i)
    ensures out.Success? ==>
              && ValidReview(out.value, false) && StoresDecision(r, u, out.value)
              && exists i :: HasEntry(r, u.id, i) && out.value == Decide(r, i, u.confirmation)
  {
    var valid := ValidateReview(r, false);
    if valid.Failure? {
      return valid;
    }
    if u.fields != UPDATE_KEYS {
      return Failure(UnauthorizedUpdate);
    }
    if u.confirmation !in DECISIONS {
      return Failure(BadDecision);
    }
    var at := FindEntry(r, u.id);
    if at.None? {
      return Failure(UnknownEntry);
    }
    DecideKeepsValid(r, at.value, u.confirmation);
    DecideStores(r, at.value, u);
    out := ValidateReview(Decide(r, at.value, u.confirmation), false);
  }

  // ---- Every run of updates ----

  // `after` came from `before` by deciding entries, one at a time.
  ghost predicate Reachable(before: Review, after: Review, steps: nat)
    decreases steps
  {
    if steps == 0 then before == after
    else exists middle, i, c :: DecidesTo(middle, i, c, after) && Reachable(before, middle, steps - 1)
  }

  ghost predicate DecidesTo(middle: Review, i: nat, c: string, after: Review) {
    i < |middle.entries| && c in DECISIONS && after == Decide(middle, i, c)
  }

  // The review without its human decisions.
  function Provenance(r: Review): (p: Review)
    ensures |p.entries| == |r.entries|
    ensures forall i | 0 <= i < |r.entries| :: p.entries[i] == r.entries[i].(confirmation := "")
  {
    r.(entries := seq(|r.entries|, i requires 0 <= i < |r.entries| => r.entries[i].(confirmation := "")))
  }

  lemma {:induction false} CountAfterDecision(entries: seq<Entry>, i: nat, c: string)
    requires i < |entries| && c in DECISIONS
    ensures CountOf(entries[i := entries[i].(confirmation := c)], "pending")
         == CountOf(entries, "pending") - if entries[i].confirmation == "pending" then 1 else 0
  {
    var n := |entries| - 1;
    var after := entries[i := entries[i].(confirmation := c)];
    if i == n {
      assert after[..n] == entries[..n];
    } else {
      assert after[..n] == entries[..n][i := entries[..n][i].(confirmation := c)];
      CountAfterDecision(entries[..n], i, c);
    }
  }

  // Decided entries of `before` are decided in `after` too.
  ghost predicate StaysDecided(before: Review, after: Review) {
    && |after.entries| == |before.entries|
    && forall i | 0 <= i < |before.entries| && before.entries[i].confirmation != "pending" ::
         after.entries[i].confirmation != "pending"
  }

  lemma DecidingOnlyDecides(r: Review, i: nat, c: string)
    requires i < |r.entries| && c in DECISIONS
    ensures Provenance(Decide(r, i, c)) == Provenance(r) && StaysDecided(r, Decide(r, i, c))
    ensures CountOf(Decide(r, i, c).entries, "pending") <= CountOf(r.entries, "pending")
  {
    CountAfterDecision(r.entries, i, c);
    assert Provenance(Decide(r, i, c)).entries == Provenance(r).entries;
  }

  // Whatever the browser does, the review equals the proposal except in its
  // confirmations, it stays valid, a decided entry stays decided, and fewer and
  // fewer entries are pending.
  lemma {:induction false} UpdatesOnlyDecide(before: Review, after: Review, steps: nat)
    requires ValidReview(before, false) && Reachable(before, after, steps)
    ensures ValidReview(after, false) && Provenance(after) == Provenance(before)
    ensures CountOf(after.entries, "pending") <= CountOf(before.entries, "pending")
    ensures StaysDecided(before, after)
    decreases steps
  {
    if steps > 0 {
      var middle, i, c :| DecidesTo(middle, i, c, after) && Reachable(before, middle, steps - 1);
      UpdatesOnlyDecide(before, middle, steps - 1);
      DecideKeepsValid(middle, i, c);
      DecidingOnlyDecides(middle, i, c);
    }
  }
}
