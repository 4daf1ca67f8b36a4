// materialize: a revalidated review becomes unique negative training tiles.
module Materialization {
  import opened Outcomes
  import opened Sorting
  import opened Labels
  import opened Reviews
  import opened HardNegatives
  import opened Revalidation

  // Cropping and hashing a tile, and re-reading a source photo, seen from here:
  // which image an entry yields, and whether its photo is unchanged.
  datatype Crops = Crops(imageOf: Entry -> string, intact: Entry -> bool)

  // A tile left out, and the emitted one with the same image; the lock names the
  // two by their ids, which identify them.
  datatype Duplicate = Duplicate(entry: Entry, owner: Entry)

  datatype Component = Component(
    emitted: seq<Entry>, duplicates: seq<Duplicate>, confirmed: nat, certifiedAbsence: nat, rejected: nat)

  function NotRejected(): Entry -> bool {
    (e: Entry) => e.confirmation != "rejected"
  }

  function SameImage(crops: Crops): (Entry, Entry) -> bool {
    (a: Entry, b: Entry) => crops.imageOf(a) == crops.imageOf(b)
  }

  function Rejected(): Entry -> bool {
    (e: Entry) => e.confirmation == "rejected"
  }

  function Confirmed(): Entry -> bool {
    (e: Entry) => e.confirmation == "confirmed"
  }

  function Number(p: Entry -> bool, entries: seq<Entry>): nat {
    |Filter(p, entries)|
  }

  // The first entry of each distinct image, in review order.
  ghost function Unique(entries: seq<Entry>, crops: Crops): seq<Entry> {
    Keep(SameImage(crops), Filter(NotRejected(), entries))
  }

  ghost predicate Explained(d: Duplicate, entries: seq<Entry>, kept: seq<Entry>, crops: Crops) {
    d.entry in entries && d.owner in kept && crops.imageOf(d.entry) == crops.imageOf(d.owner)
  }

  ghost predicate AllExplained(duplicates: seq<Duplicate>, entries: seq<Entry>, kept: seq<Entry>, crops: Crops) {
    forall i | 0 <= i < |duplicates| :: Explained(duplicates[i], entries, kept, crops)
  }

  // The owner table: each image kept so far, under its entry.
  ghost function Owners(kept: seq<Entry>, crops: Crops): map<string, Entry> {
    if kept == [] then map[]
    else
      var last := kept[|kept| - 1];
      Owners(kept[..|kept| - 1], crops)[crops.imageOf(last) := last]
  }

  ghost predicate Tallied(c: Component, entries: seq<Entry>) {
    && |c.emitted| + |c.duplicates| + c.rejected == |entries|
    && c.rejected == Number(Rejected(), entries)
    && c.confirmed == Number(Confirmed(), c.emitted) && c.confirmed + c.certifiedAbsence == |c.emitted|
  }

  // The table holds an image exactly when the entry would be refused, and then
  // names a kept entry with that image.
  lemma {:induction false} TableDecides(kept: seq<Entry>, e: Entry, crops: Crops)
    ensures var owners, image := Owners(kept, crops), crops.imageOf(e);
            && (Accepts(SameImage(crops), kept, e) <==> image !in owners)
            && (image in owners ==> owners[image] in kept && crops.imageOf(owners[image]) == image)
  {
    if kept != [] {
      TableDecides(kept[..|kept| - 1], e, crops);
      assert kept == kept[..|kept| - 1] + [kept[|kept| - 1]];
      var clash := SameImage(crops);
      assert clash(e, kept[|kept| - 1]) <==> crops.imageOf(e) == crops.imageOf(kept[|kept| - 1]);
    }
  }

  lemma UniqueStep(entries: seq<Entry>, e: Entry, crops: Crops)
    ensures var kept := Unique(entries, crops);
            Unique(entries + [e], crops)
            == if NotRejected()(e) && Accepts(SameImage(crops), kept, e) then kept + [e] else kept
  {
    var pass, some := NotRejected(), Filter(NotRejected(), entries);
    FilterAppends(pass, entries, e);
    assert some + [] == some;
    assert (some + [e])[..|some|] == some;
  }

  lemma ExplainedWidens(duplicates: seq<Duplicate>, a: seq<Entry>, kept: seq<Entry>, b: seq<Entry>, more: seq<Entry>,
                        crops: Crops)
    requires AllExplained(duplicates, a, kept, crops)
    requires (forall e | e in a :: e in b) && forall k | k in kept :: k in more
    ensures AllExplained(duplicates, b, more, crops)
  {
    forall i | 0 <= i < |duplicates|
      ensures Explained(duplicates[i], b, more, crops)
    {
      assert Explained(duplicates[i], a, kept, crops);
    }
  }

  // Where the selection loop stands after the entries of `done`.
  ghost predicate Progress(c: Component, owners: map<string, Entry>, done: seq<Entry>, crops: Crops) {
    && c.emitted == Unique(done, crops) && owners == Owners(c.emitted, crops) && Tallied(c, done)
    && AllExplained(c.duplicates, done, c.emitted, crops)
  }

  lemma RejectedStep(c: Component, owners: map<string, Entry>, done: seq<Entry>, e: Entry, crops: Crops)
    requires Progress(c, owners, done, crops) && e.confirmation == "rejected"
    ensures Progress(c.(rejected := c.rejected + 1), owners, done + [e], crops)
  {
    UniqueStep(done, e, crops);
    FilterAppends(Rejected(), done, e);
    ExplainedWidens(c.duplicates, done, c.emitted, done + [e], c.emitted, crops);
  }

  lemma DuplicateStep(c: Component, owners: map<string, Entry>, done: seq<Entry>, e: Entry, crops: Crops)
    requires Progress(c, owners, done, crops) && e.confirmation != "rejected" && crops.imageOf(e) in owners
    ensures var d := Duplicate(e, owners[crops.imageOf(e)]);
            Progress(c.(duplicates := c.duplicates + [d]), owners, done + [e], crops)
  {
    TableDecides(c.emitted, e, crops);
    UniqueStep(done, e, crops);
    FilterAppends(Rejected(), done, e);
    ExplainedWidens(c.duplicates, done, c.emitted, done + [e], c.emitted, crops);
  }

  // A tile with a new image, and the basis on which it is emitted.
  function Emitted(c: Component, e: Entry): Component {
    var more := c.(emitted := c.emitted + [e]);
    if e.confirmation == "confirmed" then more.(confirmed := c.confirmed + 1)
    else more.(certifiedAbsence := c.certifiedAbsence + 1)
  }

  lemma EmittedTally(c: Component, done: seq<Entry>, e: Entry)
    requires Tallied(c, done) && e.confirmation != "rejected"
    ensures Tallied(Emitted(c, e), done + [e])
  {
    FilterAppends(Rejected(), done, e);
    FilterAppends(Confirmed(), c.emitted, e);
  }

  lemma NewImageStep(c: Component, owners: map<string, Entry>, done: seq<Entry>, e: Entry, crops: Crops)
    requires Progress(c, owners, done, crops) && e.confirmation != "rejected" && crops.imageOf(e) !in owners
    ensures Progress(Emitted(c, e), owners[crops.imageOf(e) := e], done + [e], crops)
  {
    TableDecides(c.emitted, e, crops);
    UniqueStep(done, e, crops);
    EmittedTally(c, done, e);
    assert (c.emitted + [e])[..|c.emitted|] == c.emitted;
    ExplainedWidens(c.duplicates, done, c.emitted, done + [e], c.emitted + [e], crops);
  }

  predicate Passes(e: Entry, crops: Crops) {
    e.confirmation != "rejected" ==> crops.intact(e)
  }

  ghost predicate AllIntact(entries: seq<Entry>, crops: Crops) {
    forall i | 0 <= i < |entries| :: entries[i].confirmation != "rejected" ==> crops.intact(entries[i])
  }

  datatype State = State(component: Component, owners: map<string, Entry>)

  // One entry: rejected, a duplicate, or emitted.
  function SelectTile(s: State, e: Entry, crops: Crops): State {
    var c, image := s.component, crops.imageOf(e);
    if e.confirmation == "rejected" then State(c.(rejected := c.rejected + 1), s.owners)
    else if image in s.owners then State(c.(duplicates := c.duplicates + [Duplicate(e, s.owners[image])]), s.owners)
    else State(Emitted(c, e), s.owners[image := e])
  }

  function Selection(entries: seq<Entry>, crops: Crops): State {
    if entries == [] then State(Component([], [], 0, 0, 0), map[])
    else SelectTile(Selection(entries[..|entries| - 1], crops), entries[|entries| - 1], crops)
  }

  // Every entry is rejected, emitted, or a duplicate of an emitted one.
  lemma {:induction false} SelectionKeepsUnique(entries: seq<Entry>, crops: Crops)
    ensures var s := Selection(entries, crops); Progress(s.component, s.owners, entries, crops)
  {
    if entries != [] {
      var done, e := entries[..|entries| - 1], entries[|entries| - 1];
      var s := Selection(done, crops);
      SelectionKeepsUnique(done, crops);
      assert entries == done + [e];
      if e.confirmation == "rejected" {
        RejectedStep(s.component, s.owners, done, e, crops);
      } else if crops.imageOf(e) in s.owners {
        DuplicateStep(s.component, s.owners, done, e, crops);
      } else {
        NewImageStep(s.component, s.owners, done, e, crops);
      }
    }
  }

  // The selection loop; a changed source photo stops it.
  method SelectTiles(entries: seq<Entry>, crops: Crops) returns (out: Result<Component, ReviewError>)
    ensures out.Success? <==> AllIntact(entries, crops)
    ensures out.Success? ==> out.value == Selection(entries, crops).component
  {
    var s := State(Component([], [], 0, 0, 0), map[]);
    for i := 0 to |entries|
      invariant forall j | 0 <= j < i :: Passes(entries[j], crops)
      invariant s == Selection(entries[..i], crops)
    {
      if !Passes(entries[i], crops) {
        return Failure(SourceChanged);
      }
      assert entries[..i + 1][..i] == entries[..i];
      s := SelectTile(s, entries[i], crops);
    }
    assert entries[..|entries|] == entries;
    return Success(s.component);
  }

  // ---- materialize ----

  ghost predicate IsMaterializable(r: Review, labels: Document, b: Baseline, setup: Setup, crops: Crops, backed: bool) {
    && ValidReview(r, !backed) && IsReviewOf(r, labels, b, setup)
    && AllIntact(r.entries, crops) && exists e :: e in r.entries && e.confirmation != "rejected"
  }

  lemma SomethingIsEmitted(entries: seq<Entry>, crops: Crops)
    ensures Unique(entries, crops) != [] <==> exists e :: e in entries && e.confirmation != "rejected"
  {
    var some := Filter(NotRejected(), entries);
    if some != [] {
      assert some[0] in some;
      var clash := SameImage(crops);
      KeepCovers((a: Entry, b: Entry) => true, clash, some, some[0]);
    }
    if e :| e in entries && e.confirmation != "rejected" {
      assert NotRejected()(e) && e in some;
    }
  }

  // materialize succeeds exactly when the review is decided (or backed by the
  // certification), revalidates, the photos are unchanged and something is left;
  // then the component is the unique entries, ordered by name.
  method Materialize(r: Review, labels: Document, b: Baseline, setup: Setup, crops: Crops, backed: bool)
    returns (out: Result<Component, ReviewError>)
    ensures out.Success? <==> IsMaterializable(r, labels, b, setup, crops, backed)
    ensures out.Success? ==>
              var c := out.value;
              && Ordered(ById(setup), c.emitted) && multiset(c.emitted) == multiset(Unique(r.entries, crops))
              && |c.emitted| + |c.duplicates| + c.rejected == |r.entries| && c.rejected == Number(Rejected(), r.entries)
              && c.confirmed == Number(Confirmed(), Unique(r.entries, crops))
              && c.confirmed + c.certifiedAbsence == |c.emitted|
              && AllExplained(c.duplicates, r.entries, Unique(r.entries, crops), crops)
  {
    var valid := ValidateReview(r, !backed);
    if valid.Failure? {
      return Failure(valid.error);
    }
    var document := RevalidateReview(r, labels, b, setup);
    if document.Failure? {
      RefusedForProvenance(r, labels, b, setup);
      return Failure(document.error);
    }
    var selected := SelectTiles(r.entries, crops);
    if selected.Failure? {
      return Failure(selected.error);
    }
    SomethingIsEmitted(r.entries, crops);
    SelectionKeepsUnique(r.entries, crops);
    var c := selected.value;
    if c.emitted == [] {
      return Failure(NothingToMaterialize);
    }
    ByIdIsRanking(setup);
    return Success(c.(emitted := SortBy(ById(setup), c.emitted)));
  }

  lemma RefusedForProvenance(r: Review, labels: Document, b: Baseline, setup: Setup)
    requires !(IsReviewOf(r, labels, b, setup) && AllStillSound(r, labels.images))
    ensures !IsReviewOf(r, labels, b, setup)
  {
    if IsReviewOf(r, labels, b, setup) {
      RecheckIsRedundant(r, labels, b, setup);
    }
  }

  // What is emitted, whatever the decisions: never a rejected entry, and always a
  // tile of a certified training photo that touches no mine and no ignore region.
  lemma EmittedTilesAreSafe(
    r: Review, labels: Document, b: Baseline, setup: Setup, crops: Crops, backed: bool, e: Entry)
    requires IsMaterializable(r, labels, b, setup, crops, backed) && e in Unique(r.entries, crops)
    ensures e in r.entries && e.confirmation != "rejected" && (e.confirmation == "pending" ==> backed)
    ensures SomewhereSound(e, labels.images, r.tilePx)
  {
    RecheckIsRedundant(r, labels, b, setup);
    IsSelected(r.entries, crops, e);
    var k :| 0 <= k < |r.entries| && r.entries[k] == e;
    assert backed || r.entries[k].confirmation != "pending";
  }

  lemma IsSelected(entries: seq<Entry>, crops: Crops, e: Entry)
    requires e in Unique(entries, crops)
    ensures e in entries && e.confirmation != "rejected"
  {
    var some := Filter(NotRejected(), entries);
    KeepIsOrderedSubset((a: Entry, b: Entry) => true, SameImage(crops), some);
    assert e in some && NotRejected()(e);
  }

  // No image is emitted twice, and no image of an entry left unrejected is lost.
  lemma EmittedImagesAreUnique(entries: seq<Entry>, crops: Crops)
    ensures var unique := Unique(entries, crops);
            forall i, j | 0 <= i < j < |unique| :: crops.imageOf(unique[i]) != crops.imageOf(unique[j])
    ensures forall e | e in entries && e.confirmation != "rejected" :: ImageKept(e, Unique(entries, crops), crops)
  {
    var some, any, clash := Filter(NotRejected(), entries), (a: Entry, b: Entry) => true, SameImage(crops);
    var unique := Unique(entries, crops);
    KeepIsOrderedSubset(any, clash, some);
    forall i, j | 0 <= i < j < |unique|
      ensures crops.imageOf(unique[i]) != crops.imageOf(unique[j])
    {
      assert !clash(unique[j], unique[i]);
    }
    forall e | e in entries && e.confirmation != "rejected"
      ensures ImageKept(e, unique, crops)
    {
      assert NotRejected()(e) && e in some;
      KeepCovers(any, clash, some, e);
    }
  }

  ghost predicate ImageKept(e: Entry, kept: seq<Entry>, crops: Crops) {
    exists k :: k in kept && crops.imageOf(k) == crops.imageOf(e)
  }
}
