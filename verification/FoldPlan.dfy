// The built folds, said photo by photo: the stratum by its objects, the fold by
// its rank among the photos of that stratum, and the counts by the items.
module FoldPlan {
  import opened Outcomes
  import opened Sorting
  import opened Text
  import opened Labels
  import opened Folds

  // ---- Strata ----

  ghost predicate Visible(im: Image) {
    exists a | a in im.objects :: a.visibility == "clear" || a.visibility == "partial"
  }

  // Negative without a visible object; clear or partial with that one object and
  // no other; refused in every other case.
  lemma StratumReads(im: Image)
    ensures Stratum(im) == Some("negative") <==> !Visible(im)
    ensures Stratum(im) == Some("clear") <==> |im.objects| == 1 && im.objects[0].visibility == "clear"
    ensures Stratum(im) == Some("partial") <==> |im.objects| == 1 && im.objects[0].visibility == "partial"
    ensures Stratum(im) == None <==> Visible(im) && |im.objects| != 1
  {
    var seen := Filter(IsScorable(), im.objects);
    forall a
      ensures a in seen <==> a in im.objects && (a.visibility == "clear" || a.visibility == "partial")
    {
      assert IsScorable()(a) == Scorable(a);
    }
    if seen != [] {
      assert seen[0] in seen;
    }
    if |im.objects| == 1 {
      assert forall a | a in im.objects :: a == im.objects[0];
    }
  }

  // ---- Folds ----

  // The dealing order: the digest of seed and hash, then the hash.
  ghost predicate Precedes(a: Image, b: Image, key: string -> int) {
    || key(a.sourceSha256) < key(b.sourceSha256)
    || (key(a.sourceSha256) == key(b.sourceSha256) && a.sourceSha256 != b.sourceSha256
        && StringLe(a.sourceSha256, b.sourceSha256))
  }

  ghost function Earlier(images: seq<Image>, role: string, key: string -> int, im: Image): set<Image> {
    set other | other in images && other.role == role && Stratum(other) == Stratum(im) && Precedes(other, im, key)
  }

  ghost predicate IsPlanned(x: Item, im: Image, images: seq<Image>, role: string, folds: int, key: string -> int)
    requires folds >= 2
  {
    && im in images && im.role == role && x.source == im.source && x.sourceSha256 == im.sourceSha256
    && Stratum(im) == Some(x.stratum) && x.objects == (if Visible(im) then 1 else 0)
    && x.fold == |Earlier(images, role, key, im)| % folds
  }

  ghost predicate IsTally(c: Counts, items: seq<Item>, f: int) {
    && c.photos == |set x | x in items && x.fold == f|
    && c.clear == |set x | x in items && x.fold == f && x.stratum == "clear"|
    && c.partial == |set x | x in items && x.fold == f && x.stratum == "partial"|
    && c.negative == |set x | x in items && x.fold == f && x.stratum == "negative"|
  }

  // One item for each photo of the role, by hash, each where it was dealt; the
  // counts are those of the items.
  ghost predicate IsPlan(d: FoldDocument, images: seq<Image>, role: string, folds: int, key: string -> int)
    requires folds >= 2
  {
    var items := d.assignments;
    && (forall i, j | 0 <= i < j < |items| ::
          items[i].sourceSha256 != items[j].sourceSha256
          && StringLe(items[i].sourceSha256, items[j].sourceSha256))
    && (forall x | x in items :: exists im :: IsPlanned(x, im, images, role, folds, key))
    && (forall im | im in images && im.role == role ::
          exists x :: x in items && IsPlanned(x, im, images, role, folds, key))
    && |d.counts| == folds && forall f | 0 <= f < folds :: IsTally(d.counts[f], items, f)
  }

  // A photo dealt before comes first, and the other way round.
  lemma DealtBeforePrecedes(images: seq<Image>, role: string, s: string, key: string -> int, k: nat, i: nat)
    requires ValidImages(images) && k < i < |Shuffled(OfStratum(images, role, s), key)|
    ensures var ordered := Shuffled(OfStratum(images, role, s), key);
            Precedes(ordered[k], ordered[i], key)
  {
    var ordered := Shuffled(OfStratum(images, role, s), key);
    ShuffledIsDistinct(images, role, s, key);
    assert OrderLe(key)(ordered[k], ordered[i]) && HashOf()(ordered[k]) != HashOf()(ordered[i]);
  }

  lemma ShuffledAre(images: seq<Image>, role: string, s: string, key: string -> int, o: Image)
    ensures o in Shuffled(OfStratum(images, role, s), key)
            <==> o in images && o.role == role && Stratum(o) == Some(s)
  {
    SameElements(Shuffled(OfStratum(images, role, s), key), OfStratum(images, role, s));
    assert RoleIs(role)(o) == (o.role == role) && StratumIs(s)(o) == (Stratum(o) == Some(s));
  }

  lemma PrecedesIsDealtBefore(images: seq<Image>, role: string, s: string, key: string -> int, o: Image, i: nat)
    requires i < |Shuffled(OfStratum(images, role, s), key)|
    requires var ordered := Shuffled(OfStratum(images, role, s), key);
             o in ordered && Precedes(o, ordered[i], key)
    ensures o in Shuffled(OfStratum(images, role, s), key)[..i]
  {
    var ordered := Shuffled(OfStratum(images, role, s), key);
    var j :| 0 <= j < |ordered| && ordered[j] == o;
    if j >= i {
      NotBefore(key, ordered, i, j);
    }
    assert ordered[..i][j] == o;
  }

  lemma EarlierAreDealtBefore(images: seq<Image>, role: string, s: string, key: string -> int, i: nat)
    requires ValidImages(images) && i < |Shuffled(OfStratum(images, role, s), key)|
    ensures var ordered := Shuffled(OfStratum(images, role, s), key);
            Earlier(images, role, key, ordered[i]) == set o | o in ordered[..i]
  {
    var ordered := Shuffled(OfStratum(images, role, s), key);
    var im := ordered[i];
    ShuffledAre(images, role, s, key, im);
    forall o | o in Earlier(images, role, key, im)
      ensures o in ordered[..i]
    {
      ShuffledAre(images, role, s, key, o);
      PrecedesIsDealtBefore(images, role, s, key, o, i);
    }
    forall o | o in ordered[..i]
      ensures o in Earlier(images, role, key, im)
    {
      var k :| 0 <= k < i && ordered[k] == o;
      ShuffledAre(images, role, s, key, o);
      DealtBeforePrecedes(images, role, s, key, k, i);
    }
  }

  // The rank of a photo in its shuffled stratum.
  lemma RankOfDealt(images: seq<Image>, role: string, s: string, key: string -> int, i: nat)
    requires ValidImages(images) && i < |Shuffled(OfStratum(images, role, s), key)|
    ensures var im := Shuffled(OfStratum(images, role, s), key)[i];
            && im in images && im.role == role && Stratum(im) == Some(s)
            && |Earlier(images, role, key, im)| == i
  {
    var ordered := Shuffled(OfStratum(images, role, s), key);
    ShuffledAre(images, role, s, key, ordered[i]);
    EarlierAreDealtBefore(images, role, s, key, i);
    ShuffledIsDistinct(images, role, s, key);
    forall a, b | 0 <= a < b < i
      ensures HashOf()(ordered[..i][a]) != HashOf()(ordered[..i][b])
    {
      assert HashOf()(ordered[a]) != HashOf()(ordered[b]);
    }
    DistinctSize(HashOf(), ordered[..i]);
  }

  lemma NotBefore(key: string -> int, ordered: seq<Image>, i: nat, j: nat)
    requires Ordered(OrderLe(key), ordered) && i <= j < |ordered|
    ensures !Precedes(ordered[j], ordered[i], key)
  {
    StringLeTotal(ordered[i].sourceSha256, ordered[j].sourceSha256);
    assert i < j ==> OrderLe(key)(ordered[i], ordered[j]);
  }

  lemma ShuffledIsDistinct(images: seq<Image>, role: string, s: string, key: string -> int)
    requires ValidImages(images)
    ensures DistinctBy(HashOf(), Shuffled(OfStratum(images, role, s), key))
  {
    ImagesAreDistinct(images);
    FilterKeepsDistinct(HashOf(), RoleIs(role), images);
    FilterKeepsDistinct(HashOf(), StratumIs(s), Filter(RoleIs(role), images));
    PermutationKeepsDistinct(HashOf(), OfStratum(images, role, s), Shuffled(OfStratum(images, role, s), key));
  }

  lemma DealtIsPlanned(images: seq<Image>, role: string, s: string, folds: int, key: string -> int, i: nat)
    requires ValidImages(images) && folds >= 2 && s in STRATA && i < |Dealt(images, role, s, folds, key)|
    ensures var im := Shuffled(OfStratum(images, role, s), key)[i];
            IsPlanned(Dealt(images, role, s, folds, key)[i], im, images, role, folds, key)
  {
    var im := Shuffled(OfStratum(images, role, s), key)[i];
    RankOfDealt(images, role, s, key, i);
    StratumReads(im);
    StratumCases(s);
  }

  lemma DealtItemIsPlanned(images: seq<Image>, role: string, s: string, folds: int, key: string -> int, x: Item)
    requires ValidImages(images) && folds >= 2 && s in STRATA && x in Dealt(images, role, s, folds, key)
    ensures exists im :: IsPlanned(x, im, images, role, folds, key)
  {
    var i :| 0 <= i < |Dealt(images, role, s, folds, key)| && Dealt(images, role, s, folds, key)[i] == x;
    DealtIsPlanned(images, role, s, folds, key, i);
  }

  lemma ItemIsPlanned(images: seq<Image>, role: string, folds: int, key: string -> int, x: Item)
    requires ValidImages(images) && folds >= 2 && x in Assigned(images, role, folds, key)
    ensures exists im :: IsPlanned(x, im, images, role, folds, key)
  {
    SameElements(Assigned(images, role, folds, key), AllDealt(images, role, folds, key));
    if x in Dealt(images, role, CLEAR, folds, key) {
      DealtItemIsPlanned(images, role, CLEAR, folds, key, x);
    } else if x in Dealt(images, role, PARTIAL, folds, key) {
      DealtItemIsPlanned(images, role, PARTIAL, folds, key, x);
    } else {
      DealtItemIsPlanned(images, role, NEGATIVE, folds, key, x);
    }
  }

  lemma ImageIsPlanned(images: seq<Image>, role: string, folds: int, key: string -> int, im: Image)
    requires ValidImages(images) && folds >= 2 && im in images && im.role == role && Stratum(im).Some?
    ensures exists x :: x in Assigned(images, role, folds, key) && IsPlanned(x, im, images, role, folds, key)
  {
    ImageIsAssigned(images, role, folds, key, im);
    var x :| x in Assigned(images, role, folds, key) && ItemOf(x, im, role, folds);
    ItemIsPlanned(images, role, folds, key, x);
    var other :| IsPlanned(x, other, images, role, folds, key);
    SameHashSameImage(images, im, other);
  }

  lemma NumberIsSize(p: Item -> bool, items: seq<Item>, chosen: set<Item>)
    requires DistinctBy(ItemHash(), items) && forall x: Item :: x in chosen <==> x in items && p(x)
    ensures Number(p, items) == |chosen|
  {
    FilterKeepsDistinct(ItemHash(), p, items);
    DistinctSize(ItemHash(), Filter(p, items));
    assert chosen == set x | x in Filter(p, items);
  }

  lemma CellReads(items: seq<Item>, f: int, s: string)
    requires DistinctBy(ItemHash(), items)
    ensures Number(InCell(f, s), items) == |set x | x in items && x.fold == f && x.stratum == s|
  {
    NumberIsSize(InCell(f, s), items, set x | x in items && x.fold == f && x.stratum == s);
  }

  lemma TallyReads(items: seq<Item>, folds: int, f: int)
    requires DistinctBy(ItemHash(), items) && 0 <= f < folds
    ensures IsTally(CountsOf(items, folds)[f], items, f)
  {
    NumberIsSize(InFold(f), items, set x | x in items && x.fold == f);
    CellReads(items, f, CLEAR);
    CellReads(items, f, PARTIAL);
    CellReads(items, f, NEGATIVE);
  }

  // The built document is this plan.
  lemma BuiltIsPlan(labels: Document, folds: int, seed: string, role: string, key: string -> int)
    requires CanBuild(labels, folds, seed, role)
    ensures var d := FoldsFor(labels, folds, seed, role, key);
            && IsPlan(d, labels.images, role, folds, key) && d.locked == d.assignments && d.labels == labels
            && d.role == role && d.seed == seed && d.foldCount == folds
  {
    var images := labels.images;
    var items := Assigned(images, role, folds, key);
    AssignedIsDistinct(images, role, folds, key);
    forall i, j | 0 <= i < j < |items|
      ensures items[i].sourceSha256 != items[j].sourceSha256
      ensures StringLe(items[i].sourceSha256, items[j].sourceSha256)
    {
      assert ItemHash()(items[i]) != ItemHash()(items[j]) && HashLe()(items[i], items[j]);
    }
    forall x | x in items
      ensures exists im :: IsPlanned(x, im, images, role, folds, key)
    {
      ItemIsPlanned(images, role, folds, key, x);
    }
    forall im | im in images && im.role == role
      ensures exists x :: x in items && IsPlanned(x, im, images, role, folds, key)
    {
      ImageIsPlanned(images, role, folds, key, im);
    }
    forall f | 0 <= f < folds
      ensures IsTally(CountsOf(items, folds)[f], items, f)
    {
      TallyReads(items, folds, f);
    }
  }
}
