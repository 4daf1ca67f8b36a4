// Deterministic exact-photo folds: build_fold_document, validate_fold_document,
// source_hashes and select_records.
module Folds {
  import opened Outcomes
  import opened Sorting
  import opened Text
  import opened Labels
  import T = Tiles

  const FOLD_SCHEMA := "mission10-yolo-real-folds/1"
  const GROUPING := "exact_source_photo"
  const CLEAR := "clear"
  const PARTIAL := "partial"
  const NEGATIVE := "negative"
  const STRATA: set<string> := {CLEAR, PARTIAL, NEGATIVE}

  datatype Item = Item(source: string, sourceSha256: string, fold: int, stratum: string, objects: int)

  datatype Counts = Counts(photos: nat, clear: nat, partial: nat, negative: nat)

  // Digests stand for what was digested: the label file and the assignments.
  datatype FoldDocument = FoldDocument(
    schema: string, labels: Document, locked: seq<Item>, role: string, grouping: string, seed: string,
    foldCount: int, assignments: seq<Item>, counts: seq<Counts>)

  datatype FoldError =
    | LabelsRejected(error: LabelError) | TooFewFolds | EmptySeed | NoRecords | TwoObjects | MissingStratum
    | NotAFoldLock | BadItem(index: nat) | DuplicateItem(index: nat) | AssignmentsChanged | LabelsHashChanged
    | NotCovering | AssignmentChanged(index: nat) | CountsDisagree | FoldOutOfRange | MissingRecords

  // ---- _stratum ----

  predicate Scorable(a: Annotation) {
    a.visibility == CLEAR || a.visibility == PARTIAL
  }

  function IsScorable(): Annotation -> bool {
    (a: Annotation) => Scorable(a)
  }

  // None is the refusal: fold v1 takes zero or one scorable object.
  function Stratum(im: Image): (r: Option<string>)
    ensures r.Some? ==> r.value in STRATA
  {
    var objects := Filter(IsScorable(), im.objects);
    if objects == [] then Some(NEGATIVE)
    else if |objects| != 1 || |im.objects| != 1 then None
    else
      assert objects[0] in objects;
      Some(objects[0].visibility)
  }

  // ---- Dealing one stratum ----

  function HashOf(): Image -> string {
    (im: Image) => im.sourceSha256
  }

  function ItemHash(): Item -> string {
    (x: Item) => x.sourceSha256
  }

  // The digest of seed and source hash, then the source hash itself.
  function OrderLe(key: string -> int): (Image, Image) -> bool {
    (a: Image, b: Image) =>
      if key(a.sourceSha256) != key(b.sourceSha256) then key(a.sourceSha256) < key(b.sourceSha256)
      else StringLe(a.sourceSha256, b.sourceSha256)
  }

  lemma OrderLeRanks(key: string -> int)
    ensures IsRanking(OrderLe(key))
    ensures forall a, b :: OrderLe(key)(a, b) && OrderLe(key)(b, a) ==> HashOf()(a) == HashOf()(b)
  {
    var le := OrderLe(key);
    forall a, b
      ensures le(a, b) || le(b, a)
      ensures le(a, b) && le(b, a) ==> a.sourceSha256 == b.sourceSha256
    {
      StringLeTotal(a.sourceSha256, b.sourceSha256);
    }
    forall a, b, c | le(a, b) && le(b, c)
      ensures le(a, c)
    {
      if key(a.sourceSha256) == key(b.sourceSha256) == key(c.sourceSha256) {
        StringLeTransitive(a.sourceSha256, b.sourceSha256, c.sourceSha256);
      }
    }
  }

  function Objects(stratum: string): int {
    if stratum == NEGATIVE then 0 else 1
  }

  function ItemFor(im: Image, fold: int, stratum: string): Item {
    Item(im.source, im.sourceSha256, fold, stratum, Objects(stratum))
  }

  function Deal(ordered: seq<Image>, stratum: string, folds: int): (r: seq<Item>)
    requires folds >= 2
    ensures |r| == |ordered|
    ensures forall i | 0 <= i < |r| :: r[i] == ItemFor(ordered[i], i % folds, stratum)
  {
    seq(|ordered|, i requires 0 <= i < |ordered| => ItemFor(ordered[i], i % folds, stratum))
  }

  function RoleIs(role: string): Image -> bool {
    (im: Image) => im.role == role
  }

  function StratumIs(stratum: string): Image -> bool {
    (im: Image) => Stratum(im) == Some(stratum)
  }

  function OfStratum(images: seq<Image>, role: string, stratum: string): seq<Image> {
    Filter(StratumIs(stratum), Filter(RoleIs(role), images))
  }

  function Shuffled(photos: seq<Image>, key: string -> int): (r: seq<Image>)
    ensures multiset(r) == multiset(photos) && |r| == |photos| && Ordered(OrderLe(key), r)
  {
    OrderLeRanks(key);
    SortBy(OrderLe(key), photos)
  }

  function Dealt(images: seq<Image>, role: string, stratum: string, folds: int, key: string -> int): seq<Item>
    requires folds >= 2
  {
    Deal(Shuffled(OfStratum(images, role, stratum), key), stratum, folds)
  }

  function HashLe(): (Item, Item) -> bool {
    (a: Item, b: Item) => StringLe(a.sourceSha256, b.sourceSha256)
  }

  lemma HashLeRanks()
    ensures IsRanking(HashLe())
    ensures forall a, b :: HashLe()(a, b) && HashLe()(b, a) ==> ItemHash()(a) == ItemHash()(b)
  {
    var le := HashLe();
    forall a, b
      ensures le(a, b) || le(b, a)
      ensures le(a, b) && le(b, a) ==> a.sourceSha256 == b.sourceSha256
    {
      StringLeTotal(a.sourceSha256, b.sourceSha256);
    }
    forall a, b, c | le(a, b) && le(b, c)
      ensures le(a, c)
    {
      StringLeTransitive(a.sourceSha256, b.sourceSha256, c.sourceSha256);
    }
  }

  function AllDealt(images: seq<Image>, role: string, folds: int, key: string -> int): seq<Item>
    requires folds >= 2
  {
    Dealt(images, role, CLEAR, folds, key) + Dealt(images, role, PARTIAL, folds, key)
    + Dealt(images, role, NEGATIVE, folds, key)
  }

  function InHashOrder(items: seq<Item>): (r: seq<Item>)
    ensures multiset(r) == multiset(items) && Ordered(HashLe(), r)
  {
    HashLeRanks();
    SortBy(HashLe(), items)
  }

  function Assigned(images: seq<Image>, role: string, folds: int, key: string -> int): (r: seq<Item>)
    requires folds >= 2
    ensures multiset(r) == multiset(AllDealt(images, role, folds, key)) && Ordered(HashLe(), r)
  {
    InHashOrder(AllDealt(images, role, folds, key))
  }

  // ---- Counting ----

  function InFold(fold: int): Item -> bool {
    (x: Item) => x.fold == fold
  }

  function InCell(fold: int, stratum: string): Item -> bool {
    (x: Item) => x.fold == fold && x.stratum == stratum
  }

  function Number(p: Item -> bool, items: seq<Item>): nat {
    |Filter(p, items)|
  }

  function CountsOf(items: seq<Item>, folds: int): (r: seq<Counts>)
    requires folds >= 0
    ensures |r| == folds
    ensures forall f | 0 <= f < folds ::
              r[f] == Counts(Number(InFold(f), items), Number(InCell(f, CLEAR), items),
                             Number(InCell(f, PARTIAL), items), Number(InCell(f, NEGATIVE), items))
  {
    seq(folds, f requires 0 <= f < folds =>
      Counts(Number(InFold(f), items), Number(InCell(f, CLEAR), items),
             Number(InCell(f, PARTIAL), items), Number(InCell(f, NEGATIVE), items)))
  }

  // ---- The built document ----

  ghost predicate AllStratified(images: seq<Image>, role: string) {
    forall im | im in images && im.role == role :: Stratum(im).Some?
  }

  ghost predicate Assignable(images: seq<Image>, role: string) {
    AllStratified(images, role) && forall s | s in STRATA :: OfStratum(images, role, s) != []
  }

  ghost predicate CanBuild(labels: Document, folds: int, seed: string, role: string) {
    Valid(labels, true, true) && folds >= 2 && seed != "" && Assignable(labels.images, role)
  }

  function FoldsFor(labels: Document, folds: int, seed: string, role: string, key: string -> int): FoldDocument
    requires folds >= 2
  {
    var items := Assigned(labels.images, role, folds, key);
    FoldDocument(FOLD_SCHEMA, labels, items, role, GROUPING, seed, folds, items, CountsOf(items, folds))
  }

  // The item is this photo of the role, in some fold, under its own stratum.
  ghost predicate ItemOf(x: Item, im: Image, role: string, folds: int) {
    && im.role == role && x.source == im.source && x.sourceSha256 == im.sourceSha256
    && Stratum(im) == Some(x.stratum) && x.objects == Objects(x.stratum) && 0 <= x.fold < folds
  }

  ghost predicate ItemFrom(x: Item, images: seq<Image>, role: string, folds: int) {
    exists im :: im in images && ItemOf(x, im, role, folds)
  }

  lemma DealtComeFromImages(images: seq<Image>, role: string, s: string, folds: int, key: string -> int, x: Item)
    requires folds >= 2 && x in Dealt(images, role, s, folds, key)
    ensures ItemFrom(x, images, role, folds) && x.stratum == s
  {
    var ordered := Shuffled(OfStratum(images, role, s), key);
    SameElements(ordered, OfStratum(images, role, s));
    var i :| 0 <= i < |ordered| && x == ItemFor(ordered[i], i % folds, s);
    assert ordered[i] in OfStratum(images, role, s);
    assert StratumIs(s)(ordered[i]) && RoleIs(role)(ordered[i]) && ordered[i] in images;
    assert ItemOf(x, ordered[i], role, folds);
  }

  lemma ImagesAreDealt(images: seq<Image>, role: string, s: string, folds: int, key: string -> int, im: Image)
    requires folds >= 2 && im in images && im.role == role && Stratum(im) == Some(s)
    ensures exists x :: x in Dealt(images, role, s, folds, key) && ItemOf(x, im, role, folds)
  {
    assert RoleIs(role)(im) && StratumIs(s)(im);
    var ordered := Shuffled(OfStratum(images, role, s), key);
    SameElements(ordered, OfStratum(images, role, s));
    var i :| 0 <= i < |ordered| && ordered[i] == im;
    var x := Dealt(images, role, s, folds, key)[i];
    assert x in Dealt(images, role, s, folds, key) && ItemOf(x, im, role, folds);
  }

  lemma ImagesAreDistinct(images: seq<Image>)
    requires ValidImages(images)
    ensures DistinctBy(HashOf(), images)
  {
    forall i, j | 0 <= i < j < |images|
      ensures HashOf()(images[i]) != HashOf()(images[j])
    {
      assert Compatible(images[i], images[j]);
    }
  }

  lemma SameHashSameImage(images: seq<Image>, a: Image, b: Image)
    requires ValidImages(images) && a in images && b in images
    requires a.sourceSha256 == b.sourceSha256 || a.source == b.source
    ensures a == b
  {
    var i :| 0 <= i < |images| && images[i] == a;
    var j :| 0 <= j < |images| && images[j] == b;
    assert i < j ==> Compatible(images[i], images[j]);
    assert j < i ==> Compatible(images[j], images[i]);
  }

  lemma DealtIsDistinct(images: seq<Image>, role: string, s: string, folds: int, key: string -> int)
    requires folds >= 2 && ValidImages(images)
    ensures DistinctBy(ItemHash(), Dealt(images, role, s, folds, key))
  {
    ImagesAreDistinct(images);
    FilterKeepsDistinct(HashOf(), RoleIs(role), images);
    FilterKeepsDistinct(HashOf(), StratumIs(s), Filter(RoleIs(role), images));
    var ordered := Shuffled(OfStratum(images, role, s), key);
    PermutationKeepsDistinct(HashOf(), OfStratum(images, role, s), ordered);
    var items := Dealt(images, role, s, folds, key);
    forall i, j | 0 <= i < j < |items|
      ensures ItemHash()(items[i]) != ItemHash()(items[j])
    {
      assert HashOf()(ordered[i]) != HashOf()(ordered[j]);
    }
  }

  lemma StrataAreDisjoint(images: seq<Image>, role: string, s: string, t: string, folds: int, key: string -> int)
    requires folds >= 2 && ValidImages(images) && s != t
    ensures forall x, y | x in Dealt(images, role, s, folds, key) && y in Dealt(images, role, t, folds, key) ::
              ItemHash()(x) != ItemHash()(y)
  {
    forall x, y | x in Dealt(images, role, s, folds, key) && y in Dealt(images, role, t, folds, key)
      ensures x.sourceSha256 != y.sourceSha256
    {
      DealtComeFromImages(images, role, s, folds, key, x);
      DealtComeFromImages(images, role, t, folds, key, y);
      var a :| a in images && ItemOf(x, a, role, folds);
      var b :| b in images && ItemOf(y, b, role, folds);
      if x.sourceSha256 == y.sourceSha256 {
        SameHashSameImage(images, a, b);
      }
    }
  }

  lemma AllDealtIsDistinct(images: seq<Image>, role: string, folds: int, key: string -> int)
    requires folds >= 2 && ValidImages(images)
    ensures DistinctBy(ItemHash(), AllDealt(images, role, folds, key))
  {
    var a, b := Dealt(images, role, CLEAR, folds, key), Dealt(images, role, PARTIAL, folds, key);
    var c := Dealt(images, role, NEGATIVE, folds, key);
    DealtIsDistinct(images, role, CLEAR, folds, key);
    DealtIsDistinct(images, role, PARTIAL, folds, key);
    DealtIsDistinct(images, role, NEGATIVE, folds, key);
    StrataAreDisjoint(images, role, CLEAR, PARTIAL, folds, key);
    StrataAreDisjoint(images, role, CLEAR, NEGATIVE, folds, key);
    StrataAreDisjoint(images, role, PARTIAL, NEGATIVE, folds, key);
    JoinKeepsDistinct(ItemHash(), a, b);
    JoinKeepsDistinct(ItemHash(), a + b, c);
  }

  lemma AssignedIsDistinct(images: seq<Image>, role: string, folds: int, key: string -> int)
    requires folds >= 2 && ValidImages(images)
    ensures DistinctBy(ItemHash(), Assigned(images, role, folds, key))
  {
    AllDealtIsDistinct(images, role, folds, key);
    PermutationKeepsDistinct(ItemHash(), AllDealt(images, role, folds, key), Assigned(images, role, folds, key));
  }

  lemma AssignedComesFromImages(images: seq<Image>, role: string, folds: int, key: string -> int, x: Item)
    requires folds >= 2 && x in Assigned(images, role, folds, key)
    ensures ItemFrom(x, images, role, folds)
  {
    SameElements(Assigned(images, role, folds, key), AllDealt(images, role, folds, key));
    var s := if x in Dealt(images, role, CLEAR, folds, key) then CLEAR
             else if x in Dealt(images, role, PARTIAL, folds, key) then PARTIAL else NEGATIVE;
    DealtComeFromImages(images, role, s, folds, key, x);
  }

  lemma InJoined(a: seq<Item>, b: seq<Item>, c: seq<Item>, x: Item)
    requires x in a || x in b || x in c
    ensures x in a + b + c
  {
  }

  lemma DealtIsDealt(images: seq<Image>, role: string, s: string, folds: int, key: string -> int, x: Item)
    requires folds >= 2 && s in STRATA && x in Dealt(images, role, s, folds, key)
    ensures x in AllDealt(images, role, folds, key)
  {
    var a, b := Dealt(images, role, CLEAR, folds, key), Dealt(images, role, PARTIAL, folds, key);
    var c := Dealt(images, role, NEGATIVE, folds, key);
    StratumCases(s);
    InJoined(a, b, c, x);
  }

  lemma StratumCases(s: string)
    requires s in STRATA
    ensures s == CLEAR || s == PARTIAL || s == NEGATIVE
  {
  }

  lemma DealtIsAssigned(images: seq<Image>, role: string, s: string, folds: int, key: string -> int, x: Item)
    requires folds >= 2 && s in STRATA && x in Dealt(images, role, s, folds, key)
    ensures x in Assigned(images, role, folds, key)
  {
    DealtIsDealt(images, role, s, folds, key, x);
    SameElements(Assigned(images, role, folds, key), AllDealt(images, role, folds, key));
  }

  lemma ImageIsAssigned(images: seq<Image>, role: string, folds: int, key: string -> int, im: Image)
    requires folds >= 2 && im in images && im.role == role && Stratum(im).Some?
    ensures HasItem(Assigned(images, role, folds, key), im, role, folds)
  {
    var s := Stratum(im).value;
    ImagesAreDealt(images, role, s, folds, key, im);
    var x :| x in Dealt(images, role, s, folds, key) && ItemOf(x, im, role, folds);
    DealtIsAssigned(images, role, s, folds, key, x);
  }

  // Every photo of the role is in exactly one fold, under its own stratum; nothing
  // else is in any.
  lemma EveryPhotoInOneFold(images: seq<Image>, role: string, folds: int, key: string -> int)
    requires folds >= 2 && ValidImages(images) && AllStratified(images, role)
    ensures var items := Assigned(images, role, folds, key);
            && DistinctBy(ItemHash(), items) && (forall x | x in items :: ItemFrom(x, images, role, folds))
            && forall im | im in images && im.role == role :: HasItem(items, im, role, folds)
  {
    AssignedIsDistinct(images, role, folds, key);
    forall x | x in Assigned(images, role, folds, key)
      ensures ItemFrom(x, images, role, folds)
    {
      AssignedComesFromImages(images, role, folds, key, x);
    }
    forall im | im in images && im.role == role
      ensures HasItem(Assigned(images, role, folds, key), im, role, folds)
    {
      ImageIsAssigned(images, role, folds, key, im);
    }
  }

  ghost predicate HasItem(items: seq<Item>, im: Image, role: string, folds: int) {
    exists x :: x in items && ItemOf(x, im, role, folds)
  }

  // ---- Balance ----

  lemma {:induction false} FilterJoins(p: Item -> bool, a: seq<Item>, b: seq<Item>)
    ensures Number(p, a + b) == Number(p, a) + Number(p, b)
  {
    if a == [] {
      assert a + b == b;
    } else {
      assert (a + b)[1..] == a[1..] + b;
      FilterJoins(p, a[1..], b);
    }
  }

  lemma NumberIgnoresOrder(p: Item -> bool, a: seq<Item>, b: seq<Item>)
    requires multiset(a) == multiset(b)
    ensures Number(p, a) == Number(p, b)
  {
    forall x
      ensures multiset(Filter(p, a))[x] == multiset(Filter(p, b))[x]
    {
      FilterCounts(p, a, x);
      FilterCounts(p, b, x);
    }
    assert multiset(Filter(p, a)) == multiset(Filter(p, b));
    SameElements(Filter(p, a), Filter(p, b));
  }

  lemma NextRemainder(n: nat, k: nat)
    requires k > 0
    ensures if n % k == k - 1 then (n + 1) / k == n / k + 1 && (n + 1) % k == 0
            else (n + 1) / k == n / k && (n + 1) % k == n % k + 1
  {
    var q, r := n / k, n % k;
    assert n == q * k + r && (q + 1) * k == q * k + k;
    if r == k - 1 {
      T.QuotientIsUnique(n + 1, k, q + 1, 0);
    } else {
      T.QuotientIsUnique(n + 1, k, q, r + 1);
    }
  }

  // Dealing n cards to k hands gives each hand n / k, and one more to the first n % k.
  lemma {:induction false} RoundRobin(ordered: seq<Image>, s: string, folds: int, f: int)
    requires folds >= 2 && 0 <= f < folds
    ensures var n := |ordered|;
            Number(InCell(f, s), Deal(ordered, s, folds)) == n / folds + if f < n % folds then 1 else 0
  {
    if ordered != [] {
      var n := |ordered| - 1;
      RoundRobin(ordered[..n], s, folds, f);
      var last := ItemFor(ordered[n], n % folds, s);
      assert Deal(ordered, s, folds) == Deal(ordered[..n], s, folds) + [last];
      FilterAppends(InCell(f, s), Deal(ordered[..n], s, folds), last);
      NextRemainder(n, folds);
    }
  }

  lemma {:induction false} OtherStrataDoNotCount(items: seq<Item>, f: int, s: string, t: string)
    requires s != t && forall x | x in items :: x.stratum == t
    ensures Number(InCell(f, s), items) == 0
  {
    if items != [] {
      assert items[0] in items && forall x | x in items[1..] :: x in items;
      OtherStrataDoNotCount(items[1..], f, s, t);
    }
  }

  function CellSize(images: seq<Image>, role: string, s: string, folds: int, f: int): int
    requires folds >= 2
  {
    var n := |OfStratum(images, role, s)|;
    n / folds + if f < n % folds then 1 else 0
  }

  function Share(images: seq<Image>, role: string, s: string, t: string, folds: int, f: int): int
    requires folds >= 2
  {
    if s == t then CellSize(images, role, s, folds, f) else 0
  }

  lemma DealtCells(images: seq<Image>, role: string, s: string, t: string, folds: int, key: string -> int, f: int)
    requires folds >= 2 && 0 <= f < folds
    ensures Number(InCell(f, s), Dealt(images, role, t, folds, key)) == Share(images, role, s, t, folds, f)
  {
    if s == t {
      RoundRobin(Shuffled(OfStratum(images, role, s), key), s, folds, f);
    } else {
      OtherStrataDoNotCount(Dealt(images, role, t, folds, key), f, s, t);
    }
  }

  // Each stratum is spread over the folds as evenly as its size allows.
  lemma EachStratumIsBalanced(images: seq<Image>, role: string, s: string, folds: int, key: string -> int,
                              f: int, g: int)
    requires folds >= 2 && s in STRATA && 0 <= f < folds && 0 <= g < folds
    ensures var items := Assigned(images, role, folds, key);
            && Number(InCell(f, s), items) == CellSize(images, role, s, folds, f)
            && -1 <= Number(InCell(f, s), items) - Number(InCell(g, s), items) <= 1
  {
    CellIsSized(images, role, s, folds, key, f);
    CellIsSized(images, role, s, folds, key, g);
  }

  lemma CellIsSized(images: seq<Image>, role: string, s: string, folds: int, key: string -> int, f: int)
    requires folds >= 2 && s in STRATA && 0 <= f < folds
    ensures Number(InCell(f, s), Assigned(images, role, folds, key)) == CellSize(images, role, s, folds, f)
  {
    var p := InCell(f, s);
    NumberIgnoresOrder(p, Assigned(images, role, folds, key), AllDealt(images, role, folds, key));
    ThreeParts(p, Dealt(images, role, CLEAR, folds, key), Dealt(images, role, PARTIAL, folds, key),
               Dealt(images, role, NEGATIVE, folds, key));
    DealtCells(images, role, s, CLEAR, folds, key, f);
    DealtCells(images, role, s, PARTIAL, folds, key, f);
    DealtCells(images, role, s, NEGATIVE, folds, key, f);
    OnlyOneShare(images, role, s, folds, f);
  }

  lemma OnlyOneShare(images: seq<Image>, role: string, s: string, folds: int, f: int)
    requires folds >= 2 && s in STRATA
    ensures Share(images, role, s, CLEAR, folds, f) + Share(images, role, s, PARTIAL, folds, f)
            + Share(images, role, s, NEGATIVE, folds, f) == CellSize(images, role, s, folds, f)
  {
  }

  lemma ThreeParts(p: Item -> bool, a: seq<Item>, b: seq<Item>, c: seq<Item>)
    ensures Number(p, a + b + c) == Number(p, a) + Number(p, b) + Number(p, c)
  {
    FilterJoins(p, a + b, c);
    FilterJoins(p, a, b);
  }

  // Every photo a stratum deals to a fold is one of that stratum.
  lemma {:induction false} FoldIsCell(items: seq<Item>, f: int, s: string)
    requires forall x | x in items :: x.stratum == s
    ensures Number(InFold(f), items) == Number(InCell(f, s), items)
  {
    if items != [] {
      assert items[0] in items && forall x | x in items[1..] :: x in items;
      FoldIsCell(items[1..], f, s);
    }
  }

  lemma DealtTotal(images: seq<Image>, role: string, s: string, folds: int, key: string -> int, f: int)
    requires folds >= 2 && 0 <= f < folds
    ensures Number(InFold(f), Dealt(images, role, s, folds, key)) == CellSize(images, role, s, folds, f)
  {
    FoldIsCell(Dealt(images, role, s, folds, key), f, s);
    DealtCells(images, role, s, s, folds, key, f);
  }

  function FoldSize(images: seq<Image>, role: string, folds: int, f: int): int
    requires folds >= 2
  {
    CellSize(images, role, CLEAR, folds, f) + CellSize(images, role, PARTIAL, folds, f)
    + CellSize(images, role, NEGATIVE, folds, f)
  }

  lemma FoldIsSized(images: seq<Image>, role: string, folds: int, key: string -> int, f: int)
    requires folds >= 2 && 0 <= f < folds
    ensures Number(InFold(f), Assigned(images, role, folds, key)) == FoldSize(images, role, folds, f)
  {
    NumberIgnoresOrder(InFold(f), Assigned(images, role, folds, key), AllDealt(images, role, folds, key));
    ThreeParts(InFold(f), Dealt(images, role, CLEAR, folds, key), Dealt(images, role, PARTIAL, folds, key),
               Dealt(images, role, NEGATIVE, folds, key));
    DealtTotal(images, role, CLEAR, folds, key, f);
    DealtTotal(images, role, PARTIAL, folds, key, f);
    DealtTotal(images, role, NEGATIVE, folds, key, f);
  }

  // Every stratum is dealt from fold 0, so a later fold never holds more photos, and
  // holds at most one fewer per stratum.
  lemma LaterFoldsAreNoLarger(images: seq<Image>, role: string, folds: int, key: string -> int, f: int, g: int)
    requires folds >= 2 && 0 <= f <= g < folds
    ensures var items := Assigned(images, role, folds, key);
            0 <= Number(InFold(f), items) - Number(InFold(g), items) <= 3
  {
    FoldIsSized(images, role, folds, key, f);
    FoldIsSized(images, role, folds, key, g);
    FoldSizesFall(images, role, folds, f, g);
  }

  lemma FoldSizesFall(images: seq<Image>, role: string, folds: int, f: int, g: int)
    requires folds >= 2 && 0 <= f <= g < folds
    ensures 0 <= FoldSize(images, role, folds, f) - FoldSize(images, role, folds, g) <= 3
  {
    CellSizesFall(images, role, CLEAR, folds, f, g);
    CellSizesFall(images, role, PARTIAL, folds, f, g);
    CellSizesFall(images, role, NEGATIVE, folds, f, g);
  }

  lemma CellSizesFall(images: seq<Image>, role: string, s: string, folds: int, f: int, g: int)
    requires folds >= 2 && 0 <= f <= g < folds
    ensures 0 <= CellSize(images, role, s, folds, f) - CellSize(images, role, s, folds, g) <= 1
  {
  }

  // ---- Independence of the manifest order ----

  lemma FilterIgnoresOrder(p: Image -> bool, a: seq<Image>, b: seq<Image>)
    requires multiset(a) == multiset(b)
    ensures multiset(Filter(p, a)) == multiset(Filter(p, b))
  {
    forall x
      ensures multiset(Filter(p, a))[x] == multiset(Filter(p, b))[x]
    {
      FilterCounts(p, a, x);
      FilterCounts(p, b, x);
    }
  }

  lemma DealtIgnoresOrder(a: seq<Image>, b: seq<Image>, role: string, s: string, folds: int, key: string -> int)
    requires folds >= 2 && ValidImages(a) && multiset(a) == multiset(b)
    ensures Dealt(a, role, s, folds, key) == Dealt(b, role, s, folds, key)
  {
    OrderLeRanks(key);
    FilterIgnoresOrder(RoleIs(role), a, b);
    FilterIgnoresOrder(StratumIs(s), Filter(RoleIs(role), a), Filter(RoleIs(role), b));
    var x, y := Shuffled(OfStratum(a, role, s), key), Shuffled(OfStratum(b, role, s), key);
    ImagesAreDistinct(a);
    FilterKeepsDistinct(HashOf(), RoleIs(role), a);
    FilterKeepsDistinct(HashOf(), StratumIs(s), Filter(RoleIs(role), a));
    PermutationKeepsDistinct(HashOf(), OfStratum(a, role, s), x);
    OrderedIsUniqueByKey(OrderLe(key), HashOf(), x, y);
  }

  // Reordering the manifest changes neither an assignment nor a count.
  lemma FoldsIgnoreOrder(a: Document, b: Document, folds: int, seed: string, role: string, key: string -> int)
    requires folds >= 2 && ValidImages(a.images) && multiset(a.images) == multiset(b.images)
    ensures FoldsFor(a, folds, seed, role, key).assignments == FoldsFor(b, folds, seed, role, key).assignments
    ensures FoldsFor(a, folds, seed, role, key).(labels := b) == FoldsFor(b, folds, seed, role, key)
  {
    DealtIgnoresOrder(a.images, b.images, role, CLEAR, folds, key);
    DealtIgnoresOrder(a.images, b.images, role, PARTIAL, folds, key);
    DealtIgnoresOrder(a.images, b.images, role, NEGATIVE, folds, key);
  }

  // ---- validate_fold_document ----

  predicate ValidItem(x: Item, folds: int) {
    && x.source != "" && IsSha256(x.sourceSha256) && 0 <= x.fold < folds
    && x.stratum in STRATA && x.objects == Objects(x.stratum)
  }

  ghost predicate DistinctItems(items: seq<Item>) {
    DistinctUpTo(items, |items|)
  }

  // Exactly the photos of the role, each under its own source name and stratum.
  ghost predicate Covers(items: seq<Item>, images: seq<Image>, role: string) {
    && (forall im | im in images && im.role == role :: exists x :: x in items && x.sourceSha256 == im.sourceSha256)
    && forall i | 0 <= i < |items| :: Matches(items[i], images, role)
  }

  ghost predicate Matches(x: Item, images: seq<Image>, role: string) {
    exists im :: im in images && im.role == role && im.sourceSha256 == x.sourceSha256 && im.source == x.source
                 && Stratum(im) == Some(x.stratum)
  }

  ghost predicate ValidItems(items: seq<Item>, folds: int) {
    DistinctItems(items) && forall i | 0 <= i < |items| :: ValidItem(items[i], folds)
  }

  ghost predicate ValidLock(d: FoldDocument) {
    && d.schema == FOLD_SCHEMA && d.foldCount >= 2 && d.grouping == GROUPING && d.seed != "" && d.assignments != []
    && ValidItems(d.assignments, d.foldCount) && d.locked == d.assignments
    && d.counts == CountsOf(d.assignments, d.foldCount)
  }

  // Bound to labels: the labels are certified and exactly covered.
  ghost predicate BoundTo(d: FoldDocument, labels: Document) {
    Valid(labels, true, true) && Covers(d.assignments, labels.images, d.role)
  }

  // What the two sets hold after `done` items.
  ghost predicate Seen(items: seq<Item>, done: nat, sources: set<string>, hashes: set<string>)
    requires done <= |items|
  {
    && (forall h :: h in hashes <==> exists j :: 0 <= j < done && items[j].sourceSha256 == h)
    && (forall s :: s in sources <==> exists j :: 0 <= j < done && items[j].source == s)
  }

  ghost predicate NewTo(items: seq<Item>, done: nat)
    requires done < |items|
  {
    forall j | 0 <= j < done ::
      items[j].source != items[done].source && items[j].sourceSha256 != items[done].sourceSha256
  }

  lemma SetsDecide(items: seq<Item>, done: nat, sources: set<string>, hashes: set<string>)
    requires done < |items| && Seen(items, done, sources, hashes)
    ensures NewTo(items, done) == (items[done].source !in sources && items[done].sourceSha256 !in hashes)
  {
    if !NewTo(items, done) {
      var j :| 0 <= j < done
               && !(items[j].source != items[done].source && items[j].sourceSha256 != items[done].sourceSha256);
    }
  }

  lemma SeenGrows(items: seq<Item>, done: nat, sources: set<string>, hashes: set<string>)
    requires done < |items| && Seen(items, done, sources, hashes)
    ensures Seen(items, done + 1, sources + {items[done].source}, hashes + {items[done].sourceSha256})
  {
  }

  ghost predicate DistinctUpTo(items: seq<Item>, n: nat)
    requires n <= |items|
  {
    forall i, j | 0 <= i < j < n ::
      items[i].source != items[j].source && items[i].sourceSha256 != items[j].sourceSha256
  }

  lemma DistinctGrows(items: seq<Item>, n: nat)
    requires n < |items| && DistinctUpTo(items, n) && NewTo(items, n)
    ensures DistinctUpTo(items, n + 1)
  {
  }

  // The checks on one item, and the sets with the item in them.
  method CheckItem(items: seq<Item>, i: nat, folds: int, sources: set<string>, hashes: set<string>)
    returns (bad: Option<FoldError>, sources': set<string>, hashes': set<string>)
    requires i < |items| && Seen(items, i, sources, hashes)
    ensures bad.None? == (ValidItem(items[i], folds) && NewTo(items, i))
    ensures bad.None? ==> Seen(items, i + 1, sources', hashes')
  {
    SetsDecide(items, i, sources, hashes);
    if items[i].source in sources || items[i].sourceSha256 in hashes {
      return Some(DuplicateItem(i)), sources, hashes;
    }
    if !ValidItem(items[i], folds) {
      return Some(BadItem(i)), sources, hashes;
    }
    SeenGrows(items, i, sources, hashes);
    return None, sources + {items[i].source}, hashes + {items[i].sourceSha256};
  }

  method CheckItems(items: seq<Item>, folds: int) returns (bad: Option<FoldError>)
    ensures bad.None? <==> ValidItems(items, folds)
  {
    var hashes: set<string>, sources: set<string> := {}, {};
    for i := 0 to |items|
      invariant Seen(items, i, sources, hashes)
      invariant DistinctUpTo(items, i)
      invariant forall j | 0 <= j < i :: ValidItem(items[j], folds)
    {
      bad, sources, hashes := CheckItem(items, i, folds, sources, hashes);
      if bad.Some? {
        Refused(items, i, folds);
        return;
      }
      DistinctGrows(items, i);
    }
    return None;
  }

  lemma Refused(items: seq<Item>, i: nat, folds: int)
    requires i < |items| && !(ValidItem(items[i], folds) && NewTo(items, i))
    ensures !ValidItems(items, folds)
  {
  }

  function FindRole(images: seq<Image>, role: string, hash: string): (r: Option<Image>)
    ensures r.Some? ==> r.value in images && r.value.role == role && r.value.sourceSha256 == hash
    ensures r.None? ==> forall im | im in images && im.role == role :: im.sourceSha256 != hash
  {
    if images == [] then None
    else if images[0].role == role && images[0].sourceSha256 == hash then Some(images[0])
    else FindRole(images[1..], role, hash)
  }

  lemma OnlyMatch(x: Item, images: seq<Image>, role: string)
    requires ValidImages(images)
    ensures var found := FindRole(images, role, x.sourceSha256);
            Matches(x, images, role)
            <==> found.Some? && found.value.source == x.source && Stratum(found.value) == Some(x.stratum)
  {
    if Matches(x, images, role) {
      var im :| im in images && im.role == role && im.sourceSha256 == x.sourceSha256 && im.source == x.source
                && Stratum(im) == Some(x.stratum);
      SameHashSameImage(images, im, FindRole(images, role, x.sourceSha256).value);
    }
  }

  // The i-th assignment against the photos of the role.
  method CheckMatch(x: Item, images: seq<Image>, role: string, i: nat) returns (bad: Option<FoldError>)
    requires ValidImages(images)
    ensures bad.None? <==> Matches(x, images, role)
  {
    OnlyMatch(x, images, role);
    var found := FindRole(images, role, x.sourceSha256);
    if found.None? {
      return Some(NotCovering);
    }
    if found.value.source != x.source || Stratum(found.value) != Some(x.stratum) {
      return Some(AssignmentChanged(i));
    }
    return None;
  }

  method CheckCoverage(items: seq<Item>, images: seq<Image>, role: string) returns (bad: Option<FoldError>)
    requires ValidImages(images)
    ensures bad.None? <==> Covers(items, images, role)
  {
    if exists im | im in images :: im.role == role && !exists x :: x in items && x.sourceSha256 == im.sourceSha256 {
      return Some(NotCovering);
    }
    for i := 0 to |items|
      invariant forall j | 0 <= j < i :: Matches(items[j], images, role)
    {
      bad := CheckMatch(items[i], images, role, i);
      if bad.Some? {
        return;
      }
    }
    return None;
  }

  method ValidateFoldDocument(d: FoldDocument, labels: Option<Document>, digest: Option<Document>)
    returns (out: Result<FoldDocument, FoldError>)
    ensures out.Success? <==>
              && ValidLock(d) && (digest.Some? ==> d.labels == digest.value)
              && (labels.Some? ==> BoundTo(d, labels.value))
    ensures out.Success? ==> out.value == d
  {
    if d.schema != FOLD_SCHEMA || d.foldCount < 2 || d.grouping != GROUPING || d.seed == "" || d.assignments == [] {
      return Failure(NotAFoldLock);
    }
    var bad := CheckItems(d.assignments, d.foldCount);
    if bad.Some? {
      return Failure(bad.value);
    }
    if d.locked != d.assignments {
      return Failure(AssignmentsChanged);
    }
    if digest.Some? && d.labels != digest.value {
      return Failure(LabelsHashChanged);
    }
    if labels.Some? {
      var checked := ValidateLabels(labels.value, true, true);
      if checked.Failure? {
        return Failure(LabelsRejected(checked.error));
      }
      bad := CheckCoverage(d.assignments, labels.value.images, d.role);
      if bad.Some? {
        return Failure(bad.value);
      }
    }
    if d.counts != CountsOf(d.assignments, d.foldCount) {
      return Failure(CountsDisagree);
    }
    return Success(d);
  }

  // ---- What is built validates ----

  lemma FromMatches(x: Item, images: seq<Image>, role: string, folds: int)
    requires ItemFrom(x, images, role, folds) && ValidImages(images)
    ensures Matches(x, images, role) && ValidItem(x, folds)
  {
    var im :| im in images && ItemOf(x, im, role, folds);
    assert ValidImage(im);
  }

  lemma ItemsAreDistinct(items: seq<Item>, images: seq<Image>, role: string, folds: int)
    requires ValidImages(images) && DistinctBy(ItemHash(), items)
    requires forall x | x in items :: ItemFrom(x, images, role, folds)
    ensures DistinctItems(items)
  {
    forall i, j | 0 <= i < j < |items|
      ensures items[i].source != items[j].source && items[i].sourceSha256 != items[j].sourceSha256
    {
      assert ItemHash()(items[i]) != ItemHash()(items[j]);
      assert items[i] in items && items[j] in items;
      var a :| a in images && ItemOf(items[i], a, role, folds);
      var b :| b in images && ItemOf(items[j], b, role, folds);
      if a.source == b.source {
        SameHashSameImage(images, a, b);
      }
    }
  }

  lemma BuiltItemsAreValid(images: seq<Image>, role: string, folds: int, key: string -> int)
    requires folds >= 2 && ValidImages(images)
    ensures ValidItems(Assigned(images, role, folds, key), folds)
  {
    var items := Assigned(images, role, folds, key);
    AssignedIsDistinct(images, role, folds, key);
    forall x | x in items
      ensures ItemFrom(x, images, role, folds)
    {
      AssignedComesFromImages(images, role, folds, key, x);
    }
    ItemsAreDistinct(items, images, role, folds);
    forall i | 0 <= i < |items|
      ensures ValidItem(items[i], folds)
    {
      FromMatches(items[i], images, role, folds);
    }
  }

  lemma BuiltItemsCover(images: seq<Image>, role: string, folds: int, key: string -> int)
    requires folds >= 2 && ValidImages(images) && AllStratified(images, role)
    ensures Covers(Assigned(images, role, folds, key), images, role)
  {
    var items := Assigned(images, role, folds, key);
    forall i | 0 <= i < |items|
      ensures Matches(items[i], images, role)
    {
      AssignedComesFromImages(images, role, folds, key, items[i]);
      FromMatches(items[i], images, role, folds);
    }
    forall im | im in images && im.role == role
      ensures exists x :: x in items && x.sourceSha256 == im.sourceSha256
    {
      ImageIsAssigned(images, role, folds, key, im);
    }
  }

  lemma SomethingIsAssigned(images: seq<Image>, role: string, folds: int, key: string -> int)
    requires folds >= 2 && OfStratum(images, role, CLEAR) != []
    ensures Assigned(images, role, folds, key) != []
  {
    var first := Dealt(images, role, CLEAR, folds, key)[0];
    DealtIsAssigned(images, role, CLEAR, folds, key, first);
  }

  // The built lock always validates against the labels it was built from.
  lemma BuiltFoldsValidate(labels: Document, folds: int, seed: string, role: string, key: string -> int)
    requires CanBuild(labels, folds, seed, role)
    ensures ValidLock(FoldsFor(labels, folds, seed, role, key))
    ensures BoundTo(FoldsFor(labels, folds, seed, role, key), labels)
  {
    BuiltItemsAreValid(labels.images, role, folds, key);
    BuiltItemsCover(labels.images, role, folds, key);
    SomethingIsAssigned(labels.images, role, folds, key);
  }

  // ---- build_fold_document ----

  datatype Strata = Strata(clear: seq<Image>, partial: seq<Image>, negative: seq<Image>)

  ghost predicate IsStratified(s: Strata, records: seq<Image>) {
    && s.clear == Filter(StratumIs(CLEAR), records) && s.partial == Filter(StratumIs(PARTIAL), records)
    && s.negative == Filter(StratumIs(NEGATIVE), records)
  }

  lemma StratumAppends(s: string, records: seq<Image>, im: Image)
    ensures Filter(StratumIs(s), records + [im])
         == if Stratum(im) == Some(s) then Filter(StratumIs(s), records) + [im] else Filter(StratumIs(s), records)
  {
    FilterAppends(StratumIs(s), records, im);
    assert Filter(StratumIs(s), records) + [] == Filter(StratumIs(s), records);
  }

  function AddTo(s: Strata, stratum: string, im: Image): Strata {
    if stratum == CLEAR then s.(clear := s.clear + [im])
    else if stratum == PARTIAL then s.(partial := s.partial + [im])
    else s.(negative := s.negative + [im])
  }

  lemma AddKeepsStratified(s: Strata, records: seq<Image>, i: nat)
    requires i < |records| && IsStratified(s, records[..i]) && Stratum(records[i]).Some?
    ensures IsStratified(AddTo(s, Stratum(records[i]).value, records[i]), records[..i + 1])
  {
    assert records[..i + 1] == records[..i] + [records[i]];
    StratumAppends(CLEAR, records[..i], records[i]);
    StratumAppends(PARTIAL, records[..i], records[i]);
    StratumAppends(NEGATIVE, records[..i], records[i]);
  }

  ghost predicate HaveStrata(records: seq<Image>) {
    forall i | 0 <= i < |records| :: Stratum(records[i]).Some?
  }

  // by_stratum: every record under its stratum, in manifest order; a record with
  // more than one scorable object is refused.
  method Stratify(records: seq<Image>) returns (r: Option<Strata>)
    ensures r.Some? == HaveStrata(records)
    ensures r.Some? ==> IsStratified(r.value, records)
  {
    var s := Strata([], [], []);
    for i := 0 to |records|
      invariant IsStratified(s, records[..i])
      invariant forall j | 0 <= j < i :: Stratum(records[j]).Some?
    {
      var stratum := Stratum(records[i]);
      if stratum.None? {
        return None;
      }
      AddKeepsStratified(s, records, i);
      s := AddTo(s, stratum.value, records[i]);
    }
    assert records[..|records|] == records;
    return Some(s);
  }

  method DealStratum(photos: seq<Image>, stratum: string, folds: int, key: string -> int)
    returns (assignments: seq<Item>)
    requires folds >= 2
    ensures assignments == Deal(Shuffled(photos, key), stratum, folds)
  {
    var ordered := Shuffled(photos, key);
    assignments := [];
    for ordinal := 0 to |ordered|
      invariant assignments == Deal(ordered, stratum, folds)[..ordinal]
    {
      assignments := assignments + [ItemFor(ordered[ordinal], ordinal % folds, stratum)];
    }
  }

  function DealtStrata(s: Strata, folds: int, key: string -> int): seq<Item>
    requires folds >= 2
  {
    Deal(Shuffled(s.clear, key), CLEAR, folds) + Deal(Shuffled(s.partial, key), PARTIAL, folds)
    + Deal(Shuffled(s.negative, key), NEGATIVE, folds)
  }

  lemma DealtStrataAreAll(s: Strata, images: seq<Image>, role: string, folds: int, key: string -> int)
    requires folds >= 2 && IsStratified(s, Filter(RoleIs(role), images))
    ensures DealtStrata(s, folds, key) == AllDealt(images, role, folds, key)
  {
  }

  method DealAll(s: Strata, folds: int, key: string -> int) returns (items: seq<Item>)
    requires folds >= 2
    ensures items == DealtStrata(s, folds, key)
  {
    var clear := DealStratum(s.clear, CLEAR, folds, key);
    var partial := DealStratum(s.partial, PARTIAL, folds, key);
    var negative := DealStratum(s.negative, NEGATIVE, folds, key);
    items := clear + partial + negative;
  }

  lemma StrataDecide(s: Strata, images: seq<Image>, role: string)
    requires IsStratified(s, Filter(RoleIs(role), images)) && AllStratified(images, role)
    ensures Assignable(images, role) == (s.clear != [] && s.partial != [] && s.negative != [])
  {
    assert CLEAR in STRATA && PARTIAL in STRATA && NEGATIVE in STRATA;
  }

  lemma EmptyRole(images: seq<Image>, role: string)
    requires Filter(RoleIs(role), images) == []
    ensures !Assignable(images, role)
  {
    assert CLEAR in STRATA && OfStratum(images, role, CLEAR) == [];
  }

  lemma StratifiedRecords(images: seq<Image>, role: string)
    ensures var records := Filter(RoleIs(role), images);
            AllStratified(images, role) == HaveStrata(records)
  {
    var records := Filter(RoleIs(role), images);
    assert forall im | im in images && im.role == role :: RoleIs(role)(im) && im in records;
    assert forall i | 0 <= i < |records| :: records[i] in records;
  }

  method AssignRole(images: seq<Image>, folds: int, role: string, key: string -> int)
    returns (r: Result<seq<Item>, FoldError>)
    requires folds >= 2
    ensures r.Success? == Assignable(images, role)
    ensures r.Success? ==> r.value == Assigned(images, role, folds, key)
  {
    var records := Filter(RoleIs(role), images);
    StratifiedRecords(images, role);
    if records == [] {
      EmptyRole(images, role);
      return Failure(NoRecords);
    }
    var strata := Stratify(records);
    if strata.None? {
      assert !AllStratified(images, role);
      return Failure(TwoObjects);
    }
    StrataDecide(strata.value, images, role);
    if strata.value.clear == [] || strata.value.partial == [] || strata.value.negative == [] {
      return Failure(MissingStratum);
    }
    var dealt := DealAll(strata.value, folds, key);
    DealtStrataAreAll(strata.value, images, role, folds, key);
    return Success(InHashOrder(dealt));
  }

  // Building succeeds exactly for certified labels, two folds or more, a seed, and a
  // role holding every stratum and no photo with two objects.
  method BuildFoldDocument(labels: Document, folds: int, seed: string, role: string, key: string -> int)
    returns (out: Result<FoldDocument, FoldError>)
    ensures out.Success? <==> CanBuild(labels, folds, seed, role)
    ensures out.Success? ==> out.value == FoldsFor(labels, folds, seed, role, key)
  {
    var checked := ValidateLabels(labels, true, true);
    if checked.Failure? {
      return Failure(LabelsRejected(checked.error));
    }
    if folds < 2 {
      return Failure(TooFewFolds);
    }
    if seed == "" {
      return Failure(EmptySeed);
    }
    var assignments := AssignRole(labels.images, folds, role, key);
    if assignments.Failure? {
      return Failure(assignments.error);
    }
    return Success(FoldDocument(FOLD_SCHEMA, labels, assignments.value, role, GROUPING, seed, folds, assignments.value,
                                CountsOf(assignments.value, folds)));
  }

  // ---- source_hashes and select_records ----

  function SourceHashes(items: seq<Item>, fold: int, heldOut: bool): set<string> {
    set x | x in items && ((x.fold == fold) == heldOut) :: x.sourceSha256
  }

  method SelectSourceHashes(d: FoldDocument, fold: int, heldOut: bool) returns (out: Result<set<string>, FoldError>)
    ensures out.Success? <==> ValidLock(d) && 0 <= fold < d.foldCount
    ensures out.Success? ==> out.value == SourceHashes(d.assignments, fold, heldOut)
  {
    var valid := ValidateFoldDocument(d, None, None);
    if valid.Failure? {
      return Failure(valid.error);
    }
    if !(0 <= fold < d.foldCount) {
      return Failure(FoldOutOfRange);
    }
    return Success(SourceHashes(d.assignments, fold, heldOut));
  }

  function RoleHashes(images: seq<Image>, role: string): set<string> {
    set im | im in images && im.role == role :: im.sourceSha256
  }

  // A photo is on the held-out side of a split exactly when the split is its fold's.
  lemma SideOfSplit(items: seq<Item>, x: Item, fold: int, heldOut: bool)
    requires DistinctItems(items) && x in items
    ensures x.sourceSha256 in SourceHashes(items, fold, heldOut) <==> ((x.fold == fold) == heldOut)
  {
    if x.sourceSha256 in SourceHashes(items, fold, heldOut) {
      var y :| y in items && ((y.fold == fold) == heldOut) && y.sourceSha256 == x.sourceSha256;
      var i :| 0 <= i < |items| && items[i] == x;
      var j :| 0 <= j < |items| && items[j] == y;
      assert i == j;
    }
  }

  lemma CoveredHashes(items: seq<Item>, images: seq<Image>, role: string, h: string)
    requires Covers(items, images, role)
    ensures h in RoleHashes(images, role) <==> exists x :: x in items && x.sourceSha256 == h
  {
    if x :| x in items && x.sourceSha256 == h {
      var i :| 0 <= i < |items| && items[i] == x;
      assert Matches(items[i], images, role);
    }
  }

  // For every fold, held-out and training photos partition the role,
  lemma SplitPartitionsRole(d: FoldDocument, labels: Document, fold: int, h: string)
    requires ValidLock(d) && BoundTo(d, labels)
    ensures var held, training := SourceHashes(d.assignments, fold, true), SourceHashes(d.assignments, fold, false);
            && (h in RoleHashes(labels.images, d.role) <==> h in held || h in training)
            && !(h in held && h in training)
  {
    CoveredHashes(d.assignments, labels.images, d.role, h);
    if x :| x in d.assignments && x.sourceSha256 == h {
      SideOfSplit(d.assignments, x, fold, true);
      SideOfSplit(d.assignments, x, fold, false);
    }
  }

  // and each photo of the role is held out by exactly one fold.
  lemma HeldOutByOneFold(items: seq<Item>, folds: int, images: seq<Image>, role: string, im: Image) returns (f: int)
    requires ValidItems(items, folds) && Covers(items, images, role) && im in images && im.role == role
    ensures 0 <= f < folds && HeldOutOnlyBy(items, f, im.sourceSha256)
  {
    var x :| x in items && x.sourceSha256 == im.sourceSha256;
    var i :| 0 <= i < |items| && items[i] == x;
    assert ValidItem(items[i], folds);
    f := x.fold;
    OnlyItsFold(items, x);
  }

  lemma OnlyItsFold(items: seq<Item>, x: Item)
    requires DistinctItems(items) && x in items
    ensures HeldOutOnlyBy(items, x.fold, x.sourceSha256)
  {
    forall g
      ensures x.sourceSha256 in SourceHashes(items, g, true) <==> g == x.fold
    {
      SideOfSplit(items, x, g, true);
    }
  }

  ghost predicate HeldOutOnlyBy(items: seq<Item>, f: int, hash: string) {
    forall g :: hash in SourceHashes(items, g, true) <==> g == f
  }

  // The certified label document has a record for every held-out photo.
  lemma OwnRecordsSuffice(d: FoldDocument, labels: Document, fold: int, h: string)
    requires ValidLock(d) && BoundTo(d, labels) && h in SourceHashes(d.assignments, fold, true)
    ensures exists im :: im in labels.images && im.sourceSha256 == h
  {
    CoveredHashes(d.assignments, labels.images, d.role, h);
  }

  function HashIn(hashes: set<string>): Image -> bool {
    (im: Image) => im.sourceSha256 in hashes
  }

  // The records of the held-out photos, in the order given; a photo without a record
  // is refused.
  method SelectRecords(records: seq<Image>, d: FoldDocument, fold: int) returns (out: Result<seq<Image>, FoldError>)
    ensures out.Success? <==>
              && ValidLock(d) && 0 <= fold < d.foldCount
              && forall h | h in SourceHashes(d.assignments, fold, true) ::
                   exists im :: im in records && im.sourceSha256 == h
    ensures out.Success? ==> out.value == Filter(HashIn(SourceHashes(d.assignments, fold, true)), records)
  {
    var selected := SelectSourceHashes(d, fold, true);
    if selected.Failure? {
      return Failure(selected.error);
    }
    var result := Filter(HashIn(selected.value), records);
    if exists h | h in selected.value :: !exists im :: im in result && im.sourceSha256 == h {
      ghost var h :| h in selected.value && !exists im :: im in result && im.sourceSha256 == h;
      assert forall im | im in records && HashIn(selected.value)(im) :: im in result;
      return Failure(MissingRecords);
    }
    return Success(result);
  }
}
