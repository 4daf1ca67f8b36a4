// propose: negative training tiles taken only from certified, unannotated parts
// of photos.
module HardNegatives {
  import opened Arithmetic
  import opened Outcomes
  import opened Sorting
  import opened Labels
  import opened Reviews
  import M = Merge
  import T = Tiles

  const MAX_BASELINE_PER_PHOTO := 8
  const CLEAN_PER_PHOTO := 2
  const TRAINING_ROLES: set<string> := {"training_candidate", "hard_negative_pool"}
  const POLICY := Policy(MIN_CONFIDENCE, MAX_BASELINE_PER_PHOTO, CLEAN_PER_PHOTO, false, TRAINING_ROLES, {"certified"})

  type Origin = (int, int)

  // What a proposal depends on besides the two documents: where they are stored, and
  // the order of digests, which nobody chooses, so that any ranking will do.
  datatype Setup = Setup(labelsPath: string, baselinePath: string, ofId: Id -> int, ofOrigin: (string, Origin) -> int)

  // ---- Tiles and annotations ----

  function BoxOf(xyxy: seq<real>): M.Box {
    if |xyxy| == 4 then M.Box(xyxy[0], xyxy[1], xyxy[2], xyxy[3], 1.0, 0, 0) else M.Box(0.0, 0.0, 0.0, 0.0, 1.0, 0, 0)
  }

  // The part of a tile that holds real source pixels.
  function TileRect(o: Origin, tile: int, im: Image): M.Box {
    M.Box(o.0 as real, o.1 as real, Min(o.0 + tile, im.width) as real, Min(o.1 + tile, im.height) as real, 1.0, 0, 0)
  }

  predicate Intersects(rect: M.Box, im: Image) {
    || (exists a | a in im.objects :: M.Intersection(rect, BoxOf(a.xyxy)) > 0.0)
    || (exists r | r in im.ignoreRegions :: M.Intersection(rect, BoxOf(r.xyxy)) > 0.0)
  }

  predicate Clear(im: Image, tile: int, o: Origin) {
    !Intersects(TileRect(o, tile, im), im)
  }

  predicate Eligible(im: Image) {
    im.role in TRAINING_ROLES && im.reviewState == "certified"
  }

  // ---- The strongest candidate of each tile ----

  datatype Strong = Strong(origin: Origin, confidence: real)

  // Raise the tile's confidence to at least this one; a new tile goes last.
  function Upsert(items: seq<Strong>, s: Strong): seq<Strong> {
    if items == [] then [s]
    else if items[0].origin == s.origin
    then
      [Strong(s.origin, if s.confidence > items[0].confidence then s.confidence else items[0].confidence)] + items[1..]
    else [items[0]] + Upsert(items[1..], s)
  }

  function Strongest(cs: seq<Candidate>): seq<Strong> {
    if cs == [] then []
    else
      var before, c := Strongest(cs[..|cs| - 1]), cs[|cs| - 1];
      if c.confidence < MIN_CONFIDENCE then before else Upsert(before, Strong((c.tileX, c.tileY), c.confidence))
  }

  predicate CandidateOk(c: Candidate, origins: seq<Origin>) {
    0.0 <= c.confidence <= 1.0 && (c.confidence >= MIN_CONFIDENCE ==> (c.tileX, c.tileY) in origins)
  }

  ghost predicate DistinctOrigins(items: seq<Strong>) {
    forall i, j | 0 <= i < j < |items| :: items[i].origin != items[j].origin
  }

  ghost predicate AllAtLeast(items: seq<Strong>) {
    forall i | 0 <= i < |items| :: items[i].confidence >= MIN_CONFIDENCE
  }

  lemma {:induction false} UpsertKeeps(items: seq<Strong>, s: Strong)
    requires DistinctOrigins(items) && AllAtLeast(items) && s.confidence >= MIN_CONFIDENCE
    ensures DistinctOrigins(Upsert(items, s)) && AllAtLeast(Upsert(items, s))
    ensures forall t | t in Upsert(items, s) :: t.origin == s.origin || exists u :: u in items && u.origin == t.origin
  {
    if items != [] && items[0].origin != s.origin {
      UpsertKeeps(items[1..], s);
      var rest := Upsert(items[1..], s);
      forall i | 0 <= i < |rest|
        ensures rest[i].origin != items[0].origin
      {
        assert rest[i] in rest;
      }
    }
  }

  lemma {:induction false} StrongestKeeps(cs: seq<Candidate>)
    ensures DistinctOrigins(Strongest(cs)) && AllAtLeast(Strongest(cs))
  {
    if cs != [] {
      var c := cs[|cs| - 1];
      StrongestKeeps(cs[..|cs| - 1]);
      if c.confidence >= MIN_CONFIDENCE {
        UpsertKeeps(Strongest(cs[..|cs| - 1]), Strong((c.tileX, c.tileY), c.confidence));
      }
    }
  }

  predicate Offers(c: Candidate, s: Strong) {
    (c.tileX, c.tileY) == s.origin && MIN_CONFIDENCE <= c.confidence <= s.confidence
  }

  ghost predicate Offered(cs: seq<Candidate>, s: Strong) {
    exists c :: c in cs && Offers(c, s) && c.confidence == s.confidence
  }

  ghost predicate Represented(c: Candidate, items: seq<Strong>) {
    exists s :: s in items && Offers(c, s)
  }

  lemma {:induction false} UpsertTakesMax(items: seq<Strong>, s: Strong)
    ensures exists t :: t in Upsert(items, s) && t.origin == s.origin && t.confidence >= s.confidence
    ensures forall u | u in items ::
              exists t :: t in Upsert(items, s) && t.origin == u.origin && t.confidence >= u.confidence
    ensures forall t | t in Upsert(items, s) :: t in items || t == s
  {
    var after := Upsert(items, s);
    if items == [] {
      assert after[0] == s;
    } else if items[0].origin == s.origin {
      assert after[0] in after && forall u | u in items[1..] :: u in after;
      assert forall u | u in items :: u == items[0] || u in items[1..];
    } else {
      UpsertTakesMax(items[1..], s);
      assert after[0] in after && forall u | u in after[1..] :: u in after;
      assert forall u | u in items :: u == items[0] || u in items[1..];
    }
  }

  lemma UpsertKeepsOffer(items: seq<Strong>, s: Strong, u: Strong, c: Candidate) returns (t: Strong)
    requires (u in items || u == s) && Offers(c, u)
    ensures t in Upsert(items, s) && Offers(c, t)
  {
    UpsertTakesMax(items, s);
    t :| t in Upsert(items, s) && t.origin == u.origin && t.confidence >= u.confidence;
  }

  // Per tile, the strongest candidate of at least 0.10: no candidate is missing
  // or understated,
  lemma {:induction false} CandidateIsRepresented(cs: seq<Candidate>, c: Candidate) returns (t: Strong)
    requires c in cs && c.confidence >= MIN_CONFIDENCE
    ensures t in Strongest(cs) && Offers(c, t)
  {
    var front, last := cs[..|cs| - 1], cs[|cs| - 1];
    var s := Strong((last.tileX, last.tileY), last.confidence);
    if c in front {
      t := CandidateIsRepresented(front, c);
      if last.confidence >= MIN_CONFIDENCE {
        t := UpsertKeepsOffer(Strongest(front), s, t, c);
      }
    } else {
      t := UpsertKeepsOffer(Strongest(front), s, s, c);
    }
  }

  // and no confidence is made up.
  lemma {:induction false} StrongestIsOffered(cs: seq<Candidate>, t: Strong)
    requires t in Strongest(cs)
    ensures Offered(cs, t)
  {
    var front, last := cs[..|cs| - 1], cs[|cs| - 1];
    if t in Strongest(front) {
      StrongestIsOffered(front, t);
      var c :| c in front && Offers(c, t) && c.confidence == t.confidence;
      assert c in cs;
    } else {
      UpsertTakesMax(Strongest(front), Strong((last.tileX, last.tileY), last.confidence));
      assert last in cs && Offers(last, t);
    }
  }

  // Strongest first; equal confidence by row, then column.
  predicate StrongLe(a: Strong, b: Strong) {
    if a.confidence != b.confidence then a.confidence > b.confidence
    else if a.origin.1 != b.origin.1 then a.origin.1 < b.origin.1
    else a.origin.0 <= b.origin.0
  }

  lemma StrongLeIsRanking()
    ensures IsRanking(StrongLe)
  {
  }

  // ---- Selecting tiles ----

  function Take<A>(s: seq<A>, n: nat): seq<A> {
    if |s| <= n then s else s[..n]
  }

  lemma FirstReached<A(!new)>(items: seq<A>, pass: A -> bool, limit: nat, n: nat)
    requires n <= |items| && |Filter(pass, items[..n])| == limit
    ensures Filter(pass, items[..n]) == Take(Filter(pass, items), limit)
  {
    FilterPrefix(pass, items, n);
  }

  // The selection loops: the first `limit` items that pass.
  method SelectFirst<A(!new)>(items: seq<A>, pass: A -> bool, limit: nat) returns (chosen: seq<A>)
    requires limit > 0
    ensures chosen == Take(Filter(pass, items), limit)
  {
    chosen := [];
    for i := 0 to |items|
      invariant chosen == Filter(pass, items[..i]) && |chosen| < limit
    {
      FilterAppends(pass, items[..i], items[i]);
      assert items[..i + 1] == items[..i] + [items[i]];
      if pass(items[i]) {
        chosen := chosen + [items[i]];
        if |chosen| == limit {
          FirstReached(items, pass, limit, i + 1);
          return;
        }
      }
    }
    assert items[..|items|] == items;
  }

  function OriginOf(): Strong -> Origin {
    (s: Strong) => s.origin
  }

  function ClearStrong(im: Image, tile: int): Strong -> bool {
    (s: Strong) => Clear(im, tile, s.origin)
  }

  function Unused(im: Image, tile: int, used: seq<Origin>): Origin -> bool {
    (o: Origin) => o !in used && Clear(im, tile, o)
  }

  function ByDigest(setup: Setup, source: string): (Origin, Origin) -> bool {
    (a: Origin, b: Origin) => setup.ofOrigin(source, a) <= setup.ofOrigin(source, b)
  }

  lemma ByDigestIsRanking(setup: Setup, source: string)
    ensures IsRanking(ByDigest(setup, source))
  {
  }

  function BaselineChoice(im: Image, tile: int, cs: seq<Candidate>): seq<Strong> {
    StrongLeIsRanking();
    Take(Filter(ClearStrong(im, tile), SortBy(StrongLe, Strongest(cs))), MAX_BASELINE_PER_PHOTO)
  }

  function CleanChoice(im: Image, tile: int, origins: seq<Origin>, used: seq<Origin>, setup: Setup): seq<Origin> {
    ByDigestIsRanking(setup, im.sourceSha256);
    Take(Filter(Unused(im, tile, used), SortBy(ByDigest(setup, im.sourceSha256), origins)), CLEAN_PER_PHOTO)
  }

  function EntryFor(im: Image, o: Origin, tile: int, kind: string, confidence: Option<real>): Entry {
    Entry(CandidateId(im.sourceSha256, o.0, o.1, tile), im.source, im.sourceSha256, im.captureGroup, im.role,
          [o.0, o.1, o.0 + tile, o.1 + tile], kind, confidence, "pending")
  }

  function Mapped<A, B>(f: A -> B, s: seq<A>): (r: seq<B>)
    ensures |r| == |s| && forall i | 0 <= i < |r| :: r[i] == f(s[i])
  {
    seq(|s|, i requires 0 <= i < |s| => f(s[i]))
  }

  // Both choices take tiles of the grid only, and give a detection the confidence
  // some candidate of its tile really had.
  lemma ChosenTilesAreOnGrid(im: Image, tile: int, cs: seq<Candidate>, origins: seq<Origin>, used: seq<Origin>,
                             setup: Setup)
    requires forall c | c in cs :: CandidateOk(c, origins)
    ensures forall s | s in BaselineChoice(im, tile, cs) :: s.origin in origins && Offered(cs, s)
    ensures forall o | o in CleanChoice(im, tile, origins, used, setup) :: o in origins
  {
    forall s | s in BaselineChoice(im, tile, cs)
      ensures s.origin in origins && Offered(cs, s)
    {
      BaselineComesFromStrongest(im, tile, cs, s);
      StrongestIsOffered(cs, s);
    }
    ByDigestIsRanking(setup, im.sourceSha256);
    SameElements(origins, SortBy(ByDigest(setup, im.sourceSha256), origins));
  }

  lemma BaselineComesFromStrongest(im: Image, tile: int, cs: seq<Candidate>, s: Strong)
    requires s in BaselineChoice(im, tile, cs)
    ensures s in Strongest(cs)
  {
    StrongLeIsRanking();
    SameElements(Strongest(cs), SortBy(StrongLe, Strongest(cs)));
  }

  function StrongEntry(im: Image, tile: int): Strong -> Entry {
    (s: Strong) => EntryFor(im, s.origin, tile, BASELINE, Some(s.confidence))
  }

  function CleanEntry(im: Image, tile: int): Origin -> Entry {
    (o: Origin) => EntryFor(im, o, tile, CLEAN, None)
  }

  // The proposal entries of one photo: strongest detections, then clean tiles.
  function PhotoEntries(im: Image, cs: seq<Candidate>, origins: seq<Origin>, tile: int, setup: Setup): seq<Entry> {
    var strong := BaselineChoice(im, tile, cs);
    var clean := CleanChoice(im, tile, origins, Mapped(OriginOf(), strong), setup);
    Mapped(StrongEntry(im, tile), strong) + Mapped(CleanEntry(im, tile), clean)
  }

  // ---- What a proposed entry is ----

  // A pending, valid entry for a tile of this photo that touches no annotation.
  ghost predicate SoundFor(e: Entry, im: Image, tile: int) {
    && ValidEntry(e, tile) && e.confirmation == "pending"
    && e.source == im.source && e.sourceSha256 == im.sourceSha256
    && e.captureGroup == im.captureGroup && e.role == im.role && |e.tileXyxy| == 4
    && Clear(im, tile, (e.tileXyxy[0], e.tileXyxy[1]))
  }

  function IdOf(): Entry -> Id {
    (e: Entry) => e.id
  }

  function Itself(): Origin -> Origin {
    (o: Origin) => o
  }

  lemma TakeKeeps<A(!new), K>(key: A -> K, s: seq<A>, n: nat)
    requires DistinctBy(key, s)
    ensures DistinctBy(key, Take(s, n)) && |Take(s, n)| <= n && forall x | x in Take(s, n) :: x in s
  {
  }

  lemma BaselineChoiceIsSound(im: Image, tile: int, cs: seq<Candidate>)
    ensures var strong := BaselineChoice(im, tile, cs);
            && DistinctBy(OriginOf(), strong) && |strong| <= MAX_BASELINE_PER_PHOTO
            && forall i | 0 <= i < |strong| ::
                 strong[i].confidence >= MIN_CONFIDENCE && Clear(im, tile, strong[i].origin)
  {
    StrongLeIsRanking();
    StrongestKeeps(cs);
    var found := Strongest(cs);
    var sorted := SortBy(StrongLe, found);
    var clear := Filter(ClearStrong(im, tile), sorted);
    assert DistinctBy(OriginOf(), found);
    PermutationKeepsDistinct(OriginOf(), found, sorted);
    FilterKeepsDistinct(OriginOf(), ClearStrong(im, tile), sorted);
    TakeKeeps(OriginOf(), clear, MAX_BASELINE_PER_PHOTO);
    SameElements(found, sorted);
    var strong := BaselineChoice(im, tile, cs);
    forall i | 0 <= i < |strong|
      ensures strong[i].confidence >= MIN_CONFIDENCE && Clear(im, tile, strong[i].origin)
    {
      assert strong[i] in strong && strong[i] in clear && strong[i] in found;
    }
  }

  // Of ordered items, the first ones that pass come no later than any other that passes.
  lemma FirstAreLeast<A(!new)>(le: (A, A) -> bool, pass: A -> bool, items: seq<A>, n: nat, x: A)
    requires Ordered(le, items) && x in items && pass(x)
    ensures var r := Take(Filter(pass, items), n); x in r || (|r| == n && forall i | 0 <= i < |r| :: le(r[i], x))
  {
    var passed := Filter(pass, items);
    FilterKeepsOrder(le, pass, items);
    var k :| 0 <= k < |passed| && passed[k] == x;
    if k < n {
      assert Take(passed, n)[k] == x;
    }
  }

  lemma ChosenBefore(im: Image, tile: int, cs: seq<Candidate>, s: Strong)
    requires s in Strongest(cs) && Clear(im, tile, s.origin)
    ensures var chosen := BaselineChoice(im, tile, cs);
            s in chosen
            || (|chosen| == MAX_BASELINE_PER_PHOTO && forall i | 0 <= i < |chosen| :: StrongLe(chosen[i], s))
  {
    StrongLeIsRanking();
    var sorted := SortBy(StrongLe, Strongest(cs));
    SameElements(Strongest(cs), sorted);
    FirstAreLeast(StrongLe, ClearStrong(im, tile), sorted, MAX_BASELINE_PER_PHOTO, s);
  }

  // A clear tile with a candidate is chosen at the candidate's confidence or more,
  // unless eight tiles at least as confident are chosen instead.
  lemma BaselineChoiceIsBest(im: Image, tile: int, cs: seq<Candidate>, c: Candidate)
    requires c in cs && c.confidence >= MIN_CONFIDENCE && Clear(im, tile, (c.tileX, c.tileY))
    ensures var chosen := BaselineChoice(im, tile, cs);
            || Represented(c, chosen)
            || (|chosen| == MAX_BASELINE_PER_PHOTO
                && forall i | 0 <= i < |chosen| :: chosen[i].confidence >= c.confidence)
  {
    var s := CandidateIsRepresented(cs, c);
    ChosenBefore(im, tile, cs, s);
    var chosen := BaselineChoice(im, tile, cs);
    assert s in chosen ==> Represented(c, chosen);
  }

  lemma CleanChoiceIsSound(im: Image, tile: int, origins: seq<Origin>, used: seq<Origin>, setup: Setup)
    requires DistinctBy(Itself(), origins)
    ensures var clean := CleanChoice(im, tile, origins, used, setup);
            && DistinctBy(Itself(), clean) && |clean| <= CLEAN_PER_PHOTO
            && (forall i | 0 <= i < |clean| :: clean[i] !in used && Clear(im, tile, clean[i]))
            && (|clean| == CLEAN_PER_PHOTO || forall o | o in origins && o !in used && Clear(im, tile, o) :: o in clean)
  {
    ByDigestIsRanking(setup, im.sourceSha256);
    var sorted := SortBy(ByDigest(setup, im.sourceSha256), origins);
    var free := Filter(Unused(im, tile, used), sorted);
    PermutationKeepsDistinct(Itself(), origins, sorted);
    FilterKeepsDistinct(Itself(), Unused(im, tile, used), sorted);
    TakeKeeps(Itself(), free, CLEAN_PER_PHOTO);
    SameElements(origins, sorted);
    var clean := CleanChoice(im, tile, origins, used, setup);
    forall i | 0 <= i < |clean|
      ensures clean[i] !in used && Clear(im, tile, clean[i])
    {
      assert clean[i] in clean && clean[i] in free;
    }
  }

  lemma StrongEntryIsSound(im: Image, tile: int, s: Strong)
    requires |im.sourceSha256| == 64 && s.confidence >= MIN_CONFIDENCE && Clear(im, tile, s.origin)
    ensures SoundFor(StrongEntry(im, tile)(s), im, tile)
  {
  }

  lemma CleanEntryIsSound(im: Image, tile: int, o: Origin)
    requires |im.sourceSha256| == 64 && Clear(im, tile, o)
    ensures SoundFor(CleanEntry(im, tile)(o), im, tile)
  {
  }

  ghost predicate EntriesSound(entries: seq<Entry>, im: Image, tile: int) {
    forall i | 0 <= i < |entries| :: SoundFor(entries[i], im, tile)
  }

  lemma JoinedIsSound(a: seq<Entry>, b: seq<Entry>, im: Image, tile: int)
    requires EntriesSound(a, im, tile) && EntriesSound(b, im, tile)
    requires DistinctBy(IdOf(), a) && DistinctBy(IdOf(), b)
    requires forall i, j | 0 <= i < |a| && 0 <= j < |b| :: a[i].id != b[j].id
    ensures EntriesSound(a + b, im, tile) && DistinctBy(IdOf(), a + b)
  {
    forall i, j | 0 <= i < j < |a + b|
      ensures IdOf()((a + b)[i]) != IdOf()((a + b)[j])
    {
      if j < |a| {
        assert IdOf()(a[i]) != IdOf()(a[j]);
      } else if i >= |a| {
        assert IdOf()(b[i - |a|]) != IdOf()(b[j - |a|]);
      }
    }
  }

  lemma StrongEntriesAreSound(im: Image, tile: int, strong: seq<Strong>)
    requires |im.sourceSha256| == 64 && DistinctBy(OriginOf(), strong)
    requires forall i | 0 <= i < |strong| :: strong[i].confidence >= MIN_CONFIDENCE && Clear(im, tile, strong[i].origin)
    ensures var entries := Mapped(StrongEntry(im, tile), strong);
            EntriesSound(entries, im, tile) && DistinctBy(IdOf(), entries)
  {
    var entries := Mapped(StrongEntry(im, tile), strong);
    forall i | 0 <= i < |entries|
      ensures SoundFor(entries[i], im, tile)
    {
      StrongEntryIsSound(im, tile, strong[i]);
    }
    forall i, j | 0 <= i < j < |entries|
      ensures IdOf()(entries[i]) != IdOf()(entries[j])
    {
      assert OriginOf()(strong[i]) != OriginOf()(strong[j]);
    }
  }

  lemma CleanEntriesAreSound(im: Image, tile: int, clean: seq<Origin>)
    requires |im.sourceSha256| == 64 && DistinctBy(Itself(), clean)
    requires forall i | 0 <= i < |clean| :: Clear(im, tile, clean[i])
    ensures var entries := Mapped(CleanEntry(im, tile), clean);
            EntriesSound(entries, im, tile) && DistinctBy(IdOf(), entries)
  {
    var entries := Mapped(CleanEntry(im, tile), clean);
    forall i | 0 <= i < |entries|
      ensures SoundFor(entries[i], im, tile)
    {
      CleanEntryIsSound(im, tile, clean[i]);
    }
    forall i, j | 0 <= i < j < |entries|
      ensures IdOf()(entries[i]) != IdOf()(entries[j])
    {
      assert Itself()(clean[i]) != Itself()(clean[j]);
    }
  }

  lemma PhotoEntriesAreSound(im: Image, cs: seq<Candidate>, origins: seq<Origin>, tile: int, setup: Setup)
    requires DistinctBy(Itself(), origins) && |im.sourceSha256| == 64
    ensures var entries := PhotoEntries(im, cs, origins, tile, setup);
            && DistinctBy(IdOf(), entries) && |entries| <= MAX_BASELINE_PER_PHOTO + CLEAN_PER_PHOTO
            && EntriesSound(entries, im, tile)
  {
    var strong := BaselineChoice(im, tile, cs);
    var used := Mapped(OriginOf(), strong);
    var clean := CleanChoice(im, tile, origins, used, setup);
    BaselineChoiceIsSound(im, tile, cs);
    CleanChoiceIsSound(im, tile, origins, used, setup);
    StrongEntriesAreSound(im, tile, strong);
    CleanEntriesAreSound(im, tile, clean);
    var a, b := Mapped(StrongEntry(im, tile), strong), Mapped(CleanEntry(im, tile), clean);
    forall i, j | 0 <= i < |a| && 0 <= j < |b|
      ensures a[i].id != b[j].id
    {
      assert used[i] == strong[i].origin && used[i] in used;
    }
    JoinedIsSound(a, b, im, tile);
  }

  // ---- propose ----

  ghost predicate DistinctHashes(audits: seq<AuditRecord>) {
    forall i, j | 0 <= i < j < |audits| :: audits[i].sourceSha256 != audits[j].sourceSha256
  }

  function FindAudit(audits: seq<AuditRecord>, hash: string): (r: Option<AuditRecord>)
    ensures r.Some? ==> r.value in audits && r.value.sourceSha256 == hash
  {
    if audits == [] then None
    else if audits[0].sourceSha256 == hash then Some(audits[0])
    else FindAudit(audits[1..], hash)
  }

  // The candidates of one photo, or the reason the baseline cannot be used.
  function AuditFor(im: Image, audits: seq<AuditRecord>, origins: seq<Origin>): Result<seq<Candidate>, ReviewError> {
    match FindAudit(audits, im.sourceSha256)
    case None => Failure(BaselineMissing(im.source))
    case Some(a) =>
      if a.candidates.None? || a.width != im.width || a.height != im.height
         || exists c | c in a.candidates.value :: !CandidateOk(c, origins)
      then Failure(BaselineInvalid)
      else Success(a.candidates.value)
  }

  function OriginsFor(im: Image, b: Baseline): seq<Origin>
    requires ValidGeometry(b.tilePx, b.overlapPx)
  {
    T.TileOrigins(im.width, im.height, b.tilePx, b.overlapPx)
  }

  // The entries of the first photos, in manifest order.
  function Gathered(images: seq<Image>, b: Baseline, setup: Setup): Result<seq<Entry>, ReviewError>
    requires ValidGeometry(b.tilePx, b.overlapPx)
  {
    if images == [] then Success([])
    else
      var before, im := Gathered(images[..|images| - 1], b, setup), images[|images| - 1];
      if before.Failure? || !Eligible(im) then before
      else
        match AuditFor(im, b.images, OriginsFor(im, b))
        case Failure(error) => Failure(error)
        case Success(cs) => Success(before.value + PhotoEntries(im, cs, OriginsFor(im, b), b.tilePx, setup))
  }

  function ById(setup: Setup): (Entry, Entry) -> bool {
    (a: Entry, b: Entry) => setup.ofId(a.id) <= setup.ofId(b.id)
  }

  lemma ByIdIsRanking(setup: Setup)
    ensures IsRanking(ById(setup))
  {
  }

  function ProposalOf(labels: Document, b: Baseline, entries: seq<Entry>, setup: Setup): Review {
    ByIdIsRanking(setup);
    Review(REVIEW_SCHEMA, setup.labelsPath, labels, setup.baselinePath, b, POLICY, b.tilePx, b.overlapPx,
           SortBy(ById(setup), entries))
  }

  ghost predicate CanPropose(labels: Document, b: Baseline, setup: Setup) {
    && Valid(labels, true, true) && DistinctHashes(b.images)
    && ValidGeometry(b.tilePx, b.overlapPx) && b.candidateFloor <= MIN_CONFIDENCE
    && Gathered(labels.images, b, setup).Success?
  }

  // The deterministic proposal for certified labels and a baseline report.
  ghost function ProposalFor(labels: Document, b: Baseline, setup: Setup): Review
    requires CanPropose(labels, b, setup)
  {
    ProposalOf(labels, b, Gathered(labels.images, b, setup).value, setup)
  }

  ghost predicate IsProposal(labels: Document, b: Baseline, setup: Setup, r: Review) {
    CanPropose(labels, b, setup) && r == ProposalFor(labels, b, setup)
  }

  // Distinct origins along both axes make distinct tiles.
  lemma {:induction false} ProductIsDistinct(xs: seq<int>, ys: seq<int>)
    requires T.StrictlyIncreasing(xs) && T.StrictlyIncreasing(ys)
    ensures DistinctBy(Itself(), T.Product(xs, ys))
  {
    if ys != [] {
      ProductIsDistinct(xs, ys[1..]);
      var row := seq(|xs|, i requires 0 <= i < |xs| => (xs[i], ys[0]));
      var rest := T.Product(xs, ys[1..]);
      assert T.Product(xs, ys) == row + rest;
      forall k | 0 <= k < |rest|
        ensures rest[k].1 != ys[0]
      {
        assert rest[k].1 in ys[1..];
        var j :| 0 <= j < |ys[1..]| && ys[1..][j] == rest[k].1;
        assert ys[j + 1] == rest[k].1;
      }
      forall i, j | 0 <= i < j < |row + rest|
        ensures (row + rest)[i] != (row + rest)[j]
      {
      }
    }
  }

  lemma OriginsAreDistinct(im: Image, b: Baseline)
    requires ValidGeometry(b.tilePx, b.overlapPx)
    ensures DistinctBy(Itself(), OriginsFor(im, b))
  {
    if im.width > b.tilePx {
      T.AxisCovers(im.width, b.tilePx, b.overlapPx);
    }
    if im.height > b.tilePx {
      T.AxisCovers(im.height, b.tilePx, b.overlapPx);
    }
    ProductIsDistinct(T.Axis(im.width, b.tilePx, b.overlapPx), T.Axis(im.height, b.tilePx, b.overlapPx));
  }

  // Every gathered entry is sound for an eligible photo, and no two share an id.
  ghost predicate SoundIn(e: Entry, images: seq<Image>, tile: int) {
    exists i :: 0 <= i < |images| && Eligible(images[i]) && SoundFor(e, images[i], tile)
  }

  lemma {:induction false} GatheredIsSound(images: seq<Image>, b: Baseline, setup: Setup)
    requires ValidGeometry(b.tilePx, b.overlapPx) && ValidImages(images)
    requires Gathered(images, b, setup).Success?
    ensures var entries := Gathered(images, b, setup).value;
            && DistinctBy(IdOf(), entries) && (forall e | e in entries :: SoundIn(e, images, b.tilePx))
  {
    if images != [] {
      var n := |images| - 1;
      var im, before := images[n], Gathered(images[..n], b, setup).value;
      GatheredIsSound(images[..n], b, setup);
      SoundWidens(before, images, n, b.tilePx);
      if Eligible(im) {
        var cs := AuditFor(im, b.images, OriginsFor(im, b)).value;
        var more := PhotoEntries(im, cs, OriginsFor(im, b), b.tilePx, setup);
        OriginsAreDistinct(im, b);
        assert ValidImage(im);
        PhotoEntriesAreSound(im, cs, OriginsFor(im, b), b.tilePx, setup);
        assert forall e | e in more :: SoundFor(e, im, b.tilePx);
        MoreIsDistinct(images, n, before, more, b.tilePx);
      }
    }
  }

  lemma SoundWidens(entries: seq<Entry>, images: seq<Image>, n: nat, tile: int)
    requires n <= |images| && forall e | e in entries :: SoundIn(e, images[..n], tile)
    ensures forall e | e in entries :: SoundIn(e, images, tile)
  {
    forall e | e in entries
      ensures SoundIn(e, images, tile)
    {
      var i :| 0 <= i < n && Eligible(images[..n][i]) && SoundFor(e, images[..n][i], tile);
      assert SoundFor(e, images[i], tile);
    }
  }

  lemma MoreIsDistinct(images: seq<Image>, n: nat, before: seq<Entry>, more: seq<Entry>, tile: int)
    requires n < |images| && ValidImages(images)
    requires forall e | e in before :: SoundIn(e, images[..n], tile)
    requires forall e | e in more :: SoundFor(e, images[n], tile)
    requires DistinctBy(IdOf(), before) && DistinctBy(IdOf(), more)
    ensures DistinctBy(IdOf(), before + more)
  {
    forall i, j | 0 <= i < |before| && 0 <= j < |more|
      ensures before[i].id != more[j].id
    {
      assert before[i] in before && more[j] in more;
      var k :| 0 <= k < n && Eligible(images[..n][k]) && SoundFor(before[i], images[..n][k], tile);
      assert Compatible(images[k], images[n]);
    }
  }

  // A proposal is itself a valid review, all pending, of certified training photos
  // and of tiles that touch no mine and no ignore region.
  lemma ProposalIsSound(labels: Document, b: Baseline, setup: Setup, r: Review)
    requires IsProposal(labels, b, setup, r)
    ensures ValidReview(r, false)
    ensures forall e | e in r.entries :: SoundIn(e, labels.images, r.tilePx)
  {
    var entries := Gathered(labels.images, b, setup).value;
    GatheredIsSound(labels.images, b, setup);
    ByIdIsRanking(setup);
    PermutationKeepsDistinct(IdOf(), entries, r.entries);
    SameElements(entries, r.entries);
    forall i, j | 0 <= i < j < |r.entries|
      ensures r.entries[i].id != r.entries[j].id
    {
      assert IdOf()(r.entries[i]) != IdOf()(r.entries[j]);
    }
    forall i | 0 <= i < |r.entries|
      ensures ValidEntry(r.entries[i], r.tilePx)
    {
      assert r.entries[i] in entries;
    }
  }

  // _audit_records: no source hash repeats.
  method CheckAudits(audits: seq<AuditRecord>) returns (ok: bool)
    ensures ok <==> DistinctHashes(audits)
  {
    var seen: set<string> := {};
    for i := 0 to |audits|
      invariant forall h :: h in seen <==> exists j :: 0 <= j < i && audits[j].sourceSha256 == h
      invariant forall j, k | 0 <= j < k < i :: audits[j].sourceSha256 != audits[k].sourceSha256
    {
      if audits[i].sourceSha256 in seen {
        return false;
      }
      seen := seen + {audits[i].sourceSha256};
    }
    return true;
  }

  // The candidate loop of one photo.
  method ReadCandidates(cs: seq<Candidate>, origins: seq<Origin>) returns (found: Option<seq<Strong>>)
    ensures found.Some? <==> forall c | c in cs :: CandidateOk(c, origins)
    ensures found.Some? ==> found.value == Strongest(cs)
  {
    var strongest: seq<Strong> := [];
    for i := 0 to |cs|
      invariant forall c | c in cs[..i] :: CandidateOk(c, origins)
      invariant strongest == Strongest(cs[..i])
    {
      assert cs[..i + 1][..i] == cs[..i] && cs[i] in cs;
      if !CandidateOk(cs[i], origins) {
        return None;
      }
      if cs[i].confidence >= MIN_CONFIDENCE {
        strongest := Upsert(strongest, Strong((cs[i].tileX, cs[i].tileY), cs[i].confidence));
      }
    }
    assert cs[..|cs|] == cs;
    return Some(strongest);
  }

  // The entries of one photo, strongest detections before clean tiles.
  method ProposeForPhoto(im: Image, strongest: seq<Strong>, cs: seq<Candidate>, origins: seq<Origin>, tile: int,
                         setup: Setup)
    returns (entries: seq<Entry>)
    requires strongest == Strongest(cs)
    ensures entries == PhotoEntries(im, cs, origins, tile, setup)
  {
    StrongLeIsRanking();
    ByDigestIsRanking(setup, im.sourceSha256);
    var strong := SelectFirst(SortBy(StrongLe, strongest), ClearStrong(im, tile), MAX_BASELINE_PER_PHOTO);
    var used := Mapped(OriginOf(), strong);
    var ranked := SortBy(ByDigest(setup, im.sourceSha256), origins);
    var clean := SelectFirst(ranked, Unused(im, tile, used), CLEAN_PER_PHOTO);
    entries := Mapped(StrongEntry(im, tile), strong) + Mapped(CleanEntry(im, tile), clean);
  }

  lemma {:induction false} GatherStops(images: seq<Image>, i: nat, b: Baseline, setup: Setup)
    requires ValidGeometry(b.tilePx, b.overlapPx) && i <= |images| && Gathered(images[..i], b, setup).Failure?
    ensures Gathered(images, b, setup) == Gathered(images[..i], b, setup)
    decreases |images| - i
  {
    if i == |images| {
      assert images[..i] == images;
    } else {
      assert images[..i + 1][..i] == images[..i];
      GatherStops(images, i + 1, b, setup);
    }
  }

  // What one more photo adds.
  method GatherPhoto(im: Image, b: Baseline, setup: Setup) returns (r: Result<seq<Entry>, ReviewError>)
    requires ValidGeometry(b.tilePx, b.overlapPx)
    ensures var audit := AuditFor(im, b.images, OriginsFor(im, b));
            match r
            case Failure(error) => audit == Failure(error)
            case Success(entries) =>
              audit.Success? && entries == PhotoEntries(im, audit.value, OriginsFor(im, b), b.tilePx, setup)
  {
    var audit := FindAudit(b.images, im.sourceSha256);
    if audit.None? {
      return Failure(BaselineMissing(im.source));
    }
    var a := audit.value;
    if a.candidates.None? || a.width != im.width || a.height != im.height {
      return Failure(BaselineInvalid);
    }
    var origins := OriginsFor(im, b);
    var strongest := ReadCandidates(a.candidates.value, origins);
    if strongest.None? {
      return Failure(BaselineInvalid);
    }
    var entries := ProposeForPhoto(im, strongest.value, a.candidates.value, origins, b.tilePx, setup);
    return Success(entries);
  }

  // One more photo of the gathering.
  lemma GatherStep(images: seq<Image>, i: nat, b: Baseline, setup: Setup)
    requires ValidGeometry(b.tilePx, b.overlapPx) && i < |images| && Gathered(images[..i], b, setup).Success?
    ensures var before, im := Gathered(images[..i], b, setup), images[i];
            var audit := AuditFor(im, b.images, OriginsFor(im, b));
            Gathered(images[..i + 1], b, setup)
            == if !Eligible(im) then before
               else if audit.Failure? then Failure(audit.error)
               else Success(before.value + PhotoEntries(im, audit.value, OriginsFor(im, b), b.tilePx, setup))
  {
    assert images[..i + 1][..i] == images[..i] && images[..i + 1][i] == images[i];
  }

  method Gather(images: seq<Image>, b: Baseline, setup: Setup) returns (r: Result<seq<Entry>, ReviewError>)
    requires ValidGeometry(b.tilePx, b.overlapPx)
    ensures r == Gathered(images, b, setup)
  {
    var entries: seq<Entry> := [];
    for i := 0 to |images|
      invariant Gathered(images[..i], b, setup) == Success(entries)
    {
      GatherStep(images, i, b, setup);
      if Eligible(images[i]) {
        var more := GatherPhoto(images[i], b, setup);
        if more.Failure? {
          GatherStops(images, i + 1, b, setup);
          return Failure(more.error);
        }
        entries := entries + more.value;
      }
    }
    assert images[..|images|] == images;
    return Success(entries);
  }

  // propose succeeds exactly when the labels are certified and frozen and the
  // baseline covers them, and then returns the one proposal, which is valid.
  method Propose(labels: Document, b: Baseline, setup: Setup) returns (out: Result<Review, ReviewError>)
    ensures out.Success? <==> CanPropose(labels, b, setup)
    ensures out.Success? ==> IsProposal(labels, b, setup, out.value) && ValidReview(out.value, false)
  {
    var loaded := ValidateLabels(labels, true, true);
    if loaded.Failure? {
      return Failure(LabelsInvalid(loaded.error));
    }
    var distinct := CheckAudits(b.images);
    if !distinct || !ValidGeometry(b.tilePx, b.overlapPx) || b.candidateFloor > MIN_CONFIDENCE {
      return Failure(BaselineInvalid);
    }
    var entries := Gather(labels.images, b, setup);
    if entries.Failure? {
      return Failure(entries.error);
    }
    var proposal := ProposalOf(labels, b, entries.value, setup);
    ProposalIsSound(labels, b, setup, proposal);
    out := ValidateReview(proposal, false);
  }
}
