// What the sample holds, said on the entries: how it spreads over sources and
// confidence, and the order in which it is shown.
module QaSpread {
  import opened Arithmetic
  import opened Outcomes
  import opened Sorting
  import opened Text
  import opened Labels
  import opened Reviews
  import opened QaSample
  import H = HardNegatives

  // ---- The display order ----

  // The place of a photo: its last row in the manifest, or the number of photos listed.
  ghost predicate PlacedAt(images: seq<Image>, hash: string, n: nat) {
    || (n < |images| && images[n].sourceSha256 == hash
        && forall k | n < k < |images| :: images[k].sourceSha256 != hash)
    || ((forall im | im in images :: im.sourceSha256 != hash)
        && n == |set im | im in images :: im.sourceSha256|)
  }

  // Photos in manifest order; within one, detections before clean tiles, strong
  // detections before weak ones, then rows, columns and ids.
  ghost predicate ShownUpTo(a: Entry, m: nat, b: Entry, n: nat, setup: H.Setup)
    requires |a.tileXyxy| == 4 && |b.tileXyxy| == 4
  {
    if m != n then m < n
    else if a.source != b.source then StringLe(a.source, b.source)
    else if a.kind != b.kind then a.kind == BASELINE
    else if a.baselineConfidence != b.baselineConfidence then
      a.baselineConfidence.Some? && b.baselineConfidence.Some? ==>
        a.baselineConfidence.value > b.baselineConfidence.value
    else if a.tileXyxy[1] != b.tileXyxy[1] then a.tileXyxy[1] < b.tileXyxy[1]
    else if a.tileXyxy[0] != b.tileXyxy[0] then a.tileXyxy[0] < b.tileXyxy[0]
    else setup.ofId(a.id) <= setup.ofId(b.id)
  }

  lemma KeyReads(a: Entry, b: Entry, images: seq<Image>, setup: H.Setup, tile: int, m: nat, n: nat)
    requires ValidEntry(a, tile) && ValidEntry(b, tile) && KeyLe(KeyOf(a, images, setup), KeyOf(b, images, setup))
    requires m == SourceOrder(images, a.sourceSha256) && n == SourceOrder(images, b.sourceSha256)
    ensures PlacedAt(images, a.sourceSha256, m) && PlacedAt(images, b.sourceSha256, n) && ShownUpTo(a, m, b, n, setup)
  {
  }

  ghost predicate Within(indices: seq<nat>, entries: seq<Entry>) {
    forall k | 0 <= k < |indices| :: indices[k] < |entries|
  }

  ghost predicate IsShownBefore(a: Entry, b: Entry, images: seq<Image>, setup: H.Setup) {
    && |a.tileXyxy| == 4 && |b.tileXyxy| == 4
    && exists m: nat, n: nat ::
         PlacedAt(images, a.sourceSha256, m) && PlacedAt(images, b.sourceSha256, n) && ShownUpTo(a, m, b, n, setup)
  }

  ghost predicate IsShownInOrder(entries: seq<Entry>, images: seq<Image>, setup: H.Setup, order: seq<nat>) {
    && IsOrderOf(order, |entries|) && Within(order, entries)
    && forall i, j | 0 <= i < j < |order| :: IsShownBefore(entries[order[i]], entries[order[j]], images, setup)
  }

  lemma DisplayIsShownInOrder(r: Review, images: seq<Image>, setup: H.Setup)
    requires ValidReview(r, false)
    ensures IsShownInOrder(r.entries, images, setup, DisplayIndices(r.entries, images, setup))
  {
    var order, keys := DisplayIndices(r.entries, images, setup), Keys(r.entries, images, setup);
    DisplayIsAnOrder(r.entries, images, setup);
    forall i | 0 <= i < |order|
      ensures order[i] < |r.entries|
    {
      assert order[i] in order;
    }
    forall i, j | 0 <= i < j < |order|
      ensures IsShownBefore(r.entries[order[i]], r.entries[order[j]], images, setup)
    {
      var a, b := r.entries[order[i]], r.entries[order[j]];
      assert ByKey(keys)(order[i], order[j]);
      KeyReads(a, b, images, setup, r.tilePx,
               SourceOrder(images, a.sourceSha256), SourceOrder(images, b.sourceSha256));
    }
  }

  // ---- The pools and the picks ----

  predicate IsFresh(e: Entry, kind: string, avoid: set<string>) {
    e.confirmation == "pending" && e.kind == kind && e.sourceSha256 !in avoid
  }

  ghost function FreshSources(entries: seq<Entry>, kind: string, avoid: set<string>): set<string> {
    set e | e in entries && IsFresh(e, kind, avoid) :: e.sourceSha256
  }

  // a may stand for its source: no weaker than b, or no later.
  ghost predicate StandsFor(a: Entry, b: Entry, kind: string, setup: H.Setup) {
    if kind != BASELINE then setup.ofId(a.id) <= setup.ofId(b.id)
    else
      a.baselineConfidence.Some? && b.baselineConfidence.Some? ==>
        var c, d := a.baselineConfidence.value, b.baselineConfidence.value;
        c > d || (c == d && setup.ofId(a.id) >= setup.ofId(b.id))
  }

  // Detections from the weakest up, ties and clean tiles by source.
  ghost predicate PooledUpTo(a: Entry, b: Entry, kind: string) {
    if kind == BASELINE && a.baselineConfidence != b.baselineConfidence then
      a.baselineConfidence.Some? && b.baselineConfidence.Some? ==>
        a.baselineConfidence.value < b.baselineConfidence.value
    else StringLe(a.sourceSha256, b.sourceSha256)
  }

  // One entry for each fresh source of the kind, in the order of the pool.
  ghost predicate IsPool(entries: seq<Entry>, kind: string, avoid: set<string>, setup: H.Setup, pool: seq<nat>) {
    && Within(pool, entries) && (forall k | 0 <= k < |pool| :: IsFresh(entries[pool[k]], kind, avoid))
    && (forall k, l | 0 <= k < l < |pool| ::
          entries[pool[k]].sourceSha256 != entries[pool[l]].sourceSha256
          && PooledUpTo(entries[pool[k]], entries[pool[l]], kind))
    && forall e | e in entries && IsFresh(e, kind, avoid) ::
         exists k | 0 <= k < |pool| ::
           entries[pool[k]].sourceSha256 == e.sourceSha256 && StandsFor(entries[pool[k]], e, kind, setup)
  }

  // The midpoint of the rank-th of count equal shares of n places.
  ghost predicate IsMidpoint(p: nat, rank: nat, count: nat, n: nat) {
    2 * count * p <= (2 * rank + 1) * n < 2 * count * (p + 1)
  }

  ghost predicate IsMiddlePick(pool: seq<nat>, picks: seq<nat>, r: nat)
    requires r < |picks|
  {
    exists p: nat :: p < |pool| && picks[r] == pool[p] && IsMidpoint(p, r, |picks|, |pool|)
  }

  // As many as asked for or there are, one from the middle of each equal share.
  ghost predicate IsSpaced(pool: seq<nat>, count: nat, picks: seq<nat>) {
    && |picks| == Min(count, |pool|)
    && forall r | 0 <= r < |picks| :: IsMiddlePick(pool, picks, r)
  }

  // Besides the chosen, only the first ones of the display order.
  ghost predicate IsFilledUp(sample: seq<nat>, full: seq<nat>, chosen: seq<nat>) {
    && (forall i | i in chosen :: i in sample)
    && forall k, l | 0 <= k < l < |full| :: full[l] in sample && full[l] !in chosen ==> full[k] in sample
  }

  datatype Spreading = Spreading(detections: seq<nat>, picks: seq<nat>, cleans: seq<nat>, controls: seq<nat>)

  // The detections come from distinct new sources, the controls from further ones.
  ghost predicate ArePicks(entries: seq<Entry>, seen: set<string>, needed: nat, setup: H.Setup, s: Spreading) {
    && IsPool(entries, BASELINE, seen, setup, s.detections)
    && IsSpaced(s.detections, BaselineTarget(needed), s.picks) && |s.picks| <= needed
    && IsPool(entries, CLEAN, seen + Sources(entries, s.picks), setup, s.cleans)
    && IsSpaced(s.cleans, needed - |s.picks|, s.controls)
  }

  // The sample keeps the decided entries, takes these picks, and fills up in display order.
  ghost predicate IsSpread(sample: seq<nat>, entries: seq<Entry>, full: seq<nat>, decided: seq<nat>, needed: nat,
                           setup: H.Setup, s: Spreading) {
    && ArePicks(entries, Sources(entries, decided), needed, setup, s)
    && IsFilledUp(sample, full, decided + (s.picks + s.controls))
  }

  lemma PooledIsFresh(entries: seq<Entry>, full: seq<nat>, kind: string, avoid: set<string>, setup: H.Setup, k: nat)
    requires k < |OnePerSource(entries, full, kind, avoid, setup)|
    ensures var i := OnePerSource(entries, full, kind, avoid, setup)[k];
            i < |entries| && IsFresh(entries[i], kind, avoid)
  {
    OnePerSourceRepresents(entries, full, kind, avoid, setup);
    assert OnePerSource(entries, full, kind, avoid, setup)[k] in OnePerSource(entries, full, kind, avoid, setup);
  }

  lemma FreshIsPooled(entries: seq<Entry>, full: seq<nat>, kind: string, avoid: set<string>, setup: H.Setup, i: nat)
    returns (k: nat)
    requires IsOrderOf(full, |entries|) && i < |entries| && IsFresh(entries[i], kind, avoid)
    ensures var pool := OnePerSource(entries, full, kind, avoid, setup);
            && k < |pool| && pool[k] < |entries| && entries[pool[k]].sourceSha256 == entries[i].sourceSha256
            && StandsFor(entries[pool[k]], entries[i], kind, setup)
  {
    var pool, key := OnePerSource(entries, full, kind, avoid, setup), SourceOf(entries);
    EveryPooledIsRepresented(entries, full, kind, avoid, setup, i);
    var r :| r in pool && key(r) == key(i) && Represents(entries, kind, setup)(r, i);
    k :| 0 <= k < |pool| && pool[k] == r;
    PooledIsFresh(entries, full, kind, avoid, setup, k);
  }

  lemma PoolIsPool(entries: seq<Entry>, full: seq<nat>, kind: string, avoid: set<string>, setup: H.Setup)
    requires IsOrderOf(full, |entries|)
    ensures IsPool(entries, kind, avoid, setup, OnePerSource(entries, full, kind, avoid, setup))
  {
    var pool, key := OnePerSource(entries, full, kind, avoid, setup), SourceOf(entries);
    OnePerSourceRepresents(entries, full, kind, avoid, setup);
    forall k | 0 <= k < |pool|
      ensures pool[k] < |entries| && IsFresh(entries[pool[k]], kind, avoid)
    {
      PooledIsFresh(entries, full, kind, avoid, setup, k);
    }
    forall k, l | 0 <= k < l < |pool|
      ensures entries[pool[k]].sourceSha256 != entries[pool[l]].sourceSha256
      ensures PooledUpTo(entries[pool[k]], entries[pool[l]], kind)
    {
      assert key(pool[k]) != key(pool[l]) && PoolOrder(entries, kind)(pool[k], pool[l]);
    }
    forall e | e in entries && IsFresh(e, kind, avoid)
      ensures exists k | 0 <= k < |pool| ::
                entries[pool[k]].sourceSha256 == e.sourceSha256 && StandsFor(entries[pool[k]], e, kind, setup)
    {
      var i :| 0 <= i < |entries| && entries[i] == e;
      var k := FreshIsPooled(entries, full, kind, avoid, setup, i);
    }
  }

  lemma WholePoolIsCentred(rank: nat, n: nat)
    requires rank < n
    ensures IsMidpoint(rank, rank, n, n)
  {
    assert 2 * n * rank + n == (2 * rank + 1) * n;
    assert 2 * n * (rank + 1) == 2 * n * rank + 2 * n;
  }

  lemma SpacedIsSpaced(pool: seq<nat>, count: nat)
    ensures IsSpaced(pool, count, EvenlySpaced(pool, count))
  {
    var picks := EvenlySpaced(pool, count);
    forall r | 0 <= r < |picks|
      ensures IsMiddlePick(pool, picks, r)
    {
      if count < |pool| {
        SpacedIsCentred(r, |pool|, count);
        SpacedInside(r, |pool|, count);
        var p := SpacedAt(r, |pool|, count);
        assert p < |pool| && picks[r] == pool[p] && IsMidpoint(p, r, |picks|, |pool|);
      } else {
        WholePoolIsCentred(r, |pool|);
        assert r < |pool| && picks[r] == pool[r] && IsMidpoint(r, r, |picks|, |pool|);
      }
    }
  }

  // A pool counts the fresh sources of its kind.
  lemma PoolCountsSources(entries: seq<Entry>, kind: string, avoid: set<string>, setup: H.Setup, pool: seq<nat>)
    requires IsPool(entries, kind, avoid, setup, pool)
    ensures |pool| == |FreshSources(entries, kind, avoid)|
  {
    var key := SourceOf(entries);
    forall k, l | 0 <= k < l < |pool|
      ensures key(pool[k]) != key(pool[l])
    {
      assert entries[pool[k]].sourceSha256 != entries[pool[l]].sourceSha256;
    }
    DistinctKeysCount(key, pool);
    PoolHasSources(entries, kind, avoid, setup, pool);
  }

  lemma PoolHasSources(entries: seq<Entry>, kind: string, avoid: set<string>, setup: H.Setup, pool: seq<nat>)
    requires IsPool(entries, kind, avoid, setup, pool)
    ensures (set i | i in pool :: SourceOf(entries)(i)) == FreshSources(entries, kind, avoid)
  {
    var shown := set i | i in pool :: SourceOf(entries)(i);
    forall h | h in FreshSources(entries, kind, avoid)
      ensures h in shown
    {
      var e :| e in entries && IsFresh(e, kind, avoid) && e.sourceSha256 == h;
      var k :| 0 <= k < |pool| && entries[pool[k]].sourceSha256 == h;
      assert pool[k] in pool && SourceOf(entries)(pool[k]) == h;
    }
    forall h | h in shown
      ensures h in FreshSources(entries, kind, avoid)
    {
      var i :| i in pool && SourceOf(entries)(i) == h;
      var k :| 0 <= k < |pool| && pool[k] == i;
      assert IsFresh(entries[pool[k]], kind, avoid);
    }
  }

  lemma {:induction false} DistinctKeysCount(key: nat -> string, s: seq<nat>)
    requires DistinctBy(key, s)
    ensures |set i | i in s :: key(i)| == |s|
  {
    if s != [] {
      HeadIsUnique(key, s);
      DistinctKeysCount(key, s[1..]);
      assert (set i | i in s :: key(i)) == (set i | i in s[1..] :: key(i)) + {key(s[0])};
    }
  }

  // ---- The sample ----

  // Where a passing item of the order is found after filtering.
  lemma PlaceOf(full: seq<nat>, p: nat -> bool, l: nat) returns (place: nat)
    requires l < |full| && p(full[l])
    ensures place == |Filter(p, full[..l])| && place < |Filter(p, full)| && Filter(p, full)[place] == full[l]
  {
    place := |Filter(p, full[..l])|;
    FilterAppends(p, full[..l], full[l]);
    assert full[..l + 1] == full[..l] + [full[l]];
    FilterPrefix(p, full, l + 1);
  }

  lemma {:induction false} PlacesIncrease(full: seq<nat>, p: nat -> bool, k: nat, l: nat)
    requires k < l <= |full| && p(full[k])
    ensures |Filter(p, full[..k])| < |Filter(p, full[..l])|
  {
    if l == k + 1 {
      assert full[..l] == full[..k] + [full[k]];
      FilterAppends(p, full[..k], full[k]);
    } else {
      PlacesIncrease(full, p, k, l - 1);
      assert full[..l] == full[..l - 1] + [full[l - 1]];
      FilterAppends(p, full[..l - 1], full[l - 1]);
    }
  }

  // What the fallback adds comes before everything it leaves out.
  lemma TakenComesFirst(full: seq<nat>, p: nat -> bool, count: nat, k: nat, l: nat)
    requires DistinctBy(Itself(), full) && k < l < |full| && p(full[k]) && p(full[l])
    requires full[l] in H.Take(Filter(p, full), count)
    ensures full[k] in H.Take(Filter(p, full), count)
  {
    var early := PlaceOf(full, p, k);
    var late := PlaceOf(full, p, l);
    PlacesIncrease(full, p, k, l);
    FilterKeepsDistinct(Itself(), p, full);
    TakenByPlace(Filter(p, full), count, early, late);
  }

  lemma TakenIsEarly(rest: seq<nat>, count: nat, late: nat)
    requires DistinctBy(Itself(), rest) && late < |rest|
    ensures |H.Take(rest, count)| <= late ==> rest[late] !in H.Take(rest, count)
  {
    var taken := H.Take(rest, count);
    if |taken| <= late {
      forall j | 0 <= j < |taken|
        ensures taken[j] != rest[late]
      {
        assert Itself()(rest[j]) != Itself()(rest[late]);
      }
    }
  }

  lemma TakenByPlace(rest: seq<nat>, count: nat, early: nat, late: nat)
    requires DistinctBy(Itself(), rest) && early < late < |rest| && rest[late] in H.Take(rest, count)
    ensures rest[early] in H.Take(rest, count)
  {
    TakenIsEarly(rest, count, late);
    assert H.Take(rest, count)[early] == rest[early];
  }

  lemma EnlargedIsFilledUp(entries: seq<Entry>, full: seq<nat>, decided: seq<nat>, spread: seq<nat>, needed: nat)
    requires DistinctBy(Itself(), full) && |spread| <= needed
    requires forall i | i in decided + spread :: i in full
    ensures IsFilledUp(Enlarged(entries, full, decided, spread, needed), full, decided + spread)
  {
    var chosen, missing := decided + spread, needed - |spread|;
    var sample, p := Enlarged(entries, full, decided, spread, needed), NotIn(decided + spread);
    forall k, l | 0 <= k < l < |full| && full[l] in sample && full[l] !in chosen
      ensures full[k] in sample
    {
      if full[k] !in chosen {
        TakenComesFirst(full, p, missing, k, l);
      }
      assert full[k] in TopUp(full, chosen, missing) && full[k] in full;
    }
  }

  lemma SpreadPicks(entries: seq<Entry>, full: seq<nat>, decided: seq<nat>, needed: nat, setup: H.Setup)
    returns (s: Spreading)
    requires IsOrderOf(full, |entries|)
    ensures ArePicks(entries, Sources(entries, decided), needed, setup, s)
    ensures s.picks + s.controls == Spread(entries, full, decided, needed, setup)
  {
    var pool, picks := BasePart(entries, full, decided, needed, setup);
    var cleans, controls := CleanPart(entries, full, decided, picks, needed - |picks|, setup);
    s := Spreading(pool, picks, cleans, controls);
  }

  lemma BasePart(entries: seq<Entry>, full: seq<nat>, decided: seq<nat>, needed: nat, setup: H.Setup)
    returns (pool: seq<nat>, picks: seq<nat>)
    requires IsOrderOf(full, |entries|)
    ensures IsPool(entries, BASELINE, Sources(entries, decided), setup, pool)
    ensures IsSpaced(pool, BaselineTarget(needed), picks) && |picks| <= needed
    ensures picks == BaselinePicks(entries, full, decided, needed, setup)
  {
    pool := OnePerSource(entries, full, BASELINE, Sources(entries, decided), setup);
    picks := BaselinePicks(entries, full, decided, needed, setup);
    BaselinePicksAreFresh(entries, full, decided, needed, setup);
    PickedFromPool(entries, full, BASELINE, Sources(entries, decided), setup, BaselineTarget(needed));
  }

  lemma CleanPart(entries: seq<Entry>, full: seq<nat>, decided: seq<nat>, picks: seq<nat>, count: nat, setup: H.Setup)
    returns (pool: seq<nat>, controls: seq<nat>)
    requires IsOrderOf(full, |entries|)
    ensures IsPool(entries, CLEAN, Sources(entries, decided) + Sources(entries, picks), setup, pool)
    ensures IsSpaced(pool, count, controls) && controls == CleanPicks(entries, full, decided, picks, count, setup)
  {
    var avoid := Sources(entries, decided) + Sources(entries, picks);
    pool := OnePerSource(entries, full, CLEAN, avoid, setup);
    controls := CleanPicks(entries, full, decided, picks, count, setup);
    PickedFromPool(entries, full, CLEAN, avoid, setup, count);
  }

  lemma PickedFromPool(
    entries: seq<Entry>, full: seq<nat>, kind: string, avoid: set<string>, setup: H.Setup, count: nat)
    requires IsOrderOf(full, |entries|)
    ensures var pool := OnePerSource(entries, full, kind, avoid, setup);
            IsPool(entries, kind, avoid, setup, pool) && IsSpaced(pool, count, EvenlySpaced(pool, count))
  {
    PoolIsPool(entries, full, kind, avoid, setup);
    SpacedIsSpaced(OnePerSource(entries, full, kind, avoid, setup), count);
  }

  lemma SampleIsSpread(entries: seq<Entry>, full: seq<nat>, decided: seq<nat>, qaSize: nat, setup: H.Setup)
    returns (s: Spreading)
    requires IsOrderOf(full, |entries|) && IsDecided(decided, entries, full) && |decided| < qaSize <= |full|
    ensures IsSpread(Sample(entries, full, decided, qaSize, setup),
                     entries, full, decided, qaSize - |decided|, setup, s)
  {
    var needed := qaSize - |decided|;
    var spread := Spread(entries, full, decided, needed, setup);
    s := SpreadPicks(entries, full, decided, needed, setup);
    SpreadIsFresh(entries, full, decided, needed, setup);
    DecidedAndSpread(entries, full, decided, spread);
    EnlargedIsFilledUp(entries, full, decided, spread, needed);
  }

  // How many detections and controls the sample takes from fresh sources.
  lemma SpreadCounts(sample: seq<nat>, entries: seq<Entry>, full: seq<nat>, decided: seq<nat>, needed: nat,
                     setup: H.Setup, s: Spreading)
    requires IsSpread(sample, entries, full, decided, needed, setup, s)
    ensures var seen := Sources(entries, decided);
            && |s.picks| == Min(BaselineTarget(needed), |FreshSources(entries, BASELINE, seen)|)
            && |s.controls| == Min(needed - |s.picks|,
                                   |FreshSources(entries, CLEAN, seen + Sources(entries, s.picks))|)
            && (forall i | i in decided + (s.picks + s.controls) :: i in sample)
  {
    var seen := Sources(entries, decided);
    PoolCountsSources(entries, BASELINE, seen, setup, s.detections);
    PoolCountsSources(entries, CLEAN, seen + Sources(entries, s.picks), setup, s.cleans);
  }

  ghost predicate SpreadsOver(
    sample: seq<nat>, entries: seq<Entry>, full: seq<nat>, decided: seq<nat>, needed: nat, setup: H.Setup)
  {
    exists s :: IsSpread(sample, entries, full, decided, needed, setup, s)
  }

  // No size, or a size the pool does not exceed, shows everything; a size the decisions
  // reach shows them; any other is spread over the sources nobody has looked at.
  ghost predicate IsDisplay(
    entries: seq<Entry>, images: seq<Image>, qaSize: Option<int>, setup: H.Setup, sample: seq<nat>)
  {
    var full := DisplayIndices(entries, images, setup);
    var decided := Filter(Decided(entries), full);
    && IsShownInOrder(entries, images, setup, full)
    && IsSample(sample, entries, full,
                if qaSize.None? || qaSize.value >= |full| then |full| else Max(qaSize.value, |decided|))
    && (qaSize.Some? && |decided| < qaSize.value < |full| ==>
          SpreadsOver(sample, entries, full, decided, qaSize.value - |decided|, setup))
  }

  method QaDisplayIndices(r: Review, labels: Document, qaSize: Option<int>, setup: H.Setup)
    returns (out: Result<seq<nat>, QaError>)
    ensures out.Success? <==>
              ValidReview(r, false) && (qaSize.Some? && qaSize.value < |r.entries| ==> qaSize.value >= 1)
    ensures out.Success? ==> IsDisplay(r.entries, labels.images, qaSize, setup, out.value)
  {
    var valid := ValidateReview(r, false);
    if valid.Failure? {
      return Failure(ReviewInvalid);
    }
    var full := DisplayIndices(r.entries, labels.images, setup);
    DisplayIsShownInOrder(r, labels.images, setup);
    if qaSize.None? || qaSize.value >= |full| {
      EverythingIsASample(r.entries, full);
      return Success(full);
    }
    if qaSize.value < 1 {
      return Failure(QaSizeNotPositive);
    }
    var decided := Filter(Decided(r.entries), full);
    DecidedIsDecided(r.entries, full);
    if qaSize.value <= |decided| {
      DecidedIsSample(r.entries, full, decided);
    } else {
      SampleIsExact(r.entries, full, decided, qaSize.value, setup);
      ghost var s := SampleIsSpread(r.entries, full, decided, qaSize.value, setup);
    }
    return Success(Sample(r.entries, full, decided, qaSize.value, setup));
  }
}
