// display_indices, _evenly_spaced, qa_display_indices and resume_position: the
// compact, stable sample of review entries shown to a human.
module QaSample {
  import opened Arithmetic
  import opened Outcomes
  import opened Sorting
  import opened Text
  import opened Labels
  import opened Reviews
  import H = HardNegatives
  import T = Tiles

  datatype QaError = ReviewInvalid | QaSizeNotPositive | BadOrder

  // ---- _evenly_spaced ----

  // The position taken for one rank: the middle of that rank's share of the pool.
  function SpacedAt(rank: nat, n: nat, count: nat): nat
    requires count > 0
  {
    var a: nat := (2 * rank + 1) * n;
    a / (2 * count)
  }

  function EvenlySpaced<A>(pool: seq<A>, count: int): seq<A> {
    if count <= 0 || pool == [] then []
    else if count >= |pool| then pool
    else
      SpacedIncreases(|pool|, count);
      seq(count, rank requires 0 <= rank < count => pool[SpacedAt(rank, |pool|, count)])
  }

  lemma QuotientAdvances(a: nat, step: nat, d: nat)
    requires 0 < d <= step
    ensures (a + step) / d > a / d
  {
    var q, q' := a / d, (a + step) / d;
    assert a == q * d + a % d && a + step == q' * d + (a + step) % d;
    T.ProductsCompare(q', q, d);
  }

  lemma QuotientBelow(a: nat, n: nat, d: nat)
    requires d > 0 && a < n * d
    ensures a / d < n
  {
    assert a == (a / d) * d + a % d;
    T.ProductsCompare(n, a / d, d);
  }

  lemma SpacedSteps(rank: nat, n: nat, count: nat)
    requires 0 < count <= n
    ensures SpacedAt(rank, n, count) < SpacedAt(rank + 1, n, count)
  {
    assert (2 * (rank + 1) + 1) * n == (2 * rank + 1) * n + 2 * n;
    QuotientAdvances((2 * rank + 1) * n, 2 * n, 2 * count);
  }

  lemma {:induction false} SpacedGrows(i: nat, j: nat, n: nat, count: nat)
    requires 0 < count <= n && i < j
    ensures SpacedAt(i, n, count) < SpacedAt(j, n, count)
    decreases j
  {
    SpacedSteps(j - 1, n, count);
    if i < j - 1 {
      SpacedGrows(i, j - 1, n, count);
    }
  }

  lemma SpacedInside(rank: nat, n: nat, count: nat)
    requires rank < count <= n
    ensures SpacedAt(rank, n, count) < n
  {
    LessTimes(2 * rank + 1, 2 * count, n);
    QuotientBelow((2 * rank + 1) * n, n, 2 * count);
  }

  lemma LessTimes(x: nat, y: nat, n: nat)
    requires x < y && n > 0
    ensures x * n < n * y
  {
  }

  // Positions rise strictly and stay inside the pool, so nothing is picked twice.
  lemma SpacedIncreases(n: nat, count: nat)
    requires 0 < count <= n
    ensures forall r | 0 <= r < count :: 0 <= SpacedAt(r, n, count) < n
    ensures forall i, j | 0 <= i < j < count :: SpacedAt(i, n, count) < SpacedAt(j, n, count)
  {
    forall r | 0 <= r < count
      ensures 0 <= SpacedAt(r, n, count) < n
    {
      SpacedInside(r, n, count);
    }
    forall i, j | 0 <= i < j < count
      ensures SpacedAt(i, n, count) < SpacedAt(j, n, count)
    {
      SpacedGrows(i, j, n, count);
    }
  }

  // Each pick lies in its own equal share of the pool, at the share's midpoint.
  lemma SpacedIsCentred(rank: nat, n: nat, count: nat)
    requires rank < count <= n
    ensures var p := SpacedAt(rank, n, count); 2 * count * p <= (2 * rank + 1) * n < 2 * count * (p + 1)
  {
    var a, d := (2 * rank + 1) * n, 2 * count;
    assert a == d * (a / d) + a % d;
    assert d * (a / d + 1) == d * (a / d) + d;
  }

  lemma SpacedKeeps<A(!new), K>(key: A -> K, pool: seq<A>, count: int)
    requires DistinctBy(key, pool)
    ensures var r := EvenlySpaced(pool, count);
            && DistinctBy(key, r) && (forall x | x in r :: x in pool)
            && |r| == if count <= 0 then 0 else if count >= |pool| then |pool| else count
  {
    if 0 < count < |pool| {
      SpacedIncreases(|pool|, count);
    }
  }

  // ---- display_indices ----

  datatype Key = Key(source: int, name: string, kind: int, confidence: real, y: int, x: int, id: int)

  // Tuples compare field by field; confidence counts down, everything else up.
  predicate KeyLe(a: Key, b: Key) {
    if a.source != b.source then a.source < b.source
    else if a.name != b.name then StringLe(a.name, b.name)
    else if a.kind != b.kind then a.kind < b.kind
    else if a.confidence != b.confidence then a.confidence > b.confidence
    else if a.y != b.y then a.y < b.y
    else if a.x != b.x then a.x < b.x
    else a.id <= b.id
  }

  lemma KeyLeIsTransitive(a: Key, b: Key, c: Key)
    requires KeyLe(a, b) && KeyLe(b, c)
    ensures KeyLe(a, c)
  {
    if a.source == b.source == c.source && (a.name != b.name || b.name != c.name) {
      StringLeTotal(a.name, b.name);
      StringLeTotal(b.name, c.name);
      StringLeTransitive(a.name, b.name, c.name);
    }
  }

  // Where the manifest lists the photo last.
  function LastListed(images: seq<Image>, hash: string): (at: Option<nat>)
    ensures at.None? ==> forall im | im in images :: im.sourceSha256 != hash
    ensures at.Some? ==> at.value < |images| && images[at.value].sourceSha256 == hash
    ensures at.Some? ==> forall k | at.value < k < |images| :: images[k].sourceSha256 != hash
  {
    var n := |images| - 1;
    if images == [] then None
    else if images[n].sourceSha256 == hash then Some(n)
    else LastListed(images[..n], hash)
  }

  function Hashes(images: seq<Image>): set<string> {
    set im | im in images :: im.sourceSha256
  }

  // Photos the manifest does not list come after as many as it does.
  function SourceOrder(images: seq<Image>, hash: string): nat {
    var at := LastListed(images, hash);
    if at.Some? then at.value else |Hashes(images)|
  }

  function KeyOf(e: Entry, images: seq<Image>, setup: H.Setup): Key {
    Key(SourceOrder(images, e.sourceSha256), e.source, if e.kind == BASELINE then 0 else 1,
        if e.baselineConfidence.Some? then e.baselineConfidence.value else 0.0,
        if |e.tileXyxy| == 4 then e.tileXyxy[1] else 0,
        if |e.tileXyxy| == 4 then e.tileXyxy[0] else 0,
        setup.ofId(e.id))
  }

  function ByKey(keys: seq<Key>): (nat, nat) -> bool {
    (a: nat, b: nat) =>
      if a < |keys| && b < |keys| then KeyLe(keys[a], keys[b]) else a < |keys| || b >= |keys|
  }

  lemma ByKeyIsRanking(keys: seq<Key>)
    ensures IsRanking(ByKey(keys))
  {
    var le := ByKey(keys);
    forall a: nat, b: nat
      ensures le(a, b) || le(b, a)
    {
      if a < |keys| && b < |keys| {
        StringLeTotal(keys[a].name, keys[b].name);
      }
    }
    forall a: nat, b: nat, c: nat | le(a, b) && le(b, c)
      ensures le(a, c)
    {
      if a < |keys| && b < |keys| && c < |keys| {
        KeyLeIsTransitive(keys[a], keys[b], keys[c]);
      }
    }
  }

  function Range(n: nat): (r: seq<nat>)
    ensures |r| == n && forall i | 0 <= i < n :: r[i] == i
  {
    seq(n, i requires 0 <= i < n => i)
  }

  function Itself(): nat -> nat {
    (i: nat) => i
  }

  function Keys(entries: seq<Entry>, images: seq<Image>, setup: H.Setup): (r: seq<Key>)
    ensures |r| == |entries|
  {
    seq(|entries|, i requires 0 <= i < |entries| => KeyOf(entries[i], images, setup))
  }

  function DisplayIndices(entries: seq<Entry>, images: seq<Image>, setup: H.Setup): seq<nat> {
    ByKeyIsRanking(Keys(entries, images, setup));
    SortBy(ByKey(Keys(entries, images, setup)), Range(|entries|))
  }

  // Each index once: grouping for display loses and repeats nothing.
  ghost predicate IsOrderOf(order: seq<nat>, n: nat) {
    |order| == n && DistinctBy(Itself(), order) && forall i: nat :: i in order <==> i < n
  }

  lemma DisplayIsAnOrder(entries: seq<Entry>, images: seq<Image>, setup: H.Setup)
    ensures var order := DisplayIndices(entries, images, setup);
            IsOrderOf(order, |entries|) && Ordered(ByKey(Keys(entries, images, setup)), order)
  {
    ByKeyIsRanking(Keys(entries, images, setup));
    var order, all := DisplayIndices(entries, images, setup), Range(|entries|);
    SameElements(all, order);
    PermutationKeepsDistinct(Itself(), all, order);
    forall i: nat
      ensures i in order <==> i < |entries|
    {
      assert i < |entries| ==> all[i] == i;
    }
  }

  // ---- One representative per source ----

  // The best item of each source so far, in the order the sources came up.
  function Improve<A, K(==)>(reps: seq<A>, x: A, key: A -> K, atLeast: (A, A) -> bool): seq<A> {
    if reps == [] then [x]
    else if key(reps[0]) == key(x) then [if atLeast(reps[0], x) then reps[0] else x] + reps[1..]
    else [reps[0]] + Improve(reps[1..], x, key, atLeast)
  }

  function BestPerKey<A, K(==)>(items: seq<A>, key: A -> K, atLeast: (A, A) -> bool): seq<A> {
    if items == [] then []
    else Improve(BestPerKey(items[..|items| - 1], key, atLeast), items[|items| - 1], key, atLeast)
  }

  ghost predicate Beaten<A(!new), K>(reps: seq<A>, x: A, key: A -> K, atLeast: (A, A) -> bool) {
    exists r :: r in reps && key(r) == key(x) && atLeast(r, x)
  }

  lemma {:induction false} ImproveDistinct<A(!new), K>(reps: seq<A>, x: A, key: A -> K, atLeast: (A, A) -> bool)
    requires DistinctBy(key, reps)
    ensures DistinctBy(key, Improve(reps, x, key, atLeast))
    ensures forall r | r in Improve(reps, x, key, atLeast) :: r in reps || r == x
  {
    if reps != [] && key(reps[0]) != key(x) {
      var rest := Improve(reps[1..], x, key, atLeast);
      ImproveDistinct(reps[1..], x, key, atLeast);
      HeadIsUnique(key, reps);
      forall r | r in rest
        ensures key(r) != key(reps[0])
      {
      }
    } else if reps != [] {
      HeadIsUnique(key, reps);
    }
  }

  lemma {:induction false} ImproveBeats<A(!new), K>(reps: seq<A>, x: A, key: A -> K, atLeast: (A, A) -> bool, y: A)
    requires IsRanking(atLeast) && (y == x || Beaten(reps, y, key, atLeast))
    ensures Beaten(Improve(reps, x, key, atLeast), y, key, atLeast)
  {
    var after := Improve(reps, x, key, atLeast);
    if reps == [] || key(reps[0]) == key(x) {
      assert after[0] in after && atLeast(after[0], x);
      if y != x {
        var r :| r in reps && key(r) == key(y) && atLeast(r, y);
        if r == reps[0] {
          assert atLeast(after[0], r);
        } else {
          assert r in reps[1..] && r in after;
        }
      }
    } else {
      var rest := Improve(reps[1..], x, key, atLeast);
      assert forall r | r in rest :: r in after;
      if y != x {
        var r :| r in reps && key(r) == key(y) && atLeast(r, y);
        if r == reps[0] {
          assert after[0] in after;
        } else {
          assert r in reps[1..] && Beaten(reps[1..], y, key, atLeast);
          ImproveBeats(reps[1..], x, key, atLeast, y);
        }
      } else {
        ImproveBeats(reps[1..], x, key, atLeast, y);
      }
    }
  }

  // One representative per key, each a listed item.
  lemma {:induction false} BestIsOnePerKey<A(!new), K>(items: seq<A>, key: A -> K, atLeast: (A, A) -> bool)
    ensures DistinctBy(key, BestPerKey(items, key, atLeast))
    ensures forall r | r in BestPerKey(items, key, atLeast) :: r in items
  {
    if items != [] {
      var front := items[..|items| - 1];
      BestIsOnePerKey(front, key, atLeast);
      ImproveDistinct(BestPerKey(front, key, atLeast), items[|items| - 1], key, atLeast);
    }
  }

  // No listed item beats the representative of its key.
  lemma {:induction false} BestBeatsAll<A(!new), K>(items: seq<A>, key: A -> K, atLeast: (A, A) -> bool, y: A)
    requires IsRanking(atLeast) && y in items
    ensures Beaten(BestPerKey(items, key, atLeast), y, key, atLeast)
  {
    var front, last := items[..|items| - 1], items[|items| - 1];
    if y in front {
      BestBeatsAll(front, key, atLeast, y);
    }
    ImproveBeats(BestPerKey(front, key, atLeast), last, key, atLeast, y);
  }

  function SourceOf(entries: seq<Entry>): nat -> string {
    (i: nat) => if i < |entries| then entries[i].sourceSha256 else ""
  }

  function Decided(entries: seq<Entry>): nat -> bool {
    (i: nat) => i < |entries| && entries[i].confirmation != "pending"
  }

  // Pending entries of a kind whose source is not to be avoided.
  function Pooled(entries: seq<Entry>, kind: string, avoid: set<string>): nat -> bool {
    (i: nat) => i < |entries| && entries[i].confirmation == "pending" && entries[i].kind == kind
                && entries[i].sourceSha256 !in avoid
  }

  function ConfidenceOf(e: Entry): real {
    if e.baselineConfidence.Some? then e.baselineConfidence.value else 0.0
  }

  // The most confident detection stands for a source; the first id for a clean tile.
  function Represents(entries: seq<Entry>, kind: string, setup: H.Setup): (nat, nat) -> bool {
    (a: nat, b: nat) =>
      if a < |entries| && b < |entries| then
        var c, d := ConfidenceOf(entries[a]), ConfidenceOf(entries[b]);
        var i, j := setup.ofId(entries[a].id), setup.ofId(entries[b].id);
        if kind == BASELINE then c > d || (c == d && i >= j) else i <= j
      else a < |entries| || b >= |entries|
  }

  function PoolOrder(entries: seq<Entry>, kind: string): (nat, nat) -> bool {
    (a: nat, b: nat) =>
      if a < |entries| && b < |entries| then
        var c, d := ConfidenceOf(entries[a]), ConfidenceOf(entries[b]);
        if kind == BASELINE && c != d then c < d else StringLe(entries[a].sourceSha256, entries[b].sourceSha256)
      else a < |entries| || b >= |entries|
  }

  lemma RepresentsIsRanking(entries: seq<Entry>, kind: string, setup: H.Setup)
    ensures IsRanking(Represents(entries, kind, setup))
  {
  }

  lemma PoolOrderIsRanking(entries: seq<Entry>, kind: string)
    ensures IsRanking(PoolOrder(entries, kind))
  {
    var le := PoolOrder(entries, kind);
    forall a: nat, b: nat
      ensures le(a, b) || le(b, a)
    {
      if a < |entries| && b < |entries| {
        StringLeTotal(entries[a].sourceSha256, entries[b].sourceSha256);
      }
    }
    forall a: nat, b: nat, c: nat | le(a, b) && le(b, c)
      ensures le(a, c)
    {
      if a < |entries| && b < |entries| && c < |entries| {
        if StringLe(entries[a].sourceSha256, entries[b].sourceSha256)
           && StringLe(entries[b].sourceSha256, entries[c].sourceSha256) {
          StringLeTransitive(entries[a].sourceSha256, entries[b].sourceSha256, entries[c].sourceSha256);
        }
      }
    }
  }

  function OnePerSource(entries: seq<Entry>, full: seq<nat>, kind: string, avoid: set<string>, setup: H.Setup): seq<nat>
  {
    PoolOrderIsRanking(entries, kind);
    SortBy(PoolOrder(entries, kind),
           BestPerKey(Filter(Pooled(entries, kind, avoid), full), SourceOf(entries), Represents(entries, kind, setup)))
  }

  // One pooled entry for each source that has any, none better than it.
  lemma OnePerSourceRepresents(entries: seq<Entry>, full: seq<nat>, kind: string, avoid: set<string>, setup: H.Setup)
    ensures var pool := OnePerSource(entries, full, kind, avoid, setup);
            && DistinctBy(SourceOf(entries), pool) && Ordered(PoolOrder(entries, kind), pool)
            && (forall i | i in pool :: i in full && Pooled(entries, kind, avoid)(i))
  {
    PoolOrderIsRanking(entries, kind);
    var items := Filter(Pooled(entries, kind, avoid), full);
    var best := BestPerKey(items, SourceOf(entries), Represents(entries, kind, setup));
    var pool := OnePerSource(entries, full, kind, avoid, setup);
    BestIsOnePerKey(items, SourceOf(entries), Represents(entries, kind, setup));
    SameElements(best, pool);
    PermutationKeepsDistinct(SourceOf(entries), best, pool);
  }

  lemma EveryPooledIsRepresented(
    entries: seq<Entry>, full: seq<nat>, kind: string, avoid: set<string>, setup: H.Setup, i: nat)
    requires i in full && Pooled(entries, kind, avoid)(i)
    ensures Beaten(OnePerSource(entries, full, kind, avoid, setup), i, SourceOf(entries),
                   Represents(entries, kind, setup))
  {
    var key, atLeast := SourceOf(entries), Represents(entries, kind, setup);
    PoolOrderIsRanking(entries, kind);
    RepresentsIsRanking(entries, kind, setup);
    var items := Filter(Pooled(entries, kind, avoid), full);
    var best := BestPerKey(items, key, atLeast);
    SameElements(best, OnePerSource(entries, full, kind, avoid, setup));
    BestBeatsAll(items, key, atLeast, i);
    var r :| r in best && key(r) == key(i) && atLeast(r, i);
    assert r in OnePerSource(entries, full, kind, avoid, setup);
  }

  // ---- qa_display_indices ----

  function BaselineTarget(needed: nat): nat {
    var share := T.RoundDiv(3 * needed, 4);
    var atLeastOne := if share < 1 then 1 else share;
    if needed < atLeastOne then needed else atLeastOne
  }

  // Three quarters of the new entries, to the nearest one, but at least one.
  lemma BaselineTargetIsThreeQuarters(needed: nat)
    requires needed > 0
    ensures var t := BaselineTarget(needed); 1 <= t <= needed && 3 * needed - 2 <= 4 * t <= 3 * needed + 2
  {
    T.RoundIsNear(3 * needed, 4);
  }

  function Sources(entries: seq<Entry>, indices: seq<nat>): set<string> {
    set i | i in indices :: SourceOf(entries)(i)
  }

  function BaselinePicks(entries: seq<Entry>, full: seq<nat>, decided: seq<nat>, needed: nat, setup: H.Setup): seq<nat>
  {
    EvenlySpaced(OnePerSource(entries, full, BASELINE, Sources(entries, decided), setup), BaselineTarget(needed))
  }

  function CleanPicks(entries: seq<Entry>, full: seq<nat>, decided: seq<nat>, picks: seq<nat>, count: int,
                      setup: H.Setup): seq<nat>
  {
    EvenlySpaced(
      OnePerSource(entries, full, CLEAN, Sources(entries, decided) + Sources(entries, picks), setup), count)
  }

  // New entries from sources nobody looked at yet: detections first, then clean tiles.
  function Spread(entries: seq<Entry>, full: seq<nat>, decided: seq<nat>, needed: nat, setup: H.Setup): seq<nat> {
    var picks := BaselinePicks(entries, full, decided, needed, setup);
    picks + CleanPicks(entries, full, decided, picks, needed - |picks|, setup)
  }

  ghost predicate FreshPicks(entries: seq<Entry>, full: seq<nat>, avoid: set<string>, picks: seq<nat>) {
    && DistinctBy(SourceOf(entries), picks)
    && forall k | 0 <= k < |picks| ::
         picks[k] in full && !Decided(entries)(picks[k]) && SourceOf(entries)(picks[k]) !in avoid
  }

  lemma PicksAreFresh(entries: seq<Entry>, full: seq<nat>, kind: string, avoid: set<string>, count: int, setup: H.Setup)
    ensures var picks := EvenlySpaced(OnePerSource(entries, full, kind, avoid, setup), count);
            FreshPicks(entries, full, avoid, picks) && (count >= 0 ==> |picks| <= count)
  {
    var pool := OnePerSource(entries, full, kind, avoid, setup);
    var picks := EvenlySpaced(pool, count);
    OnePerSourceRepresents(entries, full, kind, avoid, setup);
    SpacedKeeps(SourceOf(entries), pool, count);
    forall k | 0 <= k < |picks|
      ensures picks[k] in full && !Decided(entries)(picks[k]) && SourceOf(entries)(picks[k]) !in avoid
    {
      assert picks[k] in pool && Pooled(entries, kind, avoid)(picks[k]);
    }
  }

  lemma FreshPicksJoin(entries: seq<Entry>, full: seq<nat>, avoid: set<string>, a: seq<nat>, b: seq<nat>)
    requires FreshPicks(entries, full, avoid, a) && FreshPicks(entries, full, avoid + Sources(entries, a), b)
    ensures FreshPicks(entries, full, avoid, a + b)
  {
    var key := SourceOf(entries);
    forall i, j | 0 <= i < j < |a + b|
      ensures key((a + b)[i]) != key((a + b)[j])
    {
      if j < |a| {
        assert key(a[i]) != key(a[j]);
      } else if i < |a| {
        assert a[i] in a && key(a[i]) in Sources(entries, a);
      } else {
        assert key(b[i - |a|]) != key(b[j - |a|]);
      }
    }
  }

  lemma BaselinePicksAreFresh(entries: seq<Entry>, full: seq<nat>, decided: seq<nat>, needed: nat, setup: H.Setup)
    ensures var picks := BaselinePicks(entries, full, decided, needed, setup);
            FreshPicks(entries, full, Sources(entries, decided), picks) && |picks| <= needed
  {
    PicksAreFresh(entries, full, BASELINE, Sources(entries, decided), BaselineTarget(needed), setup);
  }

  lemma CleanPicksAreFresh(
    entries: seq<Entry>, full: seq<nat>, decided: seq<nat>, picks: seq<nat>, count: nat, setup: H.Setup)
    ensures var clean := CleanPicks(entries, full, decided, picks, count, setup);
            FreshPicks(entries, full, Sources(entries, decided) + Sources(entries, picks), clean) && |clean| <= count
  {
    PicksAreFresh(entries, full, CLEAN, Sources(entries, decided) + Sources(entries, picks), count, setup);
  }

  // The new entries are pending and come from as many different sources, none of
  // them covered by a decision.
  lemma SpreadIsFresh(entries: seq<Entry>, full: seq<nat>, decided: seq<nat>, needed: nat, setup: H.Setup)
    ensures var spread := Spread(entries, full, decided, needed, setup);
            FreshPicks(entries, full, Sources(entries, decided), spread) && |spread| <= needed
  {
    var picks := BaselinePicks(entries, full, decided, needed, setup);
    BaselinePicksAreFresh(entries, full, decided, needed, setup);
    CleanPicksAreFresh(entries, full, decided, picks, needed - |picks|, setup);
    FreshPicksJoin(entries, full, Sources(entries, decided), picks,
                   CleanPicks(entries, full, decided, picks, needed - |picks|, setup));
  }

  function In(chosen: seq<nat>): nat -> bool {
    (i: nat) => i in chosen
  }

  function NotIn(chosen: seq<nat>): nat -> bool {
    (i: nat) => i !in chosen
  }

  // The fallback fills what the pools could not, in display order.
  function TopUp(full: seq<nat>, chosen: seq<nat>, missing: nat): seq<nat> {
    chosen + H.Take(Filter(NotIn(chosen), full), missing)
  }

  // The decided entries and the new ones, in display order.
  function Enlarged(entries: seq<Entry>, full: seq<nat>, decided: seq<nat>, spread: seq<nat>, needed: nat): seq<nat> {
    Filter(In(TopUp(full, decided + spread, if |spread| < needed then needed - |spread| else 0)), full)
  }

  function Sample(entries: seq<Entry>, full: seq<nat>, decided: seq<nat>, qaSize: nat, setup: H.Setup): seq<nat> {
    if qaSize <= |decided| then decided
    else
      var needed := qaSize - |decided|;
      Enlarged(entries, full, decided, Spread(entries, full, decided, needed, setup), needed)
  }

  // Filtering an order by a set of its indices keeps exactly that many.
  lemma ChosenAreCounted(full: seq<nat>, chosen: seq<nat>)
    requires DistinctBy(Itself(), full) && DistinctBy(Itself(), chosen) && forall i | i in chosen :: i in full
    ensures |Filter(In(chosen), full)| == |chosen|
  {
    ChosenAreKept(Itself(), In(chosen), full, chosen);
  }

  lemma TopUpIsExact(full: seq<nat>, chosen: seq<nat>, missing: nat)
    requires DistinctBy(Itself(), full) && DistinctBy(Itself(), chosen) && forall i | i in chosen :: i in full
    requires |chosen| + missing <= |full|
    ensures var r := TopUp(full, chosen, missing);
            && |r| == |chosen| + missing && DistinctBy(Itself(), r)
            && (forall i | i in r :: i in full) && forall i | i in chosen :: i in r
  {
    var rest := Filter(NotIn(chosen), full);
    FilterSplits(In(chosen), NotIn(chosen), full);
    ChosenAreCounted(full, chosen);
    FilterKeepsDistinct(Itself(), NotIn(chosen), full);
    H.TakeKeeps(Itself(), rest, missing);
    var r := TopUp(full, chosen, missing);
    forall i, j | 0 <= i < j < |r|
      ensures r[i] != r[j]
    {
      if j < |chosen| {
        assert Itself()(chosen[i]) != Itself()(chosen[j]);
      } else if i < |chosen| {
        assert r[j] in rest && chosen[i] in chosen;
      } else {
        assert Itself()(rest[i - |chosen|]) != Itself()(rest[j - |chosen|]);
      }
    }
  }

  // The sample shown: a subsequence of the display order that holds every
  // decided entry and has exactly the larger of the asked size and their number.
  ghost predicate IsSample(sample: seq<nat>, entries: seq<Entry>, full: seq<nat>, size: nat) {
    && (exists p :: sample == Filter(p, full)) && DistinctBy(Itself(), sample) && |sample| == size
    && forall i | i in full && Decided(entries)(i) :: i in sample
  }

  ghost predicate IsDecided(decided: seq<nat>, entries: seq<Entry>, full: seq<nat>) {
    && DistinctBy(Itself(), decided) && (forall i | i in decided :: i in full && Decided(entries)(i))
    && forall i | i in full && Decided(entries)(i) :: i in decided
  }

  lemma DecidedIsDecided(entries: seq<Entry>, full: seq<nat>)
    requires DistinctBy(Itself(), full)
    ensures IsDecided(Filter(Decided(entries), full), entries, full)
  {
    FilterKeepsDistinct(Itself(), Decided(entries), full);
  }

  lemma DecidedAndSpread(entries: seq<Entry>, full: seq<nat>, decided: seq<nat>, spread: seq<nat>)
    requires IsDecided(decided, entries, full) && FreshPicks(entries, full, Sources(entries, decided), spread)
    ensures DistinctBy(Itself(), decided + spread) && forall i | i in decided + spread :: i in full
  {
    var both := decided + spread;
    forall i, j | 0 <= i < j < |both|
      ensures both[i] != both[j]
    {
      if j < |decided| {
        assert Itself()(decided[i]) != Itself()(decided[j]);
      } else if i < |decided| {
        assert both[i] in decided && !Decided(entries)(spread[j - |decided|]);
      } else {
        assert SourceOf(entries)(spread[i - |decided|]) != SourceOf(entries)(spread[j - |decided|]);
      }
    }
  }

  lemma EnlargedIsExact(entries: seq<Entry>, full: seq<nat>, decided: seq<nat>, spread: seq<nat>, needed: nat)
    requires DistinctBy(Itself(), full) && IsDecided(decided, entries, full)
    requires FreshPicks(entries, full, Sources(entries, decided), spread)
    requires |spread| <= needed && |decided| + needed <= |full|
    ensures IsSample(Enlarged(entries, full, decided, spread, needed), entries, full, |decided| + needed)
  {
    var some := decided + spread;
    var chosen := TopUp(full, some, needed - |spread|);
    DecidedAndSpread(entries, full, decided, spread);
    TopUpIsExact(full, some, needed - |spread|);
    ChosenAreCounted(full, chosen);
    FilterKeepsDistinct(Itself(), In(chosen), full);
    forall i | i in full && Decided(entries)(i)
      ensures In(chosen)(i)
    {
      assert i in decided && i in some;
    }
  }

  // With enough decisions, the sample is the decided entries,
  lemma DecidedIsSample(entries: seq<Entry>, full: seq<nat>, decided: seq<nat>)
    requires decided == Filter(Decided(entries), full) && IsDecided(decided, entries, full)
    ensures IsSample(decided, entries, full, |decided|)
  {
  }

  // and otherwise it is enlarged to the size asked for.
  lemma SampleIsExact(entries: seq<Entry>, full: seq<nat>, decided: seq<nat>, qaSize: nat, setup: H.Setup)
    requires DistinctBy(Itself(), full) && IsDecided(decided, entries, full) && |decided| < qaSize <= |full|
    ensures IsSample(Sample(entries, full, decided, qaSize, setup), entries, full, qaSize)
  {
    var needed := qaSize - |decided|;
    SpreadIsFresh(entries, full, decided, needed, setup);
    EnlargedIsExact(entries, full, decided, Spread(entries, full, decided, needed, setup), needed);
  }

  lemma EverythingIsASample(entries: seq<Entry>, full: seq<nat>)
    requires DistinctBy(Itself(), full)
    ensures IsSample(full, entries, full, |full|)
  {
    var all := (i: nat) => true;
    FilterOfSplit(all, full, []);
    assert full + [] == full;
  }

  // ---- resume_position ----

  ghost predicate ValidOrder(order: seq<nat>, n: nat) {
    DistinctBy(Itself(), order) && forall k | 0 <= k < |order| :: order[k] < n
  }

  method CheckOrder(order: seq<nat>, n: nat) returns (ok: bool)
    ensures ok <==> ValidOrder(order, n)
  {
    var seen: set<nat> := {};
    for k := 0 to |order|
      invariant forall i :: i in seen <==> exists j :: 0 <= j < k && order[j] == i
      invariant forall i, j | 0 <= i < j < k :: order[i] != order[j]
      invariant forall j | 0 <= j < k :: order[j] < n
    {
      if order[k] in seen || order[k] >= n {
        assert order[k] in seen ==> exists j :: 0 <= j < k && Itself()(order[j]) == Itself()(order[k]);
        return false;
      }
      seen := seen + {order[k]};
    }
    return true;
  }

  // The first pending position, the first position when nothing is pending, or none.
  ghost predicate IsResume(r: Review, order: seq<nat>, out: Result<Option<nat>, QaError>) {
    && (out.Success? <==> ValidReview(r, false) && ValidOrder(order, |r.entries|))
    && (out.Success? && out.value.None? ==> order == [])
    && (out.Success? && out.value.Some? ==>
          var at := out.value.value;
          && at < |order|
          && (r.entries[order[at]].confirmation == "pending"
              ==> forall k | 0 <= k < at :: r.entries[order[k]].confirmation != "pending")
          && (r.entries[order[at]].confirmation != "pending"
              ==> at == 0 && forall k | 0 <= k < |order| :: r.entries[order[k]].confirmation != "pending"))
  }

  method ResumePosition(r: Review, order: seq<nat>) returns (out: Result<Option<nat>, QaError>)
    ensures IsResume(r, order, out)
  {
    var valid := ValidateReview(r, false);
    if valid.Failure? {
      return Failure(ReviewInvalid);
    }
    var ok := CheckOrder(order, |r.entries|);
    if !ok {
      return Failure(BadOrder);
    }
    for k := 0 to |order|
      invariant forall j | 0 <= j < k :: r.entries[order[j]].confirmation != "pending"
    {
      if r.entries[order[k]].confirmation == "pending" {
        return Success(Some(k));
      }
    }
    return Success(if order == [] then None else Some(0));
  }
}
