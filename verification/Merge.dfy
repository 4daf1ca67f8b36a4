// merge_candidates: the deployment merge of overlapping detections, and the
// laws it obeys whatever the input order and whatever the score threshold.
module Merge {
  import opened Sorting

  datatype Box = Box(x0: real, y0: real, x1: real, y1: real, confidence: real, tileX: int, tileY: int)

  function MaxReal(a: real, b: real): real { if a < b then b else a }

  function MinReal(a: real, b: real): real { if b < a then b else a }

  function Area(b: Box): real {
    MaxReal(0.0, b.x1 - b.x0) * MaxReal(0.0, b.y1 - b.y0)
  }

  function Intersection(a: Box, b: Box): real {
    MaxReal(0.0, MinReal(a.x1, b.x1) - MaxReal(a.x0, b.x0)) * MaxReal(0.0, MinReal(a.y1, b.y1) - MaxReal(a.y0, b.y0))
  }

  function Iou(a: Box, b: Box): real {
    var overlap := Intersection(a, b);
    var union := Area(a) + Area(b) - overlap;
    if union > 0.0 then overlap / union else 0.0
  }

  function DuplicateOverlap(a: Box, b: Box): real {
    var smaller := MinReal(Area(a), Area(b));
    MaxReal(Iou(a, b), if smaller > 0.0 then Intersection(a, b) / smaller else 0.0)
  }

  // ---- Ranking ----

  // The sort key: confidence first, then every other field, so that only equal
  // boxes tie.
  predicate RanksUpTo(a: Box, b: Box) {
    if a.confidence != b.confidence then a.confidence > b.confidence
    else if a.tileY != b.tileY then a.tileY < b.tileY
    else if a.tileX != b.tileX then a.tileX < b.tileX
    else if a.y0 != b.y0 then a.y0 < b.y0
    else if a.x0 != b.x0 then a.x0 < b.x0
    else if a.y1 != b.y1 then a.y1 < b.y1
    else a.x1 <= b.x1
  }

  lemma RankIsTotalOrder()
    ensures IsTotalOrder(RanksUpTo)
  {
    forall a, b
      ensures RanksUpTo(a, b) || RanksUpTo(b, a)
      ensures RanksUpTo(a, b) && RanksUpTo(b, a) ==> a == b
    {
    }
    forall a, b, c | RanksUpTo(a, b) && RanksUpTo(b, c)
      ensures RanksUpTo(a, c)
    {
      RankIsTransitive(a, b, c);
    }
  }

  lemma RankIsTransitive(a: Box, b: Box, c: Box)
    requires RanksUpTo(a, b) && RanksUpTo(b, c)
    ensures RanksUpTo(a, c)
  {
  }

  function Ranked(s: seq<Box>): (r: seq<Box>)
    ensures Ordered(RanksUpTo, r) && multiset(r) == multiset(s) && |r| == |s|
  {
    RankIsTotalOrder();
    SortBy(RanksUpTo, s)
  }

  // Two boxes clash when their duplicate overlap reaches the limit.
  function Clash(limit: real): (Box, Box) -> bool {
    (candidate: Box, accepted: Box) => DuplicateOverlap(candidate, accepted) >= limit
  }

  // The boxes the merge keeps, in rank order.
  ghost function Merged(candidates: seq<Box>, limit: real): seq<Box> {
    Keep(Clash(limit), Ranked(candidates))
  }

  method MergeCandidates(candidates: seq<Box>, limit: real) returns (kept: seq<Box>, fragments: int)
    ensures kept == Merged(candidates, limit)
    ensures fragments == |candidates| - |kept| && fragments >= 0
  {
    kept := [];
    var ranked := Ranked(candidates);
    for i := 0 to |ranked|
      invariant kept == Keep(Clash(limit), ranked[..i]) && |kept| <= i
    {
      assert ranked[..i + 1][..i] == ranked[..i];
      var candidate := ranked[i];
      if forall accepted | accepted in kept :: DuplicateOverlap(candidate, accepted) < limit {
        kept := kept + [candidate];
      }
    }
    assert ranked[..|ranked|] == ranked;
    fragments := |candidates| - |kept|;
  }

  // Kept boxes overlap pairwise below the limit, every candidate is kept or
  // overlaps an earlier-ranked kept one, and kept boxes are candidates.
  lemma MergeSeparatesAndCovers(candidates: seq<Box>, limit: real)
    ensures var kept := Merged(candidates, limit);
            && Ordered(RanksUpTo, kept)
            && (forall i, j | 0 <= i < j < |kept| :: DuplicateOverlap(kept[j], kept[i]) < limit)
            && multiset(kept) <= multiset(candidates)
            && forall b | b in candidates ::
                 b in kept || exists k :: k in kept && RanksUpTo(k, b) && DuplicateOverlap(b, k) >= limit
  {
    var ranked, kept := Ranked(candidates), Merged(candidates, limit);
    KeepIsOrderedSubset(RanksUpTo, Clash(limit), ranked);
    SameElements(ranked, candidates);
    forall b | b in candidates
      ensures b in kept || exists k :: k in kept && RanksUpTo(k, b) && DuplicateOverlap(b, k) >= limit
    {
      KeepCovers(RanksUpTo, Clash(limit), ranked, b);
    }
    forall i, j | 0 <= i < j < |kept|
      ensures DuplicateOverlap(kept[j], kept[i]) < limit
    {
      assert !Clash(limit)(kept[j], kept[i]);
    }
  }

  // More confident; else by tile row, tile column, top, left, bottom and right edge.
  ghost predicate ComesUpTo(a: Box, b: Box) {
    || a.confidence > b.confidence
    || (a.confidence == b.confidence
        && (|| a.tileY < b.tileY
            || (a.tileY == b.tileY
                && (|| a.tileX < b.tileX
                    || (a.tileX == b.tileX
                        && (|| a.y0 < b.y0
                            || (a.y0 == b.y0
                                && (|| a.x0 < b.x0
                                    || (a.x0 == b.x0 && (a.y1 < b.y1 || (a.y1 == b.y1 && a.x1 <= b.x1)))))))))))
  }

  // On the fields: the kept boxes come in that order, and a box is dropped only for
  // one that comes before it and overlaps it too much.
  lemma MergeFollowsFields(candidates: seq<Box>, limit: real)
    ensures var kept := Merged(candidates, limit);
            && (forall i, j | 0 <= i < j < |kept| :: ComesUpTo(kept[i], kept[j]))
            && forall b | b in candidates ::
                 b in kept || exists k :: k in kept && ComesUpTo(k, b) && DuplicateOverlap(b, k) >= limit
  {
    MergeSeparatesAndCovers(candidates, limit);
    var kept := Merged(candidates, limit);
    forall a, b
      ensures RanksUpTo(a, b) <==> ComesUpTo(a, b)
    {
    }
    forall b | b in candidates && b !in kept
      ensures exists k :: k in kept && ComesUpTo(k, b) && DuplicateOverlap(b, k) >= limit
    {
      var k :| k in kept && RanksUpTo(k, b) && Clash(limit)(b, k);
    }
  }

  lemma MergeIgnoresOrder(first: seq<Box>, second: seq<Box>, limit: real)
    requires multiset(first) == multiset(second)
    ensures Merged(first, limit) == Merged(second, limit)
  {
    RankIsTotalOrder();
    OrderedIsUnique(RanksUpTo, Ranked(first), Ranked(second));
  }

  lemma MergeIsIdempotent(candidates: seq<Box>, limit: real)
    ensures Merged(Merged(candidates, limit), limit) == Merged(candidates, limit)
  {
    var kept := Merged(candidates, limit);
    RankIsTotalOrder();
    KeepIsOrderedSubset(RanksUpTo, Clash(limit), Ranked(candidates));
    OrderedIsUnique(RanksUpTo, Ranked(kept), kept);
    SeparatedIsKept(Clash(limit), kept);
  }

  // ---- Thresholding ----

  function Reaches(threshold: real): Box -> bool {
    (b: Box) => b.confidence >= threshold
  }

  function AtLeast(s: seq<Box>, threshold: real): seq<Box> {
    Filter(Reaches(threshold), s)
  }

  // In rank order, the boxes at or above a threshold come first.
  lemma RankedSplits(ranked: seq<Box>, threshold: real) returns (cut: nat)
    requires Ordered(RanksUpTo, ranked)
    ensures cut <= |ranked|
    ensures forall b: Box | b in ranked[..cut] :: b.confidence >= threshold
    ensures forall b: Box | b in ranked[cut..] :: b.confidence < threshold
  {
    cut := 0;
    while cut < |ranked| && ranked[cut].confidence >= threshold
      invariant cut <= |ranked|
      invariant forall i | 0 <= i < cut :: ranked[i].confidence >= threshold
    {
      cut := cut + 1;
    }
    forall i | cut <= i < |ranked|
      ensures ranked[i].confidence < threshold
    {
      assert i == cut || RanksUpTo(ranked[cut], ranked[i]);
    }
  }

  // The confident candidates, ranked, are the first of all candidates, ranked.
  lemma ConfidentRankFirst(candidates: seq<Box>, threshold: real) returns (high: seq<Box>, low: seq<Box>)
    ensures Ranked(candidates) == high + low && Ranked(AtLeast(candidates, threshold)) == high
    ensures Ordered(RanksUpTo, high)
    ensures forall b: Box | b in high :: Reaches(threshold)(b)
    ensures forall b: Box | b in low :: !Reaches(threshold)(b)
  {
    var ranked := Ranked(candidates);
    var cut := RankedSplits(ranked, threshold);
    high, low := ranked[..cut], ranked[cut..];
    assert ranked == high + low;
    RankIsTotalOrder();
    FilterOfSplit(Reaches(threshold), high, low);
    SortThenFilter(RanksUpTo, Reaches(threshold), candidates);
  }

  // Thresholding first or merging first gives the same boxes: the merge of the
  // confident candidates is the confident prefix of the merge of them all.
  lemma MergeCommutesWithThreshold(candidates: seq<Box>, threshold: real, limit: real)
    ensures Merged(AtLeast(candidates, threshold), limit) == AtLeast(Merged(candidates, limit), threshold)
    ensures Merged(AtLeast(candidates, threshold), limit) <= Merged(candidates, limit)
  {
    var high, low := ConfidentRankFirst(candidates, threshold);
    var extra := KeepExtends(Clash(limit), high, low);
    RankIsTotalOrder();
    KeepIsOrderedSubset(RanksUpTo, Clash(limit), high);
    FilterOfSplit(Reaches(threshold), Keep(Clash(limit), high), extra);
  }
}
