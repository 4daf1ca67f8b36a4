// evaluate_image and aggregate_metrics: the counts reported for one image and
// for a set of images, and the balances they keep.
module Evaluation {
  import opened Outcomes
  import opened Sorting
  import opened Merge
  import opened Matching

  type Origin = (int, int)

  datatype Tally = Tally(tp: nat, total: nat)

  datatype VisibilityRow = VisibilityRow(tp: nat, fn: int, total: nat, recall: real)

  datatype ImageResult = ImageResult(
    tp: nat, fp: nat, fn: nat,
    tileCandidates: nat, mergedCandidates: nat, tileFragments: int, ignoredCandidates: int,
    falsePositiveTiles: nat, emptyRealTiles: nat, emptyRealTilesWithFalsePositive: nat,
    byVisibility: map<string, VisibilityRow>)

  datatype EvaluationError = VisibilityCountMismatch

  // A prediction is ignored when its centre lies in a reviewed ignore region.
  predicate Ignored(regions: seq<Box>, b: Box) {
    var centreX, centreY := (b.x0 + b.x1) / 2.0, (b.y0 + b.y1) / 2.0;
    exists r | r in regions :: r.x0 <= centreX <= r.x1 && r.y0 <= centreY <= r.y1
  }

  // Twice the centre, so that nothing is divided.
  lemma IgnoredByCentre(regions: seq<Box>, b: Box)
    ensures Ignored(regions, b) <==>
              exists r | r in regions ::
                2.0 * r.x0 <= b.x0 + b.x1 <= 2.0 * r.x1 && 2.0 * r.y0 <= b.y0 + b.y1 <= 2.0 * r.y1
  {
    forall r | r in regions
      ensures (var centreX, centreY := (b.x0 + b.x1) / 2.0, (b.y0 + b.y1) / 2.0;
               r.x0 <= centreX <= r.x1 && r.y0 <= centreY <= r.y1)
          <==> (2.0 * r.x0 <= b.x0 + b.x1 <= 2.0 * r.x1 && 2.0 * r.y0 <= b.y0 + b.y1 <= 2.0 * r.y1)
    {
    }
  }

  function NotIgnored(regions: seq<Box>): Box -> bool {
    (b: Box) => !Ignored(regions, b)
  }

  ghost function Scored(candidates: seq<Box>, regions: seq<Box>, threshold: real, mergeOverlap: real): seq<Box> {
    Filter(NotIgnored(regions), Merged(AtLeast(candidates, threshold), mergeOverlap))
  }

  // ---- Sums over a dictionary ----

  ghost function Sum(keys: set<string>, f: string -> nat): nat {
    if keys == {} then 0 else var k :| k in keys; f(k) + Sum(keys - {k}, f)
  }

  lemma {:induction false} SumSplits(keys: set<string>, f: string -> nat, k: string)
    requires k in keys
    ensures Sum(keys, f) == f(k) + Sum(keys - {k}, f)
    decreases |keys|
  {
    var first :| first in keys && Sum(keys, f) == f(first) + Sum(keys - {first}, f);
    if first != k {
      SumSplits(keys - {first}, f, k);
      SumSplits(keys - {k}, f, first);
      assert keys - {first} - {k} == keys - {k} - {first};
    }
  }

  lemma {:induction false} SumAdds(keys: set<string>, f: string -> nat, g: string -> nat, h: string -> nat)
    requires forall k | k in keys :: h(k) == f(k) + g(k)
    ensures Sum(keys, h) == Sum(keys, f) + Sum(keys, g)
    decreases |keys|
  {
    if keys != {} {
      var k :| k in keys;
      SumSplits(keys, f, k);
      SumSplits(keys, g, k);
      SumSplits(keys, h, k);
      SumAdds(keys - {k}, f, g, h);
    }
  }

  lemma {:induction false} SumsAgree(keys: set<string>, f: string -> nat, g: string -> nat)
    requires forall k | k in keys :: f(k) == g(k)
    ensures Sum(keys, f) == Sum(keys, g)
    decreases |keys|
  {
    if keys != {} {
      var k :| k in keys;
      SumSplits(keys, f, k);
      SumSplits(keys, g, k);
      SumsAgree(keys - {k}, f, g);
    }
  }

  // Keys with a zero entry do not change the sum.
  lemma {:induction false} SumWidens(keys: set<string>, wider: set<string>, f: string -> nat)
    requires keys <= wider && forall k | k in wider - keys :: f(k) == 0
    ensures Sum(wider, f) == Sum(keys, f)
    decreases |wider - keys|
  {
    if k :| k in wider && k !in keys {
      SumSplits(wider, f, k);
      SumWidens(keys, wider - {k}, f);
      assert wider - {k} - keys == (wider - keys) - {k};
    } else {
      assert wider == keys;
    }
  }

  function TpOf(rows: map<string, VisibilityRow>): string -> nat {
    v => if v in rows then rows[v].tp else 0
  }

  function TotalOf(rows: map<string, VisibilityRow>): string -> nat {
    v => if v in rows then rows[v].total else 0
  }

  // The per-visibility rows account for every true positive and every truth.
  ghost predicate SumsBack(rows: map<string, VisibilityRow>, tp: int, truths: int) {
    && Sum(rows.Keys, TpOf(rows)) == tp && Sum(rows.Keys, TotalOf(rows)) == truths
    && forall v | v in rows :: rows[v].fn == rows[v].total - rows[v].tp
  }

  // ---- One image ----

  // The truths among `among` that carry one of the labels.
  ghost function Labelled(visibility: seq<string>, among: set<nat>, labels: set<string>): set<nat> {
    set i | i in among && i < |visibility| && visibility[i] in labels
  }

  // A share of the whole, or its stand-in when there is no whole.
  ghost predicate IsShare(x: real, part: int, whole: int, empty: real) {
    if whole == 0 then x == empty else x * whole as real == part as real
  }

  lemma QuotientIsShare(part: int, whole: int, empty: real)
    requires whole != 0
    ensures IsShare(part as real / whole as real, part, whole, empty)
  {
  }

  function RowFor(visibility: seq<string>, matched: set<nat>, tag: string): VisibilityRow {
    var indices := set i | i in Indices(|visibility|) && visibility[i] == tag;
    var visibleTp, total := |indices * matched|, |indices|;
    VisibilityRow(visibleTp, total - visibleTp, total, if total > 0 then visibleTp as real / total as real else 1.0)
  }

  lemma LabelAdds(visibility: seq<string>, among: set<nat>, labels: set<string>, tag: string)
    requires tag !in labels
    ensures |Labelled(visibility, among, labels + {tag})|
            == |Labelled(visibility, among, labels)| + |Labelled(visibility, among, {tag})|
  {
    assert Labelled(visibility, among, labels + {tag})
        == Labelled(visibility, among, labels) + Labelled(visibility, among, {tag});
  }

  lemma RowCounts(visibility: seq<string>, matched: set<nat>, tag: string)
    ensures RowFor(visibility, matched, tag).tp == |Labelled(visibility, matched, {tag})|
    ensures RowFor(visibility, matched, tag).total == |Labelled(visibility, Indices(|visibility|), {tag})|
    ensures var row := RowFor(visibility, matched, tag);
            row.fn == row.total - row.tp && IsShare(row.recall, row.tp, row.total, 1.0)
  {
    var row := RowFor(visibility, matched, tag);
    if row.total > 0 {
      QuotientIsShare(row.tp, row.total, 1.0);
    }
    var indices := set i | i in Indices(|visibility|) && visibility[i] == tag;
    assert indices * matched == Labelled(visibility, matched, {tag});
    assert indices == Labelled(visibility, Indices(|visibility|), {tag});
  }

  ghost predicate RowsAreCounts(visibility: seq<string>, matched: set<nat>, rows: map<string, VisibilityRow>) {
    forall v | v in rows :: rows[v] == RowFor(visibility, matched, v)
  }

  lemma {:induction false} SumOfCounts(visibility: seq<string>, among: set<nat>, labels: set<string>, f: string -> nat)
    requires forall v | v in labels :: f(v) == |Labelled(visibility, among, {v})|
    ensures Sum(labels, f) == |Labelled(visibility, among, labels)|
    decreases |labels|
  {
    if labels == {} {
      assert Labelled(visibility, among, labels) == {};
    } else {
      var v :| v in labels;
      SumSplits(labels, f, v);
      SumOfCounts(visibility, among, labels - {v}, f);
      LabelAdds(visibility, among, labels - {v}, v);
      assert labels - {v} + {v} == labels;
    }
  }

  lemma EveryIndexIsLabelled(visibility: seq<string>, among: set<nat>, labels: set<string>)
    requires among <= Indices(|visibility|) && labels == set v | v in visibility
    ensures Labelled(visibility, among, labels) == among
  {
    forall i | i in among
      ensures i in Labelled(visibility, among, labels)
    {
      assert visibility[i] in visibility;
    }
  }

  lemma RowsSumBack(visibility: seq<string>, matched: set<nat>, rows: map<string, VisibilityRow>)
    requires matched <= Indices(|visibility|)
    requires RowsAreCounts(visibility, matched, rows) && rows.Keys == set v | v in visibility
    ensures SumsBack(rows, |matched|, |visibility|)
  {
    forall v | v in rows.Keys
      ensures TpOf(rows)(v) == |Labelled(visibility, matched, {v})|
      ensures TotalOf(rows)(v) == |Labelled(visibility, Indices(|visibility|), {v})|
      ensures rows[v].fn == rows[v].total - rows[v].tp
    {
      RowCounts(visibility, matched, v);
    }
    SumOfCounts(visibility, matched, rows.Keys, TpOf(rows));
    SumOfCounts(visibility, Indices(|visibility|), rows.Keys, TotalOf(rows));
    EveryIndexIsLabelled(visibility, matched, rows.Keys);
    EveryIndexIsLabelled(visibility, Indices(|visibility|), rows.Keys);
  }

  method CountByVisibility(visibility: seq<string>, matched: set<nat>) returns (rows: map<string, VisibilityRow>)
    requires matched <= Indices(|visibility|)
    ensures rows.Keys == set v | v in visibility
    ensures RowsAreCounts(visibility, matched, rows)
    ensures SumsBack(rows, |matched|, |visibility|)
  {
    rows := map[];
    ghost var all := set v | v in visibility;
    var pending := set v | v in visibility;
    while pending != {}
      invariant pending <= all && rows.Keys == all - pending
      invariant RowsAreCounts(visibility, matched, rows)
      decreases pending
    {
      var v :| v in pending;
      pending := pending - {v};
      rows := rows[v := RowFor(visibility, matched, v)];
    }
    RowsSumBack(visibility, matched, rows);
  }

  function Origins(boxes: seq<Box>): set<Origin> {
    set b | b in boxes :: (b.tileX, b.tileY)
  }

  lemma {:induction false} OriginsFew(boxes: seq<Box>)
    ensures |Origins(boxes)| <= |boxes|
  {
    if boxes == [] {
      assert Origins(boxes) == {};
    } else {
      OriginsFew(boxes[1..]);
      HeadAndTail(boxes);
      assert Origins(boxes) == Origins(boxes[1..]) + {(boxes[0].tileX, boxes[0].tileY)};
    }
  }

  // The counts of a result balance against the boxes they count.
  ghost predicate Balanced(r: ImageResult, truths: nat, scored: nat, candidates: nat) {
    && r.tp + r.fp == scored && r.tp + r.fn == truths
    && r.tileCandidates == r.mergedCandidates + r.tileFragments && r.tileFragments >= 0
    && r.mergedCandidates == scored + r.ignoredCandidates && r.ignoredCandidates >= 0
    && r.tileCandidates <= candidates && r.falsePositiveTiles <= r.fp
  }

  // Empty tiles with some candidate at the threshold, merged away or not.
  ghost function EmptyHits(candidates: seq<Box>, regions: seq<Box>, threshold: real, empties: set<Origin>): set<Origin>
  {
    set o | o in empties
            && exists b :: b in candidates && b.confidence >= threshold && (b.tileX, b.tileY) == o
                           && !Ignored(regions, b)
  }

  method EvaluateImage(truth: seq<Box>, regions: seq<Box>, candidates: seq<Box>, threshold: real, mergeOverlap: real,
                       visibility: Option<seq<string>>, emptyTileOrigins: set<Origin>)
    returns (r: Result<ImageResult, EvaluationError>, ghost pairs: Pairs)
    ensures r.Failure? <==> visibility.Some? && |visibility.value| != |truth|
    ensures r.Success? ==>
              var scored := Scored(candidates, regions, threshold, mergeOverlap);
              && IsGreedy(OverlapOf(scored, truth), |truth|, pairs, |scored|)
              && r.value.tp == |pairs|
              && Balanced(r.value, |truth|, |scored|, |candidates|)
              && r.value.falsePositiveTiles == |Origins(Unpaired(scored, pairs, |scored|))|
    ensures r.Success? ==>
              var thresholded := AtLeast(candidates, threshold);
              && r.value.tileCandidates == |thresholded|
              && r.value.mergedCandidates == |Merged(thresholded, mergeOverlap)|
    ensures r.Success? && visibility.None? ==> r.value.byVisibility == map[]
    ensures r.Success? && visibility.Some? ==>
              && (forall v :: v in r.value.byVisibility <==> v in visibility.value)
              && RowsAreCounts(visibility.value, pairs.Values, r.value.byVisibility)
              && SumsBack(r.value.byVisibility, r.value.tp, |truth|)
    ensures r.Success? ==>
              && r.value.emptyRealTiles == |emptyTileOrigins|
              && r.value.emptyRealTilesWithFalsePositive
                 == |EmptyHits(candidates, regions, threshold, emptyTileOrigins)|
  {
    pairs := map[];
    if visibility.Some? && |visibility.value| != |truth| {
      r := Failure(VisibilityCountMismatch);
      return;
    }
    var thresholded := AtLeast(candidates, threshold);
    var merged, fragments := MergeCandidates(thresholded, mergeOverlap);
    var scored := Filter(NotIgnored(regions), merged);
    ghost var overlap := OverlapOf(scored, truth);
    OverlapMeasures(scored, truth);
    var matched, unmatched, falsePositives;
    matched, unmatched, falsePositives, pairs := MatchGreedily(overlap, scored, truth);
    CountsBalance(overlap, scored, |truth|, pairs);
    OriginsFew(falsePositives);
    var emptyFalsePositives :=
      set b | b in thresholded && (b.tileX, b.tileY) in emptyTileOrigins && !Ignored(regions, b) :: (b.tileX, b.tileY);
    EmptyTilesHit(candidates, regions, threshold, emptyTileOrigins);
    var rows: map<string, VisibilityRow> := map[];
    if visibility.Some? {
      ValuesInRange(overlap, |scored|, |truth|, pairs);
      rows := CountByVisibility(visibility.value, matched);
    }
    r := Success(ImageResult(
      |matched|, |falsePositives|, |unmatched|, |thresholded|, |merged|, fragments, |merged| - |scored|,
      |Origins(falsePositives)|, |emptyTileOrigins|, |emptyFalsePositives|, rows));
  }

  lemma EmptyTilesHit(candidates: seq<Box>, regions: seq<Box>, threshold: real, empties: set<Origin>)
    ensures (set b | b in AtLeast(candidates, threshold) && (b.tileX, b.tileY) in empties && !Ignored(regions, b)
                   :: (b.tileX, b.tileY))
         == EmptyHits(candidates, regions, threshold, empties)
  {
    forall b: Box
      ensures b in AtLeast(candidates, threshold) <==> b in candidates && b.confidence >= threshold
    {
      assert Reaches(threshold)(b) <==> b.confidence >= threshold;
    }
  }

  // Whatever one-to-one matching a person could draw between the scored
  // predictions and the truths, greedy matching finds at least half as many.
  lemma TruePositivesAreHalfOptimal(truth: seq<Box>, regions: seq<Box>, candidates: seq<Box>,
                                    threshold: real, mergeOverlap: real, pairs: Pairs, other: Pairs)
    requires var scored := Scored(candidates, regions, threshold, mergeOverlap);
             && IsGreedy(OverlapOf(scored, truth), |truth|, pairs, |scored|)
             && IsMatching(OverlapOf(scored, truth), |scored|, |truth|, other)
    ensures |other| <= 2 * |pairs|
  {
    var scored := Scored(candidates, regions, threshold, mergeOverlap);
    GreedyIsHalfOptimal(OverlapOf(scored, truth), |scored|, |truth|, pairs, other);
  }

  // ---- Many images ----

  datatype Scalar =
    | TP | FP | FN | TileCandidates | MergedCandidates | TileFragments | IgnoredCandidates
    | FalsePositiveTiles | EmptyRealTiles | EmptyRealTilesWithFalsePositive

  function Read(r: ImageResult, key: Scalar): int {
    match key
    case TP => r.tp
    case FP => r.fp
    case FN => r.fn
    case TileCandidates => r.tileCandidates
    case MergedCandidates => r.mergedCandidates
    case TileFragments => r.tileFragments
    case IgnoredCandidates => r.ignoredCandidates
    case FalsePositiveTiles => r.falsePositiveTiles
    case EmptyRealTiles => r.emptyRealTiles
    case EmptyRealTilesWithFalsePositive => r.emptyRealTilesWithFalsePositive
  }

  function SumOf(rows: seq<ImageResult>, key: Scalar): int {
    if rows == [] then 0 else SumOf(rows[..|rows| - 1], key) + Read(rows[|rows| - 1], key)
  }

  // The sum over the images of one number each.
  ghost function SumBy(images: seq<ImageResult>, f: ImageResult -> int): int {
    if images == [] then 0 else f(images[0]) + SumBy(images[1..], f)
  }

  lemma {:induction false} SumByAppends(images: seq<ImageResult>, f: ImageResult -> int, r: ImageResult)
    ensures SumBy(images + [r], f) == SumBy(images, f) + f(r)
  {
    if images == [] {
      assert (images + [r])[1..] == [];
    } else {
      assert (images + [r])[1..] == images[1..] + [r];
      SumByAppends(images[1..], f, r);
    }
  }

  lemma {:induction false} SumOfIsSumBy(images: seq<ImageResult>, key: Scalar, f: ImageResult -> int)
    requires forall r :: f(r) == Read(r, key)
    ensures SumOf(images, key) == SumBy(images, f)
  {
    if images != [] {
      var n := |images| - 1;
      SumOfIsSumBy(images[..n], key, f);
      SumByAppends(images[..n], f, images[n]);
      assert images == images[..n] + [images[n]];
    }
  }

  // Each total adds up its own field.
  ghost predicate AreTotals(images: seq<ImageResult>, totals: map<Scalar, int>) {
    && (forall key: Scalar :: key in totals)
    && totals[TP] == SumBy(images, (r: ImageResult) => r.tp)
    && totals[FP] == SumBy(images, (r: ImageResult) => r.fp)
    && totals[FN] == SumBy(images, (r: ImageResult) => r.fn)
    && totals[TileCandidates] == SumBy(images, (r: ImageResult) => r.tileCandidates)
    && totals[MergedCandidates] == SumBy(images, (r: ImageResult) => r.mergedCandidates)
    && totals[TileFragments] == SumBy(images, (r: ImageResult) => r.tileFragments)
    && totals[IgnoredCandidates] == SumBy(images, (r: ImageResult) => r.ignoredCandidates)
    && totals[FalsePositiveTiles] == SumBy(images, (r: ImageResult) => r.falsePositiveTiles)
    && totals[EmptyRealTiles] == SumBy(images, (r: ImageResult) => r.emptyRealTiles)
    && totals[EmptyRealTilesWithFalsePositive]
       == SumBy(images, (r: ImageResult) => r.emptyRealTilesWithFalsePositive)
  }

  lemma SumsAreTotals(images: seq<ImageResult>, totals: map<Scalar, int>)
    requires forall key: Scalar :: key in totals && totals[key] == SumOf(images, key)
    ensures AreTotals(images, totals)
  {
    SumOfIsSumBy(images, TP, (r: ImageResult) => r.tp);
    SumOfIsSumBy(images, FP, (r: ImageResult) => r.fp);
    SumOfIsSumBy(images, FN, (r: ImageResult) => r.fn);
    SumOfIsSumBy(images, TileCandidates, (r: ImageResult) => r.tileCandidates);
    SumOfIsSumBy(images, MergedCandidates, (r: ImageResult) => r.mergedCandidates);
    SumOfIsSumBy(images, TileFragments, (r: ImageResult) => r.tileFragments);
    SumOfIsSumBy(images, IgnoredCandidates, (r: ImageResult) => r.ignoredCandidates);
    SumOfIsSumBy(images, FalsePositiveTiles, (r: ImageResult) => r.falsePositiveTiles);
    SumOfIsSumBy(images, EmptyRealTiles, (r: ImageResult) => r.emptyRealTiles);
    SumOfIsSumBy(images, EmptyRealTilesWithFalsePositive,
                 (r: ImageResult) => r.emptyRealTilesWithFalsePositive);
  }

  ghost function TpAt(v: string): ImageResult -> int {
    (r: ImageResult) => if v in r.byVisibility then r.byVisibility[v].tp else 0
  }

  ghost function TotalAt(v: string): ImageResult -> int {
    (r: ImageResult) => if v in r.byVisibility then r.byVisibility[v].total else 0
  }

  // A row adds up the images' rows of its label.
  ghost predicate IsRowSum(images: seq<ImageResult>, v: string, row: VisibilityRow) {
    && row.tp == SumBy(images, TpAt(v)) && row.total == SumBy(images, TotalAt(v))
    && row.fn == row.total - row.tp && IsShare(row.recall, row.tp, row.total, 1.0)
  }

  lemma {:induction false} VisibilityIsSumBy(images: seq<ImageResult>, v: string)
    ensures SumVisibility(images, v).tp == SumBy(images, TpAt(v))
    ensures SumVisibility(images, v).total == SumBy(images, TotalAt(v))
  {
    if images != [] {
      var n := |images| - 1;
      VisibilityIsSumBy(images[..n], v);
      SumByAppends(images[..n], TpAt(v), images[n]);
      SumByAppends(images[..n], TotalAt(v), images[n]);
      assert images == images[..n] + [images[n]];
    }
  }

  lemma FinalRowIsSum(images: seq<ImageResult>, v: string)
    ensures IsRowSum(images, v, FinalRow(SumVisibility(images, v)))
  {
    var t := SumVisibility(images, v);
    VisibilityIsSumBy(images, v);
    if t.total > 0 {
      QuotientIsShare(t.tp, t.total, 1.0);
    }
  }

  lemma RatioIsShare(a: int, b: int, empty: real)
    ensures IsShare(Ratio(a, b, empty), a, b, empty)
  {
    if b != 0 {
      QuotientIsShare(a, b, empty);
    }
  }

  function Ratio(a: int, b: int, empty: real): real {
    if b != 0 then a as real / b as real else empty
  }

  datatype Aggregate = Aggregate(
    totals: map<Scalar, int>, images: nat, tiles: int,
    precision: real, recall: real, falsePositivesPerTile: real, fragmentCandidatesPerTile: real,
    falsePositiveTileRate: real, emptyRealTileFalsePositiveRate: real,
    byVisibility: map<string, VisibilityRow>)

  function TallyTp(m: map<string, Tally>): string -> nat {
    v => if v in m then m[v].tp else 0
  }

  function TallyTotal(m: map<string, Tally>): string -> nat {
    v => if v in m then m[v].total else 0
  }

  function Raise(m: map<string, Tally>, v: string, tp: nat, total: nat): map<string, Tally> {
    var before := if v in m then m[v] else Tally(0, 0);
    m[v := Tally(before.tp + tp, before.total + total)]
  }

  // The tally of v after adding the rows of `done`.
  ghost function Plus(before: map<string, Tally>, rows: map<string, VisibilityRow>, done: set<string>, v: string): Tally
  {
    var start := if v in before then before[v] else Tally(0, 0);
    if v in done && v in rows then Tally(start.tp + rows[v].tp, start.total + rows[v].total) else start
  }

  ghost predicate AddedSoFar(before: map<string, Tally>, after: map<string, Tally>,
                             rows: map<string, VisibilityRow>, done: set<string>) {
    && after.Keys == before.Keys + done
    && forall v | v in after :: after[v] == Plus(before, rows, done, v)
  }

  // The inner loop: add one image's rows to the running tallies.
  method AddRows(before: map<string, Tally>, rows: map<string, VisibilityRow>) returns (after: map<string, Tally>)
    ensures AddedSoFar(before, after, rows, rows.Keys)
  {
    after := before;
    var pending := rows.Keys;
    while pending != {}
      invariant pending <= rows.Keys
      invariant AddedSoFar(before, after, rows, rows.Keys - pending)
      decreases pending
    {
      var v :| v in pending;
      pending := pending - {v};
      after := Raise(after, v, rows[v].tp, rows[v].total);
    }
  }

  ghost function SumVisibility(images: seq<ImageResult>, v: string): Tally {
    if images == [] then Tally(0, 0)
    else
      var before, rows := SumVisibility(images[..|images| - 1], v), images[|images| - 1].byVisibility;
      if v in rows then Tally(before.tp + rows[v].tp, before.total + rows[v].total) else before
  }

  ghost function LabelsOf(images: seq<ImageResult>): set<string> {
    set i, v | 0 <= i < |images| && v in images[i].byVisibility :: v
  }

  // Every image's rows account for its true positives and its truths.
  ghost predicate EachSumsBack(images: seq<ImageResult>) {
    forall i | 0 <= i < |images| ::
      SumsBack(images[i].byVisibility, images[i].tp, images[i].tp + images[i].fn)
  }

  ghost predicate TalliesSoFar(images: seq<ImageResult>, tallies: map<string, Tally>) {
    && tallies.Keys == LabelsOf(images)
    && (forall v | v in tallies :: tallies[v] == SumVisibility(images, v))
    && (EachSumsBack(images) ==>
          && Sum(tallies.Keys, TallyTp(tallies)) == SumOf(images, TP)
          && Sum(tallies.Keys, TallyTotal(tallies)) == SumOf(images, TP) + SumOf(images, FN))
  }

  lemma {:induction false} AbsentSums(images: seq<ImageResult>, v: string)
    requires v !in LabelsOf(images)
    ensures SumVisibility(images, v) == Tally(0, 0)
  {
    if images != [] {
      AbsentSums(images[..|images| - 1], v);
      assert v !in images[|images| - 1].byVisibility;
    }
  }

  lemma LabelsGrow(images: seq<ImageResult>)
    requires images != []
    ensures LabelsOf(images) == LabelsOf(images[..|images| - 1]) + images[|images| - 1].byVisibility.Keys
  {
    var n := |images| - 1;
    forall v | v in LabelsOf(images[..n])
      ensures v in LabelsOf(images)
    {
      var i :| 0 <= i < n && v in images[..n][i].byVisibility;
      assert v in images[i].byVisibility;
    }
    forall v | v in LabelsOf(images)
      ensures v in LabelsOf(images[..n]) || v in images[n].byVisibility
    {
      var i :| 0 <= i < |images| && v in images[i].byVisibility;
      assert i < n ==> v in images[..n][i].byVisibility;
    }
  }

  lemma PointwiseStep(images: seq<ImageResult>, before: map<string, Tally>, after: map<string, Tally>, v: string)
    requires images != [] && TalliesSoFar(images[..|images| - 1], before) && v in after
    requires var rows := images[|images| - 1].byVisibility; AddedSoFar(before, after, rows, rows.Keys)
    ensures after[v] == SumVisibility(images, v)
  {
    if v !in before {
      AbsentSums(images[..|images| - 1], v);
    }
  }

  lemma PrefixSumsBack(images: seq<ImageResult>)
    requires images != [] && EachSumsBack(images)
    ensures EachSumsBack(images[..|images| - 1])
    ensures var last := images[|images| - 1]; SumsBack(last.byVisibility, last.tp, last.tp + last.fn)
  {
    forall i | 0 <= i < |images| - 1
      ensures images[..|images| - 1][i] == images[i]
    {
    }
  }

  lemma SumsBackStep(images: seq<ImageResult>, before: map<string, Tally>, after: map<string, Tally>)
    requires images != []
    requires var prefix := images[..|images| - 1];
             && Sum(before.Keys, TallyTp(before)) == SumOf(prefix, TP)
             && Sum(before.Keys, TallyTotal(before)) == SumOf(prefix, TP) + SumOf(prefix, FN)
    requires var last := images[|images| - 1];
             && SumsBack(last.byVisibility, last.tp, last.tp + last.fn)
             && AddedSoFar(before, after, last.byVisibility, last.byVisibility.Keys)
    ensures Sum(after.Keys, TallyTp(after)) == SumOf(images, TP)
    ensures Sum(after.Keys, TallyTotal(after)) == SumOf(images, TP) + SumOf(images, FN)
  {
    TalliesAddUp(before, after, images[|images| - 1].byVisibility);
  }

  lemma TalliesAddUp(before: map<string, Tally>, after: map<string, Tally>, rows: map<string, VisibilityRow>)
    requires AddedSoFar(before, after, rows, rows.Keys)
    ensures Sum(after.Keys, TallyTp(after)) == Sum(before.Keys, TallyTp(before)) + Sum(rows.Keys, TpOf(rows))
    ensures Sum(after.Keys, TallyTotal(after)) == Sum(before.Keys, TallyTotal(before)) + Sum(rows.Keys, TotalOf(rows))
  {
    SumAdds(after.Keys, TallyTp(before), TpOf(rows), TallyTp(after));
    SumWidens(before.Keys, after.Keys, TallyTp(before));
    SumWidens(rows.Keys, after.Keys, TpOf(rows));
    SumAdds(after.Keys, TallyTotal(before), TotalOf(rows), TallyTotal(after));
    SumWidens(before.Keys, after.Keys, TallyTotal(before));
    SumWidens(rows.Keys, after.Keys, TotalOf(rows));
  }

  lemma TalliesStep(images: seq<ImageResult>, before: map<string, Tally>, after: map<string, Tally>)
    requires images != [] && TalliesSoFar(images[..|images| - 1], before)
    requires var rows := images[|images| - 1].byVisibility;
             AddedSoFar(before, after, rows, rows.Keys)
    ensures TalliesSoFar(images, after)
  {
    LabelsGrow(images);
    forall v | v in after
      ensures after[v] == SumVisibility(images, v)
    {
      PointwiseStep(images, before, after, v);
    }
    if EachSumsBack(images) {
      PrefixSumsBack(images);
      SumsBackStep(images, before, after);
    }
  }

  function FinalRow(t: Tally): VisibilityRow {
    VisibilityRow(t.tp, t.total - t.tp, t.total, if t.total > 0 then t.tp as real / t.total as real else 1.0)
  }

  lemma FinalRowsKeepSums(tallies: map<string, Tally>, rows: map<string, VisibilityRow>, tp: int, truths: int)
    requires rows == map v | v in tallies :: FinalRow(tallies[v])
    requires Sum(tallies.Keys, TallyTp(tallies)) == tp && Sum(tallies.Keys, TallyTotal(tallies)) == truths
    ensures SumsBack(rows, tp, truths)
  {
    assert rows.Keys == tallies.Keys;
    SumsAgree(tallies.Keys, TallyTp(tallies), TpOf(rows));
    SumsAgree(tallies.Keys, TallyTotal(tallies), TotalOf(rows));
  }

  lemma FinalRowsSum(images: seq<ImageResult>, tallies: map<string, Tally>, rows: map<string, VisibilityRow>)
    requires TalliesSoFar(images, tallies) && rows == map v | v in tallies :: FinalRow(tallies[v])
    ensures EachSumsBack(images) ==> SumsBack(rows, SumOf(images, TP), SumOf(images, TP) + SumOf(images, FN))
  {
    if EachSumsBack(images) {
      FinalRowsKeepSums(tallies, rows, SumOf(images, TP), SumOf(images, TP) + SumOf(images, FN));
    }
  }

  // The loops over the images' visibility rows.
  method TallyVisibility(images: seq<ImageResult>) returns (rows: map<string, VisibilityRow>)
    ensures rows.Keys == LabelsOf(images)
    ensures forall v | v in rows :: rows[v] == FinalRow(SumVisibility(images, v))
    ensures EachSumsBack(images) ==> SumsBack(rows, SumOf(images, TP), SumOf(images, TP) + SumOf(images, FN))
  {
    var tallies: map<string, Tally> := map[];
    for i := 0 to |images|
      invariant TalliesSoFar(images[..i], tallies)
    {
      var after := AddRows(tallies, images[i].byVisibility);
      assert images[..i + 1][..i] == images[..i];
      TalliesStep(images[..i + 1], tallies, after);
      tallies := after;
    }
    assert images[..|images|] == images;
    rows := map v | v in tallies :: FinalRow(tallies[v]);
    FinalRowsSum(images, tallies, rows);
  }

  const SCALAR_KEYS: set<Scalar> :=
    {TP, FP, FN, TileCandidates, MergedCandidates, TileFragments, IgnoredCandidates,
     FalsePositiveTiles, EmptyRealTiles, EmptyRealTilesWithFalsePositive}

  lemma EveryScalar(key: Scalar)
    ensures key in SCALAR_KEYS
  {
  }

  method ScalarTotals(images: seq<ImageResult>) returns (r: map<Scalar, int>)
    ensures forall key: Scalar :: key in r && r[key] == SumOf(images, key)
  {
    forall key: Scalar
      ensures key in SCALAR_KEYS
    {
      EveryScalar(key);
    }
    r := map key | key in SCALAR_KEYS :: SumOf(images, key);
  }

  // What the rates are shares of.
  ghost predicate AreRates(r: Aggregate) {
    && (forall key: Scalar :: key in r.totals)
    && IsShare(r.precision, r.totals[TP], r.totals[TP] + r.totals[FP], 1.0)
    && IsShare(r.recall, r.totals[TP], r.totals[TP] + r.totals[FN], 1.0)
    && IsShare(r.falsePositivesPerTile, r.totals[FP], r.tiles, 0.0)
    && IsShare(r.fragmentCandidatesPerTile, r.totals[TileFragments], r.tiles, 0.0)
    && IsShare(r.falsePositiveTileRate, r.totals[FalsePositiveTiles], r.tiles, 0.0)
    && IsShare(r.emptyRealTileFalsePositiveRate,
               r.totals[EmptyRealTilesWithFalsePositive], r.totals[EmptyRealTiles], 0.0)
  }

  function Rated(totals: map<Scalar, int>, images: nat, tiles: int, rows: map<string, VisibilityRow>): (r: Aggregate)
    requires forall key: Scalar :: key in totals
  {
    Aggregate(
      totals, images, tiles,
      Ratio(totals[TP], totals[TP] + totals[FP], 1.0),
      Ratio(totals[TP], totals[TP] + totals[FN], 1.0),
      Ratio(totals[FP], tiles, 0.0),
      Ratio(totals[TileFragments], tiles, 0.0),
      Ratio(totals[FalsePositiveTiles], tiles, 0.0),
      Ratio(totals[EmptyRealTilesWithFalsePositive], totals[EmptyRealTiles], 0.0),
      rows)
  }

  lemma RatedHasRates(totals: map<Scalar, int>, images: nat, tiles: int, rows: map<string, VisibilityRow>)
    requires forall key: Scalar :: key in totals
    ensures AreRates(Rated(totals, images, tiles, rows))
  {
    RatioIsShare(totals[TP], totals[TP] + totals[FP], 1.0);
    RatioIsShare(totals[TP], totals[TP] + totals[FN], 1.0);
    RatioIsShare(totals[FP], tiles, 0.0);
    RatioIsShare(totals[TileFragments], tiles, 0.0);
    RatioIsShare(totals[FalsePositiveTiles], tiles, 0.0);
    RatioIsShare(totals[EmptyRealTilesWithFalsePositive], totals[EmptyRealTiles], 0.0);
  }

  // Aggregation adds up every count and row and takes the rates of the totals; when each
  // image's visibility rows account for its truths, so do the aggregate's.
  method AggregateMetrics(images: seq<ImageResult>, tiles: int) returns (r: Aggregate)
    ensures AreTotals(images, r.totals) && AreRates(r) && r.images == |images| && r.tiles == tiles
    ensures r.byVisibility.Keys == LabelsOf(images)
    ensures forall v | v in r.byVisibility :: IsRowSum(images, v, r.byVisibility[v])
    ensures EachSumsBack(images) ==> SumsBack(r.byVisibility, r.totals[TP], r.totals[TP] + r.totals[FN])
  {
    var totals := ScalarTotals(images);
    var rows := TallyVisibility(images);
    SumsAreTotals(images, totals);
    forall v | v in rows
      ensures IsRowSum(images, v, rows[v])
    {
      FinalRowIsSum(images, v);
    }
    RatedHasRates(totals, |images|, tiles, rows);
    r := Rated(totals, |images|, tiles, rows);
  }
}
