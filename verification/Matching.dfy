// evaluate_image: greedy matching of ranked predictions to ground truth.
module Matching {
  import opened Outcomes
  import opened Merge

  const IOU_THRESHOLD := 0.5

  // How much prediction p overlaps truth t, both given by position.
  type Overlap = (nat, nat) -> real

  function OverlapOf(scored: seq<Box>, truth: seq<Box>): Overlap {
    (p: nat, t: nat) => if p < |scored| && t < |truth| then Iou(scored[p], truth[t]) else 0.0
  }

  // Which truth each matched prediction took.
  type Pairs = map<nat, nat>

  function Indices(n: nat): (r: set<nat>)
    ensures forall i :: i in r <==> 0 <= i < n
    ensures |r| == n
  {
    if n == 0 then {} else Indices(n - 1) + {n - 1}
  }

  function Restrict(pairs: Pairs, keep: set<nat>): Pairs {
    map p | p in pairs && p in keep :: pairs[p]
  }

  lemma TakenBy(pairs: Pairs, t: nat) returns (p: nat)
    requires t in pairs.Values
    ensures p in pairs && pairs[p] == t
  {
    p :| p in pairs && pairs[p] == t;
  }

  ghost predicate Injective(pairs: Pairs) {
    forall p, q {:trigger pairs[p], pairs[q]} | p in pairs && q in pairs && pairs[p] == pairs[q] :: p == q
  }

  // A one-to-one matching whose pairs all overlap enough.
  ghost predicate IsMatching(overlap: Overlap, predictions: nat, truths: nat, pairs: Pairs) {
    && Injective(pairs)
    && forall p | p in pairs :: p < predictions && pairs[p] < truths && overlap(p, pairs[p]) >= IOU_THRESHOLD
  }

  // (overlap, index) pairs compare lexicographically, as Python tuples do.
  predicate NoBetter(a: real, i: int, b: real, j: int) {
    a < b || (a == b && i <= j)
  }

  // Truth t was still free when prediction p was considered.
  ghost predicate FreeFor(pairs: Pairs, p: nat, t: nat) {
    forall q | q in pairs && q < p :: pairs[q] != t
  }

  // Prediction p took its best free truth, or had none that overlaps enough.
  ghost predicate ChoseBest(overlap: Overlap, truths: nat, pairs: Pairs, p: nat) {
    forall t: nat | t < truths && FreeFor(pairs, p, t) ::
      if p in pairs
      then NoBetter(overlap(p, t), t, overlap(p, pairs[p]), pairs[p])
      else overlap(p, t) < IOU_THRESHOLD
  }

  // The first `done` predictions have been matched greedily, in rank order.
  ghost predicate IsGreedy(overlap: Overlap, truths: nat, pairs: Pairs, done: nat) {
    && IsMatching(overlap, done, truths, pairs)
    && forall p: nat | p < done :: ChoseBest(overlap, truths, pairs, p)
  }

  lemma TakeKeepsGreedy(overlap: Overlap, truths: nat, pairs: Pairs, i: nat, t: nat)
    requires IsGreedy(overlap, truths, pairs, i)
    requires t < truths && t !in pairs.Values && overlap(i, t) >= IOU_THRESHOLD
    requires forall u: nat | u < truths && u !in pairs.Values :: NoBetter(overlap(i, u), u, overlap(i, t), t)
    ensures IsGreedy(overlap, truths, pairs[i := t], i + 1)
  {
    var pairs' := pairs[i := t];
    assert forall p | p in pairs :: pairs[p] in pairs.Values;
    forall p: nat | p < i
      ensures ChoseBest(overlap, truths, pairs', p)
    {
      assert ChoseBest(overlap, truths, pairs, p);
      forall u: nat | FreeFor(pairs', p, u)
        ensures FreeFor(pairs, p, u)
      {
        assert forall q | q in pairs && q < p :: pairs'[q] == pairs[q];
      }
    }
    forall u: nat | FreeFor(pairs', i, u)
      ensures u !in pairs.Values
    {
      FreeMeansUntaken(pairs, pairs', i, u);
    }
  }

  lemma FreeMeansUntaken(pairs: Pairs, later: Pairs, i: nat, u: nat)
    requires forall p | p in pairs :: p < i && p in later && later[p] == pairs[p]
    requires FreeFor(later, i, u)
    ensures u !in pairs.Values
  {
    if u in pairs.Values {
      var q := TakenBy(pairs, u);
    }
  }

  lemma MissKeepsGreedy(overlap: Overlap, truths: nat, pairs: Pairs, i: nat)
    requires IsGreedy(overlap, truths, pairs, i)
    requires forall u: nat | u < truths && u !in pairs.Values :: overlap(i, u) < IOU_THRESHOLD
    ensures IsGreedy(overlap, truths, pairs, i + 1)
  {
    forall u: nat | FreeFor(pairs, i, u)
      ensures u !in pairs.Values
    {
      FreeMeansUntaken(pairs, pairs, i, u);
    }
  }

  lemma ValuesGrow(pairs: Pairs, i: nat, t: nat)
    requires i !in pairs
    ensures pairs[i := t].Values == pairs.Values + {t}
  {
    var pairs' := pairs[i := t];
    assert pairs'[i] == t;
    forall v | v in pairs.Values
      ensures v in pairs'.Values
    {
      var p :| p in pairs && pairs[p] == v;
      assert pairs'[p] == v;
    }
  }

  // The predictions below `done` that took no truth, in rank order.
  ghost function Unpaired(scored: seq<Box>, pairs: Pairs, done: nat): (r: seq<Box>)
    requires done <= |scored|
  {
    if done == 0 then []
    else Unpaired(scored, pairs, done - 1) + if done - 1 in pairs then [] else [scored[done - 1]]
  }

  lemma {:induction false} UnpairedFrame(scored: seq<Box>, pairs: Pairs, p: nat, t: nat, done: nat)
    requires done <= p && done <= |scored|
    ensures Unpaired(scored, pairs[p := t], done) == Unpaired(scored, pairs, done)
  {
    if done > 0 {
      UnpairedFrame(scored, pairs, p, t, done - 1);
    }
  }

  ghost predicate Measures(overlap: Overlap, scored: seq<Box>, truth: seq<Box>) {
    forall p: nat, t: nat {:trigger Iou(scored[p], truth[t])} | p < |scored| && t < |truth| ::
      overlap(p, t) == Iou(scored[p], truth[t])
  }

  lemma OverlapMeasures(scored: seq<Box>, truth: seq<Box>)
    ensures Measures(OverlapOf(scored, truth), scored, truth)
  {
  }

  // The free truth with the largest (overlap, index).
  method BestChoice(ghost overlap: Overlap, scored: seq<Box>, truth: seq<Box>, i: nat, unmatched: set<nat>)
    returns (best: real, index: int)
    requires Measures(overlap, scored, truth)
    requires i < |scored| && forall t | t in unmatched :: t < |truth|
    ensures unmatched == {} ==> best == 0.0 && index == -1
    ensures unmatched != {} ==> index >= 0 && index in unmatched && best == overlap(i, index)
    ensures forall t | t in unmatched :: NoBetter(overlap(i, t), t, best, index)
  {
    best, index := 0.0, -1;
    var choices := unmatched;
    while choices != {}
      invariant choices <= unmatched
      invariant index == -1 ==> choices == unmatched && best == 0.0
      invariant index != -1 ==> index >= 0 && index in unmatched && best == overlap(i, index)
      invariant forall t | t in unmatched && t !in choices :: NoBetter(overlap(i, t), t, best, index)
      decreases choices
    {
      var t :| t in choices;
      choices := choices - {t};
      var candidate := Iou(scored[i], truth[t]);
      if index == -1 || NoBetter(best, index, candidate, t) {
        best, index := candidate, t;
      }
    }
  }

  // The loop's variables after `done` predictions.
  ghost predicate MatchState(overlap: Overlap, scored: seq<Box>, truths: nat, pairs: Pairs, done: nat,
                             matched: set<nat>, unmatched: set<nat>, falsePositives: seq<Box>)
    requires done <= |scored|
  {
    && IsGreedy(overlap, truths, pairs, done)
    && matched == pairs.Values && unmatched == Indices(truths) - matched
    && falsePositives == Unpaired(scored, pairs, done)
  }

  lemma TakeStep(overlap: Overlap, scored: seq<Box>, truths: nat, pairs: Pairs, i: nat,
                 matched: set<nat>, unmatched: set<nat>, falsePositives: seq<Box>, t: nat)
    requires i < |scored| && MatchState(overlap, scored, truths, pairs, i, matched, unmatched, falsePositives)
    requires t in unmatched && overlap(i, t) >= IOU_THRESHOLD
    requires forall u | u in unmatched :: NoBetter(overlap(i, u), u, overlap(i, t), t)
    ensures MatchState(overlap, scored, truths, pairs[i := t], i + 1, matched + {t}, unmatched - {t}, falsePositives)
  {
    assert i !in pairs;
    TakeKeepsGreedy(overlap, truths, pairs, i, t);
    ValuesGrow(pairs, i, t);
    UnpairedFrame(scored, pairs, i, t, i);
  }

  lemma MissStep(overlap: Overlap, scored: seq<Box>, truths: nat, pairs: Pairs, i: nat,
                 matched: set<nat>, unmatched: set<nat>, falsePositives: seq<Box>)
    requires i < |scored| && MatchState(overlap, scored, truths, pairs, i, matched, unmatched, falsePositives)
    requires forall u | u in unmatched :: overlap(i, u) < IOU_THRESHOLD
    ensures MatchState(overlap, scored, truths, pairs, i + 1, matched, unmatched, falsePositives + [scored[i]])
  {
    MissKeepsGreedy(overlap, truths, pairs, i);
  }

  // The matching loop. `pairs` records who took what; the source keeps the sets
  // of matched and unmatched truths and the list of false positives.
  method MatchGreedily(ghost overlap: Overlap, scored: seq<Box>, truth: seq<Box>)
    returns (matched: set<nat>, unmatched: set<nat>, falsePositives: seq<Box>, ghost pairs: Pairs)
    requires Measures(overlap, scored, truth)
    ensures MatchState(overlap, scored, |truth|, pairs, |scored|, matched, unmatched, falsePositives)
  {
    unmatched := Indices(|truth|);
    matched := {};
    falsePositives := [];
    pairs := map[];
    for i := 0 to |scored|
      invariant MatchState(overlap, scored, |truth|, pairs, i, matched, unmatched, falsePositives)
    {
      var best, index := BestChoice(overlap, scored, truth, i, unmatched);
      if best >= IOU_THRESHOLD {
        var taken: nat := index;
        TakeStep(overlap, scored, |truth|, pairs, i, matched, unmatched, falsePositives, taken);
        unmatched := unmatched - {taken};
        matched := matched + {taken};
        pairs := pairs[i := taken];
      } else {
        MissStep(overlap, scored, |truth|, pairs, i, matched, unmatched, falsePositives);
        falsePositives := falsePositives + [scored[i]];
      }
    }
  }

  // ---- What greedy matching guarantees ----

  // No unmatched prediction overlaps an unmatched truth enough to be paired.
  lemma GreedyIsMaximal(overlap: Overlap, predictions: nat, truths: nat, pairs: Pairs, p: nat, t: nat)
    requires IsGreedy(overlap, truths, pairs, predictions)
    requires p < predictions && p !in pairs && t < truths && t !in pairs.Values
    ensures overlap(p, t) < 0.5
  {
    assert ChoseBest(overlap, truths, pairs, p);
    assert forall q | q in pairs :: pairs[q] in pairs.Values;
    assert FreeFor(pairs, p, t);
  }

  lemma {:induction false} InjectiveSize(pairs: Pairs)
    requires Injective(pairs)
    ensures |pairs.Values| == |pairs|
  {
    if pairs != map[] {
      var p :| p in pairs;
      var rest := pairs - {p};
      assert rest.Keys == pairs.Keys - {p};
      InjectiveSize(rest);
      assert pairs == rest[p := pairs[p]];
      ValuesGrow(rest, p, pairs[p]);
    } else {
      assert pairs.Values == {};
    }
  }

  lemma RestrictIsInjective(pairs: Pairs, keep: set<nat>)
    requires Injective(pairs)
    ensures Injective(Restrict(pairs, keep))
    ensures |Restrict(pairs, keep)| == |pairs.Keys * keep|
  {
    assert Restrict(pairs, keep).Keys == pairs.Keys * keep;
  }

  // The pairs of any matching whose prediction the greedy pass left unmatched
  // all use truths that it did match.
  lemma ApartPairsUseTakenTruths(overlap: Overlap, predictions: nat, truths: nat, greedy: Pairs, other: Pairs)
    requires IsGreedy(overlap, truths, greedy, predictions)
    requires IsMatching(overlap, predictions, truths, other)
    ensures Restrict(other, other.Keys - greedy.Keys).Values <= greedy.Values
  {
    var apart := Restrict(other, other.Keys - greedy.Keys);
    forall t | t in apart.Values
      ensures t in greedy.Values
    {
      var p := TakenBy(apart, t);
      if t !in greedy.Values {
        GreedyIsMaximal(overlap, predictions, truths, greedy, p, t);
      }
    }
  }

  // Any matching pairs each of its predictions or its truth with something the
  // greedy pass matched, so it is at most twice as large.
  lemma GreedyIsHalfOptimal(overlap: Overlap, predictions: nat, truths: nat, greedy: Pairs, other: Pairs)
    requires IsGreedy(overlap, truths, greedy, predictions)
    requires IsMatching(overlap, predictions, truths, other)
    ensures |other| <= 2 * |greedy|
  {
    var apartKeys := other.Keys - greedy.Keys;
    var apart := Restrict(other, apartKeys);
    ApartPairsUseTakenTruths(overlap, predictions, truths, greedy, other);
    RestrictIsInjective(other, apartKeys);
    InjectiveSize(apart);
    InjectiveSize(greedy);
    SubsetSize(apart.Values, greedy.Values);
    SubsetSize(other.Keys * greedy.Keys, greedy.Keys);
    assert other.Keys * apartKeys == apartKeys;
    assert other.Keys == other.Keys * greedy.Keys + apartKeys;
    assert |other| == |other.Keys| && |greedy| == |greedy.Keys|;
  }

  lemma {:induction false} UnpairedSize(scored: seq<Box>, pairs: Pairs, done: nat)
    requires done <= |scored|
    ensures |Unpaired(scored, pairs, done)| + |set p | p in pairs && p < done| == done
  {
    if done == 0 {
      assert (set p | p in pairs && p < done) == {};
    } else {
      UnpairedSize(scored, pairs, done - 1);
      var before := set p | p in pairs && p < done - 1;
      assert (set p | p in pairs && p < done) == before + if done - 1 in pairs then {done - 1} else {};
    }
  }

  lemma ValuesInRange(overlap: Overlap, predictions: nat, truths: nat, pairs: Pairs)
    requires IsMatching(overlap, predictions, truths, pairs)
    ensures pairs.Values <= Indices(truths)
  {
    forall t | t in pairs.Values
      ensures t in Indices(truths)
    {
      var p := TakenBy(pairs, t);
    }
  }

  lemma FalsePositivesBalance(scored: seq<Box>, pairs: Pairs)
    requires forall p | p in pairs :: p < |scored|
    ensures |pairs| + |Unpaired(scored, pairs, |scored|)| == |scored|
  {
    UnpairedSize(scored, pairs, |scored|);
    assert (set p | p in pairs && p < |scored|) == pairs.Keys;
  }

  lemma MissesBalance(taken: set<nat>, truths: nat)
    requires taken <= Indices(truths)
    ensures |taken| + |Indices(truths) - taken| == truths
  {
    assert Indices(truths) == taken + (Indices(truths) - taken);
  }

  // True and false positives are the scored predictions, true positives and
  // misses the truths.
  lemma CountsBalance(overlap: Overlap, scored: seq<Box>, truths: nat, pairs: Pairs)
    requires IsMatching(overlap, |scored|, truths, pairs)
    ensures |pairs.Values| == |pairs|
    ensures |pairs.Values| + |Unpaired(scored, pairs, |scored|)| == |scored|
    ensures |pairs.Values| + |Indices(truths) - pairs.Values| == truths
  {
    InjectiveSize(pairs);
    FalsePositivesBalance(scored, pairs);
    ValuesInRange(overlap, |scored|, truths, pairs);
    MissesBalance(pairs.Values, truths);
  }
}
