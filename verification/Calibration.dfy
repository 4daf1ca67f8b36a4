// _select: a calibration subset that covers every feature greedily, rarest first,
// and is then filled up to the requested size.
module Calibration {
  import opened Outcomes
  import opened Sorting

  datatype Candidate = Candidate(tile: string, features: seq<string>)

  datatype SelectError = CountNotPositive | TooFewCandidates | CannotCover(values: set<string>)

  function Features(cs: seq<Candidate>): set<string> {
    set c, f | c in cs && f in c.features :: f
  }

  // ---- Rarity ----

  function Occurrences(features: seq<string>, f: string): nat {
    if features == [] then 0 else (if features[0] == f then 1 else 0) + Occurrences(features[1..], f)
  }

  // How many times the feature occurs among all candidates.
  function Frequency(cs: seq<Candidate>, f: string): nat {
    if cs == [] then 0 else Occurrences(cs[0].features, f) + Frequency(cs[1..], f)
  }

  lemma {:induction false} OccursOnce(features: seq<string>, f: string)
    requires f in features
    ensures Occurrences(features, f) >= 1
  {
    if features[0] != f {
      OccursOnce(features[1..], f);
    }
  }

  lemma {:induction false} FeatureIsFrequent(cs: seq<Candidate>, f: string)
    requires f in Features(cs)
    ensures Frequency(cs, f) >= 1
  {
    var c :| c in cs && f in c.features;
    if c == cs[0] {
      OccursOnce(c.features, f);
    } else {
      assert c in cs[1..];
      FeatureIsFrequent(cs[1..], f);
    }
  }

  function Weight(cs: seq<Candidate>, f: string): real {
    if Frequency(cs, f) == 0 then 0.0 else 1.0 / Frequency(cs, f) as real
  }

  function Rarity(cs: seq<Candidate>, values: seq<string>): real {
    if values == [] then 0.0 else Weight(cs, values[0]) + Rarity(cs, values[1..])
  }

  lemma WeightIsPositive(cs: seq<Candidate>, f: string)
    ensures Weight(cs, f) >= 0.0
    ensures f in Features(cs) ==> Weight(cs, f) > 0.0
  {
    if f in Features(cs) {
      FeatureIsFrequent(cs, f);
    }
  }

  lemma {:induction false} RarityIsPositive(cs: seq<Candidate>, values: seq<string>)
    requires forall v | v in values :: v in Features(cs)
    ensures Rarity(cs, values) >= 0.0
    ensures Rarity(cs, values) > 0.0 <==> values != []
  {
    if values != [] {
      WeightIsPositive(cs, values[0]);
      RarityIsPositive(cs, values[1..]);
    }
  }

  // The uncovered ones among the features, each once.
  function Covered(features: seq<string>, uncovered: set<string>): (r: seq<string>)
    ensures forall f :: f in r <==> f in features && f in uncovered
  {
    if features == [] then []
    else
      assert forall f :: f in features <==> f == features[0] || f in features[1..];
      if features[0] in uncovered then [features[0]] + Covered(features[1..], uncovered - {features[0]})
      else Covered(features[1..], uncovered)
  }

  // ---- The most useful candidate ----

  datatype Use = Use(rarity: real, covered: nat, rank: int)

  predicate AtLeastAsUseful(a: Use, b: Use) {
    if a.rarity != b.rarity then a.rarity > b.rarity
    else if a.covered != b.covered then a.covered > b.covered
    else a.rank <= b.rank
  }

  function UseOf(cs: seq<Candidate>, c: Candidate, uncovered: set<string>, rank: string -> int): Use {
    var covered := Covered(c.features, uncovered);
    Use(Rarity(cs, covered), |covered|, rank(c.tile))
  }

  // The position of the first of the most useful.
  function Best(cs: seq<Candidate>, remaining: seq<Candidate>, uncovered: set<string>, rank: string -> int): (i: nat)
    requires remaining != []
    ensures i < |remaining|
    ensures forall j | 0 <= j < |remaining| ::
              AtLeastAsUseful(UseOf(cs, remaining[i], uncovered, rank), UseOf(cs, remaining[j], uncovered, rank))
  {
    var n := |remaining| - 1;
    if n == 0 then 0
    else
      var before := Best(cs, remaining[..n], uncovered, rank);
      var use := UseOf(cs, remaining[n], uncovered, rank);
      assert forall j | 0 <= j < n :: remaining[..n][j] == remaining[j];
      if AtLeastAsUseful(UseOf(cs, remaining[before], uncovered, rank), use) then before else n
  }

  // A candidate with something uncovered is more useful than one with nothing.
  lemma BestCoversSomething(cs: seq<Candidate>, remaining: seq<Candidate>, uncovered: set<string>, rank: string -> int)
    requires uncovered <= Features(cs) && Features(remaining) * uncovered != {}
    ensures remaining != []
    ensures exists f :: f in remaining[Best(cs, remaining, uncovered, rank)].features && f in uncovered
  {
    var f :| f in Features(remaining) && f in uncovered;
    var c :| c in remaining && f in c.features;
    var j :| 0 <= j < |remaining| && remaining[j] == c;
    var best := remaining[Best(cs, remaining, uncovered, rank)];
    var useful, covered := Covered(c.features, uncovered), Covered(best.features, uncovered);
    RarityIsPositive(cs, useful);
    RarityIsPositive(cs, covered);
    assert f in useful;
    assert AtLeastAsUseful(UseOf(cs, best, uncovered, rank), UseOf(cs, remaining[j], uncovered, rank));
    assert covered[0] in covered;
  }

  // ---- The greedy run ----

  datatype Greedy = Greedy(selected: seq<Candidate>, remaining: seq<Candidate>, uncovered: set<string>)

  function Without<A>(s: seq<A>, i: nat): seq<A>
    requires i < |s|
  {
    s[..i] + s[i + 1..]
  }

  function Pick(g: Greedy, cs: seq<Candidate>, rank: string -> int): Greedy
    requires g.remaining != []
  {
    var i := Best(cs, g.remaining, g.uncovered, rank);
    var chosen := g.remaining[i];
    Greedy(g.selected + [chosen], Without(g.remaining, i), g.uncovered - set f | f in chosen.features)
  }

  function Next(g: Greedy, cs: seq<Candidate>, rank: string -> int): Greedy {
    if g.uncovered == {} || g.remaining == [] then g else Pick(g, cs, rank)
  }

  // The state after at most n picks; picking stops when everything is covered.
  function Run(cs: seq<Candidate>, rank: string -> int, n: nat): Greedy {
    if n == 0 then Greedy([], cs, Features(cs))
    else Next(Run(cs, rank, n - 1), cs, rank)
  }

  lemma RunStep(cs: seq<Candidate>, rank: string -> int, n: nat)
    ensures Run(cs, rank, n + 1) == Next(Run(cs, rank, n), cs, rank)
  {
  }

  // Nothing is lost or invented, what is uncovered is what nobody selected has, and
  // every pick covered at least one new feature.
  ghost predicate Consistent(g: Greedy, cs: seq<Candidate>) {
    && multiset(g.selected) + multiset(g.remaining) == multiset(cs)
    && g.uncovered == Features(cs) - Features(g.selected)
    && |g.selected| + |g.uncovered| <= |Features(cs)|
  }

  lemma WithoutMultiset<A>(s: seq<A>, i: nat)
    requires i < |s|
    ensures multiset(Without(s, i)) + multiset{s[i]} == multiset(s)
  {
    assert s == s[..i] + [s[i]] + s[i + 1..];
  }

  lemma FeaturesOfOneMore(cs: seq<Candidate>, c: Candidate)
    ensures Features(cs + [c]) == Features(cs) + set f | f in c.features
  {
    assert forall x :: x in cs + [c] <==> x in cs || x == c;
  }

  // Whatever is uncovered, somebody remaining has it.
  lemma UncoveredRemains(g: Greedy, cs: seq<Candidate>, f: string)
    requires Consistent(g, cs) && f in g.uncovered
    ensures f in Features(g.remaining)
  {
    var c :| c in cs && f in c.features;
    assert c in multiset(cs);
    assert c in multiset(g.selected) || c in multiset(g.remaining);
    assert c !in g.selected;
  }

  lemma PickIsUseful(g: Greedy, cs: seq<Candidate>, rank: string -> int)
    requires Consistent(g, cs) && g.uncovered != {}
    ensures g.remaining != [] && Pick(g, cs, rank).uncovered < g.uncovered
  {
    var f :| f in g.uncovered;
    UncoveredRemains(g, cs, f);
    assert f in Features(g.remaining) * g.uncovered;
    BestCoversSomething(cs, g.remaining, g.uncovered, rank);
  }

  lemma MoveKeepsMultiset<A>(selected: seq<A>, remaining: seq<A>, i: nat)
    requires i < |remaining|
    ensures multiset(selected + [remaining[i]]) + multiset(Without(remaining, i))
            == multiset(selected) + multiset(remaining)
  {
    WithoutMultiset(remaining, i);
  }

  lemma PickKeepsConsistent(g: Greedy, cs: seq<Candidate>, rank: string -> int)
    requires Consistent(g, cs) && g.uncovered != {} && g.remaining != []
    ensures Consistent(Pick(g, cs, rank), cs)
  {
    var after := Pick(g, cs, rank);
    var i := Best(cs, g.remaining, g.uncovered, rank);
    PickIsUseful(g, cs, rank);
    MoveKeepsMultiset(g.selected, g.remaining, i);
    FeaturesOfOneMore(g.selected, g.remaining[i]);
    SubsetSize(after.uncovered, g.uncovered);
  }

  ghost predicate ConsistentAfter(g: Greedy, cs: seq<Candidate>, n: nat) {
    Consistent(g, cs) && |g.selected| <= n && (g.uncovered != {} ==> |g.selected| == n)
  }

  lemma NextKeepsConsistent(g: Greedy, cs: seq<Candidate>, rank: string -> int, n: nat)
    requires ConsistentAfter(g, cs, n)
    ensures ConsistentAfter(Next(g, cs, rank), cs, n + 1)
  {
    if g.uncovered != {} {
      PickIsUseful(g, cs, rank);
      PickKeepsConsistent(g, cs, rank);
    }
  }

  lemma StartIsConsistent(cs: seq<Candidate>)
    ensures ConsistentAfter(Greedy([], cs, Features(cs)), cs, 0)
  {
    assert Features([]) == {};
  }

  lemma {:induction false} RunIsConsistent(cs: seq<Candidate>, rank: string -> int, n: nat)
    ensures ConsistentAfter(Run(cs, rank, n), cs, n)
  {
    if n == 0 {
      StartIsConsistent(cs);
    } else {
      RunIsConsistent(cs, rank, n - 1);
      NextKeepsConsistent(Run(cs, rank, n - 1), cs, rank, n - 1);
    }
  }

  // As many picks as there are features always suffice.
  lemma FeaturesSuffice(cs: seq<Candidate>, rank: string -> int, n: nat)
    requires |Features(cs)| <= n
    ensures Run(cs, rank, n).uncovered == {}
  {
    RunIsConsistent(cs, rank, n);
  }

  // Picking every candidate always suffices.
  lemma EveryoneSuffices(cs: seq<Candidate>, rank: string -> int)
    ensures Run(cs, rank, |cs|).uncovered == {}
  {
    var g := Run(cs, rank, |cs|);
    RunIsConsistent(cs, rank, |cs|);
    SizesAdd(g, cs);
    if f :| f in g.uncovered {
      UncoveredRemains(g, cs, f);
    }
  }

  lemma BigCountsSuffice(cs: seq<Candidate>, rank: string -> int, n: nat)
    ensures |Features(cs)| <= n || n == |cs| ==> Run(cs, rank, n).uncovered == {}
  {
    if |Features(cs)| <= n {
      FeaturesSuffice(cs, rank, n);
    } else if n == |cs| {
      EveryoneSuffices(cs, rank);
    }
  }

  lemma {:induction false} RunStays(cs: seq<Candidate>, rank: string -> int, n: nat, m: nat)
    requires n <= m && Run(cs, rank, n).uncovered == {}
    ensures Run(cs, rank, m) == Run(cs, rank, n)
    decreases m
  {
    if n < m {
      RunStays(cs, rank, n, m - 1);
    }
  }

  function ByRank(rank: string -> int): (Candidate, Candidate) -> bool {
    (a: Candidate, b: Candidate) => rank(a.tile) <= rank(b.tile)
  }

  lemma ByRankIsRanking(rank: string -> int)
    ensures IsRanking(ByRank(rank))
  {
  }

  // ---- _select ----

  // The covering picks, then the least-ranked of the rest.
  ghost predicate IsSelection(selected: seq<Candidate>, covering: nat, cs: seq<Candidate>, count: int,
                              rank: string -> int) {
    && |selected| == count && covering <= |selected| && multiset(selected) <= multiset(cs)
    && Features(selected[..covering]) == Features(cs) && covering <= |Features(cs)|
    && count >= 0 && selected[..covering] == Run(cs, rank, count).selected
    && Ordered(ByRank(rank), selected[covering..])
    && forall x, y | x in selected[covering..] && y in multiset(cs) - multiset(selected) :: ByRank(rank)(x, y)
  }

  method SelectCalibration(cs: seq<Candidate>, count: int, rank: string -> int)
    returns (out: Result<(seq<Candidate>, nat), SelectError>)
    ensures out.Success? <==> 0 < count <= |cs| && Run(cs, rank, count).uncovered == {}
    ensures out.Success? ==> IsSelection(out.value.0, out.value.1, cs, count, rank)
    ensures 0 < count <= |cs| && (|Features(cs)| <= count || count == |cs|) ==> out.Success?
    ensures out.Failure? && out.error.CannotCover? ==>
              count > 0 && out.error.values == Run(cs, rank, count).uncovered != {}
  {
    if count <= 0 {
      return Failure(CountNotPositive);
    }
    if count > |cs| {
      return Failure(TooFewCandidates);
    }
    var g := Greedy([], cs, Features(cs));
    while g.uncovered != {} && |g.selected| < count
      invariant |g.selected| <= count && g == Run(cs, rank, |g.selected|)
      decreases count - |g.selected|
    {
      RunIsConsistent(cs, rank, |g.selected|);
      PickIsUseful(g, cs, rank);
      g := Pick(g, cs, rank);
    }
    if g.uncovered == {} {
      RunStays(cs, rank, |g.selected|, count);
    }
    BigCountsSuffice(cs, rank, count);
    if g.uncovered != {} {
      return Failure(CannotCover(g.uncovered));
    }
    var selected := FillUp(g, cs, count, rank);
    return Success((selected, |g.selected|));
  }

  method FillUp(g: Greedy, cs: seq<Candidate>, count: nat, rank: string -> int) returns (selected: seq<Candidate>)
    requires |g.selected| <= count <= |cs| && g == Run(cs, rank, count) && g.uncovered == {}
    ensures IsSelection(selected, |g.selected|, cs, count, rank)
  {
    RunIsConsistent(cs, rank, count);
    SizesAdd(g, cs);
    var rest := InRankOrder(g.remaining, rank);
    var n := count - |g.selected|;
    FilledIsSelection(g, cs, rest, n, rank);
    selected := g.selected + rest[..n];
  }

  function InRankOrder(s: seq<Candidate>, rank: string -> int): (r: seq<Candidate>)
    ensures multiset(r) == multiset(s) && |r| == |s| && Ordered(ByRank(rank), r)
  {
    ByRankIsRanking(rank);
    SortBy(ByRank(rank), s)
  }

  lemma SizesAdd(g: Greedy, cs: seq<Candidate>)
    requires multiset(g.selected) + multiset(g.remaining) == multiset(cs)
    ensures |g.selected| + |g.remaining| == |cs|
  {
    assert |multiset(cs)| == |multiset(g.selected)| + |multiset(g.remaining)|;
  }

  lemma FilledIsDrawn(g: Greedy, cs: seq<Candidate>, rest: seq<Candidate>, n: nat)
    requires multiset(g.selected) + multiset(g.remaining) == multiset(cs)
    requires multiset(rest) == multiset(g.remaining) && n <= |rest|
    ensures multiset(cs) == multiset(g.selected + rest[..n]) + multiset(rest[n..])
  {
    assert rest == rest[..n] + rest[n..];
  }

  lemma FilledIsLeast(cs: seq<Candidate>, selected: seq<Candidate>, rest: seq<Candidate>, n: nat, rank: string -> int)
    requires n <= |rest| && Ordered(ByRank(rank), rest) && multiset(cs) == multiset(selected) + multiset(rest[n..])
    ensures forall x, y | x in rest[..n] && y in multiset(cs) - multiset(selected) :: ByRank(rank)(x, y)
  {
    forall x, y | x in rest[..n] && y in multiset(cs) - multiset(selected)
      ensures ByRank(rank)(x, y)
    {
      assert y in rest[n..];
    }
  }

  lemma FilledIsSelection(g: Greedy, cs: seq<Candidate>, rest: seq<Candidate>, n: nat, rank: string -> int)
    requires Consistent(g, cs) && g.uncovered == {} && g == Run(cs, rank, |g.selected| + n)
    requires multiset(rest) == multiset(g.remaining) && n <= |rest| && Ordered(ByRank(rank), rest)
    ensures IsSelection(g.selected + rest[..n], |g.selected|, cs, |g.selected| + n, rank)
  {
    var selected := g.selected + rest[..n];
    assert selected[..|g.selected|] == g.selected && selected[|g.selected|..] == rest[..n];
    AllCovered(g, cs);
    FilledIsDrawn(g, cs, rest, n);
    FilledIsLeast(cs, selected, rest, n, rank);
  }

  lemma AllCovered(g: Greedy, cs: seq<Candidate>)
    requires Consistent(g, cs) && g.uncovered == {}
    ensures Features(g.selected) == Features(cs)
  {
    forall f | f in Features(g.selected)
      ensures f in Features(cs)
    {
      var c :| c in g.selected && f in c.features;
      assert c in multiset(cs);
    }
    forall f | f in Features(cs)
      ensures f in Features(g.selected)
    {
      assert f !in g.uncovered;
    }
  }
}
