// How far the greedy calibration selection is from a cover: with some m candidates
// covering everything, every pick takes at least a share of 1/m of what is missing.
module CalibrationGuarantee {
  import opened Calibration
  import opened Outcomes

  // ---- Rarity of what is covered ----

  lemma {:induction false} CoveredCounts(features: seq<string>, uncovered: set<string>, f: string)
    ensures multiset(Covered(features, uncovered))[f] == if f in features && f in uncovered then 1 else 0
  {
    if features != [] {
      HeadAndTail(features);
      if features[0] in uncovered {
        CoveredCounts(features[1..], uncovered - {features[0]}, f);
      } else {
        CoveredCounts(features[1..], uncovered, f);
      }
    }
  }

  lemma {:induction false} RarityOfSum(cs: seq<Candidate>, a: seq<string>, b: seq<string>)
    ensures Rarity(cs, a + b) == Rarity(cs, a) + Rarity(cs, b)
  {
    if a == [] {
      assert a + b == b;
    } else {
      assert (a + b)[1..] == a[1..] + b;
      RarityOfSum(cs, a[1..], b);
    }
  }

  lemma RarityWithout(cs: seq<Candidate>, a: seq<string>, i: nat)
    requires i < |a|
    ensures Rarity(cs, a) == Weight(cs, a[i]) + Rarity(cs, Without(a, i))
  {
    assert a == a[..i] + ([a[i]] + a[i + 1..]);
    RarityOfSum(cs, a[..i], [a[i]] + a[i + 1..]);
    RarityOfSum(cs, a[..i], a[i + 1..]);
  }

  lemma HeadLeavesBoth(a: seq<string>, b: seq<string>, i: nat)
    requires multiset(a) == multiset(b) && a != [] && i < |b| && b[i] == a[0]
    ensures multiset(a[1..]) == multiset(Without(b, i))
  {
    var x := a[0];
    HeadAndTail(a);
    WithoutMultiset(b, i);
    forall f: string
      ensures multiset(a[1..])[f] == multiset(Without(b, i))[f]
    {
      assert multiset(a)[f] == multiset([x])[f] + multiset(a[1..])[f];
      assert multiset(b)[f] == multiset(Without(b, i))[f] + multiset{x}[f];
    }
  }

  lemma {:induction false} RarityIgnoresOrder(cs: seq<Candidate>, a: seq<string>, b: seq<string>)
    requires multiset(a) == multiset(b)
    ensures Rarity(cs, a) == Rarity(cs, b)
  {
    assert |multiset(a)| == |multiset(b)|;
    if a != [] {
      assert a[0] in multiset(b);
      var i :| 0 <= i < |b| && b[i] == a[0];
      RarityWithout(cs, b, i);
      HeadLeavesBoth(a, b, i);
      RarityIgnoresOrder(cs, a[1..], Without(b, i));
    }
  }

  // What is covered counts once, however it is listed.
  lemma CoveredAgrees(cs: seq<Candidate>, a: seq<string>, u: set<string>, b: seq<string>, v: set<string>)
    requires forall f :: f in a && f in u <==> f in b && f in v
    ensures Rarity(cs, Covered(a, u)) == Rarity(cs, Covered(b, v))
  {
    forall f: string
      ensures multiset(Covered(a, u))[f] == multiset(Covered(b, v))[f]
    {
      CoveredCounts(a, u, f);
      CoveredCounts(b, v, f);
    }
    RarityIgnoresOrder(cs, Covered(a, u), Covered(b, v));
  }

  lemma CoveredSplits(cs: seq<Candidate>, a: seq<string>, u: set<string>, part: set<string>)
    ensures Rarity(cs, Covered(a, u)) == Rarity(cs, Covered(a, u * part)) + Rarity(cs, Covered(a, u - part))
  {
    var inside, outside := Covered(a, u * part), Covered(a, u - part);
    forall f: string
      ensures multiset(Covered(a, u))[f] == multiset(inside + outside)[f]
    {
      CoveredCounts(a, u, f);
      CoveredCounts(a, u * part, f);
      CoveredCounts(a, u - part, f);
    }
    RarityIgnoresOrder(cs, Covered(a, u), inside + outside);
    RarityOfSum(cs, inside, outside);
  }

  // ---- What a pick is ----

  // The features of a candidate that are still uncovered.
  ghost function NewOf(c: Candidate, uncovered: set<string>): set<string> {
    set f | f in c.features && f in uncovered
  }

  // Their rarity, each counted once.
  ghost function Gain(cs: seq<Candidate>, features: set<string>): real {
    if features == {} then 0.0 else var f :| f in features; Weight(cs, f) + Gain(cs, features - {f})
  }

  ghost predicate Lists(a: seq<string>, features: set<string>) {
    forall f: string :: multiset(a)[f] == if f in features then 1 else 0
  }

  lemma ListsRest(a: seq<string>, features: set<string>, i: nat)
    requires Lists(a, features) && i < |a|
    ensures a[i] in features && Lists(Without(a, i), features - {a[i]})
  {
    WithoutMultiset(a, i);
    assert a[i] in multiset(a);
  }

  lemma {:induction false} ListedGain(cs: seq<Candidate>, a: seq<string>, features: set<string>)
    requires Lists(a, features)
    ensures Rarity(cs, a) == Gain(cs, features) && |a| == |features|
    decreases |features|
  {
    if features == {} {
      assert multiset(a) == multiset{} && |multiset(a)| == |a|;
    } else {
      var f :| f in features && Gain(cs, features) == Weight(cs, f) + Gain(cs, features - {f});
      assert f in multiset(a);
      var i :| 0 <= i < |a| && a[i] == f;
      ListsRest(a, features, i);
      RarityWithout(cs, a, i);
      ListedGain(cs, Without(a, i), features - {f});
    }
  }

  lemma UseReads(cs: seq<Candidate>, c: Candidate, uncovered: set<string>, rank: string -> int)
    ensures UseOf(cs, c, uncovered, rank)
         == Use(Gain(cs, NewOf(c, uncovered)), |NewOf(c, uncovered)|, rank(c.tile))
  {
    forall f: string
      ensures multiset(Covered(c.features, uncovered))[f] == if f in NewOf(c, uncovered) then 1 else 0
    {
      CoveredCounts(c.features, uncovered, f);
    }
    ListedGain(cs, Covered(c.features, uncovered), NewOf(c, uncovered));
  }

  // A pick covers the most rarity; among equals the most features, then the least rank.
  lemma PickReads(g: Greedy, cs: seq<Candidate>, rank: string -> int, c: Candidate)
    requires c in g.remaining
    ensures var best := g.remaining[Best(cs, g.remaining, g.uncovered, rank)];
            var ours, theirs := NewOf(best, g.uncovered), NewOf(c, g.uncovered);
            && Pick(g, cs, rank).selected == g.selected + [best]
            && (|| Gain(cs, ours) > Gain(cs, theirs)
                || (Gain(cs, ours) == Gain(cs, theirs)
                    && (|ours| > |theirs| || (|ours| == |theirs| && rank(best.tile) <= rank(c.tile)))))
  {
    var best := g.remaining[Best(cs, g.remaining, g.uncovered, rank)];
    UseReads(cs, best, g.uncovered, rank);
    UseReads(cs, c, g.uncovered, rank);
  }

  // ---- What is missing ----

  function Listing(cs: seq<Candidate>): seq<string> {
    if cs == [] then [] else cs[0].features + Listing(cs[1..])
  }

  lemma {:induction false} ListingIsComplete(cs: seq<Candidate>)
    ensures forall f :: f in Listing(cs) <==> f in Features(cs)
  {
    if cs != [] {
      ListingIsComplete(cs[1..]);
      HeadAndTail(cs);
      assert forall f :: f in Features(cs) <==> f in cs[0].features || f in Features(cs[1..]);
    }
  }

  // The rarity of the uncovered features, each counted once.
  function Missing(cs: seq<Candidate>, uncovered: set<string>): real {
    Rarity(cs, Covered(Listing(cs), uncovered))
  }

  lemma CoveredIsPositive(cs: seq<Candidate>, a: seq<string>, u: set<string>)
    requires u <= Features(cs)
    ensures Rarity(cs, Covered(a, u)) >= 0.0
  {
    RarityIsPositive(cs, Covered(a, u));
  }

  lemma MissingIsPositive(cs: seq<Candidate>, uncovered: set<string>)
    requires uncovered <= Features(cs)
    ensures Missing(cs, uncovered) >= 0.0 && (Missing(cs, uncovered) > 0.0 <==> uncovered != {})
  {
    ListingIsComplete(cs);
    var listed := Covered(Listing(cs), uncovered);
    RarityIsPositive(cs, listed);
    assert listed != [] ==> listed[0] in listed;
    assert forall f | f in uncovered :: f in listed;
  }

  // A candidate takes from the missing exactly what it covers.
  lemma CandidateTakes(cs: seq<Candidate>, c: Candidate, uncovered: set<string>)
    requires c in cs
    ensures Missing(cs, uncovered)
         == Rarity(cs, Covered(c.features, uncovered)) + Missing(cs, uncovered - set f | f in c.features)
  {
    var own := set f | f in c.features;
    ListingIsComplete(cs);
    CoveredSplits(cs, Listing(cs), uncovered, own);
    forall f | f in own
      ensures f in Listing(cs)
    {
      assert f in Features(cs);
    }
    CoveredAgrees(cs, Listing(cs), uncovered * own, c.features, uncovered);
  }

  // ---- The share of one pick ----

  // n times x, by repeated addition.
  function Times(n: nat, x: real): real {
    if n == 0 then 0.0 else x + Times(n - 1, x)
  }

  lemma {:induction false} TimesNothing(n: nat)
    ensures Times(n, 0.0) == 0.0
  {
    if n > 0 {
      TimesNothing(n - 1);
    }
  }

  lemma {:induction false} TimesIsProduct(n: nat, x: real)
    ensures Times(n, x) == n as real * x
  {
    if n > 0 {
      TimesIsProduct(n - 1, x);
      assert n as real * x == (n - 1) as real * x + x;
    }
  }

  ghost predicate IsCover(cover: seq<Candidate>, cs: seq<Candidate>) {
    (forall c | c in cover :: c in cs) && Features(cs) <= Features(cover)
  }

  lemma LeftForTheRest(cover: seq<Candidate>, uncovered: set<string>)
    requires cover != [] && uncovered <= Features(cover)
    ensures uncovered - (set f | f in cover[0].features) <= Features(cover[1..])
  {
    HeadAndTail(cover);
    forall f | f in uncovered && f !in cover[0].features
      ensures f in Features(cover[1..])
    {
      var c :| c in cover && f in c.features;
      assert c in cover[1..];
    }
  }

  ghost predicate NoneAbove(cs: seq<Candidate>, cover: seq<Candidate>, uncovered: set<string>, bound: real) {
    forall c | c in cover :: c in cs && Rarity(cs, Covered(c.features, uncovered)) <= bound
  }

  lemma NoneAboveRest(cs: seq<Candidate>, cover: seq<Candidate>, uncovered: set<string>, left: set<string>, bound: real)
    requires cover != [] && left <= uncovered <= Features(cs) && NoneAbove(cs, cover, uncovered, bound)
    ensures NoneAbove(cs, cover[1..], left, bound)
  {
    forall c | c in cover[1..]
      ensures c in cs && Rarity(cs, Covered(c.features, left)) <= bound
    {
      assert c in cover;
      SmallerIsLighter(cs, c.features, left, uncovered);
    }
  }

  lemma RestIsBounded(cs: seq<Candidate>, cover: seq<Candidate>, uncovered: set<string>, left: set<string>, bound: real)
    requires cover != [] && uncovered <= Features(cs) && uncovered <= Features(cover)
    requires NoneAbove(cs, cover, uncovered, bound) && left == uncovered - set f | f in cover[0].features
    ensures left <= Features(cs) && left <= Features(cover[1..]) && NoneAbove(cs, cover[1..], left, bound)
  {
    LeftForTheRest(cover, uncovered);
    NoneAboveRest(cs, cover, uncovered, left, bound);
  }

  lemma {:induction false} CoverBounds(cs: seq<Candidate>, cover: seq<Candidate>, uncovered: set<string>, bound: real)
    requires uncovered <= Features(cs) && uncovered <= Features(cover) && NoneAbove(cs, cover, uncovered, bound)
    ensures Missing(cs, uncovered) <= Times(|cover|, bound)
  {
    if cover == [] {
      MissingIsPositive(cs, uncovered);
    } else {
      var c, rest := cover[0], cover[1..];
      var left := uncovered - set f | f in c.features;
      CandidateTakes(cs, c, uncovered);
      RestIsBounded(cs, cover, uncovered, left, bound);
      CoverBounds(cs, rest, left, bound);
      assert Rarity(cs, Covered(c.features, uncovered)) <= bound;
    }
  }

  lemma SmallerIsLighter(cs: seq<Candidate>, a: seq<string>, u: set<string>, v: set<string>)
    requires u <= v <= Features(cs)
    ensures Rarity(cs, Covered(a, u)) <= Rarity(cs, Covered(a, v))
  {
    CoveredSplits(cs, a, v, u);
    assert v * u == u;
    CoveredIsPositive(cs, a, v - u);
  }

  lemma BestTakesMost(cs: seq<Candidate>, g: Greedy, rank: string -> int, c: Candidate)
    requires Consistent(g, cs) && g.remaining != [] && c in cs
    ensures Rarity(cs, Covered(c.features, g.uncovered))
         <= Rarity(cs, Covered(g.remaining[Best(cs, g.remaining, g.uncovered, rank)].features, g.uncovered))
  {
    var best := g.remaining[Best(cs, g.remaining, g.uncovered, rank)];
    if c in g.remaining {
      var j :| 0 <= j < |g.remaining| && g.remaining[j] == c;
      assert AtLeastAsUseful(UseOf(cs, best, g.uncovered, rank), UseOf(cs, g.remaining[j], g.uncovered, rank));
    } else {
      assert c in multiset(cs);
      assert c in g.selected;
      assert forall f | f in c.features :: f in Features(g.selected);
      CoveredAgrees(cs, c.features, g.uncovered, [], g.uncovered);
      CoveredIsPositive(cs, best.features, g.uncovered);
    }
  }

  // The best of the remaining takes no less than any candidate of the cover.
  lemma BestBoundsCover(cs: seq<Candidate>, g: Greedy, rank: string -> int, cover: seq<Candidate>, share: real)
    requires Consistent(g, cs) && g.remaining != [] && IsCover(cover, cs)
    requires share == Rarity(cs, Covered(g.remaining[Best(cs, g.remaining, g.uncovered, rank)].features, g.uncovered))
    ensures NoneAbove(cs, cover, g.uncovered, share)
  {
    forall c | c in cover
      ensures c in cs && Rarity(cs, Covered(c.features, g.uncovered)) <= share
    {
      BestTakesMost(cs, g, rank, c);
    }
  }

  lemma PickTakes(cs: seq<Candidate>, g: Greedy, rank: string -> int) returns (share: real)
    requires Consistent(g, cs) && g.remaining != []
    ensures share == Rarity(cs, Covered(g.remaining[Best(cs, g.remaining, g.uncovered, rank)].features, g.uncovered))
    ensures Missing(cs, g.uncovered) == share + Missing(cs, Pick(g, cs, rank).uncovered)
  {
    var best := g.remaining[Best(cs, g.remaining, g.uncovered, rank)];
    assert best in multiset(cs);
    CandidateTakes(cs, best, g.uncovered);
    share := Rarity(cs, Covered(best.features, g.uncovered));
  }

  // With m candidates covering everything, a pick takes at least 1/m of what is missing.
  lemma PickTakesItsShare(cs: seq<Candidate>, g: Greedy, rank: string -> int, cover: seq<Candidate>)
    returns (share: real)
    requires Consistent(g, cs) && g.uncovered != {} && IsCover(cover, cs)
    ensures g.remaining != [] && share == Missing(cs, g.uncovered) - Missing(cs, Pick(g, cs, rank).uncovered)
    ensures Missing(cs, g.uncovered) <= Times(|cover|, share)
  {
    PickIsUseful(g, cs, rank);
    share := PickTakes(cs, g, rank);
    BestBoundsCover(cs, g, rank, cover, share);
    CoverBounds(cs, cover, g.uncovered, share);
  }

  // ---- The whole run ----

  lemma NextIsPick(cs: seq<Candidate>, g: Greedy, rank: string -> int)
    requires g.uncovered != {} && g.remaining != []
    ensures Next(g, cs, rank) == Pick(g, cs, rank)
  {
  }

  lemma NothingIsTaken(cs: seq<Candidate>, g: Greedy, rank: string -> int)
    requires g.uncovered == {}
    ensures Missing(cs, g.uncovered) == 0.0 && Missing(cs, Next(g, cs, rank).uncovered) == 0.0
  {
    MissingIsPositive(cs, g.uncovered);
  }

  lemma SomethingIsTaken(cs: seq<Candidate>, g: Greedy, rank: string -> int, cover: seq<Candidate>)
    returns (share: real)
    requires Consistent(g, cs) && g.uncovered != {} && IsCover(cover, cs)
    ensures share == Missing(cs, g.uncovered) - Missing(cs, Next(g, cs, rank).uncovered)
    ensures Missing(cs, g.uncovered) <= Times(|cover|, share)
  {
    share := PickTakesItsShare(cs, g, rank, cover);
    NextIsPick(cs, g, rank);
  }

  // The share taken, and at least 1/m of what was missing.
  lemma NextTakesItsShare(cs: seq<Candidate>, g: Greedy, rank: string -> int, cover: seq<Candidate>)
    returns (share: real)
    requires Consistent(g, cs) && IsCover(cover, cs)
    ensures share == Missing(cs, g.uncovered) - Missing(cs, Next(g, cs, rank).uncovered)
    ensures Missing(cs, g.uncovered) <= Times(|cover|, share)
  {
    if g.uncovered == {} {
      NothingIsTaken(cs, g, rank);
      TimesNothing(|cover|);
      share := 0.0;
    } else {
      share := SomethingIsTaken(cs, g, rank, cover);
    }
  }

  function Power(base: real, n: nat): real {
    if n == 0 then 1.0 else base * Power(base, n - 1)
  }

  lemma {:induction false} PowerIsPositive(base: real, n: nat)
    requires base >= 0.0
    ensures Power(base, n) >= 0.0
  {
    if n > 0 {
      PowerIsPositive(base, n - 1);
    }
  }

  // What is missing after n picks is at most ((m - 1) / m) to the n of the total.
  ghost predicate Approached(m: real, n: nat, missing: real, total: real) {
    Power(m, n) * missing <= Power(m - 1.0, n) * total
  }

  lemma ProductsCompound(m: real, p: real, q: real, before: real, after: real, total: real)
    requires m >= 1.0 && p >= 0.0 && m * after <= (m - 1.0) * before && p * before <= q * total
    ensures (m * p) * after <= ((m - 1.0) * q) * total
  {
    var less := m - 1.0;
    MonotoneProduct(p, m * after, less * before);
    MonotoneProduct(less, p * before, q * total);
    assert (m * p) * after == p * (m * after);
    assert (less * q) * total == less * (q * total);
    assert p * (less * before) == less * (p * before);
  }

  lemma MonotoneProduct(factor: real, a: real, b: real)
    requires factor >= 0.0 && a <= b
    ensures factor * a <= factor * b
  {
    assert factor * (b - a) >= 0.0;
    assert factor * (b - a) == factor * b - factor * a;
  }

  lemma ShareRearranged(m: real, before: real, after: real)
    requires before <= m * (before - after)
    ensures m * after <= (m - 1.0) * before
  {
    assert m * (before - after) == m * before - m * after;
    assert (m - 1.0) * before == m * before - before;
  }

  lemma ShareCompounds(m: nat, n: nat, before: real, after: real, total: real)
    requires m >= 1 && before <= Times(m, before - after) && Approached(m as real, n, before, total)
    ensures Approached(m as real, n + 1, after, total)
  {
    TimesIsProduct(m, before - after);
    ShareRearranged(m as real, before, after);
    PowerIsPositive(m as real, n);
    ProductsCompound(m as real, Power(m as real, n), Power(m as real - 1.0, n), before, after, total);
  }

  // Each value loses at least 1/m of itself to the next.
  ghost predicate Dwindles(m: nat, values: seq<real>) {
    forall k | 0 <= k < |values| - 1 :: values[k] <= Times(m, values[k] - values[k + 1])
  }

  lemma {:induction false} DwindlesApproaches(m: nat, values: seq<real>, n: nat)
    requires m >= 1 && n < |values| && Dwindles(m, values)
    ensures Approached(m as real, n, values[n], values[0])
  {
    if n > 0 {
      DwindlesApproaches(m, values, n - 1);
      ShareCompounds(m, n - 1, values[n - 1], values[n], values[0]);
    }
  }

  lemma DwindlesOnce(m: nat, values: seq<real>, share: real) returns (longer: seq<real>)
    requires values != [] && Dwindles(m, values) && values[|values| - 1] <= Times(m, share)
    ensures |longer| == |values| + 1 && longer[0] == values[0] && Dwindles(m, longer)
    ensures longer[|values|] == values[|values| - 1] - share
  {
    longer := values + [values[|values| - 1] - share];
  }

  lemma RunTakesItsShare(cs: seq<Candidate>, rank: string -> int, cover: seq<Candidate>, n: nat) returns (share: real)
    requires IsCover(cover, cs)
    ensures var before := Missing(cs, Run(cs, rank, n).uncovered);
            share == before - Missing(cs, Run(cs, rank, n + 1).uncovered) && before <= Times(|cover|, share)
  {
    RunIsConsistent(cs, rank, n);
    share := NextTakesItsShare(cs, Run(cs, rank, n), rank, cover);
    RunStep(cs, rank, n);
  }

  // What is missing before the first pick and after each.
  lemma {:induction false} GreedyDwindles(cs: seq<Candidate>, rank: string -> int, cover: seq<Candidate>, n: nat)
    returns (values: seq<real>)
    requires IsCover(cover, cs)
    ensures |values| == n + 1 && Dwindles(|cover|, values) && values[0] == Missing(cs, Features(cs))
    ensures values[n] == Missing(cs, Run(cs, rank, n).uncovered)
  {
    if n == 0 {
      values := [Missing(cs, Features(cs))];
    } else {
      values := GreedyDwindles(cs, rank, cover, n - 1);
      var share := RunTakesItsShare(cs, rank, cover, n - 1);
      values := DwindlesOnce(|cover|, values, share);
    }
  }

  lemma GreedyApproaches(cs: seq<Candidate>, rank: string -> int, cover: seq<Candidate>, n: nat)
    returns (missing: real, total: real)
    requires IsCover(cover, cs) && cover != []
    ensures missing == Missing(cs, Run(cs, rank, n).uncovered) && total == Missing(cs, Features(cs))
    ensures Approached(|cover| as real, n, missing, total)
  {
    var values := GreedyDwindles(cs, rank, cover, n);
    missing, total := values[n], values[0];
    DwindlesApproaches(|cover|, values, n);
  }

  // ---- A single pick ----

  predicate HasAll(c: Candidate, all: set<string>) {
    forall f | f in all :: f in c.features
  }

  lemma NothingIsMissing(cs: seq<Candidate>, uncovered: set<string>)
    requires uncovered <= Features(cs) && Missing(cs, uncovered) <= 0.0
    ensures uncovered == {}
  {
    MissingIsPositive(cs, uncovered);
  }

  lemma FullCandidateIsEnough(cs: seq<Candidate>, g: Greedy, rank: string -> int, c: Candidate)
    requires Consistent(g, cs) && c in cs && HasAll(c, Features(cs))
    ensures Next(g, cs, rank).uncovered == {}
  {
    AloneCovers(cs, c);
    var share := NextTakesItsShare(cs, g, rank, [c]);
    assert Times(1, share) == share;
    NextShrinks(cs, g, rank);
    NothingIsMissing(cs, Next(g, cs, rank).uncovered);
  }

  lemma NextShrinks(cs: seq<Candidate>, g: Greedy, rank: string -> int)
    ensures Next(g, cs, rank).uncovered <= g.uncovered
  {
  }

  lemma AloneCovers(cs: seq<Candidate>, c: Candidate)
    requires c in cs && HasAll(c, Features(cs))
    ensures IsCover([c], cs)
  {
    assert c in [c];
  }

  lemma FirstPickLeaves(cs: seq<Candidate>, start: Greedy, rank: string -> int, c: Candidate)
    requires start.remaining != [] && c == start.remaining[Best(cs, start.remaining, start.uncovered, rank)]
    ensures Next(start, cs, rank).uncovered == start.uncovered - set f | f in c.features
  {
  }

  lemma EmptyDifference(all: set<string>, c: Candidate)
    requires all - (set f | f in c.features) == {}
    ensures HasAll(c, all)
  {
    assert forall f | f in all :: f in all - (set f | f in c.features) || f in c.features;
  }

  lemma OnePickHasAll(cs: seq<Candidate>, rank: string -> int, start: Greedy) returns (c: Candidate)
    requires cs != [] && start == Greedy([], cs, Features(cs)) && Next(start, cs, rank).uncovered == {}
    ensures c in cs && HasAll(c, Features(cs))
  {
    c := cs[Best(cs, cs, Features(cs), rank)];
    FirstPickLeaves(cs, start, rank, c);
    EmptyDifference(Features(cs), c);
  }

  lemma OnePickIsEnough(cs: seq<Candidate>, rank: string -> int, n: nat)
    requires cs != [] && n == 1
    ensures Run(cs, rank, n).uncovered == {} <==> exists c :: c in cs && HasAll(c, Features(cs))
  {
    var start := Run(cs, rank, n - 1);
    RunIsConsistent(cs, rank, n - 1);
    RunStep(cs, rank, n - 1);
    if c :| c in cs && HasAll(c, Features(cs)) {
      FullCandidateIsEnough(cs, start, rank, c);
    } else if Next(start, cs, rank).uncovered == {} {
      var c := OnePickHasAll(cs, rank, start);
    }
  }

  // One pick is enough exactly when one candidate has every feature.
  lemma OnePickExactly(cs: seq<Candidate>, rank: string -> int)
    requires cs != []
    ensures Run(cs, rank, 1).uncovered == {} <==> exists c :: c in cs && HasAll(c, Features(cs))
  {
    OnePickIsEnough(cs, rank, 1);
  }
}
