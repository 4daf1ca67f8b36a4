// Where the greedy calibration selection falls short: it can refuse a count for
// which a covering selection exists, on candidates of the kind the loader makes.
module CalibrationLimits {
  import opened Calibration
  import opened Outcomes

  // ---- Five tiles of two scenes ----

  // Twelve different features, by number. A tile has its scene, surface, altitude,
  // content, grass and tag, and the colours of the mines in its scene.
  const SCENE_1 := 0
  const SCENE_2 := 1
  const SURFACE := 2
  const LOW := 3
  const HIGH := 4
  const LARGE := 5
  const EMPTY := 6
  const GRASS := 7
  const TAG := 8
  const COUNT := 12

  predicate IsNaming(names: seq<string>) {
    |names| == COUNT && forall i, j | 0 <= i < j < |names| :: names[i] != names[j]
  }

  function Tile(scene: nat, altitude: nat, content: nat, colours: seq<nat>): seq<nat> {
    [scene, SURFACE, altitude] + ([content, GRASS, TAG] + colours)
  }

  // The first scene has mines of three colours; the second has none.
  function Low(content: nat): seq<nat> {
    Tile(SCENE_1, LOW, content, [9, 10, 11])
  }

  function High(): seq<nat> {
    Tile(SCENE_1, HIGH, LARGE, [9, 10, 11])
  }

  function Other(): seq<nat> {
    Tile(SCENE_2, HIGH, EMPTY, [])
  }

  predicate InRange(tile: seq<nat>) {
    forall k | 0 <= k < |tile| :: tile[k] < COUNT
  }

  function Named(names: seq<string>, tile: seq<nat>): seq<string>
    requires |names| == COUNT && InRange(tile)
  {
    if tile == [] then [] else [names[tile[0]]] + Named(names, tile[1..])
  }

  function TileAt(k: nat): (tile: seq<nat>)
    ensures InRange(tile)
  {
    if k == 0 then High() else if k == 1 then Low(LARGE) else if k == 4 then Other() else Low(EMPTY)
  }

  // Five candidates, whatever they are called and whatever their features are called.
  ghost predicate AreFive(cs: seq<Candidate>, names: seq<string>) {
    IsNaming(names) && |cs| == 5 && forall k | 0 <= k < 5 :: cs[k].features == Named(names, TileAt(k))
  }

  // ---- How often a feature occurs ----

  predicate NoRepeats(tile: seq<nat>) {
    InRange(tile) && forall i, j | 0 <= i < j < |tile| :: tile[i] != tile[j]
  }

  function Has(tile: seq<nat>, i: nat): nat {
    if i in tile then 1 else 0
  }

  lemma {:induction false} NamedHas(names: seq<string>, tile: seq<nat>, i: nat)
    requires IsNaming(names) && NoRepeats(tile) && i < COUNT
    ensures Occurrences(Named(names, tile), names[i]) == Has(tile, i)
    ensures names[i] in Named(names, tile) <==> i in tile
  {
    if tile != [] {
      var first, rest := tile[0], tile[1..];
      HeadAndTail(tile);
      NamedHas(names, rest, i);
      assert first !in rest;
      assert names[first] == names[i] <==> first == i;
      assert Named(names, tile)[1..] == Named(names, rest);
    }
  }

  lemma FrequencyOfFive(cs: seq<Candidate>, f: string)
    requires |cs| == 5
    ensures Frequency(cs, f) == Occurrences(cs[0].features, f) + Occurrences(cs[1].features, f)
                                + Occurrences(cs[2].features, f) + Occurrences(cs[3].features, f)
                                + Occurrences(cs[4].features, f)
  {
    FrequencyUnrolls(cs, f, 0);
    FrequencyUnrolls(cs, f, 1);
    FrequencyUnrolls(cs, f, 2);
    FrequencyUnrolls(cs, f, 3);
    FrequencyUnrolls(cs, f, 4);
    assert cs[5..] == [] && cs[0..] == cs;
  }

  lemma FrequencyUnrolls(cs: seq<Candidate>, f: string, k: nat)
    requires k < |cs|
    ensures Frequency(cs[k..], f) == Occurrences(cs[k].features, f) + Frequency(cs[k + 1..], f)
  {
    assert cs[k..][1..] == cs[k + 1..];
  }

  // ---- Rarity ----

  // The weight of each feature: one over the number of tiles that have it.
  function WeightOf(i: nat): real {
    if i == SCENE_2 then 1.0
    else if i == HIGH || i == LARGE then 1.0 / 2.0
    else if i == LOW || i == EMPTY then 1.0 / 3.0
    else if i == SURFACE || i == GRASS || i == TAG then 1.0 / 5.0
    else 1.0 / 4.0
  }

  lemma CountsOfFive(i: nat)
    requires i < COUNT
    ensures var n := Has(TileAt(0), i) + Has(TileAt(1), i) + Has(TileAt(2), i) + Has(TileAt(3), i) + Has(TileAt(4), i);
            n > 0 && WeightOf(i) == 1.0 / n as real
  {
  }

  lemma TilesHaveNoRepeats(k: nat)
    ensures NoRepeats(TileAt(k))
  {
  }

  lemma OccurrencesAt(cs: seq<Candidate>, names: seq<string>, k: nat, i: nat)
    requires AreFive(cs, names) && k < 5 && i < COUNT
    ensures Occurrences(cs[k].features, names[i]) == Has(TileAt(k), i)
    ensures names[i] in cs[k].features <==> i in TileAt(k)
  {
    TilesHaveNoRepeats(k);
    NamedHas(names, TileAt(k), i);
  }

  lemma FrequencyInFive(cs: seq<Candidate>, names: seq<string>, i: nat)
    requires AreFive(cs, names) && i < COUNT
    ensures Frequency(cs, names[i])
         == Has(TileAt(0), i) + Has(TileAt(1), i) + Has(TileAt(2), i) + Has(TileAt(3), i) + Has(TileAt(4), i)
  {
    FrequencyOfFive(cs, names[i]);
    OccurrencesAt(cs, names, 0, i);
    OccurrencesAt(cs, names, 1, i);
    OccurrencesAt(cs, names, 2, i);
    OccurrencesAt(cs, names, 3, i);
    OccurrencesAt(cs, names, 4, i);
  }

  lemma WeightOfCount(cs: seq<Candidate>, f: string, n: nat)
    requires Frequency(cs, f) == n && n > 0
    ensures Weight(cs, f) == 1.0 / n as real
  {
  }

  lemma WeightInFive(cs: seq<Candidate>, names: seq<string>, i: nat)
    requires AreFive(cs, names) && i < COUNT
    ensures Weight(cs, names[i]) == WeightOf(i)
  {
    FrequencyInFive(cs, names, i);
    CountsOfFive(i);
    WeightOfCount(cs, names[i], Frequency(cs, names[i]));
  }

  function Total(tile: seq<nat>): real {
    if tile == [] then 0.0 else WeightOf(tile[0]) + Total(tile[1..])
  }

  lemma {:induction false} TotalOfSum(a: seq<nat>, b: seq<nat>)
    ensures Total(a + b) == Total(a) + Total(b)
  {
    if a == [] {
      assert a + b == b;
    } else {
      assert (a + b)[1..] == a[1..] + b;
      TotalOfSum(a[1..], b);
    }
  }

  lemma TotalOfThree(a: nat, b: nat, c: nat)
    ensures Total([a, b, c]) == WeightOf(a) + WeightOf(b) + WeightOf(c)
  {
    assert [a, b, c][1..] == [b, c] && [b, c][1..] == [c] && [c][1..] == [];
    assert Total([c]) == WeightOf(c) + Total([]);
    assert Total([b, c]) == WeightOf(b) + Total([c]);
  }

  lemma TotalOfTile(scene: nat, altitude: nat, content: nat, colours: seq<nat>)
    ensures Total(Tile(scene, altitude, content, colours))
         == WeightOf(scene) + WeightOf(altitude) + WeightOf(content) + 3.0 / 5.0 + Total(colours)
  {
    TotalOfSum([scene, SURFACE, altitude], [content, GRASS, TAG] + colours);
    TotalOfSum([content, GRASS, TAG], colours);
    TotalOfThree(scene, SURFACE, altitude);
    TotalOfThree(content, GRASS, TAG);
  }

  // The high tile with a large mine is the rarest.
  lemma HighIsRarest(k: nat)
    requires 0 < k < 5
    ensures Total(TileAt(k)) < Total(TileAt(0))
  {
    TotalOfThree(9, 10, 11);
    TotalOfTile(SCENE_1, HIGH, LARGE, [9, 10, 11]);
    TotalOfTile(SCENE_1, LOW, LARGE, [9, 10, 11]);
    TotalOfTile(SCENE_1, LOW, EMPTY, [9, 10, 11]);
    TotalOfTile(SCENE_2, HIGH, EMPTY, []);
  }

  lemma {:induction false} RarityOfNamed(cs: seq<Candidate>, names: seq<string>, tile: seq<nat>)
    requires AreFive(cs, names) && InRange(tile)
    ensures Rarity(cs, Named(names, tile)) == Total(tile)
  {
    if tile != [] {
      WeightInFive(cs, names, tile[0]);
      RarityOfNamed(cs, names, tile[1..]);
      assert Named(names, tile)[1..] == Named(names, tile[1..]);
    }
  }

  lemma {:induction false} CoveredAll(features: seq<string>, uncovered: set<string>)
    requires forall i, j | 0 <= i < j < |features| :: features[i] != features[j]
    requires forall f | f in features :: f in uncovered
    ensures Covered(features, uncovered) == features
  {
    if features != [] {
      HeadAndTail(features);
      CoveredAll(features[1..], uncovered - {features[0]});
    }
  }

  // ---- The picks ----

  lemma CoveredIsNamed(cs: seq<Candidate>, names: seq<string>, c: Candidate, tile: seq<nat>)
    requires AreFive(cs, names) && c in cs && NoRepeats(tile) && c.features == Named(names, tile)
    ensures Rarity(cs, Covered(c.features, Features(cs))) == Total(tile)
  {
    NamedAreDifferent(names, tile);
    CoveredAll(c.features, Features(cs));
    RarityOfNamed(cs, names, tile);
  }

  lemma {:induction false} NamedAreDifferent(names: seq<string>, tile: seq<nat>)
    requires IsNaming(names) && NoRepeats(tile)
    ensures |Named(names, tile)| == |tile|
    ensures forall k | 0 <= k < |tile| :: Named(names, tile)[k] == names[tile[k]]
    ensures forall i, j | 0 <= i < j < |tile| :: Named(names, tile)[i] != Named(names, tile)[j]
  {
    if tile != [] {
      NamedAreDifferent(names, tile[1..]);
      assert forall i, j | 0 <= i < |names| && 0 <= j < |names| && i != j :: names[i] != names[j];
    }
  }

  // A candidate strictly rarer than every other is picked first.
  lemma RarestIsPicked(cs: seq<Candidate>, uncovered: set<string>, rank: string -> int)
    requires |cs| > 0
    requires forall k | 0 < k < |cs| ::
               Rarity(cs, Covered(cs[k].features, uncovered)) < Rarity(cs, Covered(cs[0].features, uncovered))
    ensures Best(cs, cs, uncovered, rank) == 0
  {
    var i := Best(cs, cs, uncovered, rank);
    assert AtLeastAsUseful(UseOf(cs, cs[i], uncovered, rank), UseOf(cs, cs[0], uncovered, rank));
  }

  ghost function RarityOf(cs: seq<Candidate>, c: Candidate): real {
    Rarity(cs, Covered(c.features, Features(cs)))
  }

  lemma RarityAt(cs: seq<Candidate>, names: seq<string>, k: nat)
    requires AreFive(cs, names) && k < 5
    ensures RarityOf(cs, cs[k]) == Total(TileAt(k))
  {
    TilesHaveNoRepeats(k);
    CoveredIsNamed(cs, names, cs[k], TileAt(k));
  }

  lemma OthersAreCommoner(cs: seq<Candidate>, names: seq<string>, k: nat)
    requires AreFive(cs, names) && 0 < k < 5
    ensures RarityOf(cs, cs[k]) < RarityOf(cs, cs[0])
  {
    RarityAt(cs, names, 0);
    RarityAt(cs, names, k);
    HighIsRarest(k);
  }

  lemma HighIsPicked(cs: seq<Candidate>, names: seq<string>, rank: string -> int)
    requires AreFive(cs, names)
    ensures Best(cs, cs, Features(cs), rank) == 0
  {
    forall k | 0 < k < 5
      ensures RarityOf(cs, cs[k]) < RarityOf(cs, cs[0])
    {
      OthersAreCommoner(cs, names, k);
    }
    RarestIsPicked(cs, Features(cs), rank);
  }

  // ---- What is left ----

  lemma WhoHasWhat(k: nat)
    requires k < 5
    ensures SCENE_2 in TileAt(k) <==> k == 4
    ensures LOW in TileAt(k) <==> 1 <= k <= 3
  {
  }

  lemma WhoIsWhat(cs: seq<Candidate>, names: seq<string>, k: nat)
    requires AreFive(cs, names) && k < 5
    ensures names[SCENE_2] in cs[k].features <==> k == 4
    ensures names[LOW] in cs[k].features <==> 1 <= k <= 3
  {
    WhoHasWhat(k);
    OccurrencesAt(cs, names, k, SCENE_2);
    OccurrencesAt(cs, names, k, LOW);
  }

  ghost predicate BothLeft(cs: seq<Candidate>, a: string, b: string, g: Greedy) {
    cs != [] && g.remaining == cs[1..] && a in g.uncovered && b in g.uncovered
  }

  // What only others have is still uncovered after the first is picked.
  lemma PickLeavesBoth(cs: seq<Candidate>, a: string, b: string, start: Greedy, rank: string -> int)
    requires cs != [] && start == Greedy([], cs, Features(cs)) && Best(cs, cs, Features(cs), rank) == 0
    requires a in Features(cs) && b in Features(cs) && a !in cs[0].features && b !in cs[0].features
    ensures BothLeft(cs, a, b, Next(start, cs, rank))
  {
    assert Without(cs, 0) == cs[1..];
  }

  // When nobody left has both, one more pick misses one.
  lemma NobodyHasBoth(cs: seq<Candidate>, a: string, b: string, g: Greedy, rank: string -> int)
    requires |cs| > 1 && BothLeft(cs, a, b, g)
    requires forall k | 1 <= k < |cs| :: a !in cs[k].features || b !in cs[k].features
    ensures Next(g, cs, rank).uncovered != {}
  {
    var i := Best(cs, g.remaining, g.uncovered, rank);
    assert g.remaining[i] == cs[i + 1];
    var missed := if a in cs[i + 1].features then b else a;
    assert missed in Next(g, cs, rank).uncovered;
  }

  lemma TwoPicksMiss(cs: seq<Candidate>, a: string, b: string, rank: string -> int, n: nat)
    requires n == 2 && |cs| > 1 && Best(cs, cs, Features(cs), rank) == 0
    requires a in Features(cs) && b in Features(cs) && a !in cs[0].features && b !in cs[0].features
    requires forall k | 1 <= k < |cs| :: a !in cs[k].features || b !in cs[k].features
    ensures Run(cs, rank, n).uncovered != {}
  {
    PickLeavesBoth(cs, a, b, Run(cs, rank, n - 2), rank);
    RunStep(cs, rank, n - 2);
    NobodyHasBoth(cs, a, b, Run(cs, rank, n - 1), rank);
    RunStep(cs, rank, n - 1);
  }

  lemma FivePicksMiss(cs: seq<Candidate>, names: seq<string>, rank: string -> int, n: nat)
    requires AreFive(cs, names) && n == 2
    ensures Run(cs, rank, n).uncovered != {}
  {
    forall k | 0 <= k < 5
      ensures names[SCENE_2] in cs[k].features <==> k == 4
      ensures names[LOW] in cs[k].features <==> 1 <= k <= 3
    {
      WhoIsWhat(cs, names, k);
    }
    assert cs[1] in cs && cs[4] in cs;
    HighIsPicked(cs, names, rank);
    TwoPicksMiss(cs, names[SCENE_2], names[LOW], rank, n);
  }

  // Greedy picks the high tile first and two picks then miss a feature: whatever the
  // names and the digests, a count of two is refused,
  lemma GreedyCanMissACover(cs: seq<Candidate>, names: seq<string>, rank: string -> int)
    requires AreFive(cs, names)
    ensures Run(cs, rank, 2).uncovered != {}
  {
    FivePicksMiss(cs, names, rank, 2);
  }

  lemma TileIsCovered(k: nat, i: nat)
    requires k < 5 && i in TileAt(k)
    ensures i in TileAt(1) || i in TileAt(4)
  {
  }

  lemma FeatureIsCovered(cs: seq<Candidate>, names: seq<string>, k: nat, f: string)
    requires AreFive(cs, names) && k < 5 && f in cs[k].features
    ensures f in cs[1].features || f in cs[4].features
  {
    TilesHaveNoRepeats(k);
    NamedAreDifferent(names, TileAt(k));
    var j :| 0 <= j < |TileAt(k)| && names[TileAt(k)[j]] == f;
    TileIsCovered(k, TileAt(k)[j]);
    OccurrencesAt(cs, names, 1, TileAt(k)[j]);
    OccurrencesAt(cs, names, 4, TileAt(k)[j]);
  }

  // although the low tile with the large mine and the tile of the other scene cover
  // everything together.
  lemma TwoCandidatesCover(cs: seq<Candidate>, names: seq<string>)
    requires AreFive(cs, names)
    ensures Features([cs[1], cs[4]]) == Features(cs)
  {
    var two := [cs[1], cs[4]];
    assert cs[1] in two && cs[4] in two;
    forall f | f in Features(cs)
      ensures f in Features(two)
    {
      var c :| c in cs && f in c.features;
      var k :| 0 <= k < 5 && cs[k] == c;
      FeatureIsCovered(cs, names, k, f);
    }
  }

  // There are such candidates for any names and any tiles' names.
  lemma FiveExist(names: seq<string>, tiles: seq<string>) returns (cs: seq<Candidate>)
    requires IsNaming(names) && |tiles| == 5
    ensures AreFive(cs, names) && forall k | 0 <= k < 5 :: cs[k].tile == tiles[k]
  {
    cs := seq(5, k requires 0 <= k < 5 => Candidate(tiles[k], Named(names, TileAt(k))));
  }
}
