// The positions behind a report: the closest pair, and how far the fleet is from
// an evenly spaced north-south line.
module FormationLine {
  import opened Outcomes
  import opened Sorting

  const SPACING := 3.0
  const MAX_CROSS_TRACK := 0.25
  const MAX_SPACING_ERROR := 0.2

  // The least gap the spacing tolerance leaves between neighbours on the line.
  const LEAST_GAP := 2.8

  datatype Point = Point(east: real, north: real)

  function Distance(a: real, b: real): real {
    if a < b then b - a else a - b
  }

  // ---- The closest pair ----

  // The Euclidean length of a horizontal offset.
  ghost predicate IsHypot(hypot: (real, real) -> real) {
    forall x, y :: hypot(x, y) >= 0.0 && hypot(x, y) * hypot(x, y) == x * x + y * y
  }

  function With(a: Point, others: seq<Point>): (r: seq<(Point, Point)>)
    ensures |r| == |others| && forall k | 0 <= k < |r| :: r[k] == (a, others[k])
  {
    seq(|others|, k requires 0 <= k < |others| => (a, others[k]))
  }

  // Every pair of vehicles, in order.
  function Pairs(world: seq<Point>): seq<(Point, Point)> {
    if world == [] then [] else With(world[0], world[1..]) + Pairs(world[1..])
  }

  lemma {:induction false} PairIsListed(world: seq<Point>, i: nat, j: nat)
    requires i < j < |world|
    ensures (world[i], world[j]) in Pairs(world)
  {
    if i == 0 {
      assert With(world[0], world[1..])[j - 1] == (world[0], world[j]);
    } else {
      PairIsListed(world[1..], i - 1, j - 1);
    }
  }

  lemma {:induction false} ListedIsPair(world: seq<Point>, p: (Point, Point)) returns (i: nat, j: nat)
    requires p in Pairs(world)
    ensures i < j < |world| && p == (world[i], world[j])
  {
    var first := With(world[0], world[1..]);
    if p in first {
      i := 0;
      j :| 0 <= j < |first| && first[j] == p;
    } else {
      i, j := ListedIsPair(world[1..], p);
      i := i + 1;
    }
    j := j + 1;
  }

  function Apart(hypot: (real, real) -> real, p: (Point, Point)): real {
    hypot(p.0.east - p.1.east, p.0.north - p.1.north)
  }

  ghost predicate IsClosest(hypot: (real, real) -> real, pairs: seq<(Point, Point)>, d: real) {
    && (exists p :: p in pairs && d == Apart(hypot, p))
    && (forall p | p in pairs :: d <= Apart(hypot, p))
  }

  lemma CloserStep(hypot: (real, real) -> real, pairs: seq<(Point, Point)>, n: nat, closest: Option<real>)
    requires n < |pairs| && (closest.None? <==> n == 0)
    requires closest.Some? ==> IsClosest(hypot, pairs[..n], closest.value)
    ensures var apart := Apart(hypot, pairs[n]);
            IsClosest(hypot, pairs[..n + 1], if closest.None? || apart < closest.value then apart else closest.value)
  {
    assert pairs[..n + 1] == pairs[..n] + [pairs[n]];
    assert pairs[n] in pairs[..n + 1];
  }

  method ClosestPair(hypot: (real, real) -> real, world: seq<Point>) returns (d: real)
    requires |world| >= 2
    ensures IsClosest(hypot, Pairs(world), d)
  {
    var pairs := Pairs(world);
    var closest := None;
    for n := 0 to |pairs|
      invariant closest.None? <==> n == 0
      invariant closest.None? || IsClosest(hypot, pairs[..n], closest.value)
    {
      CloserStep(hypot, pairs, n, closest);
      var apart := Apart(hypot, pairs[n]);
      if closest.None? || apart < closest.value {
        closest := Some(apart);
      }
    }
    assert pairs[..|pairs|] == pairs;
    d := closest.value;
  }

  // ---- The line tolerances ----

  function Largest(s: seq<real>): (r: real)
    requires s != []
    ensures r in s && forall x | x in s :: x <= r
  {
    if |s| == 1 then s[0]
    else
      var rest := Largest(s[1..]);
      assert s == [s[0]] + s[1..];
      if s[0] < rest then rest else s[0]
  }

  function Ascending(): (real, real) -> bool {
    (a: real, b: real) => a <= b
  }

  function Sorted(s: seq<real>): (r: seq<real>)
    ensures |r| == |s| && multiset(r) == multiset(s)
  {
    SortBy(Ascending(), s)
  }

  function Easts(world: seq<Point>): seq<real> {
    seq(|world|, i requires 0 <= i < |world| => world[i].east)
  }

  function Norths(world: seq<Point>): seq<real> {
    seq(|world|, i requires 0 <= i < |world| => world[i].north)
  }

  function Median(sorted: seq<real>): real
    requires sorted != []
  {
    0.5 * (sorted[(|sorted| - 1) / 2] + sorted[|sorted| / 2])
  }

  function Offsets(easts: seq<real>, line: real): (r: seq<real>)
    ensures |r| == |easts|
    ensures forall i | 0 <= i < |r| :: r[i] == Distance(easts[i], line)
  {
    seq(|easts|, i requires 0 <= i < |easts| => Distance(easts[i], line))
  }

  // How far a vehicle is off the line through the median east coordinate, at most.
  function CrossTrack(world: seq<Point>): real
    requires world != []
  {
    Largest(Offsets(Easts(world), Median(Sorted(Easts(world)))))
  }

  function GapErrors(norths: seq<real>): (r: seq<real>)
    requires |norths| >= 2
    ensures |r| == |norths| - 1
    ensures forall i | 0 <= i < |r| :: r[i] == Distance(norths[i + 1] - norths[i], SPACING)
  {
    seq(|norths| - 1, i requires 0 <= i < |norths| - 1 => Distance(norths[i + 1] - norths[i], SPACING))
  }

  // How far a gap between neighbours is off the required spacing, at most.
  function SpacingError(world: seq<Point>): real
    requires |world| >= 2
  {
    Largest(GapErrors(Sorted(Norths(world))))
  }

  predicate InLine(world: seq<Point>)
    requires |world| >= 2
  {
    CrossTrack(world) <= MAX_CROSS_TRACK && SpacingError(world) <= MAX_SPACING_ERROR
  }

  // ---- A fleet in line is spread out ----

  ghost predicate Spaced(s: seq<real>) {
    forall i | 0 <= i < |s| - 1 :: s[i + 1] - s[i] >= LEAST_GAP
  }

  lemma {:induction false} SpacedApart(s: seq<real>, p: nat, q: nat)
    requires Spaced(s) && p < q < |s|
    ensures s[q] - s[p] >= LEAST_GAP
  {
    if p + 1 < q {
      SpacedApart(s, p, q - 1);
      assert s[q - 1 + 1] - s[q - 1] >= LEAST_GAP;
    }
  }

  lemma {:induction false} SpacedCounts(s: seq<real>, x: real)
    requires Spaced(s)
    ensures multiset(s)[x] <= 1
  {
    if s != [] {
      var n := |s| - 1;
      assert s == s[..n] + [s[n]];
      SpacedCounts(s[..n], x);
      if x in s[..n] {
        var p :| 0 <= p < n && s[p] == x;
        SpacedApart(s, p, n);
      }
    }
  }

  lemma SmallErrorsAreSpaced(norths: seq<real>, errors: seq<real>)
    requires |norths| >= 2 && |errors| == |norths| - 1
    requires forall i | 0 <= i < |errors| :: errors[i] == Distance(norths[i + 1] - norths[i], SPACING)
    requires forall x | x in errors :: x <= MAX_SPACING_ERROR
    ensures Spaced(norths)
  {
    forall i | 0 <= i < |norths| - 1
      ensures norths[i + 1] - norths[i] >= LEAST_GAP
    {
      assert errors[i] in errors;
    }
  }

  lemma NorthsApart(norths: seq<real>, a: nat, b: nat)
    requires Spaced(Sorted(norths)) && a < b < |norths|
    ensures Distance(norths[a], norths[b]) >= LEAST_GAP
  {
    var sorted := Sorted(norths);
    SpacedCounts(sorted, norths[a]);
    if norths[a] == norths[b] {
      RepeatCounts(norths, a, b);
    }
    assert norths[a] in multiset(norths) && norths[b] in multiset(norths);
    assert norths[a] in multiset(sorted) && norths[b] in multiset(sorted);
    var p :| 0 <= p < |sorted| && sorted[p] == norths[a];
    var q :| 0 <= q < |sorted| && sorted[q] == norths[b];
    if p < q {
      SpacedApart(sorted, p, q);
    } else {
      SpacedApart(sorted, q, p);
    }
  }

  lemma SquareGrows(a: real, b: real)
    requires 0.0 <= a <= b
    ensures a * a <= b * b && (a < b ==> a * a < b * b)
  {
    var sum, gap := b + a, b - a;
    assert b * b - a * a == sum * gap;
    assert sum * gap >= 0.0;
    assert a < b ==> sum * gap > 0.0;
  }

  lemma SquareIsSize(v: real, size: real)
    requires size == Distance(v, 0.0)
    ensures size >= 0.0 && v * v == size * size && v * v >= 0.0
  {
    if v < 0.0 {
      assert size == -v;
      assert (-v) * (-v) == v * v;
    }
    SquareGrows(0.0, size);
  }

  lemma RootIsLarge(d: real, east: real, north: real)
    requires d >= 0.0 && d * d == east * east + north * north && Distance(north, 0.0) >= LEAST_GAP
    ensures d >= LEAST_GAP
  {
    SquareIsSize(east, Distance(east, 0.0));
    SquareIsSize(north, Distance(north, 0.0));
    SquareGrows(LEAST_GAP, Distance(north, 0.0));
    if d < LEAST_GAP {
      SquareGrows(d, LEAST_GAP);
    }
  }

  lemma HypotIsLarge(hypot: (real, real) -> real, east: real, north: real)
    requires IsHypot(hypot) && Distance(north, 0.0) >= LEAST_GAP
    ensures hypot(east, north) >= LEAST_GAP
  {
    RootIsLarge(hypot(east, north), east, north);
  }

  lemma PairIsSpaced(world: seq<Point>, norths: seq<real>, p: (Point, Point))
    requires norths == Norths(world) && Spaced(Sorted(norths)) && p in Pairs(world)
    ensures Distance(p.0.north, p.1.north) >= LEAST_GAP
  {
    var i, j := ListedIsPair(world, p);
    assert norths[i] == p.0.north && norths[j] == p.1.north;
    NorthsApart(norths, i, j);
  }

  lemma PairIsFar(hypot: (real, real) -> real, p: (Point, Point))
    requires IsHypot(hypot) && Distance(p.0.north, p.1.north) >= LEAST_GAP
    ensures Apart(hypot, p) >= LEAST_GAP
  {
    HypotIsLarge(hypot, p.0.east - p.1.east, p.0.north - p.1.north);
  }

  lemma SmallLargestIsSpaced(norths: seq<real>)
    requires |norths| >= 2 && Largest(GapErrors(norths)) <= MAX_SPACING_ERROR
    ensures Spaced(norths)
  {
    SmallErrorsAreSpaced(norths, GapErrors(norths));
  }

  lemma PairKeepsApart(hypot: (real, real) -> real, world: seq<Point>, p: (Point, Point))
    requires IsHypot(hypot) && |world| >= 2 && SpacingError(world) <= MAX_SPACING_ERROR && p in Pairs(world)
    ensures Apart(hypot, p) >= LEAST_GAP
  {
    SmallLargestIsSpaced(Sorted(Norths(world)));
    PairIsSpaced(world, Norths(world), p);
    PairIsFar(hypot, p);
  }

  // A fleet inside the line tolerances has no pair nearer than 2.8 m.
  lemma InLineKeepsApart(hypot: (real, real) -> real, world: seq<Point>, d: real)
    requires IsHypot(hypot) && |world| >= 2 && InLine(world) && IsClosest(hypot, Pairs(world), d)
    ensures d >= LEAST_GAP
  {
    var p :| p in Pairs(world) && d == Apart(hypot, p);
    PairKeepsApart(hypot, world, p);
  }

  // ---- and not too spread out ----

  // The separation of two vehicles at opposite edges of the line's tolerances.
  ghost function Widest(hypot: (real, real) -> real): real {
    hypot(2.0 * MAX_CROSS_TRACK, SPACING + MAX_SPACING_ERROR)
  }

  lemma HypotGrows(hypot: (real, real) -> real, east: real, north: real, wide: real, long: real)
    requires IsHypot(hypot) && Distance(east, 0.0) <= wide && Distance(north, 0.0) <= long
    ensures hypot(east, north) <= hypot(wide, long)
  {
    SquareIsSize(east, Distance(east, 0.0));
    SquareIsSize(north, Distance(north, 0.0));
    SquareGrows(Distance(east, 0.0), wide);
    SquareGrows(Distance(north, 0.0), long);
    RootGrows(hypot(east, north), hypot(wide, long));
  }

  lemma RootGrows(a: real, b: real)
    requires a >= 0.0 && b >= 0.0 && a * a <= b * b
    ensures a <= b
  {
    if b < a {
      SquareGrows(b, a);
    }
  }

  lemma OffsetsClose(easts: seq<real>, offsets: seq<real>, line: real, a: nat, b: nat)
    requires a < |easts| && b < |easts| && |offsets| == |easts|
    requires forall i | 0 <= i < |offsets| :: offsets[i] == Distance(easts[i], line)
    requires forall x | x in offsets :: x <= MAX_CROSS_TRACK
    ensures Distance(easts[a] - easts[b], 0.0) <= 2.0 * MAX_CROSS_TRACK
  {
    assert offsets[a] in offsets && offsets[b] in offsets;
  }

  lemma EastsClose(easts: seq<real>, line: real, a: nat, b: nat)
    requires a < |easts| && b < |easts| && Largest(Offsets(easts, line)) <= MAX_CROSS_TRACK
    ensures Distance(easts[a] - easts[b], 0.0) <= 2.0 * MAX_CROSS_TRACK
  {
    OffsetsClose(easts, Offsets(easts, line), line, a, b);
  }

  lemma FirstGapIsSmall(norths: seq<real>)
    requires |norths| >= 2 && Largest(GapErrors(norths)) <= MAX_SPACING_ERROR
    ensures 0.0 < norths[1] - norths[0] <= SPACING + MAX_SPACING_ERROR
  {
    assert GapErrors(norths)[0] in GapErrors(norths);
    assert GapErrors(norths)[0] == Distance(norths[1] - norths[0], SPACING);
  }

  // The two southernmost vehicles.
  lemma Southernmost(norths: seq<real>, sorted: seq<real>) returns (a: nat, b: nat)
    requires multiset(sorted) == multiset(norths) && |sorted| >= 2
    requires 0.0 < sorted[1] - sorted[0] <= SPACING + MAX_SPACING_ERROR
    ensures a < b < |norths| && Distance(norths[a] - norths[b], 0.0) <= SPACING + MAX_SPACING_ERROR
  {
    SameElements(sorted, norths);
    assert sorted[0] in sorted && sorted[1] in sorted;
    var i :| 0 <= i < |norths| && norths[i] == sorted[0];
    var j :| 0 <= j < |norths| && norths[j] == sorted[1];
    a, b := if i < j then i else j, if i < j then j else i;
  }

  lemma NearPair(world: seq<Point>) returns (p: (Point, Point))
    requires |world| >= 2 && InLine(world)
    ensures p in Pairs(world)
    ensures Distance(p.0.east - p.1.east, 0.0) <= 2.0 * MAX_CROSS_TRACK
    ensures Distance(p.0.north - p.1.north, 0.0) <= SPACING + MAX_SPACING_ERROR
  {
    FirstGapIsSmall(Sorted(Norths(world)));
    var a, b := Southernmost(Norths(world), Sorted(Norths(world)));
    EastsClose(Easts(world), Median(Sorted(Easts(world))), a, b);
    PairIsListed(world, a, b);
    p := (world[a], world[b]);
  }

  lemma PairIsNear(hypot: (real, real) -> real, p: (Point, Point))
    requires IsHypot(hypot) && Distance(p.0.east - p.1.east, 0.0) <= 2.0 * MAX_CROSS_TRACK
    requires Distance(p.0.north - p.1.north, 0.0) <= SPACING + MAX_SPACING_ERROR
    ensures Apart(hypot, p) <= Widest(hypot)
  {
    HypotGrows(hypot, p.0.east - p.1.east, p.0.north - p.1.north, 2.0 * MAX_CROSS_TRACK, SPACING + MAX_SPACING_ERROR);
  }

  // The closest pair of a fleet inside the line tolerances is no farther apart.
  lemma InLineStaysNear(hypot: (real, real) -> real, world: seq<Point>, d: real)
    requires IsHypot(hypot) && |world| >= 2 && InLine(world) && IsClosest(hypot, Pairs(world), d)
    ensures d <= Widest(hypot)
  {
    var p := NearPair(world);
    PairIsNear(hypot, p);
  }

  // ---- Both bounds are attained ----

  // Two vehicles a tolerated gap apart, as far off the line on either side as asked.
  function Two(gap: real, off: real): seq<Point> {
    [Point(off, gap), Point(-off, 0.0)]
  }

  lemma SortedIs(s: seq<real>, t: seq<real>)
    requires Ordered(Ascending(), t) && multiset(s) == multiset(t)
    ensures Sorted(s) == t
  {
    OrderedIsUnique(Ascending(), Sorted(s), t);
  }

  lemma SwappedIsSorted(a: real, b: real)
    requires a <= b
    ensures Sorted([b, a]) == [a, b]
  {
    SortedIs([b, a], [a, b]);
  }

  lemma TwoSpacing(sorted: seq<real>, gap: real)
    requires SPACING - MAX_SPACING_ERROR <= gap <= SPACING + MAX_SPACING_ERROR && sorted == [0.0, gap]
    ensures Largest(GapErrors(sorted)) <= MAX_SPACING_ERROR
  {
    assert GapErrors(sorted) == [Distance(gap, SPACING)];
  }

  lemma OffsetsBounded(easts: seq<real>, line: real, bound: real)
    requires easts != [] && forall i | 0 <= i < |easts| :: Distance(easts[i], line) <= bound
    ensures Largest(Offsets(easts, line)) <= bound
  {
    var offsets := Offsets(easts, line);
    var i :| 0 <= i < |offsets| && offsets[i] == Largest(offsets);
  }

  lemma MedianOfTwo(low: real, high: real)
    ensures Median([low, high]) == 0.5 * (low + high)
  {
  }

  lemma TwoCrossTrack(easts: seq<real>, sorted: seq<real>, west: real, off: real)
    requires 0.0 <= off <= MAX_CROSS_TRACK && west == -off && easts == [off, west] && sorted == [west, off]
    ensures Largest(Offsets(easts, Median(sorted))) <= MAX_CROSS_TRACK
  {
    MedianOfTwo(west, off);
    OffsetsBounded(easts, 0.0, MAX_CROSS_TRACK);
  }

  lemma TwoKeepTrack(world: seq<Point>, gap: real, off: real)
    requires 0.0 <= off <= MAX_CROSS_TRACK && world == Two(gap, off)
    ensures CrossTrack(world) <= MAX_CROSS_TRACK
  {
    var easts := [off, -off];
    assert Easts(world) == easts;
    SwappedIsSorted(-off, off);
    TwoCrossTrack(easts, [-off, off], -off, off);
  }

  lemma TwoKeepSpacing(world: seq<Point>, gap: real, off: real)
    requires SPACING - MAX_SPACING_ERROR <= gap <= SPACING + MAX_SPACING_ERROR && world == Two(gap, off)
    ensures SpacingError(world) <= MAX_SPACING_ERROR
  {
    var norths := [gap, 0.0];
    assert Norths(world) == norths;
    SwappedIsSorted(0.0, gap);
    TwoSpacing([0.0, gap], gap);
  }

  lemma TwoInLine(world: seq<Point>, gap: real, off: real)
    requires SPACING - MAX_SPACING_ERROR <= gap <= SPACING + MAX_SPACING_ERROR && 0.0 <= off <= MAX_CROSS_TRACK
    requires world == Two(gap, off)
    ensures InLine(world)
  {
    TwoKeepTrack(world, gap, off);
    TwoKeepSpacing(world, gap, off);
  }

  lemma TwoApart(hypot: (real, real) -> real, world: seq<Point>, gap: real, off: real)
    requires world == Two(gap, off)
    ensures IsClosest(hypot, Pairs(world), hypot(2.0 * off, gap))
  {
    var p := (world[0], world[1]);
    assert world[1..] == [p.1] && [p.1][1..] == [];
    assert With(p.0, [p.1]) == [p] && With(p.1, []) == [];
    assert Pairs([p.1]) == [];
    assert Pairs(world) == [p];
    assert off - (-off) == 2.0 * off;
    assert p in Pairs(world) && Apart(hypot, p) == hypot(2.0 * off, gap);
  }

  lemma TwoOnLine(hypot: (real, real) -> real, gap: real, off: real) returns (world: seq<Point>)
    requires SPACING - MAX_SPACING_ERROR <= gap <= SPACING + MAX_SPACING_ERROR && 0.0 <= off <= MAX_CROSS_TRACK
    ensures |world| == 2 && InLine(world) && IsClosest(hypot, Pairs(world), hypot(2.0 * off, gap))
  {
    world := Two(gap, off);
    TwoInLine(world, gap, off);
    TwoApart(hypot, world, gap, off);
  }

  lemma HypotOnLine(hypot: (real, real) -> real, gap: real)
    requires IsHypot(hypot) && gap >= 0.0
    ensures hypot(0.0, gap) == gap
  {
    var d := hypot(0.0, gap);
    assert d * d == gap * gap;
    RootGrows(d, gap);
    RootGrows(gap, d);
  }

  lemma NearestOnLine(hypot: (real, real) -> real) returns (world: seq<Point>)
    requires IsHypot(hypot)
    ensures |world| == 2 && InLine(world) && IsClosest(hypot, Pairs(world), LEAST_GAP)
  {
    HypotOnLine(hypot, LEAST_GAP);
    world := TwoOnLine(hypot, LEAST_GAP, 0.0);
  }

  lemma WidestOnLine(hypot: (real, real) -> real) returns (world: seq<Point>)
    ensures |world| == 2 && InLine(world) && IsClosest(hypot, Pairs(world), Widest(hypot))
  {
    world := TwoOnLine(hypot, SPACING + MAX_SPACING_ERROR, MAX_CROSS_TRACK);
  }
}
