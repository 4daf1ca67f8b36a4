// The line tolerances, said on the vehicles alone: their order statistics east and
// north, with no sorting.
module FormationShape {
  import opened Outcomes
  import opened Sorting
  import opened FormationLine

  // x is the k-th smallest value, counting from zero.
  ghost predicate IsKth(s: seq<real>, k: int, x: real) {
    |Filter((y: real) => y < x, s)| <= k < |Filter((y: real) => y <= x, s)|
  }

  ghost predicate IsKthEast(world: seq<Point>, k: int, x: real) {
    |Filter((p: Point) => p.east < x, world)| <= k < |Filter((p: Point) => p.east <= x, world)|
  }

  ghost predicate IsKthNorth(world: seq<Point>, k: int, y: real) {
    |Filter((p: Point) => p.north < y, world)| <= k < |Filter((p: Point) => p.north <= y, world)|
  }

  ghost predicate AreMiddle(world: seq<Point>, lo: real, hi: real) {
    IsKthEast(world, (|world| - 1) / 2, lo) && IsKthEast(world, |world| / 2, hi)
  }

  ghost predicate AreNeighbours(world: seq<Point>, k: nat, lo: real, hi: real) {
    k + 1 < |world| && IsKthNorth(world, k, lo) && IsKthNorth(world, k + 1, hi)
  }

  ghost predicate IsNear(world: seq<Point>, line: real) {
    forall p | p in world :: -0.25 <= p.east - line <= 0.25
  }

  // Every vehicle is within 0.25 m east or west of the midpoint of the two middle
  // ones, and neighbours to the north are 2.8 m to 3.2 m apart.
  ghost predicate IsShape(world: seq<Point>) {
    && (forall lo, hi | AreMiddle(world, lo, hi) :: IsNear(world, (lo + hi) / 2.0))
    && forall k: nat, lo, hi | AreNeighbours(world, k, lo, hi) :: 2.8 <= hi - lo <= 3.2
  }

  lemma FilterIgnoresOrder(p: real -> bool, a: seq<real>, b: seq<real>)
    requires multiset(a) == multiset(b)
    ensures |Filter(p, a)| == |Filter(p, b)|
  {
    forall x
      ensures multiset(Filter(p, a))[x] == multiset(Filter(p, b))[x]
    {
      FilterCounts(p, a, x);
      FilterCounts(p, b, x);
    }
    assert multiset(Filter(p, a)) == multiset(Filter(p, b));
    assert |multiset(Filter(p, a))| == |Filter(p, a)| && |multiset(Filter(p, b))| == |Filter(p, b)|;
  }

  lemma {:induction false} FilterJoins<T(!new)>(p: T -> bool, a: seq<T>, b: seq<T>)
    ensures |Filter(p, a + b)| == |Filter(p, a)| + |Filter(p, b)|
  {
    if a == [] {
      assert a + b == b;
    } else {
      assert (a + b)[1..] == a[1..] + b;
      FilterJoins(p, a[1..], b);
    }
  }

  lemma {:induction false} AllPass<T(!new)>(p: T -> bool, s: seq<T>)
    requires forall x | x in s :: p(x)
    ensures |Filter(p, s)| == |s|
  {
    if s != [] {
      assert s[0] in s && forall x | x in s[1..] :: x in s;
      AllPass(p, s[1..]);
    }
  }

  lemma {:induction false} NonePass<T(!new)>(p: T -> bool, s: seq<T>)
    requires forall x | x in s :: !p(x)
    ensures |Filter(p, s)| == 0
  {
    if s != [] {
      assert s[0] in s && forall x | x in s[1..] :: x in s;
      NonePass(p, s[1..]);
    }
  }

  lemma SplitCount(p: real -> bool, t: seq<real>, k: nat)
    requires k <= |t|
    ensures |Filter(p, t)| == |Filter(p, t[..k])| + |Filter(p, t[k..])|
  {
    assert t == t[..k] + t[k..];
    FilterJoins(p, t[..k], t[k..]);
  }

  // In sorted values the k-th smallest stands at place k,
  lemma PlaceIsKth(t: seq<real>, k: nat)
    requires Ordered(Ascending(), t) && k < |t|
    ensures IsKth(t, k, t[k])
  {
    var x := t[k];
    var less, upTo := (y: real) => y < x, (y: real) => y <= x;
    SplitCount(less, t, k);
    forall y | y in t[k..]
      ensures !less(y)
    {
      var i :| k <= i < |t| && t[i] == y;
      assert k < i ==> Ascending()(t[k], t[i]);
    }
    NonePass(less, t[k..]);
    SplitCount(upTo, t, k + 1);
    forall y | y in t[..k + 1]
      ensures upTo(y)
    {
      var i :| 0 <= i <= k && t[i] == y;
      assert i < k ==> Ascending()(t[i], t[k]);
    }
    AllPass(upTo, t[..k + 1]);
  }

  lemma {:induction false} MoreBelow(s: seq<real>, x: real, y: real)
    requires x < y
    ensures |Filter((z: real) => z <= x, s)| <= |Filter((z: real) => z < y, s)|
  {
    if s != [] {
      MoreBelow(s[1..], x, y);
    }
  }

  // and there is no other.
  lemma KthIsUnique(s: seq<real>, k: int, x: real, y: real)
    requires IsKth(s, k, x) && IsKth(s, k, y)
    ensures x == y
  {
    if x < y {
      MoreBelow(s, x, y);
    } else if y < x {
      MoreBelow(s, y, x);
    }
  }

  lemma SortedPlace(s: seq<real>, k: nat, x: real)
    requires k < |s|
    ensures x == Sorted(s)[k] <==> IsKth(s, k, x)
  {
    PlaceIsKth(Sorted(s), k);
    FilterIgnoresOrder((y: real) => y < Sorted(s)[k], s, Sorted(s));
    FilterIgnoresOrder((y: real) => y <= Sorted(s)[k], s, Sorted(s));
    if IsKth(s, k, x) {
      KthIsUnique(s, k, x, Sorted(s)[k]);
    }
  }

  lemma {:induction false} CountByEast(world: seq<Point>, p: real -> bool)
    ensures |Filter((v: Point) => p(v.east), world)| == |Filter(p, Easts(world))|
  {
    if world != [] {
      CountByEast(world[1..], p);
      assert Easts(world)[1..] == Easts(world[1..]);
    }
  }

  lemma {:induction false} CountByNorth(world: seq<Point>, p: real -> bool)
    ensures |Filter((v: Point) => p(v.north), world)| == |Filter(p, Norths(world))|
  {
    if world != [] {
      CountByNorth(world[1..], p);
      assert Norths(world)[1..] == Norths(world[1..]);
    }
  }

  lemma {:induction false} SameCount(p: Point -> bool, q: Point -> bool, world: seq<Point>)
    requires forall v :: p(v) == q(v)
    ensures |Filter(p, world)| == |Filter(q, world)|
  {
    if world != [] {
      SameCount(p, q, world[1..]);
    }
  }

  lemma EastPlace(world: seq<Point>, k: nat, x: real)
    requires k < |world|
    ensures x == Sorted(Easts(world))[k] <==> IsKthEast(world, k, x)
  {
    var less, upTo := (y: real) => y < x, (y: real) => y <= x;
    SortedPlace(Easts(world), k, x);
    CountByEast(world, less);
    CountByEast(world, upTo);
    SameCount((v: Point) => less(v.east), (v: Point) => v.east < x, world);
    SameCount((v: Point) => upTo(v.east), (v: Point) => v.east <= x, world);
  }

  lemma NorthPlace(world: seq<Point>, k: nat, y: real)
    requires k < |world|
    ensures y == Sorted(Norths(world))[k] <==> IsKthNorth(world, k, y)
  {
    var less, upTo := (z: real) => z < y, (z: real) => z <= y;
    SortedPlace(Norths(world), k, y);
    CountByNorth(world, less);
    CountByNorth(world, upTo);
    SameCount((v: Point) => less(v.north), (v: Point) => v.north < y, world);
    SameCount((v: Point) => upTo(v.north), (v: Point) => v.north <= y, world);
  }

  // The cross-track test: every vehicle near the line.
  lemma CrossTrackReads(world: seq<Point>, line: real)
    requires world != []
    ensures Largest(Offsets(Easts(world), line)) <= 0.25 <==> IsNear(world, line)
  {
    var offsets := Offsets(Easts(world), line);
    if Largest(offsets) <= 0.25 {
      forall p | p in world
        ensures -0.25 <= p.east - line <= 0.25
      {
        var i :| 0 <= i < |world| && world[i] == p;
        assert offsets[i] in offsets;
      }
    } else {
      var i :| 0 <= i < |offsets| && offsets[i] == Largest(offsets);
      assert world[i] in world;
    }
  }

  lemma MiddleReads(world: seq<Point>, lo: real, hi: real)
    requires world != []
    ensures var t := Sorted(Easts(world));
            AreMiddle(world, lo, hi) <==> lo == t[(|world| - 1) / 2] && hi == t[|world| / 2]
  {
    EastPlace(world, (|world| - 1) / 2, lo);
    EastPlace(world, |world| / 2, hi);
  }

  lemma CrossTrackExactly(world: seq<Point>)
    requires world != []
    ensures CrossTrack(world) <= 0.25 <==> forall lo, hi | AreMiddle(world, lo, hi) :: IsNear(world, (lo + hi) / 2.0)
  {
    var lo, hi := TheMiddle(world);
    var line := Median(Sorted(Easts(world)));
    CrossTrackReads(world, line);
    NearTheMiddle(world, lo, hi, line);
  }

  lemma NearTheMiddle(world: seq<Point>, lo: real, hi: real, line: real)
    requires line == (lo + hi) / 2.0 && AreMiddle(world, lo, hi)
    requires forall x, y | AreMiddle(world, x, y) :: x == lo && y == hi
    ensures IsNear(world, line) <==> forall x, y | AreMiddle(world, x, y) :: IsNear(world, (x + y) / 2.0)
  {
  }

  lemma TheMiddle(world: seq<Point>) returns (lo: real, hi: real)
    requires world != []
    ensures Median(Sorted(Easts(world))) == (lo + hi) / 2.0 && AreMiddle(world, lo, hi)
    ensures forall x, y | AreMiddle(world, x, y) :: x == lo && y == hi
  {
    var t := Sorted(Easts(world));
    lo, hi := t[(|world| - 1) / 2], t[|world| / 2];
    MiddleReads(world, lo, hi);
    forall x, y | AreMiddle(world, x, y)
      ensures x == lo && y == hi
    {
      MiddleReads(world, x, y);
    }
  }

  ghost predicate GapsFit(t: seq<real>) {
    forall k: nat | k < |t| - 1 :: GapFits(t, k)
  }

  ghost predicate GapFits(t: seq<real>, k: nat)
    requires k < |t| - 1
  {
    2.8 <= t[k + 1] - t[k] <= 3.2
  }

  // The spacing test: every gap between neighbours within the tolerance.
  lemma SpacingReads(t: seq<real>)
    requires |t| >= 2
    ensures Largest(GapErrors(t)) <= 0.2 <==> GapsFit(t)
  {
    var errors := GapErrors(t);
    if Largest(errors) <= 0.2 {
      forall k: nat | k < |t| - 1
        ensures GapFits(t, k)
      {
        assert errors[k] in errors;
      }
    } else {
      var k :| 0 <= k < |errors| && errors[k] == Largest(errors);
      assert !GapFits(t, k);
    }
  }

  lemma NeighboursRead(world: seq<Point>, k: nat, lo: real, hi: real)
    ensures var t := Sorted(Norths(world));
            AreNeighbours(world, k, lo, hi) <==> k + 1 < |world| && lo == t[k] && hi == t[k + 1]
  {
    if k + 1 < |world| {
      NorthPlace(world, k, lo);
      NorthPlace(world, k + 1, hi);
    }
  }

  lemma SpacingExactly(world: seq<Point>)
    requires |world| >= 2
    ensures SpacingError(world) <= 0.2
        <==> forall k: nat, lo, hi | AreNeighbours(world, k, lo, hi) :: 2.8 <= hi - lo <= 3.2
  {
    var t := Sorted(Norths(world));
    SpacingReads(t);
    if GapsFit(t) {
      forall k: nat, lo, hi | AreNeighbours(world, k, lo, hi)
        ensures 2.8 <= hi - lo <= 3.2
      {
        NeighboursRead(world, k, lo, hi);
        assert GapFits(t, k);
      }
    } else {
      var k: nat :| k < |t| - 1 && !GapFits(t, k);
      NeighboursRead(world, k, t[k], t[k + 1]);
    }
  }

  // The monitor's test is this shape.
  lemma InLineExactly(world: seq<Point>)
    requires |world| >= 2
    ensures InLine(world) <==> IsShape(world)
  {
    CrossTrackExactly(world);
    SpacingExactly(world);
  }
}
