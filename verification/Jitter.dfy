// _jittered: shift the shared tile grid by a per-frame offset, clamp it to the
// image and coalesce origins the clamp pushed together.
module Jitter {
  import opened Arithmetic
  import opened Outcomes
  import opened Tiles

  function Shifted(value: int, offset: int, limit: int): int {
    Min(value + offset, limit)
  }

  function ShiftedAll(values: seq<int>, offset: int, limit: int): (r: seq<int>)
    ensures |r| == |values| && forall i | 0 <= i < |values| :: r[i] == Shifted(values[i], offset, limit)
  {
    seq(|values|, i requires 0 <= i < |values| => Shifted(values[i], offset, limit))
  }

  // The smallest gap between neighbours.
  function Spacing(values: seq<int>): int
    requires |values| >= 2
  {
    var gap := values[1] - values[0];
    if |values| == 2 then gap
    else
      var rest := Spacing(values[1..]);
      if gap < rest then gap else rest
  }

  lemma {:induction false} SpacingIsLeast(values: seq<int>, i: nat)
    requires i + 1 < |values|
    ensures Spacing(values) <= values[i + 1] - values[i]
  {
    if i > 0 {
      SpacingIsLeast(values[1..], i - 1);
    }
  }

  lemma {:induction false} SpacingIsAGap(values: seq<int>) returns (i: nat)
    requires |values| >= 2
    ensures i + 1 < |values| && Spacing(values) == values[i + 1] - values[i]
  {
    i := 0;
    if Spacing(values) != values[1] - values[0] {
      i := SpacingIsAGap(values[1..]);
      i := i + 1;
    }
  }

  lemma SpacingIsPositive(values: seq<int>)
    requires |values| >= 2 && StrictlyIncreasing(values)
    ensures Spacing(values) > 0
  {
    var i := SpacingIsAGap(values);
  }

  // x is kept, or it was coalesced into the edge anchor at most half a spacing on.
  ghost predicate KeptNearby(kept: seq<int>, limit: int, spacing: int, x: int) {
    x in kept || (kept != [] && kept[|kept| - 1] == limit && x <= limit && 2 * (limit - x) < spacing)
  }

  ghost predicate GapsAtLeastHalf(kept: seq<int>, spacing: int) {
    forall i | 0 <= i < |kept| - 1 :: 2 * (kept[i + 1] - kept[i]) >= spacing
  }

  // What the list keeps true of the first `done` values.
  ghost predicate JitterState(values: seq<int>, offset: int, limit: int, spacing: int, done: nat, kept: seq<int>)
    requires done <= |values|
  {
    && (done == 0 <==> kept == [])
    && (done > 0 ==> kept[|kept| - 1] == Shifted(values[done - 1], offset, limit)
                     && kept[0] >= Shifted(values[0], offset, limit))
    && GapsAtLeastHalf(kept, spacing)
    && (forall k | k in kept :: exists i :: 0 <= i < done && k == Shifted(values[i], offset, limit))
    && (forall i | 0 <= i < done ::
          Shifted(values[i], offset, limit) in kept
          || (kept[|kept| - 1] == limit && 2 * (limit - Shifted(values[i], offset, limit)) < spacing))
  }

  // One turn of the loop: a candidate nearer than half a spacing to the last
  // origin replaces it, an equal one is dropped.
  function Coalesce(kept: seq<int>, candidate: int, spacing: int): seq<int> {
    if kept != [] && 2 * (candidate - kept[|kept| - 1]) < spacing then kept[|kept| - 1 := candidate]
    else if kept == [] || candidate != kept[|kept| - 1] then kept + [candidate]
    else kept
  }

  // The loop's list after the first `done` values.
  function Coalesced(values: seq<int>, offset: int, limit: int, spacing: int, done: nat): seq<int>
    requires done <= |values|
  {
    if done == 0 then []
    else
      var kept := Coalesced(values, offset, limit, spacing, done - 1);
      Coalesce(kept, Shifted(values[done - 1], offset, limit), spacing)
  }

  // The jittered axis.
  function Jitter(values: seq<int>, offset: int, limit: int): seq<int>
    requires values != []
  {
    if |values| < 2 then [Shifted(values[0], offset, limit)]
    else Coalesced(values, offset, limit, Spacing(values), |values|)
  }

  lemma AppendStep(values: seq<int>, offset: int, limit: int, spacing: int, i: nat, kept: seq<int>)
    requires i < |values| && JitterState(values, offset, limit, spacing, i, kept)
    requires kept != [] ==> 2 * (Shifted(values[i], offset, limit) - kept[|kept| - 1]) >= spacing && spacing > 0
    ensures JitterState(values, offset, limit, spacing, i + 1, kept + [Shifted(values[i], offset, limit)])
  {
    var c := Shifted(values[i], offset, limit);
    var longer := kept + [c];
    if kept != [] {
      assert kept[|kept| - 1] in kept;
      assert kept[|kept| - 1] < limit;
    }
    forall k | k in longer
      ensures exists j :: 0 <= j < i + 1 && k == Shifted(values[j], offset, limit)
    {
      if k in kept {
        var j :| 0 <= j < i && k == Shifted(values[j], offset, limit);
      } else {
        assert k == Shifted(values[i], offset, limit);
      }
    }
    assert c in longer;
  }

  // Unclamped neighbours stay a full spacing apart, so only the edge anchor is
  // ever written over the previous origin.
  lemma OverwriteStep(values: seq<int>, offset: int, limit: int, spacing: int, i: nat, kept: seq<int>)
    requires 0 < i < |values| && spacing > 0 && values[i] - values[i - 1] >= spacing
    requires JitterState(values, offset, limit, spacing, i, kept)
    requires 2 * (Shifted(values[i], offset, limit) - kept[|kept| - 1]) < spacing
    ensures Shifted(values[i], offset, limit) == limit
    ensures JitterState(values, offset, limit, spacing, i + 1, kept[|kept| - 1 := limit])
  {
    var last := |kept| - 1;
    var after := kept[last := limit];
    assert after[last] == limit;
    forall k | k in after
      ensures exists j :: 0 <= j < i + 1 && k == Shifted(values[j], offset, limit)
    {
      if k != limit {
        assert k in kept;
        var j :| 0 <= j < i && k == Shifted(values[j], offset, limit);
      } else {
        assert k == Shifted(values[i], offset, limit);
      }
    }
    forall j | 0 <= j < i + 1
      ensures Shifted(values[j], offset, limit) in after
              || 2 * (limit - Shifted(values[j], offset, limit)) < spacing
    {
      var c := Shifted(values[j], offset, limit);
      if j < i && c in kept {
        var p :| 0 <= p < |kept| && kept[p] == c;
        assert p < last ==> after[p] == c;
      }
    }
  }

  lemma {:induction false} GapsOrder(kept: seq<int>, spacing: int, i: nat, j: nat)
    requires spacing > 0 && GapsAtLeastHalf(kept, spacing) && i < j < |kept|
    ensures kept[i] < kept[j]
  {
    if i + 1 < j {
      GapsOrder(kept, spacing, i, j - 1);
    }
  }

  // Every kept origin is one of the shifted values, and the last one is kept.
  ghost predicate DrawnFrom(all: seq<int>, kept: seq<int>) {
    && all != [] && kept != [] && kept[|kept| - 1] == all[|all| - 1]
    && forall x | x in kept :: x in all
  }

  // What a jittered axis promises.
  ghost predicate IsJittered(values: seq<int>, offset: int, limit: int, kept: seq<int>) {
    var all := ShiftedAll(values, offset, limit);
    && DrawnFrom(all, kept)
    && (|values| == 1 ==> kept == all)
    && (|values| >= 2 ==>
          && GapsAtLeastHalf(kept, Spacing(values))
          && forall x | x in all :: KeptNearby(kept, limit, Spacing(values), x))
  }

  lemma CoalesceKeepsState(values: seq<int>, offset: int, limit: int, spacing: int, i: nat, kept: seq<int>)
    requires i < |values| && spacing > 0 && (i > 0 ==> values[i] - values[i - 1] >= spacing)
    requires JitterState(values, offset, limit, spacing, i, kept)
    ensures JitterState(values, offset, limit, spacing, i + 1,
                        Coalesce(kept, Shifted(values[i], offset, limit), spacing))
  {
    if kept != [] && 2 * (Shifted(values[i], offset, limit) - kept[|kept| - 1]) < spacing {
      OverwriteStep(values, offset, limit, spacing, i, kept);
    } else {
      AppendStep(values, offset, limit, spacing, i, kept);
    }
  }

  lemma {:induction false} CoalescedKeepsState(values: seq<int>, offset: int, limit: int, spacing: int, done: nat)
    requires |values| >= 2 && spacing == Spacing(values) && spacing > 0 && done <= |values|
    ensures JitterState(values, offset, limit, spacing, done, Coalesced(values, offset, limit, spacing, done))
  {
    if done > 0 {
      CoalescedKeepsState(values, offset, limit, spacing, done - 1);
      if done > 1 {
        SpacingIsLeast(values, done - 2);
      }
      CoalesceKeepsState(values, offset, limit, spacing, done - 1,
                         Coalesced(values, offset, limit, spacing, done - 1));
    }
  }

  method JitterAxis(values: seq<int>, offset: int, limit: int) returns (shifted: seq<int>)
    requires values != []
    ensures shifted == Jitter(values, offset, limit)
  {
    if |values| < 2 {
      return [Shifted(values[0], offset, limit)];
    }
    var spacing := Spacing(values);
    shifted := [];
    for i := 0 to |values|
      invariant shifted == Coalesced(values, offset, limit, spacing, i)
    {
      var candidate := Shifted(values[i], offset, limit);
      if shifted != [] && 2 * (candidate - shifted[|shifted| - 1]) < spacing {
        shifted := shifted[|shifted| - 1 := candidate];
      } else if shifted == [] || candidate != shifted[|shifted| - 1] {
        shifted := shifted + [candidate];
      }
    }
  }

  lemma JitterIsJittered(values: seq<int>, offset: int, limit: int)
    requires values != [] && StrictlyIncreasing(values)
    ensures IsJittered(values, offset, limit, Jitter(values, offset, limit))
  {
    if |values| >= 2 {
      SpacingIsPositive(values);
      CoalescedKeepsState(values, offset, limit, Spacing(values), |values|);
      FinalState(values, offset, limit, Spacing(values), Jitter(values, offset, limit));
    }
  }

  lemma FinalState(values: seq<int>, offset: int, limit: int, spacing: int, kept: seq<int>)
    requires |values| >= 2 && spacing == Spacing(values)
    requires JitterState(values, offset, limit, spacing, |values|, kept)
    ensures IsJittered(values, offset, limit, kept)
  {
    StateIsDrawn(values, offset, limit, spacing, kept);
    StateIsNear(values, offset, limit, spacing, kept);
  }

  lemma StateIsDrawn(values: seq<int>, offset: int, limit: int, spacing: int, kept: seq<int>)
    requires values != [] && JitterState(values, offset, limit, spacing, |values|, kept)
    ensures DrawnFrom(ShiftedAll(values, offset, limit), kept)
  {
    var all := ShiftedAll(values, offset, limit);
    forall x | x in kept
      ensures x in all
    {
      var i :| 0 <= i < |values| && x == Shifted(values[i], offset, limit);
      assert all[i] == x;
    }
  }

  lemma StateIsNear(values: seq<int>, offset: int, limit: int, spacing: int, kept: seq<int>)
    requires values != [] && JitterState(values, offset, limit, spacing, |values|, kept)
    ensures forall x | x in ShiftedAll(values, offset, limit) :: KeptNearby(kept, limit, spacing, x)
  {
    var all := ShiftedAll(values, offset, limit);
    forall x | x in all
      ensures KeptNearby(kept, limit, spacing, x)
    {
      var i :| 0 <= i < |all| && all[i] == x;
      assert x == Shifted(values[i], offset, limit);
    }
  }

  lemma JitterIsDrawn(values: seq<int>, offset: int, limit: int)
    requires values != [] && StrictlyIncreasing(values)
    ensures DrawnFrom(ShiftedAll(values, offset, limit), Jitter(values, offset, limit))
  {
    JitterIsJittered(values, offset, limit);
  }

  // Gaps of at least half a positive spacing leave the kept origins increasing.
  lemma JitteredIncreases(values: seq<int>, offset: int, limit: int, kept: seq<int>)
    requires StrictlyIncreasing(values) && IsJittered(values, offset, limit, kept)
    ensures StrictlyIncreasing(kept)
  {
    if |values| >= 2 {
      SpacingIsPositive(values);
      forall i, j | 0 <= i < j < |kept|
        ensures kept[i] < kept[j]
      {
        GapsOrder(kept, Spacing(values), i, j);
      }
    }
  }

  // Every shifted origin keeps its tile inside the image exactly when the image
  // is at least one tile long; a shorter image is given a negative origin.
  lemma InsideExactlyWhenTileFits(values: seq<int>, offset: int, limit: int, kept: seq<int>)
    requires values != [] && values[0] == 0 && StrictlyIncreasing(values) && offset >= 0
    requires DrawnFrom(ShiftedAll(values, offset, limit), kept)
    ensures (forall k | k in kept :: 0 <= k <= limit) <==> limit >= 0
  {
    assert kept[0] in kept;
    var all := ShiftedAll(values, offset, limit);
    forall k | k in kept
      ensures k <= limit && (limit >= 0 ==> k >= 0)
    {
      assert k in all;
      var i :| 0 <= i < |all| && all[i] == k;
    }
  }

  // A 600-pixel side cut into 640-pixel tiles: the only origin lands at -40,
  // whatever the offset.
  lemma NarrowImageGoesNegative(offset: nat)
    ensures Axis(600, 640, 192) == [0] && Jitter([0], offset, 600 - 640) == [-40]
  {
    assert Shifted(0, offset, 600 - 640) == -40;
  }

  // ---- The whole grid ----

  function InsertDistinct(x: int, s: seq<int>): (r: seq<int>)
    requires StrictlyIncreasing(s)
    ensures r != [] && StrictlyIncreasing(r) && forall y :: y in r <==> y in s || y == x
  {
    if s == [] then [x]
    else if x < s[0] then [x] + s
    else if x == s[0] then s
    else
      var rest := InsertDistinct(x, s[1..]);
      assert forall y :: y in s <==> y == s[0] || y in s[1..];
      assert forall y | y in rest :: s[0] < y;
      assert forall i | 0 <= i < |rest| :: rest[i] in rest && s[0] < rest[i];
      [s[0]] + rest
  }

  lemma TailMembers(a: seq<int>)
    requires StrictlyIncreasing(a) && a != []
    ensures forall x :: x in a[1..] <==> x in a && x != a[0]
  {
    assert a == [a[0]] + a[1..];
    assert forall i | 0 <= i < |a| - 1 :: a[1..][i] == a[i + 1];
  }

  lemma {:induction false} IncreasingIsUnique(a: seq<int>, b: seq<int>)
    requires StrictlyIncreasing(a) && StrictlyIncreasing(b) && forall x :: x in a <==> x in b
    ensures a == b
  {
    assert a != [] ==> a[0] in a;
    assert b != [] ==> b[0] in b;
    if a != [] {
      assert a[0] in b && b[0] in a;
      assert a[0] == b[0];
      TailMembers(a);
      TailMembers(b);
      IncreasingIsUnique(a[1..], b[1..]);
      assert a == [a[0]] + a[1..] && b == [b[0]] + b[1..];
    }
  }

  // The x origins of a grid, sorted and without repetition.
  ghost predicate IsColumnAxis(grid: seq<(int, int)>, axis: seq<int>) {
    StrictlyIncreasing(axis) && forall x :: x in axis <==> exists i :: 0 <= i < |grid| && grid[i].0 == x
  }

  ghost predicate IsRowAxis(grid: seq<(int, int)>, axis: seq<int>) {
    StrictlyIncreasing(axis) && forall y :: y in axis <==> exists i :: 0 <= i < |grid| && grid[i].1 == y
  }

  // The two axes of the grid.
  method Axes(grid: seq<(int, int)>) returns (columns: seq<int>, rows: seq<int>)
    ensures IsColumnAxis(grid, columns) && IsRowAxis(grid, rows)
    ensures grid != [] ==> columns != [] && rows != []
  {
    columns, rows := [], [];
    for n := 0 to |grid|
      invariant StrictlyIncreasing(columns) && StrictlyIncreasing(rows)
      invariant n > 0 ==> columns != [] && rows != []
      invariant forall x :: x in columns <==> exists i :: 0 <= i < n && grid[i].0 == x
      invariant forall y :: y in rows <==> exists i :: 0 <= i < n && grid[i].1 == y
    {
      columns := InsertDistinct(grid[n].0, columns);
      rows := InsertDistinct(grid[n].1, rows);
    }
  }

  lemma AxisStartsAtZero(extent: int, tile: int, overlap: int)
    requires 0 <= overlap < tile
    ensures var axis := Axis(extent, tile, overlap);
            axis != [] && axis[0] == 0 && StrictlyIncreasing(axis)
  {
    if extent > tile {
      AxisCovers(extent, tile, overlap);
    }
  }

  // The axes recovered from the shared grid are the axes it was built from.
  lemma GridAxesRecovered(width: int, height: int, tile: int, overlap: int, columns: seq<int>, rows: seq<int>)
    requires 0 <= overlap < tile
    requires var grid := TileOrigins(width, height, tile, overlap); IsColumnAxis(grid, columns) && IsRowAxis(grid, rows)
    ensures columns == Axis(width, tile, overlap) && rows == Axis(height, tile, overlap)
  {
    var xs, ys := Axis(width, tile, overlap), Axis(height, tile, overlap);
    AxisStartsAtZero(width, tile, overlap);
    AxisStartsAtZero(height, tile, overlap);
    ProductColumns(xs, ys, columns);
    ProductRows(xs, ys, rows);
    IncreasingIsUnique(columns, xs);
    IncreasingIsUnique(rows, ys);
  }

  lemma ProductColumns(xs: seq<int>, ys: seq<int>, columns: seq<int>)
    requires ys != [] && IsColumnAxis(Product(xs, ys), columns)
    ensures forall x :: x in columns <==> x in xs
  {
    var grid := Product(xs, ys);
    forall x | x in xs
      ensures x in columns
    {
      var k := CrossedAt(xs, ys, x, ys[0]);
      assert grid[k].0 == x;
    }
  }

  lemma ProductRows(xs: seq<int>, ys: seq<int>, rows: seq<int>)
    requires xs != [] && IsRowAxis(Product(xs, ys), rows)
    ensures forall y :: y in rows <==> y in ys
  {
    var grid := Product(xs, ys);
    forall y | y in ys
      ensures y in rows
    {
      var k := CrossedAt(xs, ys, xs[0], y);
      assert grid[k].1 == y;
    }
  }

  lemma CrossedAt(xs: seq<int>, ys: seq<int>, x: int, y: int) returns (k: nat)
    requires x in xs && y in ys
    ensures k < |Product(xs, ys)| && Product(xs, ys)[k] == (x, y)
  {
    var i :| 0 <= i < |xs| && xs[i] == x;
    var j :| 0 <= j < |ys| && ys[j] == y;
    assert (xs[i], ys[j]) in Product(xs, ys);
    k :| 0 <= k < |Product(xs, ys)| && Product(xs, ys)[k] == (x, y);
  }

  lemma JitteredAxisInside(extent: int, tile: int, overlap: int, offset: nat, axis: seq<int>, limit: int)
    requires 0 <= overlap < tile && axis == Axis(extent, tile, overlap) && limit == extent - tile
    ensures axis != [] && Jitter(axis, offset, limit) != []
    ensures (forall k | k in Jitter(axis, offset, limit) :: 0 <= k <= limit) <==> extent >= tile
  {
    AxisStartsAtZero(extent, tile, overlap);
    JitterIsDrawn(axis, offset, limit);
    InsideExactlyWhenTileFits(axis, offset, limit, Jitter(axis, offset, limit));
  }

  // Jittering the axes of the shared grid keeps every tile inside the image
  // exactly when both sides of the image are at least one tile long.
  lemma JitteredTilesInside(width: int, height: int, tile: int, overlap: int, jx: nat, jy: nat,
                            columns: seq<int>, rows: seq<int>)
    requires 0 <= overlap < tile && columns == Axis(width, tile, overlap) && rows == Axis(height, tile, overlap)
    ensures columns != [] && rows != []
    ensures (forall o | o in Product(Jitter(columns, jx, width - tile), Jitter(rows, jy, height - tile)) ::
               0 <= o.0 <= width - tile && 0 <= o.1 <= height - tile)
            <==> width >= tile && height >= tile
  {
    JitteredAxisInside(width, tile, overlap, jx, columns, width - tile);
    JitteredAxisInside(height, tile, overlap, jy, rows, height - tile);
    ProductInside(Jitter(columns, jx, width - tile), Jitter(rows, jy, height - tile), width - tile, height - tile);
  }

  lemma ProductInside(xs: seq<int>, ys: seq<int>, right: int, bottom: int)
    requires xs != [] && ys != []
    ensures (forall o | o in Product(xs, ys) :: 0 <= o.0 <= right && 0 <= o.1 <= bottom)
            <==> (forall x | x in xs :: 0 <= x <= right) && (forall y | y in ys :: 0 <= y <= bottom)
  {
    forall i, j | 0 <= i < |xs| && 0 <= j < |ys|
      ensures (xs[i], ys[j]) in Product(xs, ys)
    {
    }
    if forall o | o in Product(xs, ys) :: 0 <= o.0 <= right && 0 <= o.1 <= bottom {
      forall x | x in xs
        ensures 0 <= x <= right
      {
        var i :| 0 <= i < |xs| && xs[i] == x;
        assert (xs[i], ys[0]) in Product(xs, ys);
      }
      forall y | y in ys
        ensures 0 <= y <= bottom
      {
        var j :| 0 <= j < |ys| && ys[j] == y;
        assert (xs[0], ys[j]) in Product(xs, ys);
      }
    }
  }

  // ---- The jittered tile list ----

  // The shared grid shifted by one offset along each axis: the product of its two
  // jittered axes. A tile of one pixel leaves no offset to draw.
  method Jittered(grid: seq<(int, int)>, width: int, height: int, tile: int, jx: nat, jy: nat)
    returns (tiles: Option<seq<(int, int)>>, ghost columns: seq<int>, ghost rows: seq<int>)
    requires grid != [] && tile >= 1 && (tile >= 2 ==> jx < tile / 2 && jy < tile / 2)
    ensures IsColumnAxis(grid, columns) && IsRowAxis(grid, rows) && columns != [] && rows != []
    ensures tiles == if tile == 1 then None
                     else Some(Product(Jitter(columns, jx, width - tile), Jitter(rows, jy, height - tile)))
  {
    var allColumns, allRows := Axes(grid);
    columns, rows := allColumns, allRows;
    if tile / 2 == 0 {
      return None, columns, rows;
    }
    var xs := JitterAxis(allColumns, jx, width - tile);
    var ys := JitterAxis(allRows, jy, height - tile);
    tiles := Some(Product(xs, ys));
  }
}
