// _tile_origins and tile_grid: evenly spaced tile origins under Python's
// round-half-to-even, and the guarantee the overlap is chosen for.
module Tiles {

  // The quotient rounded to the nearest integer, ties to the even one.
  function RoundDiv(a: nat, b: nat): nat
    requires b > 0
  {
    var q, r := a / b, a % b;
    if 2 * r < b then q
    else if 2 * r > b then q + 1
    else if q % 2 == 0 then q else q + 1
  }

  // The quotient rounded up.
  function CeilDiv(a: nat, b: nat): nat
    requires b > 0
  {
    if a % b == 0 then a / b else a / b + 1
  }

  lemma ProductGrows(d: int, n: int)
    requires n > 0
    ensures d >= 1 ==> d * n >= n && d * n >= d
    ensures d <= -1 ==> d * n <= -n
    ensures d == 0 ==> d * n == 0
  {
  }

  lemma SmallMultiple(d: int, n: int)
    requires n > 0 && -n < d * n < n
    ensures d == 0
  {
    ProductGrows(d, n);
  }

  lemma QuotientIsUnique(a: nat, n: nat, q: nat, r: nat)
    requires n > 0 && a == q * n + r && r < n
    ensures a / n == q && a % n == r
  {
    var q', r' := a / n, a % n;
    assert a == q' * n + r';
    assert (q - q') * n == q * n - q' * n;
    SmallMultiple(q - q', n);
  }

  // Rounding moves a quotient by at most one half.
  lemma RoundIsNear(a: nat, b: nat)
    requires b > 0
    ensures 2 * a - b <= 2 * (RoundDiv(a, b) * b) <= 2 * a + b
  {
    var q, r := a / b, a % b;
    assert a == q * b + r;
    assert (q + 1) * b == q * b + b;
  }

  // A quotient exactly half-way between two integers goes to the even one.
  lemma RoundTiesToEven(a: nat, b: nat)
    requires b > 0 && (2 * (RoundDiv(a, b) * b) == 2 * a - b || 2 * (RoundDiv(a, b) * b) == 2 * a + b)
    ensures RoundDiv(a, b) % 2 == 0
  {
    var q, k := a / b, RoundDiv(a, b);
    assert a == q * b + a % b;
    if k == q {
      assert k * b == q * b;
    } else {
      assert k * b == q * b + b;
    }
  }

  // Whole quotients are not moved.
  lemma RoundOfWhole(c: nat, b: nat)
    requires b > 0
    ensures RoundDiv(c * b, b) == c
  {
    QuotientIsUnique(c * b, b, c, 0);
  }

  lemma CeilIsLeast(a: nat, b: nat)
    requires a > 0 && b > 0
    ensures var n := CeilDiv(a, b); 1 <= n && a <= n * b && (n - 1) * b < a
  {
    var q, r := a / b, a % b;
    assert a == q * b + r;
    assert (q + 1) * b == q * b + b;
    assert (q - 1) * b == q * b - b;
  }

  lemma ProductsCompare(x: int, y: int, n: int)
    requires n > 0
    ensures x * n > y * n ==> x > y
    ensures x * n < y * n ==> x < y
  {
    if x <= y {
      assert x * n <= y * n;
    }
    if x >= y {
      assert x * n >= y * n;
    }
  }

  lemma NearAdvances(p: nat, s: nat, n: nat, a: int, b: int)
    requires 0 < n < s
    requires 2 * (a * n) <= 2 * p + n && 2 * (p + s) - n <= 2 * (b * n)
    ensures b > a
  {
    ProductsCompare(b, a, n);
  }

  lemma NearIsBounded(p: nat, s: nat, n: nat, k: nat, a: int, b: int)
    requires n > 0 && s < n * k
    requires 2 * p - n <= 2 * (a * n) && 2 * (b * n) <= 2 * (p + s) + n
    ensures b <= a + k
  {
    assert (a + k + 1) * n == a * n + n * k + n;
    ProductsCompare(b, a + k + 1, n);
  }

  // Advancing by at least one divisor advances the rounded quotient; by exactly
  // one only from a whole quotient c, since ties may round apart.
  lemma RoundAdvances(p: nat, s: nat, n: nat, c: nat)
    requires 0 < n <= s && (s == n ==> p == c * n)
    ensures RoundDiv(p + s, n) > RoundDiv(p, n)
  {
    if s == n {
      assert p + s == (c + 1) * n;
      RoundOfWhole(c, n);
      RoundOfWhole(c + 1, n);
    } else {
      RoundIsNear(p, n);
      RoundIsNear(p + s, n);
      NearAdvances(p, s, n, RoundDiv(p, n), RoundDiv(p + s, n));
    }
  }

  // Advancing by at most k divisors advances the rounded quotient by at most k.
  lemma RoundStepIsBounded(p: nat, s: nat, n: nat, k: nat, c: nat)
    requires n > 0 && s <= n * k && (s == n * k ==> p == c * n)
    ensures RoundDiv(p + s, n) <= RoundDiv(p, n) + k
  {
    if s == n * k {
      assert p + s == (c + k) * n;
      RoundOfWhole(c, n);
      RoundOfWhole(c + k, n);
    } else {
      RoundIsNear(p, n);
      RoundIsNear(p + s, n);
      NearIsBounded(p, s, n, k, RoundDiv(p, n), RoundDiv(p + s, n));
    }
  }

  // ---- One axis ----

  // n + 1 origins from 0 to span, evenly spaced up to rounding.
  function Spaced(span: nat, n: nat): seq<int>
    requires n > 0
  {
    seq(n + 1, i requires 0 <= i < n + 1 => RoundDiv(i * span, n))
  }

  // The origins along one axis.
  function Axis(extent: int, tile: int, overlap: int): seq<int>
    requires 0 <= overlap < tile
  {
    if extent <= tile then [0]
    else
      CeilIsLeast(extent - tile, tile - overlap);
      Spaced(extent - tile, CeilDiv(extent - tile, tile - overlap))
  }

  ghost predicate StrictlyIncreasing(s: seq<int>) {
    forall i, j | 0 <= i < j < |s| :: s[i] < s[j]
  }

  // Flush with both edges, strictly increasing, and no step larger than `stride`.
  ghost predicate Covers(origins: seq<int>, span: int, stride: int) {
    && origins != [] && origins[0] == 0 && origins[|origins| - 1] == span
    && StrictlyIncreasing(origins)
    && forall i | 0 <= i < |origins| - 1 :: origins[i + 1] - origins[i] <= stride
  }

  lemma {:induction false} StepsMakeIncreasing(s: seq<int>, i: nat, j: nat)
    requires forall k | 0 <= k < |s| - 1 :: s[k] < s[k + 1]
    requires i < j < |s|
    ensures s[i] < s[j]
  {
    if i + 1 < j {
      StepsMakeIncreasing(s, i, j - 1);
    }
  }

  lemma CeilIsSmall(span: nat, stride: nat)
    requires span > 0 && stride > 0
    ensures CeilDiv(span, stride) <= span
  {
    CeilIsLeast(span, stride);
    ProductGrows(CeilDiv(span, stride) - 1, stride);
  }

  lemma AxisStep(span: nat, stride: nat, n: nat, i: nat)
    requires 1 <= n <= span <= n * stride
    ensures RoundDiv(i * span, n) < RoundDiv((i + 1) * span, n) <= RoundDiv(i * span, n) + stride
  {
    assert (i + 1) * span == i * span + span;
    RoundAdvances(i * span, span, n, i);
    if span == n * stride {
      assert i * span == (i * stride) * n;
    }
    RoundStepIsBounded(i * span, span, n, stride, i * stride);
  }

  lemma SpacedCovers(span: nat, n: nat, stride: nat)
    requires 1 <= n <= span <= n * stride
    ensures Covers(Spaced(span, n), span, stride)
  {
    var axis := Spaced(span, n);
    RoundOfWhole(span, n);
    RoundOfWhole(0, n);
    assert axis[0] == RoundDiv(0 * n, n) && axis[n] == RoundDiv(span * n, n);
    forall i | 0 <= i < |axis| - 1
      ensures axis[i] < axis[i + 1] <= axis[i] + stride
    {
      AxisStep(span, stride, n, i);
    }
    forall i, j | 0 <= i < j < |axis|
      ensures axis[i] < axis[j]
    {
      StepsMakeIncreasing(axis, i, j);
    }
  }

  lemma AxisCovers(extent: int, tile: int, overlap: int)
    requires 0 <= overlap < tile < extent
    ensures Covers(Axis(extent, tile, overlap), extent - tile, tile - overlap)
  {
    CeilIsLeast(extent - tile, tile - overlap);
    CeilIsSmall(extent - tile, tile - overlap);
    SpacedCovers(extent - tile, CeilDiv(extent - tile, tile - overlap), tile - overlap);
  }

  // The step between consecutive origins bounds how far the last one can be.
  lemma {:induction false} StrideBoundsReach(origins: seq<int>, stride: nat, i: nat)
    requires origins != [] && origins[0] == 0 && i < |origins|
    requires forall k | 0 <= k < |origins| - 1 :: origins[k + 1] - origins[k] <= stride
    ensures origins[i] <= i * stride
  {
    if i > 0 {
      StrideBoundsReach(origins, stride, i - 1);
      assert i * stride == (i - 1) * stride + stride;
    }
  }

  // The axis uses the fewest tiles that overlap their neighbours enough.
  lemma AxisIsFewest(extent: int, tile: int, overlap: int, other: seq<int>)
    requires 0 <= overlap < tile < extent
    requires Covers(other, extent - tile, tile - overlap)
    ensures |Axis(extent, tile, overlap)| <= |other|
  {
    var span, stride := extent - tile, tile - overlap;
    var n, m := CeilDiv(span, stride), |other| - 1;
    CeilIsLeast(span, stride);
    StrideBoundsReach(other, stride, m);
    ProductsCompare(m, n - 1, stride);
  }

  // Any interval inside the image no longer than the overlap lies in one tile.
  lemma IntervalInOneTile(extent: int, tile: int, overlap: int, a: real, b: real) returns (k: nat)
    requires 0 <= overlap < tile
    requires 0.0 <= a <= b <= extent as real && b - a <= overlap as real
    ensures var axis := Axis(extent, tile, overlap);
            k < |axis| && axis[k] as real <= a && b <= (axis[k] + tile) as real
  {
    var axis := Axis(extent, tile, overlap);
    if extent <= tile {
      k := 0;
    } else {
      AxisCovers(extent, tile, overlap);
      // The last origin at or before the interval's start.
      k := 0;
      while k + 1 < |axis| && axis[k + 1] as real <= a
        invariant k < |axis| && axis[k] as real <= a
      {
        k := k + 1;
      }
    }
  }

  // ---- The grid ----

  // Row by row: every x origin of the first y origin, then of the next.
  function Product(xs: seq<int>, ys: seq<int>): (r: seq<(int, int)>)
    ensures |r| == |xs| * |ys|
    ensures forall i, j | 0 <= i < |xs| && 0 <= j < |ys| :: (xs[i], ys[j]) in r
    ensures forall k | 0 <= k < |r| :: r[k].0 in xs && r[k].1 in ys
  {
    if ys == [] then []
    else
      var row := seq(|xs|, i requires 0 <= i < |xs| => (xs[i], ys[0]));
      assert forall i | 0 <= i < |xs| :: row[i] == (xs[i], ys[0]);
      assert ys == [ys[0]] + ys[1..];
      assert |xs| * |ys| == |xs| + |xs| * |ys[1..]|;
      row + Product(xs, ys[1..])
  }

  function TileOrigins(width: int, height: int, tile: int, overlap: int): seq<(int, int)>
    requires 0 <= overlap < tile
  {
    Product(Axis(width, tile, overlap), Axis(height, tile, overlap))
  }

  // Any box inside the image with both sides no longer than the overlap appears
  // whole in at least one tile.
  lemma SmallBoxIsWholeInOneTile(width: int, height: int, tile: int, overlap: int,
                                 x0: real, y0: real, x1: real, y1: real)
    requires 0 <= overlap < tile
    requires 0.0 <= x0 <= x1 <= width as real && 0.0 <= y0 <= y1 <= height as real
    requires x1 - x0 <= overlap as real && y1 - y0 <= overlap as real
    ensures exists o :: o in TileOrigins(width, height, tile, overlap)
              && o.0 as real <= x0 && x1 <= (o.0 + tile) as real
              && o.1 as real <= y0 && y1 <= (o.1 + tile) as real
  {
    var i := IntervalInOneTile(width, tile, overlap, x0, x1);
    var j := IntervalInOneTile(height, tile, overlap, y0, y1);
    var o := (Axis(width, tile, overlap)[i], Axis(height, tile, overlap)[j]);
    assert o in TileOrigins(width, height, tile, overlap);
  }
}
