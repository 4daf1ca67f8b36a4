// What the two overlap measures are: shares of area, one exactly for the same
// rectangle and for one rectangle inside the other.
module Overlaps {
  import opened Merge

  // A box with some area.
  predicate Solid(b: Box) {
    b.x0 < b.x1 && b.y0 < b.y1
  }

  // Every point of a is a point of b.
  predicate Within(a: Box, b: Box) {
    b.x0 <= a.x0 && a.x1 <= b.x1 && b.y0 <= a.y0 && a.y1 <= b.y1
  }

  lemma ProductGrows(a: real, b: real, c: real, d: real)
    requires 0.0 <= a <= c && 0.0 <= b <= d
    ensures 0.0 <= a * b <= c * d
  {
    assert a * b <= c * b;
    assert c * b <= c * d;
  }

  lemma ProductIsFull(a: real, b: real, c: real, d: real)
    requires 0.0 <= a <= c && 0.0 <= b <= d && c > 0.0 && d > 0.0
    ensures a * b == c * d <==> a == c && b == d
  {
    if a < c {
      ProductGrows(a, b, a, d);
      assert (c - a) * d > 0.0;
    } else if b < d {
      assert (d - b) * c > 0.0;
    }
  }

  // The overlap of a with b: at most a's area, and all of it exactly when a is within b.
  lemma OverlapOfBoth(a: Box, b: Box)
    requires Solid(a) && Solid(b)
    ensures 0.0 <= Intersection(a, b) <= Area(a) && Area(a) > 0.0
    ensures Intersection(a, b) == Area(a) <==> Within(a, b)
  {
    var w := MaxReal(0.0, MinReal(a.x1, b.x1) - MaxReal(a.x0, b.x0));
    var h := MaxReal(0.0, MinReal(a.y1, b.y1) - MaxReal(a.y0, b.y0));
    ProductGrows(w, h, a.x1 - a.x0, a.y1 - a.y0);
    ProductIsFull(w, h, a.x1 - a.x0, a.y1 - a.y0);
  }

  lemma IntersectionIsSymmetric(a: Box, b: Box)
    ensures Intersection(a, b) == Intersection(b, a)
  {
  }

  lemma FactorKeepsOrder(x: real, y: real, factor: real)
    requires factor > 0.0
    ensures x * factor <= y * factor <==> x <= y
  {
    if x <= y {
      assert (y - x) * factor >= 0.0;
    } else {
      assert (x - y) * factor > 0.0;
    }
  }

  lemma QuotientTimes(part: real, whole: real)
    requires whole > 0.0
    ensures part / whole * whole == part
  {
  }

  lemma ShareIsPart(x: real, part: real, whole: real)
    requires x * whole == part && 0.0 <= part <= whole && whole > 0.0
    ensures 0.0 <= x <= 1.0 && (x == 1.0 <==> part == whole)
  {
    FactorKeepsOrder(0.0, x, whole);
    FactorKeepsOrder(x, 1.0, whole);
    FactorKeepsOrder(1.0, x, whole);
  }

  // The union of two solid boxes, and intersection over union as a quotient.
  lemma UnionIsPositive(a: Box, b: Box) returns (overlap: real, union: real)
    requires Solid(a) && Solid(b)
    ensures overlap == Intersection(a, b) == Intersection(b, a) && union == Area(a) + Area(b) - overlap
    ensures 0.0 <= overlap <= union && union > 0.0 && (overlap == union <==> Within(a, b) && Within(b, a))
    ensures Iou(a, b) == overlap / union == Iou(b, a)
  {
    OverlapOfBoth(a, b);
    OverlapOfBoth(b, a);
    IntersectionIsSymmetric(a, b);
    overlap, union := Intersection(a, b), Area(a) + Area(b) - Intersection(a, b);
  }

  // Intersection over union: symmetric, between zero and one, and one exactly for
  // the same rectangle.
  lemma IouIsAShare(a: Box, b: Box)
    requires Solid(a) && Solid(b)
    ensures Iou(a, b) == Iou(b, a) && 0.0 <= Iou(a, b) <= 1.0
    ensures Iou(a, b) == 1.0 <==> Within(a, b) && Within(b, a)
  {
    var overlap, union := UnionIsPositive(a, b);
    QuotientTimes(overlap, union);
    ShareIsPart(Iou(a, b), overlap, union);
  }

  // It is what multiplies the union's area to the overlap's.
  lemma IouTimesUnion(a: Box, b: Box, overlap: real, union: real)
    requires Solid(a) && Solid(b) && overlap == Intersection(a, b) && union == Area(a) + Area(b) - overlap
    ensures Iou(a, b) * union == overlap
  {
    var i, u := UnionIsPositive(a, b);
    QuotientTimes(overlap, union);
  }

  // Disjoint rectangles have no overlap at all.
  lemma DisjointHasNone(a: Box, b: Box)
    requires Solid(a) && Solid(b)
    ensures Intersection(a, b) == 0.0 <==> a.x1 <= b.x0 || b.x1 <= a.x0 || a.y1 <= b.y0 || b.y1 <= a.y0
  {
    var w := MaxReal(0.0, MinReal(a.x1, b.x1) - MaxReal(a.x0, b.x0));
    var h := MaxReal(0.0, MinReal(a.y1, b.y1) - MaxReal(a.y0, b.y0));
    assert w > 0.0 && h > 0.0 ==> w * h > 0.0;
  }

  // It is the overlap's share of the smaller rectangle, which is never below the
  // share of the union.
  lemma DuplicateIsShareOfSmaller(a: Box, b: Box, smaller: real)
    requires Solid(a) && Solid(b) && smaller == MinReal(Area(a), Area(b))
    ensures 0.0 <= Intersection(a, b) <= smaller && smaller > 0.0
    ensures Iou(a, b) <= DuplicateOverlap(a, b) == Intersection(a, b) / smaller
  {
    OverlapOfBoth(a, b);
    OverlapOfBoth(b, a);
    IntersectionIsSymmetric(a, b);
    ShareOfLess(Intersection(a, b), smaller, Area(a) + Area(b) - Intersection(a, b));
  }

  lemma SmallerIsCovered(a: Box, b: Box)
    requires Solid(a) && Solid(b)
    ensures Intersection(a, b) == MinReal(Area(a), Area(b)) <==> Within(a, b) || Within(b, a)
  {
    OverlapOfBoth(a, b);
    OverlapOfBoth(b, a);
    IntersectionIsSymmetric(a, b);
  }

  lemma ShareOfWhole(part: real, whole: real) returns (x: real)
    requires 0.0 <= part <= whole && whole > 0.0
    ensures x == part / whole && x * whole == part && x <= 1.0 && (x == 1.0 <==> part == whole)
  {
    x := part / whole;
    ShareIsPart(x, part, whole);
  }

  // The duplicate overlap is what multiplies the smaller area to the overlap's.
  lemma SmallerShare(a: Box, b: Box) returns (overlap: real, smaller: real, dup: real)
    requires Solid(a) && Solid(b)
    ensures overlap == Intersection(a, b) && smaller == MinReal(Area(a), Area(b))
    ensures dup * smaller == overlap && dup <= 1.0 && (dup == 1.0 <==> overlap == smaller)
    ensures Iou(a, b) <= dup && DuplicateOverlap(a, b) == dup
  {
    overlap, smaller := Intersection(a, b), MinReal(Area(a), Area(b));
    DuplicateIsShareOfSmaller(a, b, smaller);
    dup := ShareOfWhole(overlap, smaller);
  }

  lemma DuplicateIsSymmetric(a: Box, b: Box)
    ensures DuplicateOverlap(a, b) == DuplicateOverlap(b, a)
  {
    IntersectionIsSymmetric(a, b);
  }

  // The duplicate overlap: symmetric, at least the other measure, and one exactly when
  // one rectangle lies within the other.
  lemma DuplicateOverlapIsAShare(a: Box, b: Box)
    requires Solid(a) && Solid(b)
    ensures DuplicateOverlap(a, b) == DuplicateOverlap(b, a)
    ensures Iou(a, b) <= DuplicateOverlap(a, b) <= 1.0
    ensures DuplicateOverlap(a, b) == 1.0 <==> Within(a, b) || Within(b, a)
  {
    var overlap, smaller, dup := SmallerShare(a, b);
    DuplicateIsSymmetric(a, b);
    SmallerIsCovered(a, b);
  }

  // A box without area overlaps nothing by either measure.
  lemma NoAreaNoOverlap(a: Box, b: Box)
    requires !Solid(a)
    ensures Iou(a, b) == 0.0 && DuplicateOverlap(a, b) == 0.0 && DuplicateOverlap(b, a) == 0.0
  {
    assert Area(a) == 0.0 && Intersection(a, b) == 0.0 && Intersection(b, a) == 0.0;
  }

  lemma ShareOfLess(part: real, less: real, more: real)
    requires 0.0 <= part && 0.0 < less <= more
    ensures part / more <= part / less
  {
    var x, y := part / more, part / less;
    assert x * more == part && y * less == part;
    FactorKeepsOrder(0.0, y, less);
    ProductGrows(y, less, y, more);
    FactorKeepsOrder(x, y, more);
  }
}
