/** The closest-segment query over the clipped runs (`closestLayerPoint`).
    Leaflet's `L.LineUtil._sqClosestPointOnSegment` is a parameter: with
    its flag set it gives the squared distance from a point to a segment,
    without it the closest point of the segment. */
module Proximity {
  import opened Types

  datatype SegmentMetric = SegmentMetric(
    sqDist: (Point, Point, Point) -> real,
    closest: (Point, Point, Point) -> Point)

  /** The answer: the closest point found and its squared distance. */
  datatype Closest = Closest(point: Point, sqDistance: real)

  /** `minDistance`, which starts at Infinity. */
  datatype Bound = Infinite | Finite(value: real)

  /** `sqDist < minDistance`. */
  predicate Below(d: real, b: Bound) {
    b.Infinite? || d < b.value
  }

  /** The segment from `parts[j][i - 1]` to `parts[j][i]` exists. */
  predicate IsSegment(parts: seq<seq<Point>>, j: int, i: int) {
    0 <= j < |parts| && 1 <= i < |parts[j]|
  }

  function SegDist(parts: seq<seq<Point>>, p: Point, m: SegmentMetric, j: int, i: int): real
    requires IsSegment(parts, j, i)
  {
    m.sqDist(p, parts[j][i - 1], parts[j][i])
  }

  /** Segment (j1, i1) comes before segment (j2, i2) in part/point order. */
  predicate Before(j1: int, i1: int, j2: int, i2: int) {
    j1 < j2 || (j1 == j2 && i1 < i2)
  }

  /** No part holds two points, so there is no segment at all. */
  predicate NoSegment(parts: seq<seq<Point>>) {
    forall j :: 0 <= j < |parts| ==> |parts[j]| < 2
  }

  /** Some segment comes before position (uj, ui). */
  ghost predicate SomeBefore(parts: seq<seq<Point>>, uj: int, ui: int) {
    exists j, i :: IsSegment(parts, j, i) && Before(j, i, uj, ui)
  }

  /** Among the segments before position (uj, ui), segment (j, i) has the
      least squared distance, and every earlier one is strictly farther. */
  ghost predicate FirstMinimalBefore(parts: seq<seq<Point>>, p: Point, m: SegmentMetric,
                                     j: int, i: int, uj: int, ui: int)
  {
    IsSegment(parts, j, i) && Before(j, i, uj, ui) &&
    (forall j2, i2 :: IsSegment(parts, j2, i2) && Before(j2, i2, uj, ui) ==>
       SegDist(parts, p, m, j, i) <= SegDist(parts, p, m, j2, i2)) &&
    (forall j2, i2 :: IsSegment(parts, j2, i2) && Before(j2, i2, j, i) ==>
       SegDist(parts, p, m, j, i) < SegDist(parts, p, m, j2, i2))
  }

  /** Segment (j, i) is the first segment of least squared distance over
      all parts. */
  ghost predicate FirstMinimal(parts: seq<seq<Point>>, p: Point, m: SegmentMetric, j: int, i: int) {
    FirstMinimalBefore(parts, p, m, j, i, |parts|, 0)
  }

  /** There is no segment exactly when no segment comes before the end of
      the last part. */
  lemma NoSegmentNothingBefore(parts: seq<seq<Point>>)
    ensures NoSegment(parts) <==> !SomeBefore(parts, |parts|, 0)
  {
    if !NoSegment(parts) {
      var j :| 0 <= j < |parts| && |parts[j]| >= 2;
      assert IsSegment(parts, j, 1) && Before(j, 1, |parts|, 0);
    }
  }

  /** The first-wins tie break leaves no choice: at most one segment is the
      first of least distance. */
  lemma FirstMinimalUnique(parts: seq<seq<Point>>, p: Point, m: SegmentMetric,
                           j: int, i: int, j': int, i': int)
    requires FirstMinimal(parts, p, m, j, i) && FirstMinimal(parts, p, m, j', i')
    ensures j == j' && i == i'
  {
  }
}
