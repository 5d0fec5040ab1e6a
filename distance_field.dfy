/** The nearest-point distance of a cell, the maximum scan over a distance
    grid and the normalisation that turns a distance into a grey level. */
module DistanceField {
  import opened Geometry

  /** Initial value of the running minimum in the nearest-point search; it
      is also the answer when the point list is empty. */
  const Sentinel: nat := 99999

  /** The running minimum of squared distances from (x, y) over pts, in list
      order, seeded with Sentinel * Sentinel. Comparing squared distances
      picks the same minimum as comparing distances, since the square root
      is monotone. */
  function ClosestSq(x: int, y: int, pts: seq<Point>): (c: nat)
    ensures c <= Sentinel * Sentinel
    ensures forall k :: 0 <= k < |pts| ==> c <= SqDist(x, y, pts[k])
    ensures c == Sentinel * Sentinel || exists k :: 0 <= k < |pts| && c == SqDist(x, y, pts[k])
    decreases |pts|
  {
    if |pts| == 0 then Sentinel * Sentinel
    else
      var rest := ClosestSq(x, y, pts[..|pts| - 1]);
      var d := SqDist(x, y, pts[|pts| - 1]);
      if d < rest then d else rest
  }

  /** The truncated distance from (x, y) to its nearest point, capped at
      Sentinel. */
  function ClosestDistance(x: int, y: int, pts: seq<Point>): nat
  {
    Isqrt(ClosestSq(x, y, pts))
  }

  /** ClosestDistance is the truncated nearest-point distance: its square
      lies within every point's squared distance, and one more would exceed
      some point's squared distance, unless the cap of Sentinel is reached;
      an empty list gives Sentinel. */
  lemma ClosestDistanceIsNearest(x: int, y: int, pts: seq<Point>)
    ensures ClosestDistance(x, y, pts) <= Sentinel
    ensures |pts| == 0 ==> ClosestDistance(x, y, pts) == Sentinel
    ensures forall k :: 0 <= k < |pts| ==>
              ClosestDistance(x, y, pts) * ClosestDistance(x, y, pts) <= SqDist(x, y, pts[k])
    ensures ClosestDistance(x, y, pts) < Sentinel ==>
              exists k :: 0 <= k < |pts| &&
                SqDist(x, y, pts[k]) < (ClosestDistance(x, y, pts) + 1) * (ClosestDistance(x, y, pts) + 1)
  {
    var c := ClosestSq(x, y, pts);
    var d := Isqrt(c);
    IsqrtUnique(Sentinel * Sentinel, Sentinel);
    IsqrtMonotone(c, Sentinel * Sentinel);
    forall k | 0 <= k < |pts|
      ensures d * d <= SqDist(x, y, pts[k])
    {
    }
  }

  /** No k up to the cap whose square fits under every point's squared
      distance exceeds ClosestDistance: it is the largest such k. */
  lemma ClosestDistanceIsLargest(x: int, y: int, pts: seq<Point>, k: nat)
    requires k <= Sentinel
    requires forall i :: 0 <= i < |pts| ==> k * k <= SqDist(x, y, pts[i])
    ensures k <= ClosestDistance(x, y, pts)
  {
    var d := ClosestDistance(x, y, pts);
    ClosestDistanceIsNearest(x, y, pts);
    if k > d {
      var i :| 0 <= i < |pts| && SqDist(x, y, pts[i]) < (d + 1) * (d + 1);
      SquareMonotone(d + 1, k);
    }
  }

  /** The brute-force nearest-point search for the cell (x, y). */
  method DistanceToClosestPoint(x: int, y: int, points: seq<Point>) returns (d: int)
    ensures d == ClosestDistance(x, y, points)
  {
    // the running minimum, kept squared
    var closest: nat := Sentinel * Sentinel;
    var i := 0;
    while i < |points|
      invariant 0 <= i <= |points|
      invariant closest == ClosestSq(x, y, points[..i])
    {
      var distance := SqDist(x, y, points[i]);
      assert points[..i + 1][..i] == points[..i];
      if distance < closest {
        closest := distance;
      }
      i := i + 1;
    }
    assert points[..|points|] == points;
    d := Isqrt(closest);
  }

  /** A running maximum over every entry of the grid, seeded with 0. */
  method FindMax(matrix: array2<int>) returns (max: int)
    ensures max >= 0
    ensures forall i, j :: 0 <= i < matrix.Length0 && 0 <= j < matrix.Length1 ==> matrix[i, j] <= max
    ensures max == 0 || exists i, j :: 0 <= i < matrix.Length0 && 0 <= j < matrix.Length1 && matrix[i, j] == max
  {
    max := 0;
    var i := 0;
    while i < matrix.Length0
      invariant 0 <= i <= matrix.Length0
      invariant max >= 0
      invariant forall i', j :: 0 <= i' < i && 0 <= j < matrix.Length1 ==> matrix[i', j] <= max
      invariant max == 0 || exists i', j :: 0 <= i' < i && 0 <= j < matrix.Length1 && matrix[i', j] == max
    {
      var j := 0;
      while j < matrix.Length1
        invariant 0 <= j <= matrix.Length1
        invariant max >= 0
        invariant forall i', j' :: 0 <= i' < i && 0 <= j' < matrix.Length1 ==> matrix[i', j'] <= max
        invariant forall j' :: 0 <= j' < j ==> matrix[i, j'] <= max
        invariant max == 0 || exists i', j' :: 0 <= i' <= i && 0 <= j' < matrix.Length1 && matrix[i', j'] == max
      {
        if matrix[i, j] > max {
          max := matrix[i, j];
        }
        j := j + 1;
      }
      i := i + 1;
    }
  }

  /** The grey level of a cell: its distance divided by the field's maximum. */
  function Normalised(d: int, maxDist: int): (v: real)
    requires maxDist > 0
    ensures 0 <= d <= maxDist ==> 0.0 <= v <= 1.0
    ensures v == 1.0 <==> d == maxDist
    ensures v * maxDist as real == d as real
  {
    var v := d as real / maxDist as real;
    assert v * maxDist as real == d as real;
    assert v == 1.0 ==> d as real == maxDist as real;
    v
  }

  /** A 4 by 4 grid with the single point (0, 0): the far corner (3, 3) is
      at truncated distance 4 = floor(sqrt(18)), no cell of the grid is
      farther, and so that maximum maps to the grey level 1. */
  lemma SinglePointCorner()
    ensures ClosestDistance(3, 3, [Point(0, 0)]) == 4
    ensures forall i, j :: 0 <= i < 4 && 0 <= j < 4 ==> ClosestDistance(i, j, [Point(0, 0)]) <= 4
    ensures Normalised(ClosestDistance(3, 3, [Point(0, 0)]), 4) == 1.0
  {
    assert ClosestSq(3, 3, [Point(0, 0)]) == 18;
    IsqrtUnique(18, 4);
    forall i, j | 0 <= i < 4 && 0 <= j < 4
      ensures ClosestDistance(i, j, [Point(0, 0)]) <= 4
    {
      var pts := [Point(0, 0)];
      assert pts[..0] == [];
      assert ClosestSq(i, j, pts) == SqDist(i, j, Point(0, 0));
      assert SqDist(i, j, Point(0, 0)) <= 18;
      IsqrtMonotone(SqDist(i, j, Point(0, 0)), 18);
    }
  }
}
