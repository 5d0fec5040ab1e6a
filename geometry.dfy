/** Integer lattice points and the integer square root that stands for
    `(int)` applied to a Euclidean distance between lattice points. */
module Geometry {

  /** A grid point with integer coordinates (Unity's Vector2Int). */
  datatype Point = Point(x: int, y: int)

  /** Squared Euclidean distance from the cell (x, y) to the point p. */
  function SqDist(x: int, y: int, p: Point): (d: nat)
    ensures d == 0 <==> (x == p.x && y == p.y)
  {
    var dx, dy := x - p.x, y - p.y;
    assert dx * dx >= 0 && dy * dy >= 0;
    assert dx != 0 ==> dx * dx > 0;
    assert dy != 0 ==> dy * dy > 0;
    dx * dx + dy * dy
  }

  lemma SquareMonotone(a: nat, b: nat)
    requires a <= b
    ensures a * a <= b * b
  {
    assert a * a <= a * b <= b * b;
  }

  /** The induction step of Isqrt: doubling the root of n / 4 gives a
      value s with s*s <= n < (s+2)*(s+2). */
  lemma DoubledRootBounds(n: nat, t: nat)
    requires t * t <= n / 4 < (t + 1) * (t + 1)
    ensures (2 * t) * (2 * t) <= n < (2 * t + 2) * (2 * t + 2)
  {
    var q := n / 4;
    assert (2 * t) * (2 * t) == 4 * (t * t);
    assert (2 * t + 2) * (2 * t + 2) == 4 * ((t + 1) * (t + 1));
    assert 4 * q <= n < 4 * q + 4;
    assert 4 * (t * t) <= 4 * q;
    assert 4 * q + 4 <= 4 * ((t + 1) * (t + 1));
  }

  /** The integer square root: truncating the real square root of n
      toward zero gives this value. */
  function Isqrt(n: nat): (r: nat)
    ensures r * r <= n < (r + 1) * (r + 1)
    decreases n
  {
    if n < 4 then (if n == 0 then 0 else 1)
    else
      var t := Isqrt(n / 4);
      DoubledRootBounds(n, t);
      var s := 2 * t;
      if (s + 1) * (s + 1) <= n then s + 1 else s
  }

  /** The integer square root is the only k with k*k <= n < (k+1)*(k+1). */
  lemma IsqrtUnique(n: nat, k: nat)
    requires k * k <= n < (k + 1) * (k + 1)
    ensures Isqrt(n) == k
  {
    var r := Isqrt(n);
    if r < k {
      SquareMonotone(r + 1, k);
    } else if r > k {
      SquareMonotone(k + 1, r);
    }
  }

  /** A larger argument never has a smaller integer square root. */
  lemma IsqrtMonotone(m: nat, n: nat)
    requires m <= n
    ensures Isqrt(m) <= Isqrt(n)
  {
    if Isqrt(m) > Isqrt(n) {
      SquareMonotone(Isqrt(n) + 1, Isqrt(m));
    }
  }
}
