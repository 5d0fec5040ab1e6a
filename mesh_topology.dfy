/** The lattice behind the terrain mesh: where a cell's vertex sits in the
    flattened vertex array, the triangle index buffer the mesh builder
    writes (two triangles per grid quad), and texture coordinates. */
module MeshTopology {

  /** Index of the lattice cell (i, j) in the flattened vertex array of an
      n by n grid. */
  function VertexIndex(n: int, i: int, j: int): (k: int)
    ensures 0 <= i < n && 0 <= j < n ==> 0 <= k < n * n
  {
    LatticeBound(n, i, j);
    i * n + j
  }

  lemma LatticeBound(n: int, i: int, j: int)
    ensures 0 <= i < n && 0 <= j < n ==> 0 <= i * n + j < n * n
  {
    if 0 <= i < n && 0 <= j < n {
      MulMonotone(i, n - 1, n);
      assert (n - 1) * n == n * n - n;
    }
  }

  lemma MulMonotone(a: nat, b: nat, c: nat)
    requires a <= b
    ensures 0 <= a * c <= b * c
  {
    assert b * c - a * c == (b - a) * c;
  }

  /** Lattice row (the vertex's x) of vertex index k. */
  function Row(n: nat, k: int): int
    requires n > 0
  {
    k / n
  }

  /** Lattice column (the vertex's z) of vertex index k. */
  function Col(n: nat, k: int): int
    requires n > 0
  {
    k % n
  }

  /** Cell (i, j) of the grid lands in [0, n*n) and is recovered from its
      index by Row and Col. */
  lemma VertexIndexCoordinates(n: nat, i: int, j: int)
    requires 0 <= i < n && 0 <= j < n
    ensures 0 <= VertexIndex(n, i, j) < n * n
    ensures Row(n, VertexIndex(n, i, j)) == i && Col(n, VertexIndex(n, i, j)) == j
  {
    LatticeDivision(n, i, j);
  }

  /** A multiple of n strictly between -n and n is zero. */
  lemma SmallMultiple(d: int, n: int)
    requires n > 0 && -n < d * n < n
    ensures d == 0
  {
  }

  /** Euclidean division of i*n + j by n, for 0 <= j < n. */
  lemma LatticeDivision(n: nat, i: int, j: int)
    requires 0 <= j < n
    ensures (i * n + j) / n == i && (i * n + j) % n == j
  {
    var k := i * n + j;
    var q, r := k / n, k % n;
    assert k == q * n + r;
    assert (q - i) * n == q * n - i * n;
    SmallMultiple(q - i, n);
  }

  /** Every index of [0, n*n) is the index of exactly one lattice cell: the
      one given by Row and Col. */
  lemma VertexIndexOnto(n: nat, k: int)
    requires 0 <= k < n * n
    ensures n > 0
    ensures 0 <= Row(n, k) < n && 0 <= Col(n, k) < n
    ensures VertexIndex(n, Row(n, k), Col(n, k)) == k
  {
  }

  /** Two cells with the same index are the same cell. */
  lemma VertexIndexInjective(n: nat, i1: int, j1: int, i2: int, j2: int)
    requires 0 <= i1 < n && 0 <= j1 < n && 0 <= i2 < n && 0 <= j2 < n
    requires VertexIndex(n, i1, j1) == VertexIndex(n, i2, j2)
    ensures i1 == i2 && j1 == j2
  {
    VertexIndexCoordinates(n, i1, j1);
    VertexIndexCoordinates(n, i2, j2);
  }

  /** A cell visited before (i, j) in row-major order has another index. */
  lemma EarlierCellsDiffer(n: nat, i: int, j: int)
    requires 0 <= i < n && 0 <= j < n
    ensures forall i', j' :: 0 <= i' < n && 0 <= j' < n && (i' < i || j' < j) ==>
              VertexIndex(n, i', j') != VertexIndex(n, i, j)
  {
    forall i', j' | 0 <= i' < n && 0 <= j' < n && (i' < i || j' < j)
      ensures VertexIndex(n, i', j') != VertexIndex(n, i, j)
    {
      if VertexIndex(n, i', j') == VertexIndex(n, i, j) {
        VertexIndexInjective(n, i', j', i, j);
      }
    }
  }

  /** When cell (i, j)'s slot holds a vertex at x = i, z = j for every cell,
      every vertex of the buffer stands on the lattice. */
  lemma LatticeCovered(n: nat, vs: seq<Vertex>)
    requires |vs| == n * n
    requires forall i, j :: 0 <= i < n && 0 <= j < n ==>
               vs[VertexIndex(n, i, j)].x == i && vs[VertexIndex(n, i, j)].z == j
    ensures forall k :: 0 <= k < |vs| ==> 0 <= vs[k].x < n && 0 <= vs[k].z < n
  {
    forall k | 0 <= k < |vs|
      ensures 0 <= vs[k].x < n && 0 <= vs[k].z < n
    {
      VertexIndexOnto(n, k);
    }
  }

  /** Number of quads along one side of an n by n lattice. */
  function QuadsPerSide(n: nat): nat
  {
    if n == 0 then 0 else n - 1
  }

  /** The six indices written for the quad whose lower corner is (i, j):
      triangles (i,j), (i,j+1), (i+1,j) and (i,j+1), (i+1,j+1), (i+1,j). */
  function QuadCorners(n: int, i: int, j: int): seq<int>
  {
    var a := VertexIndex(n, i, j);
    [a, a + 1, a + n, a + 1, a + n + 1, a + n]
  }

  /** The indices of the first m quads of row i, in the order written. */
  function RowTriangles(n: int, i: int, m: nat): (s: seq<int>)
    ensures |s| == 6 * m
  {
    if m == 0 then [] else RowTriangles(n, i, m - 1) + QuadCorners(n, i, m - 1)
  }

  /** First slot of quad (i, j) when each row holds q quads, counted row by
      row: 6 * (i * q + j), as QuadSlotIs shows. */
  function QuadSlot(q: nat, i: nat, j: nat): nat
  {
    if i == 0 then 6 * j else QuadSlot(q, i - 1, j) + 6 * q
  }

  lemma {:induction false} QuadSlotIs(q: nat, i: nat, j: nat)
    ensures QuadSlot(q, i, j) == 6 * (i * q + j)
  {
    if i > 0 {
      QuadSlotIs(q, i - 1, j);
      assert (i - 1) * q + q == i * q;
    }
  }

  /** Within a row the slots advance by six per quad. */
  lemma {:induction false} QuadSlotInRow(q: nat, i: nat, j: nat)
    ensures QuadSlot(q, i, j) == QuadSlot(q, i, 0) + 6 * j
  {
    if i > 0 {
      QuadSlotInRow(q, i - 1, j);
    }
  }

  /** A quad of an earlier row ends before the first slot of a later row. */
  lemma {:induction false} QuadSlotBefore(q: nat, i: nat, j: nat, rows: nat)
    requires i < rows && j < q
    ensures QuadSlot(q, i, j) + 6 <= QuadSlot(q, rows, 0)
  {
    if i == rows - 1 {
      QuadSlotInRow(q, i, j);
    } else {
      QuadSlotBefore(q, i, j, rows - 1);
    }
  }

  /** The indices of the first rows rows of quads, in the order written. */
  function GridTriangles(n: nat, rows: nat): (s: seq<int>)
    ensures |s| == QuadSlot(QuadsPerSide(n), rows, 0)
  {
    if rows == 0 then []
    else GridTriangles(n, rows - 1) + RowTriangles(n, rows - 1, QuadsPerSide(n))
  }

  /** The whole triangle index buffer of an n by n lattice. */
  function TriangleIndices(n: nat): (s: seq<int>)
    ensures n >= 1 ==> |s| == (n - 1) * (n - 1) * 6
    ensures n <= 1 ==> s == []
    ensures |s| == QuadSlot(QuadsPerSide(n), QuadsPerSide(n), 0)
  {
    QuadSlotIs(QuadsPerSide(n), QuadsPerSide(n), 0);
    GridTriangles(n, QuadsPerSide(n))
  }

  /** The allocation size (n-1)*(n-1)*3*2 is the length of the index
      sequence, and six for the empty lattice. */
  lemma TriangleBufferSize(n: nat)
    ensures (n - 1) * (n - 1) * 3 * 2 == (n - 1) * (n - 1) * 6
    ensures n >= 1 ==> (n - 1) * (n - 1) * 3 * 2 == |TriangleIndices(n)|
    ensures n == 0 ==> (n - 1) * (n - 1) * 3 * 2 == 6
  {
    var m := (n - 1) * (n - 1);
    assert m * 3 * 2 == m * 6;
  }

  /** Quad j of a row of m quads occupies slots 6*j .. 6*j + 5. */
  lemma {:induction false} RowTrianglesAt(n: int, i: int, m: nat, j: nat, r: nat)
    requires j < m && r < 6
    ensures RowTriangles(n, i, m)[6 * j + r] == QuadCorners(n, i, j)[r]
  {
    if j < m - 1 {
      RowTrianglesAt(n, i, m - 1, j, r);
    }
  }

  /** Quad (i, j) of the first rows rows occupies slots QuadSlot(q, i, j)
      .. QuadSlot(q, i, j) + 5, with q the quads per side. */
  lemma {:induction false} GridTrianglesAt(n: nat, rows: nat, i: nat, j: nat, r: nat)
    requires i < rows && j < QuadsPerSide(n) && r < 6
    ensures QuadSlot(QuadsPerSide(n), i, j) + r < |GridTriangles(n, rows)|
    ensures GridTriangles(n, rows)[QuadSlot(QuadsPerSide(n), i, j) + r] == QuadCorners(n, i, j)[r]
  {
    var q := QuadsPerSide(n);
    var idx := QuadSlot(q, i, j) + r;
    var prefix := GridTriangles(n, rows - 1);
    var row := RowTriangles(n, rows - 1, q);
    assert GridTriangles(n, rows) == prefix + row;
    assert |prefix| == QuadSlot(q, rows - 1, 0);
    QuadSlotBefore(q, i, j, rows);
    if i == rows - 1 {
      QuadSlotInRow(q, i, j);
      assert idx == |prefix| + (6 * j + r);
      RowTrianglesAt(n, i, q, j, r);
      assert (prefix + row)[idx] == row[6 * j + r];
    } else {
      QuadSlotBefore(q, i, j, rows - 1);
      GridTrianglesAt(n, rows - 1, i, j, r);
      assert (prefix + row)[idx] == prefix[idx];
    }
  }

  /** Slots 6*(i*(n-1) + j) .. +5 of the buffer hold the corners of quad
      (i, j): a, a+1, a+n, a+1, a+n+1, a+n with a = i*n + j. */
  lemma TriangleSlot(n: nat, i: nat, j: nat, r: nat)
    requires i < n - 1 && j < n - 1 && r < 6
    ensures 6 * (i * (n - 1) + j) + r < |TriangleIndices(n)|
    ensures TriangleIndices(n)[6 * (i * (n - 1) + j) + r] == QuadCorners(n, i, j)[r]
  {
    var t := QuadSlot(n - 1, i, j);
    QuadSlotIs(n - 1, i, j);
    assert t == 6 * (i * (n - 1) + j);
    QuadSlots(n, i, j);
  }

  /** The six slots of quad (i, j), counted in quads of QuadsPerSide(n)
      per row, hold exactly its two triangles. */
  lemma QuadSlots(n: nat, i: nat, j: nat)
    requires i < n - 1 && j < n - 1
    ensures QuadSlot(n - 1, i, j) + 6 <= |TriangleIndices(n)|
    ensures forall r :: 0 <= r < 6 ==> TriangleIndices(n)[QuadSlot(n - 1, i, j) + r] == QuadCorners(n, i, j)[r]
  {
    var q := QuadsPerSide(n);
    assert q == n - 1;
    var t := QuadSlot(q, i, j);
    var T := GridTriangles(n, q);
    assert TriangleIndices(n) == T;
    QuadSlotBefore(q, i, j, q);
    var c := QuadCorners(n, i, j);
    forall r | 0 <= r < 6
      ensures T[t + r] == c[r]
    {
      GridTrianglesAt(n, q, i, j, r);
    }
  }

  /** Twice the signed area of the triangle (p, q, r) in the lattice's
      x-z plane. */
  function Cross(n: nat, p: int, q: int, r: int): int
    requires n > 0
  {
    (Row(n, q) - Row(n, p)) * (Col(n, r) - Col(n, p)) - (Col(n, q) - Col(n, p)) * (Row(n, r) - Row(n, p))
  }

  /** A triangle of three distinct in-range vertices, wound the same way as
      every other triangle of the mesh. */
  predicate ProperTriangle(n: nat, p: int, q: int, r: int)
    requires n > 0
  {
    0 <= p < n * n && 0 <= q < n * n && 0 <= r < n * n &&
    p != q && q != r && p != r &&
    Cross(n, p, q, r) == -1
  }

  /** s is a list of whole triangles, each of them proper. */
  predicate ProperTriangles(n: nat, s: seq<int>)
    requires n > 0
    decreases |s|
  {
    |s| == 0 || (|s| >= 3 && ProperTriangle(n, s[0], s[1], s[2]) && ProperTriangles(n, s[3..]))
  }

  lemma {:induction false} ProperTrianglesConcat(n: nat, s: seq<int>, t: seq<int>)
    requires n > 0 && ProperTriangles(n, s) && ProperTriangles(n, t)
    ensures ProperTriangles(n, s + t)
    decreases |s|
  {
    if |s| > 0 {
      assert (s + t)[3..] == s[3..] + t;
      ProperTrianglesConcat(n, s[3..], t);
    } else {
      assert s + t == t;
    }
  }

  /** Every index in a list of proper triangles is a vertex of the lattice. */
  lemma {:induction false} ProperTrianglesInRange(n: nat, s: seq<int>)
    requires n > 0 && ProperTriangles(n, s)
    ensures |s| % 3 == 0
    ensures forall k :: 0 <= k < |s| ==> 0 <= s[k] < n * n
    decreases |s|
  {
    if |s| > 0 {
      ProperTrianglesInRange(n, s[3..]);
      forall k | 3 <= k < |s|
        ensures 0 <= s[k] < n * n
      {
        assert s[k] == s[3..][k - 3];
      }
    }
  }

  /** The corners of quad (i, j): Row and Col recover their cells. */
  lemma QuadCornerCoordinates(n: nat, i: int, j: int)
    requires 0 <= i < n - 1 && 0 <= j < n - 1
    ensures var a := VertexIndex(n, i, j);
            0 <= a && a + n + 1 < n * n &&
            Row(n, a) == i && Col(n, a) == j &&
            Row(n, a + 1) == i && Col(n, a + 1) == j + 1 &&
            Row(n, a + n) == i + 1 && Col(n, a + n) == j &&
            Row(n, a + n + 1) == i + 1 && Col(n, a + n + 1) == j + 1
  {
    var a := VertexIndex(n, i, j);
    VertexIndexCoordinates(n, i, j);
    VertexIndexCoordinates(n, i, j + 1);
    VertexIndexCoordinates(n, i + 1, j);
    VertexIndexCoordinates(n, i + 1, j + 1);
    assert VertexIndex(n, i, j + 1) == a + 1;
    assert VertexIndex(n, i + 1, j) == a + n;
    assert VertexIndex(n, i + 1, j + 1) == a + n + 1;
  }

  /** The two triangles of a quad inside the lattice are proper. */
  lemma QuadProper(n: nat, i: int, j: int)
    requires 0 <= i < n - 1 && 0 <= j < n - 1
    ensures ProperTriangles(n, QuadCorners(n, i, j))
  {
    var a := VertexIndex(n, i, j);
    QuadCornerCoordinates(n, i, j);
    assert Cross(n, a, a + 1, a + n) == 0 * 0 - 1 * 1;
    assert Cross(n, a + 1, a + n + 1, a + n) == 1 * (-1) - 0 * 1;
    var s := QuadCorners(n, i, j);
    assert s[3..] == [a + 1, a + n + 1, a + n];
    assert s[3..][3..] == [];
    assert ProperTriangles(n, s[3..]);
  }

  lemma {:induction false} RowProper(n: nat, i: int, m: nat)
    requires 0 <= i < n - 1 && m <= n - 1
    ensures ProperTriangles(n, RowTriangles(n, i, m))
  {
    if m > 0 {
      RowProper(n, i, m - 1);
      QuadProper(n, i, m - 1);
      ProperTrianglesConcat(n, RowTriangles(n, i, m - 1), QuadCorners(n, i, m - 1));
    }
  }

  lemma {:induction false} GridProper(n: nat, rows: nat)
    requires n > 0 && rows <= n - 1
    ensures ProperTriangles(n, GridTriangles(n, rows))
  {
    if rows > 0 {
      GridProper(n, rows - 1);
      RowProper(n, rows - 1, QuadsPerSide(n));
      ProperTrianglesConcat(n, GridTriangles(n, rows - 1), RowTriangles(n, rows - 1, QuadsPerSide(n)));
    }
  }

  /** Every triangle of the buffer has three distinct in-range vertices and
      the same winding, and every index of the buffer is a vertex of the
      lattice. */
  lemma TriangleIndicesProper(n: nat)
    requires n > 0
    ensures ProperTriangles(n, TriangleIndices(n))
    ensures forall k :: 0 <= k < |TriangleIndices(n)| ==> 0 <= TriangleIndices(n)[k] < n * n
  {
    GridProper(n, QuadsPerSide(n));
    ProperTrianglesInRange(n, TriangleIndices(n));
  }

  /** A mesh vertex: lattice x and z, and a real height y. */
  datatype Vertex = Vertex(x: int, y: real, z: int)

  /** A texture coordinate. */
  datatype Uv = Uv(u: real, v: real)

  /** a / n for a lattice coordinate a: multiplying back by n gives a, and
      a coordinate of [0, n) gives a fraction of [0, 1). */
  lemma UnitFraction(n: nat, a: int)
    requires n > 0
    ensures (a as real / n as real) * n as real == a as real
    ensures 0 <= a < n ==> 0.0 <= a as real / n as real < 1.0
  {
    var f := a as real / n as real;
    assert f * n as real == a as real;
    if 0 <= a < n {
      assert f * n as real >= 0.0;
      assert (1.0 - f) * n as real == n as real - a as real;
      assert (1.0 - f) * n as real > 0.0;
    }
  }

  /** The texture coordinate of a vertex: its lattice position scaled by the
      side length. */
  function UvOf(n: nat, vertex: Vertex): (uv: Uv)
    requires n > 0
    ensures 0 <= vertex.x < n && 0 <= vertex.z < n ==>
              0.0 <= uv.u < 1.0 && 0.0 <= uv.v < 1.0
    ensures uv.u * n as real == vertex.x as real && uv.v * n as real == vertex.z as real
  {
    UnitFraction(n, vertex.x);
    UnitFraction(n, vertex.z);
    Uv(vertex.x as real / n as real, vertex.z as real / n as real)
  }
}
