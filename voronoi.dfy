/** The terrain generator: sampling of random points, the distance grid of
    a point list, its grey-level texture, the composite heightmap with its
    colours, and the mesh buffers built from the heightmap. */
module Terrain {
  import opened Geometry
  import opened DistanceField
  import opened Biome
  import opened MeshTopology

  /** What Unity's integer Random.Range(minInclusive, maxExclusive) may
      return: a value of [minInclusive, maxExclusive), or minInclusive
      itself when that range is empty. */
  predicate InRandomRange(r: int, minInclusive: int, maxExclusive: int)
  {
    if minInclusive < maxExclusive then minInclusive <= r < maxExclusive else r == minInclusive
  }

  /** One draw of the random generator, chosen arbitrarily in its range. */
  method RandomRange(minInclusive: int, maxExclusive: int) returns (r: int)
    requires minInclusive <= maxExclusive
    ensures InRandomRange(r, minInclusive, maxExclusive)
  {
    if minInclusive < maxExclusive {
      r :| minInclusive <= r < maxExclusive;
    } else {
      r := minInclusive;
    }
  }

  /** The composite height of a cell: the product of its detail and general
      grey levels. It never exceeds either factor. */
  function Composite(detail: real, general: real): (v: real)
    ensures 0.0 <= detail <= 1.0 && 0.0 <= general <= 1.0 ==>
              0.0 <= v <= detail && v <= general
    ensures detail == 1.0 ==> v == general
    ensures general == 1.0 ==> v == detail
  {
    assert 0.0 <= detail <= 1.0 && 0.0 <= general <= 1.0 ==>
             detail * general <= detail * 1.0 && detail * general <= 1.0 * general;
    detail * general
  }

  /** The six writes of one quad (i, j), at slots t .. t + 5 of the
      buffer: the inner loop body, whose slot counter advances by one per
      write. */
  method WriteQuad(tris: array<int>, n: int, i: int, j: int, t: int)
    requires 0 <= t && t + 6 <= tris.Length
    modifies tris
    ensures forall k :: 0 <= k < tris.Length && !(t <= k < t + 6) ==> tris[k] == old(tris[k])
    ensures forall r :: 0 <= r < 6 ==> tris[t + r] == QuadCorners(n, i, j)[r]
  {
    var a := j + i * n;
    assert a == VertexIndex(n, i, j);
    tris[t] := a;
    tris[t + 1] := a + 1;
    tris[t + 2] := a + n;
    tris[t + 3] := a + 1;
    tris[t + 4] := a + n + 1;
    tris[t + 5] := a + n;
  }

  /** The nested quad loop over a zeroed buffer of the right length: the
      running slot counter visits every slot once, and the buffer ends equal
      to the specified index sequence. */
  method FillTriangles(tris: array<int>, n: nat)
    requires n >= 1 && tris.Length == |TriangleIndices(n)|
    requires forall k :: 0 <= k < tris.Length ==> tris[k] == 0
    modifies tris
    ensures tris[..] == TriangleIndices(n)
  {
    var q := n - 1;
    assert QuadsPerSide(n) == q;
    ghost var T := TriangleIndices(n);
    var triangleIndex := 0;
    var i := 0;
    while i < n - 1
      invariant 0 <= i <= q
      invariant triangleIndex == QuadSlot(q, i, 0)
      invariant triangleIndex <= tris.Length
      invariant forall k :: 0 <= k < triangleIndex ==> tris[k] == T[k]
      invariant forall k :: triangleIndex <= k < tris.Length ==> tris[k] == 0
    {
      var j := 0;
      while j < n - 1
        invariant 0 <= j <= q
        invariant triangleIndex == QuadSlot(q, i, j)
        invariant triangleIndex <= tris.Length
        invariant forall k :: 0 <= k < triangleIndex ==> tris[k] == T[k]
        invariant forall k :: triangleIndex <= k < tris.Length ==> tris[k] == 0
      {
        QuadSlots(n, i, j);
        WriteQuad(tris, n, i, j, triangleIndex);
        forall k | triangleIndex <= k < triangleIndex + 6
          ensures tris[k] == T[k]
        {
          var r := k - triangleIndex;
          assert tris[triangleIndex + r] == QuadCorners(n, i, j)[r];
        }
        triangleIndex := triangleIndex + 6;
        QuadSlotInRow(q, i, j);
        QuadSlotInRow(q, i, j + 1);
        j := j + 1;
      }
      QuadSlotInRow(q, i, q);
      i := i + 1;
    }
    assert triangleIndex == tris.Length;
    assert tris[..] == T;
  }

  /** A cell of the composite heightmap holds the product h of its two grey
      levels, and its colour is the colour of h with alpha set to 1. */
  predicate Composed(detail: real, general: real, jitter: real, h: real, c: Color)
  {
    ValidJitter(jitter) &&
    h == Composite(detail, general) &&
    var e := EnvironmentColorFromHeight(h, jitter);
    c == Color(e.r, e.g, e.b, 1.0)
  }

  /** A composed cell whose grey levels lie in [0, 1] has a height no
      greater than either level, and an opaque colour with every channel in
      [0, 1]. */
  lemma ComposedCellBounds(detail: real, general: real, jitter: real, h: real, c: Color)
    requires Composed(detail, general, jitter, h, c)
    requires InUnit(detail) && InUnit(general)
    ensures InUnit(h) && h <= detail && h <= general
    ensures c.a == 1.0 && InUnit(c.r) && InUnit(c.g) && InUnit(c.b)
  {
  }

  /** Two fields uniformly at one half compose to a heightmap uniformly at
      a quarter. */
  lemma HalfFieldsComposeToQuarter(n: nat, detail: array2<real>, general: array2<real>, jitter: array2<real>,
                                   heightmap: array2<real>, colors: array2<Color>)
    requires detail.Length0 == n && detail.Length1 == n && general.Length0 == n && general.Length1 == n
    requires jitter.Length0 == n && jitter.Length1 == n && heightmap.Length0 == n && heightmap.Length1 == n
    requires colors.Length0 == n && colors.Length1 == n
    requires forall i, j :: 0 <= i < n && 0 <= j < n ==>
               Composed(detail[i, j], general[i, j], jitter[i, j], heightmap[i, j], colors[i, j])
    requires forall i, j :: 0 <= i < n && 0 <= j < n ==> detail[i, j] == 0.5 && general[i, j] == 0.5
    ensures forall i, j :: 0 <= i < n && 0 <= j < n ==> heightmap[i, j] == 0.25
  {
  }

  /** Scale from a composite height to a vertex height (the generator's
      fixed maxHeight). */
  const MaxHeight: real := 40.0
  /** Bound of the random offset added to each vertex height (the
      generator's fixed noise). */
  const Noise: real := 0.2

  class Voronoi {
    /** Side length of the square grid. */
    const squareSize: nat

    var vertices: array<Vertex>
    var triangles: array<int>
    var uvs: array<Uv>

    /** Every vertex stands on a lattice cell of the grid. */
    ghost predicate Valid()
      reads this, vertices
    {
      forall k :: 0 <= k < vertices.Length ==>
        0 <= vertices[k].x < squareSize && 0 <= vertices[k].z < squareSize
    }

    /** A generator for a grid of the given side, with no mesh yet. */
    constructor (squareSize: nat)
      ensures this.squareSize == squareSize
      ensures Valid() && vertices.Length == 0 && triangles.Length == 0 && uvs.Length == 0
    {
      this.squareSize := squareSize;
      vertices := new Vertex[0];
      triangles := new int[0];
      uvs := new Uv[0];
    }

    /** Appends nPoints random points to the list; what was there stays. */
    method SamplePoints(points: seq<Point>, nPoints: int) returns (grown: seq<Point>)
      ensures |grown| == |points| + (if nPoints > 0 then nPoints else 0)
      ensures grown[..|points|] == points
      ensures forall k :: |points| <= k < |grown| ==>
                InRandomRange(grown[k].x, 0, squareSize) && InRandomRange(grown[k].y, 0, squareSize)
    {
      grown := points;
      var i := 0;
      while i < nPoints
        invariant 0 <= i && (nPoints > 0 ==> i <= nPoints) && (nPoints <= 0 ==> i == 0)
        invariant |grown| == |points| + i
        invariant grown[..|points|] == points
        invariant forall k :: |points| <= k < |grown| ==>
                    InRandomRange(grown[k].x, 0, squareSize) && InRandomRange(grown[k].y, 0, squareSize)
      {
        var x := RandomRange(0, squareSize);
        var y := RandomRange(0, squareSize);
        grown := grown + [Point(x, y)];
        i := i + 1;
      }
    }

    /** The distance grid: each cell holds its truncated distance to the
        nearest point of the list. */
    method FillDistances(points: seq<Point>) returns (distances: array2<int>)
      ensures fresh(distances)
      ensures distances.Length0 == squareSize && distances.Length1 == squareSize
      ensures forall i, j :: 0 <= i < squareSize && 0 <= j < squareSize ==>
                distances[i, j] == ClosestDistance(i, j, points)
    {
      distances := new int[squareSize, squareSize];
      var i := 0;
      while i < squareSize
        invariant 0 <= i <= squareSize
        invariant forall i', j' :: 0 <= i' < i && 0 <= j' < squareSize ==>
                    distances[i', j'] == ClosestDistance(i', j', points)
      {
        var j := 0;
        while j < squareSize
          invariant 0 <= j <= squareSize
          invariant forall i', j' :: 0 <= i' < i && 0 <= j' < squareSize ==>
                      distances[i', j'] == ClosestDistance(i', j', points)
          invariant forall j' :: 0 <= j' < j ==> distances[i, j'] == ClosestDistance(i, j', points)
        {
          distances[i, j] := DistanceToClosestPoint(i, j, points);
          j := j + 1;
        }
        i := i + 1;
      }
    }

    /** One Voronoi field: sample the points, fill the distance grid, and
        scan it for its maximum. */
    method CreateVoronoi(points: seq<Point>, nPoints: int)
      returns (grown: seq<Point>, distances: array2<int>, maxDist: int)
      ensures |grown| == |points| + (if nPoints > 0 then nPoints else 0)
      ensures grown[..|points|] == points
      ensures forall k :: |points| <= k < |grown| ==>
                InRandomRange(grown[k].x, 0, squareSize) && InRandomRange(grown[k].y, 0, squareSize)
      ensures fresh(distances)
      ensures distances.Length0 == squareSize && distances.Length1 == squareSize
      ensures forall i, j :: 0 <= i < squareSize && 0 <= j < squareSize ==>
                distances[i, j] == ClosestDistance(i, j, grown)
      ensures maxDist >= 0
      ensures forall i, j :: 0 <= i < squareSize && 0 <= j < squareSize ==> distances[i, j] <= maxDist
      ensures maxDist == 0 || exists i, j :: 0 <= i < squareSize && 0 <= j < squareSize && distances[i, j] == maxDist
    {
      grown := SamplePoints(points, nPoints);
      distances := FillDistances(grown);
      maxDist := FindMax(distances);
    }

    /** The grey level of every cell of a distance grid, relative to the
        grid's maximum. */
    method DistanceTexture(distances: array2<int>, maxDist: int) returns (tex: array2<real>)
      requires maxDist > 0
      requires distances.Length0 == squareSize && distances.Length1 == squareSize
      ensures fresh(tex)
      ensures tex.Length0 == squareSize && tex.Length1 == squareSize
      ensures forall i, j :: 0 <= i < squareSize && 0 <= j < squareSize ==>
                tex[i, j] == Normalised(distances[i, j], maxDist)
      ensures (forall i, j :: 0 <= i < squareSize && 0 <= j < squareSize ==> 0 <= distances[i, j] <= maxDist) ==>
                forall i, j :: 0 <= i < squareSize && 0 <= j < squareSize ==> InUnit(tex[i, j])
      ensures forall i, j :: 0 <= i < squareSize && 0 <= j < squareSize ==>
                (tex[i, j] == 1.0 <==> distances[i, j] == maxDist)
    {
      tex := new real[squareSize, squareSize];
      var i := 0;
      while i < squareSize
        invariant 0 <= i <= squareSize
        invariant forall i', j' :: 0 <= i' < i && 0 <= j' < squareSize ==>
                    tex[i', j'] == Normalised(distances[i', j'], maxDist)
      {
        var j := 0;
        while j < squareSize
          invariant 0 <= j <= squareSize
          invariant forall i', j' :: 0 <= i' < i && 0 <= j' < squareSize ==>
                      tex[i', j'] == Normalised(distances[i', j'], maxDist)
          invariant forall j' :: 0 <= j' < j ==> tex[i, j'] == Normalised(distances[i, j'], maxDist)
        {
          tex[i, j] := distances[i, j] as real / maxDist as real;
          j := j + 1;
        }
        i := i + 1;
      }
    }

    /** The composite heightmap, cell by cell the product of the detail and
        general grey levels, and the colour of each cell under its jitter,
        written back opaque. */
    method ComposeHeightmap(detail: array2<real>, general: array2<real>, jitter: array2<real>)
      returns (heightmap: array2<real>, colors: array2<Color>)
      requires detail.Length0 == squareSize && detail.Length1 == squareSize
      requires general.Length0 == squareSize && general.Length1 == squareSize
      requires jitter.Length0 == squareSize && jitter.Length1 == squareSize
      requires forall i, j :: 0 <= i < squareSize && 0 <= j < squareSize ==> ValidJitter(jitter[i, j])
      ensures fresh(heightmap) && fresh(colors)
      ensures heightmap.Length0 == squareSize && heightmap.Length1 == squareSize
      ensures colors.Length0 == squareSize && colors.Length1 == squareSize
      ensures forall i, j :: 0 <= i < squareSize && 0 <= j < squareSize ==>
                Composed(detail[i, j], general[i, j], jitter[i, j], heightmap[i, j], colors[i, j])
    {
      heightmap := new real[squareSize, squareSize];
      colors := new Color[squareSize, squareSize];
      var i := 0;
      while i < squareSize
        invariant 0 <= i <= squareSize
        invariant forall i', j' :: 0 <= i' < i && 0 <= j' < squareSize ==>
                    Composed(detail[i', j'], general[i', j'], jitter[i', j'], heightmap[i', j'], colors[i', j'])
      {
        var j := 0;
        while j < squareSize
          invariant 0 <= j <= squareSize
          invariant forall i', j' :: 0 <= i' < i && 0 <= j' < squareSize ==>
                      Composed(detail[i', j'], general[i', j'], jitter[i', j'], heightmap[i', j'], colors[i', j'])
          invariant forall j' :: 0 <= j' < j ==>
                      Composed(detail[i, j'], general[i, j'], jitter[i, j'], heightmap[i, j'], colors[i, j'])
        {
          var value := Composite(detail[i, j], general[i, j]);
          heightmap[i, j] := value;
          var pixelColor := EnvironmentColorFromHeight(value, jitter[i, j]);
          colors[i, j] := Color(pixelColor.r, pixelColor.g, pixelColor.b, 1.0);
          j := j + 1;
        }
        i := i + 1;
      }
    }

    /** The vertex lattice: one vertex per cell, at the cell's lattice
        position, raised by the cell's height and a bounded random offset. */
    method CreateVertices(voronoi: array2<real>, offsets: array2<real>) returns (vs: array<Vertex>)
      requires voronoi.Length0 == squareSize && voronoi.Length1 == squareSize
      requires offsets.Length0 == squareSize && offsets.Length1 == squareSize
      ensures fresh(vs)
      ensures vs.Length == squareSize * squareSize
      ensures forall i, j :: 0 <= i < squareSize && 0 <= j < squareSize ==>
                vs[VertexIndex(squareSize, i, j)] == Vertex(i, voronoi[i, j] * MaxHeight + offsets[i, j], j)
      ensures forall k :: 0 <= k < vs.Length ==> 0 <= vs[k].x < squareSize && 0 <= vs[k].z < squareSize
    {
      var n := squareSize;
      vs := new Vertex[n * n];
      var i := 0;
      while i < n
        invariant 0 <= i <= n
        invariant forall i', j' :: 0 <= i' < i && 0 <= j' < n ==>
                    vs[VertexIndex(n, i', j')] == Vertex(i', voronoi[i', j'] * MaxHeight + offsets[i', j'], j')
      {
        var j := 0;
        while j < n
          invariant 0 <= j <= n
          invariant forall i', j' :: 0 <= i' < i && 0 <= j' < n ==>
                      vs[VertexIndex(n, i', j')] == Vertex(i', voronoi[i', j'] * MaxHeight + offsets[i', j'], j')
          invariant forall j' :: 0 <= j' < j ==>
                      vs[VertexIndex(n, i, j')] == Vertex(i, voronoi[i, j'] * MaxHeight + offsets[i, j'], j')
        {
          EarlierCellsDiffer(n, i, j);
          var height := voronoi[i, j] * MaxHeight + offsets[i, j];
          var k := i * n + j;
          assert k == VertexIndex(n, i, j);
          vs[k] := Vertex(i, height, j);
          j := j + 1;
        }
        i := i + 1;
      }
      LatticeCovered(n, vs[..]);
    }

    /** The triangle index buffer, allocated with (n-1)*(n-1)*6 zero slots
        and filled by the nested quad loop; with no quads the buffer keeps
        its zeros. */
    method CreateTriangles() returns (tris: array<int>)
      ensures fresh(tris)
      ensures tris.Length == (squareSize - 1) * (squareSize - 1) * 6
      ensures squareSize >= 1 ==> tris[..] == TriangleIndices(squareSize)
      ensures squareSize == 0 ==> tris[..] == [0, 0, 0, 0, 0, 0]
    {
      var n: int := squareSize;
      TriangleBufferSize(squareSize);
      tris := new int[(n - 1) * (n - 1) * 3 * 2](_ => 0);
      if n >= 1 {
        FillTriangles(tris, n);
      } else {
        assert tris[..] == [0, 0, 0, 0, 0, 0];
      }
    }

    /** Builds the vertex lattice from the heightmap and the triangle index
        buffer over it (two triangles per quad). */
    method CreateMesh(voronoi: array2<real>, offsets: array2<real>)
      requires voronoi.Length0 == squareSize && voronoi.Length1 == squareSize
      requires offsets.Length0 == squareSize && offsets.Length1 == squareSize
      requires forall i, j :: 0 <= i < squareSize && 0 <= j < squareSize ==> -Noise <= offsets[i, j] <= Noise
      modifies this
      ensures fresh(vertices) && fresh(triangles) && uvs == old(uvs)
      ensures Valid()
      ensures vertices.Length == squareSize * squareSize
      ensures forall i, j :: 0 <= i < squareSize && 0 <= j < squareSize ==>
                vertices[VertexIndex(squareSize, i, j)] == Vertex(i, voronoi[i, j] * MaxHeight + offsets[i, j], j)
      ensures triangles.Length == (squareSize - 1) * (squareSize - 1) * 6
      ensures squareSize >= 1 ==> triangles[..] == TriangleIndices(squareSize)
      ensures squareSize == 0 ==> triangles[..] == [0, 0, 0, 0, 0, 0]
    {
      var vs := CreateVertices(voronoi, offsets);
      var tris := CreateTriangles();
      vertices, triangles := vs, tris;
    }

    /** One texture coordinate per vertex: the vertex's lattice position
        divided by the side length. */
    method UpdateMesh()
      requires Valid()
      modifies this`uvs
      ensures fresh(uvs)
      ensures uvs.Length == vertices.Length
      ensures forall k :: 0 <= k < uvs.Length ==> uvs[k] == UvOf(squareSize, vertices[k])
      ensures forall k :: 0 <= k < uvs.Length ==> 0.0 <= uvs[k].u < 1.0 && 0.0 <= uvs[k].v < 1.0
    {
      var uv := new Uv[vertices.Length];
      var i := 0;
      while i < uv.Length
        invariant 0 <= i <= uv.Length
        invariant forall k :: 0 <= k < i ==> uv[k] == UvOf(squareSize, vertices[k])
      {
        uv[i] := Uv(vertices[i].x as real / squareSize as real, vertices[i].z as real / squareSize as real);
        i := i + 1;
      }
      uvs := uv;
    }
  }
}
