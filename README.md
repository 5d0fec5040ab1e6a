# Voronoi terrain generator — Dafny model

This project models the algorithmic core of a Unity terrain generator (`Assets/Voronoi.cs`).
The generator works in five steps:

1. It scatters random points over a square grid of side `squareSize`.
2. It gives every cell its truncated Euclidean distance to the nearest point.
3. It scales that distance field by its maximum into grey levels.
4. It multiplies a detail field with a general field into a heightmap, and colours each cell with one of three height bands (valley, mountain, snow).
5. It turns the heightmap into a mesh: an `n*n` vertex lattice, a buffer of two triangles per quad, and one texture coordinate per vertex.

Modules:

- `Geometry`: lattice points, squared distances and the integer square root.
  - `(int)` applied to a Euclidean distance between lattice points is exactly the integer square root of the squared distance, so the whole distance field is modelled on integers.
- `DistanceField`: the nearest-point search, the maximum scan and the normalisation.
  - The nearest-point search keeps its running minimum squared, seeded with `99999²`. Because the square root is monotone, this picks the same minimum as the float comparison.
- `Biome`: the height-to-colour bands.
  - The random jitter becomes a parameter in `[-0.1, 0.1]`.
- `MeshTopology`: the specification of the mesh.
  - This covers the flattened vertex index `i*n + j`, the triangle index buffer as a sequence, and texture coordinates.
- `Terrain`: the class `Voronoi`, holding `squareSize` and the mesh buffers `vertices`, `triangles` and `uvs`.
  - Its methods carry the source's loops, each proved against the specification functions above.
  - The fixed parameters `maxHeight` (40) and `noise` (0.2), declared at Assets/Voronoi.cs:11-12, are the module constants `MaxHeight` and `Noise`.
  - A random draw is either an arbitrary value in range (`RandomRange`, for `Random.Range(int, int)`) or a caller-supplied array of values (float offsets, colour jitter).

## Model

| member | source | states |
|---|---|---|
| Geometry.SqDist | Assets/Voronoi.cs:136 | the squared distance is zero exactly when the cell is the point |
| Geometry.Isqrt | Assets/Voronoi.cs:140 | the result r is the truncated square root: r*r <= n < (r+1)*(r+1) |
| Geometry.IsqrtUnique | Assets/Voronoi.cs:140 | any k with k*k <= n < (k+1)*(k+1) is the integer square root |
| Geometry.IsqrtMonotone | Assets/Voronoi.cs:140 | a larger argument never has a smaller integer square root |
| DistanceField.ClosestSq | Assets/Voronoi.cs:133-139 | the running minimum is at most 99999², at most every point's squared distance, and is either the seed or some point's squared distance |
| DistanceField.ClosestDistanceIsNearest | Assets/Voronoi.cs:131-141 | the result is at most 99999, is 99999 for an empty list, has a square within every point's squared distance, and below the cap has a point closer than result+1 |
| DistanceField.ClosestDistanceIsLargest | Assets/Voronoi.cs:131-141 | every k <= 99999 whose square fits under all squared distances is at most the result, so the result is the largest such k |
| DistanceField.DistanceToClosestPoint | Assets/Voronoi.cs:131-141 | the loop over the point list returns the truncated nearest-point distance ClosestDistance |
| DistanceField.FindMax | Assets/Voronoi.cs:143-150 | the result is >= 0 and >= every entry, and is 0 or equal to some entry |
| DistanceField.Normalised | Assets/Voronoi.cs:122 | a distance in [0, maxDist] maps into [0, 1]; the value is 1 exactly at maxDist; value times maxDist gives back the distance |
| DistanceField.SinglePointCorner | Assets/Voronoi.cs:131-141 | one point at (0, 0): cell (3, 3) is at truncated distance 4, no cell of the 4 by 4 grid is farther, so 4 is its maximum and maps to grey level 1 |
| Biome.EnvironmentColorFromHeight | Assets/Voronoi.cs:207-248 | alpha is 0; below 25 the blue is 0.2 and green is red + 0.3; from 25 to below 70 the colour is grey in [0.24, 0.9); from 70 to 100 it is (0.9, 0.9, 0.9); above 100 it is the all-zero colour; heights in [0, 1] give channels in [0, 1] |
| Biome.ValleyDarkensWithHeight | Assets/Voronoi.cs:226-231 | for a fixed jitter, red and green do not increase with height in the valley band |
| Biome.MountainBrightensWithHeight | Assets/Voronoi.cs:232-237 | for a fixed jitter, the grey does not decrease with height in the mountain band |
| Biome.JitterIsBounded | Assets/Voronoi.cs:225-243 | the jitter moves no channel more than 0.06 from the jitter-free colour |
| MeshTopology.VertexIndex | Assets/Voronoi.cs:164 | a cell of the grid gets an index in [0, n*n) |
| MeshTopology.VertexIndexCoordinates | Assets/Voronoi.cs:164 | Row and Col recover the cell (i, j) from index i*n + j |
| MeshTopology.VertexIndexOnto | Assets/Voronoi.cs:155-166 | every index of [0, n*n) is the index of the cell (Row, Col) |
| MeshTopology.VertexIndexInjective | Assets/Voronoi.cs:155-166 | two cells with the same index are the same cell, so no vertex is written twice |
| MeshTopology.EarlierCellsDiffer | Assets/Voronoi.cs:159-166 | a cell visited before (i, j) in row-major order has a different index |
| MeshTopology.TriangleBufferSize | Assets/Voronoi.cs:169 | the allocated length (n-1)*(n-1)*3*2 equals the index sequence's length for n >= 1, and is 6 for n = 0 |
| MeshTopology.TriangleIndices | Assets/Voronoi.cs:169 | the buffer has (n-1)*(n-1)*6 entries, and none once n <= 1 |
| MeshTopology.TriangleSlot | Assets/Voronoi.cs:171-181 | slots 6*(i*(n-1)+j) .. +5 hold a, a+1, a+n, a+1, a+n+1, a+n with a = i*n + j |
| MeshTopology.QuadSlots | Assets/Voronoi.cs:171-181 | the six slots starting at quad (i, j)'s running counter value lie inside the buffer and hold that quad's two triangles |
| MeshTopology.TriangleIndicesProper | Assets/Voronoi.cs:169-184 | every triangle has three distinct vertices in [0, n*n) and the same winding, and every index in the buffer is a lattice vertex |
| MeshTopology.LatticeCovered | Assets/Voronoi.cs:155-166 | once every cell's slot holds a vertex at that cell, every vertex of the n*n buffer lies on the lattice |
| MeshTopology.UnitFraction | Assets/Voronoi.cs:199 | a / n multiplied back by n gives a, and a coordinate in [0, n) gives a fraction in [0, 1) |
| MeshTopology.UvOf | Assets/Voronoi.cs:199 | a vertex on the lattice gets u and v in [0, 1), with u*n = x and v*n = z |
| Terrain.RandomRange | Assets/Voronoi.cs:96-97 | the draw lies in [min, max), or is min when the range is empty |
| Terrain.Composite | Assets/Voronoi.cs:56 | grey levels in [0, 1] give a height in [0, 1] no greater than either level; a level of 1 leaves the other unchanged |
| Terrain.HalfFieldsComposeToQuarter | Assets/Voronoi.cs:52-62 | a heightmap composed from two fields that are 0.5 in every cell is 0.25 in every cell |
| Terrain.ComposedCellBounds | Assets/Voronoi.cs:56-60 | a composed cell with grey levels in [0, 1] has a height no greater than either level and an opaque colour with channels in [0, 1] |
| Terrain.WriteQuad | Assets/Voronoi.cs:175-181 | the six writes of one quad put its corners a, a+1, a+n, a+1, a+n+1, a+n (a = j + i*n) at the counter's six slots and change no other slot |
| Terrain.FillTriangles | Assets/Voronoi.cs:170-184 | the nested quad loop, run over the zeroed buffer, leaves it equal to the index sequence TriangleIndices(n): the counter visits every slot once and ends at the buffer's length |
| Terrain.Voronoi.constructor | Assets/Voronoi.cs:10 | a generator of the given side with empty mesh buffers |
| Terrain.Voronoi.SamplePoints | Assets/Voronoi.cs:94-100 | the list grows by exactly max(nPoints, 0) entries, the old entries are kept, and each new coordinate is a draw from [0, squareSize) |
| Terrain.Voronoi.FillDistances | Assets/Voronoi.cs:103-111 | a fresh squareSize by squareSize grid whose every cell holds its truncated nearest-point distance |
| Terrain.Voronoi.CreateVoronoi | Assets/Voronoi.cs:91-114 | sampling, distance fill and maximum scan together: the grown list, its distance grid, and a maximum that is >= 0, bounds every cell and is 0 or some cell's value |
| Terrain.Voronoi.DistanceTexture | Assets/Voronoi.cs:117-125 | each grey level is distance / maxDist; non-negative distances up to maxDist give levels in [0, 1], and exactly the maximum cells get 1 |
| Terrain.Voronoi.ComposeHeightmap | Assets/Voronoi.cs:52-62 | each cell holds the product of its two grey levels, and its colour is that height's band colour with alpha 1 |
| Terrain.Voronoi.CreateVertices | Assets/Voronoi.cs:155-166 | n*n vertices; the vertex at index i*n + j stands at x = i, z = j with height pixel*MaxHeight + offset; every vertex lies on the lattice |
| Terrain.Voronoi.CreateTriangles | Assets/Voronoi.cs:169-184 | the buffer has (n-1)*(n-1)*6 slots and, for n >= 1, equals TriangleIndices(n), so every slot is written exactly with its quad's corner; for n = 0 it is six zeros |
| Terrain.Voronoi.CreateMesh | Assets/Voronoi.cs:152-187 | new vertex and triangle buffers with the contents above, every vertex on the lattice, and the uvs untouched |
| Terrain.Voronoi.UpdateMesh | Assets/Voronoi.cs:196-200 | one texture coordinate per vertex, (x/n, z/n), each in [0, 1) |

## Left out

- Textures, sprites and materials: `Texture2D` creation, `SetPixel`/`GetPixel`/`Apply`, sprite renderers and material binding are Unity host calls.
  - The model keeps grey levels and colours as arrays of reals.
  - The quantisation that `GetPixel` applies to the stored texture format is not modelled.
- Mesh host calls (`mesh.Clear`, the assignments to `mesh.vertices`/`triangles`/`uv`, `RecalculateNormals`, `indexFormat`) are foreign calls with no visible logic.
- `ExportImage`: PNG encoding and file output.
- `Start` and `Update`: the Unity lifecycle that wires the steps together; each step is modelled on its own.
  - `Start` allocates `points` but not `heightPoints`: that serialised field keeps whatever list Unity's serializer gave it. `CreateVoronoi` takes whatever list the field holds as its input.
- Floating point: distances, grey levels, heights and colours are exact integers or reals.
  - IEEE rounding of `Vector2.Distance`, of the division and of the colour formulas is not modelled.
- Randomness: `Random.Range(int, int)` is an arbitrary draw in range.
  - The float draws (the vertex offset in `[-Noise, Noise]`, the colour jitter in `[-0.1, 0.1]`) are caller-supplied arrays.
- Terrain.Voronoi.CreateVoronoi: the `ref` parameters become an input list and output values. The grey-level texture step is the separate `DistanceTexture`.
- DistanceField.Normalised and Terrain.Voronoi.DistanceTexture: both require `maxDist > 0`. The source divides anyway when every distance is zero and gets NaN grey levels; that case is not modelled.
- Terrain.Voronoi.CreateTriangles: C# `int` is 32 bits and unchecked. The product `(squareSize-1) * (squareSize-1) * 3 * 2` at Assets/Voronoi.cs:169 is evaluated left to right, and it overflows once squareSize >= 18920. The allocation then either throws on a negative length, or yields a buffer that is too short, so that the writes at Assets/Voronoi.cs:175-181 throw. The model's unbounded integers promise (n-1)*(n-1)*6 slots for every n, so it describes the source only for 0 <= squareSize < 18920.
- Terrain.Voronoi.CreateVertices: `squareSize * squareSize` also wraps in 32 bits, once squareSize >= 46341. Below 18920, which the triangle buffer already requires, it does not wrap.
- Terrain.Voronoi.constructor: squareSize is a `nat`. In the source a negative squareSize makes `new float[squareSize, squareSize]` throw; that failure is not modelled.
- There is no error result anywhere:
  - an empty point list yields the sentinel distance 99999;
  - a height above the snow band yields the all-zero colour;
  - both are stated in the contracts.
