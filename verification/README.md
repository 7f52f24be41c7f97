# voxelify core, modelled in Dafny

voxelify turns textured triangle meshes into coloured voxels and stores them in its own
container format. This project models the engine and the in-memory structures behind it:

- **Slicing.**
  - A unit sieve splits an integer box into unit cubes (`Sieves`).
  - Each convex polygon is clipped by the sieve's split planes (`PolygonExtensions.Split`).
  - Each fragment is fan-triangulated (`Polygons`).
  - Each triangle is rasterized in texture space (`TriangleExtensions`).
  - The texels under those pixels are averaged into a weighted colour (`WeightedColors`).
- **The colour grid.** A dense 3-D array of weighted colours (`ColorGrids`). It has a bijective index formula and a flood fill that deletes the empty cells reachable from a seed.
- **The export.** The grid becomes a layered container: one sprite per y layer and a `model` meta object listing the layers from top to bottom (`GridExport`).
- **The container format.**
  - 16 x 16 tiles with a fill counter (`Tiles`).
  - Sparse sprites made of tiles (`Sprites`).
  - The container with its sprite-id counter and meta objects (`Containers`).
  - The `spriteId` cross-reference validator (`SpriteIdValidation`).
  - The `name-X.Y.Z` format registry with its validation and migration (`Formats`).
- **The voxel model.** Layers by y, tiles by column and row (`VoxelModels`).
- **Helpers** (`Utils`): ARGB pixel packing, escaping for regular expressions, the sort-order flag and the choice of a model loader.

Each source file is one module.
- Objects whose fields the source updates in place are classes whose methods carry `modifies` clauses and state their whole new state:
  - `WeightedColor`;
  - `WeightedColorGrid`;
  - the `Tile`, `Sprite` and `Container` objects of the format;
  - the `Tile`, `Layer` and `VoxelModel` objects of the voxel model;
  - the sieve's plane cache.
- Each such method is proved against a specification function on values. The properties the source promises are proved about that function as lemmas.
- Pure code is made of datatypes, functions and lemmas. This covers the vertex lerp, the sieve tree, the format-id grammar, the validator and the helpers.
- Loops in the source are methods with loop invariants:
  - `triangulate`;
  - the `split` and `getColor` loops;
  - the rasterizer's row loops;
  - the flood fill;
  - the export callback;
  - the migrator choice.

JavaScript semantics are written out where they matter:
- `%` truncates;
- `Math.round` rounds a half upwards;
- `<<`, `>>` and `>>>` wrap to 32 bits;
- a division by a zero weight gives an infinity or NaN;
- `Array.prototype.sort` is stable;
- `in` also finds inherited members.

Coordinates and lerp parameters are exact reals.

## Model

| member | source | states |
|---|---|---|
| `WeightedColors.ColorSum.Plus` | lib/slicer/WeightedColor.js:37-42 | adding another WeightedColor adds its weight and each of its channel sums component-wise |
| `WeightedColors.ColorSum.PlusHex` | lib/slicer/WeightedColor.js:43-47 | adding a hex colour raises the weight by `weight || 1` and each channel by the colour's byte `(c >> 16) & 0xff`, `(c >> 8) & 0xff`, `c & 0xff`, unscaled by the weight |
| `WeightedColors.Average` | lib/slicer/WeightedColor.js:54-72 | a channel getter is `min(255, max(0, round(sum / weight)))` for a non-zero weight, so it lies in 0..255; with weight 0 it is 255, 0 or NaN by the sign of the sum |
| `WeightedColors.ColorSum.Red` | lib/slicer/WeightedColor.js:54-56 | the getter `r`: the red sum over the weight, rounded and clamped to 0..255 (`Average`); `InRangeAverageIsMean` and `MeanInByteRange` state what it yields |
| `WeightedColors.ColorSum.Green` | lib/slicer/WeightedColor.js:62-64 | the getter `g`, as `r` on the green sum |
| `WeightedColors.ColorSum.Blue` | lib/slicer/WeightedColor.js:70-72 | the getter `b`, as `r` on the blue sum |
| `WeightedColors.ColorSum.Value` | lib/slicer/WeightedColor.js:78-80 | `value` lies in [0xff000000, 2^32): its top byte is always 0xff and the lower three bytes are the r, g, b getters (a NaN channel contributes 0) |
| `WeightedColors.AddSample` | lib/slicer/WeightedColor.js:36-48 | one call of `add`: another WeightedColor adds its weight and sums, a hex colour adds its three bytes and the weight argument, or 1 when it is falsy; `AddAllIsTotal` and `AddOrderIndependent` show the order of the calls does not matter |
| `WeightedColors.AddAll` | lib/slicer/WeightedColor.js:36-48 | the state after a sequence of `add` calls in order; `AddAllIsTotal` shows it is the start state plus the total of the samples |
| `WeightedColors.AddAllIsTotal` | lib/slicer/WeightedColor.js:36-48 | a run of `add` calls leaves the start state plus the sum of the samples' contributions |
| `WeightedColors.TotalPermutation` | lib/slicer/WeightedColor.js:36-48 | the summed contributions of two sample sequences with the same multiset are equal |
| `WeightedColors.AddOrderIndependent` | lib/slicer/WeightedColor.js:36-48 | the accumulated weight and sums do not depend on the order of the `add` calls |
| `WeightedColors.DefaultWeightKeepsRange` | lib/slicer/WeightedColor.js:43-47 | hex colours added with the default weight raise the weight by one each and keep every sum within 0..255 times the weight |
| `WeightedColors.InRangeAverageIsMean` | lib/slicer/WeightedColor.js:54-72 | for sums within range the clamp never applies: each getter is the rounded mean |
| `WeightedColors.MeanInByteRange` | lib/slicer/WeightedColor.js:54-56 | a sum within 0..255 times a positive weight rounds to a mean within 0..255 |
| `WeightedColors.SolidGreen` | lib/slicer/WeightedColor.js:43-80 | any positive number of pure-green samples with the default weight gives the value 0xff00ff00 |
| `WeightedColors.GreenValue` | lib/slicer/WeightedColor.js:54-80 | a state with weight n and green sum 255·n has the value 0xff00ff00 |
| `WeightedColors.GreenSums` | lib/slicer/WeightedColor.js:43-47 | n pure-green samples raise the weight by n and the green sum by 255·n, leaving red and blue unchanged |
| `WeightedColors.WeightedColor.constructor` | lib/slicer/WeightedColor.js:10-15 | a fresh accumulator has weight 0 and all three channel sums 0 |
| `WeightedColors.WeightedColor.Clone` | lib/slicer/WeightedColor.js:21-28 | the copy is a fresh object holding the same four fields |
| `WeightedColors.WeightedColor.Add` | lib/slicer/WeightedColor.js:37-42 | the new state is the old state plus the other accumulator's old state |
| `WeightedColors.WeightedColor.AddHex` | lib/slicer/WeightedColor.js:43-47 | the new state is the old state with the hex colour's bytes and `weight || 1` added |
| `Vertices.Vertex.Lerp` | lib/converters/Vertex.js:47-52 | the result's offset from this vertex is t times the offset to the other, both for the position and for the texture coordinate (`u + (w - u)·t`); t = 0 gives this vertex and t = 1 gives the other |
| `Vertices.LerpInRange` | lib/converters/Vertex.js:47-52 | for t in [0, 1] every coordinate of the interpolated vertex, in space and in texture, lies between those of the two ends |
| `Vertices.Lerp3InRange` | lib/converters/Vertex.js:49 | for t in [0, 1] each coordinate of the position lerp lies between the two ends |
| `Vertices.Lerp2InRange` | lib/converters/Vertex.js:50 | for t in [0, 1] each coordinate of the uv lerp lies between the two ends |
| `Vertices.LerpCoordinate` | lib/converters/Vertex.js:47-52 | one coordinate `a + (b - a)·t` has offset `(b - a)·t`, equals a at t = 0 and b at t = 1, and lies between a and b for t in [0, 1] |
| `Vertices.NewVertex` | lib/converters/Vertex.js:17-28 | a vector argument is stored as given; an array argument becomes the vector of its leading three (position) or two (uv) entries |
| `Polygons.NewPolygon` | lib/slicer/Polygon.js:17-27 | fewer than three points is refused first, then any point that is not a Vertex; otherwise the polygon keeps the material and exactly the given vertices in order |
| `Polygons.Polygon.Normal` | lib/slicer/Polygon.js:26 | the direction of the plane `setFromCoplanarPoints` computes from the first three points, before normalising; only the sign of its dot product with the cutting plane is used by `SplitSpec` |
| `Polygons.FanTriangle` | lib/slicer/Polygon.js:40 | the k-th triangle `triangulate` pushes: the first point and points k + 1 and k + 2; `Triangulate` returns exactly these in order |
| `Polygons.Triangulate` | lib/slicer/Polygon.js:33-49 | n points give exactly n - 2 triangles; the k-th is `[points[0], points[k+1], points[k+2]]` with the polygon's material, so each has three points |
| `PolygonExtensions.BitOrBits` | lib/slicer/PolygonExtensions.js:38 | OR-ing two classes sets the Front bit iff either has it and the Back bit iff either has it |
| `PolygonExtensions.Classify` | lib/slicer/PolygonExtensions.js:32-37 | a point is Back iff its signed distance is below -1e-5, Front iff above 1e-5, and Coplanar otherwise |
| `PolygonExtensions.TypeOf` | lib/slicer/PolygonExtensions.js:32-37 | the class of one point: its signed distance to the plane classified against `EPSILON`; `TypesOf` and `ClassifyPoints` collect these for every point |
| `PolygonExtensions.TypesOf` | lib/slicer/PolygonExtensions.js:30-40 | the `types` list has one class per point, the class of that point |
| `PolygonExtensions.OrAll` | lib/slicer/PolygonExtensions.js:29-40 | the bitwise or of the point classes, in order; `OrAllIs` shows it is Coplanar, Front, Back or Spanning by which classes occur |
| `PolygonExtensions.OrAllIs` | lib/slicer/PolygonExtensions.js:29-40 | the polygon's class has the Front bit iff some point is in front and the Back bit iff some point is behind |
| `PolygonExtensions.Successor` | lib/slicer/PolygonExtensions.js:57 | `(i + 1) % n` is the cyclic successor of point i, wrapping the last point to the first |
| `PolygonExtensions.SpanningEdgeIs` | lib/slicer/PolygonExtensions.js:68 | an edge's classes OR to Spanning iff it joins a Front and a Back point, in either order |
| `PolygonExtensions.Pieces` | lib/slicer/PolygonExtensions.js:56-74 | every piece the edge loop has pushed comes from an edge already visited, and every cut comes from a spanning edge |
| `PolygonExtensions.PiecesMembers` | lib/slicer/PolygonExtensions.js:62-73 | a fragment's list holds exactly the points not on the opposite side and the cuts of the spanning edges, the same cuts on both sides |
| `PolygonExtensions.PiecesOrdered` | lib/slicer/PolygonExtensions.js:56-74 | a fragment's vertices follow the polygon's boundary order, each at most once |
| `PolygonExtensions.FragmentPoints` | lib/slicer/PolygonExtensions.js:54-74 | the `front` or `back` vertex list of a spanning polygon; `PiecesMembers`, `PiecesOrdered` and `FragmentHasThree` state what it holds |
| `PolygonExtensions.FragmentHasThree` | lib/slicer/PolygonExtensions.js:62-80 | with one point strictly on a side, that side's fragment has at least three vertices, so the `length >= 3` guard always passes for a spanning polygon |
| `PolygonExtensions.EdgeDotIsDifference` | lib/slicer/PolygonExtensions.js:69 | the denominator of `part` is the difference of the two endpoints' signed distances |
| `PolygonExtensions.Part` | lib/slicer/PolygonExtensions.js:69 | `part`: how far along the edge from the current to the next point the plane cuts it; `SeamOnPlane` shows the vertex lerped by it lies on the plane |
| `PolygonExtensions.SeamOnPlane` | lib/slicer/PolygonExtensions.js:68-70 | on a spanning edge the denominator exceeds 2e-5 in magnitude, `part` lies strictly between 0 and 1, and the intersection vertex lies on the plane |
| `PolygonExtensions.SeamVertex` | lib/slicer/PolygonExtensions.js:68-72 | the intersecting vertex on a spanning edge, pushed to both sides; `SeamOnPlane` puts it on the plane |
| `PolygonExtensions.Realize` | lib/slicer/PolygonExtensions.js:62-73 | the vertex list has one vertex per piece |
| `PolygonExtensions.SplitSpec` | lib/slicer/PolygonExtensions.js:26-84 | a polygon that does not span the plane is reported once, unchanged, as front iff no point is behind and some point is in front or (all coplanar) the plane's normal agrees with the polygon's; a spanning polygon gives its front fragment and then its back fragment, both valid polygons with the original material |
| `PolygonExtensions.ClassifyPoints` | lib/slicer/PolygonExtensions.js:29-40 | the loop leaves the class of every point in `types` and their OR in `polygonType` |
| `PolygonExtensions.PiecesStep` | lib/slicer/PolygonExtensions.js:62-73 | one edge appends its start point when that point is not on the opposite side, then the cut when the edge spans the plane |
| `PolygonExtensions.CutPolygon` | lib/slicer/PolygonExtensions.js:54-74 | the edge loop builds exactly the front and back vertex lists, with each cut shared by both |
| `PolygonExtensions.Split` | lib/slicer/PolygonExtensions.js:26-84 | the `returnItem` calls, in order, are those `SplitSpec` describes |
| `PolygonExtensions.ToTextureTriangle` | lib/slicer/PolygonExtensions.js:93-105 | anything but exactly three points is refused with the source's message; otherwise point i is point i's uv scaled to pixel units, `(u·(w - 1), v·(h - 1))`, a width or height of 0 counting as 1 |
| `PolygonExtensions.TextureTriangleInBounds` | lib/slicer/PolygonExtensions.js:97-104 | uv coordinates in the unit square map into [0, w - 1] by [0, h - 1], with a zero width or height counted as 1 |
| `PolygonExtensions.TexturePoint` | lib/slicer/PolygonExtensions.js:100-103 | one uv scaled to pixel units, `uv.x * (w - 1)` and `uv.y * (h - 1)`; `TexturePointInBounds` keeps uv in the unit square inside the image |
| `PolygonExtensions.TexturePointInBounds` | lib/slicer/PolygonExtensions.js:100-103 | one uv point in the unit square maps inside the image |
| `PolygonExtensions.AsCoords` | lib/slicer/PolygonExtensions.js:114-116 | the texture triangle reaches the rasterizer as three Vector2 coordinates |
| `PolygonExtensions.TexelColor` | lib/slicer/PolygonExtensions.js:119-123 | `(r << 16) + (g << 8) + b` of the texel at `(y * width + x) * 4`, a byte outside the data reading as 0 |
| `PolygonExtensions.Sampled` | lib/slicer/PolygonExtensions.js:116-125 | the accumulator after `add(color)` for each rasterized pixel in order; `SampledIs` shows it adds one to the weight and each channel byte to its sum per pixel |
| `PolygonExtensions.SampledIs` | lib/slicer/PolygonExtensions.js:116-125 | sampling adds one to the weight per pixel and to each channel exactly the bytes read from the texture under those pixels |
| `PolygonExtensions.SampledAppend` | lib/slicer/PolygonExtensions.js:113-126 | sampling two pixel runs in a row equals sampling their concatenation |
| `PolygonExtensions.SampleTriangle` | lib/slicer/PolygonExtensions.js:114-125 | one fan triangle adds its texel for every pixel the rasterizer emits for it in texture space |
| `PolygonExtensions.SamplePixels` | lib/slicer/PolygonExtensions.js:116-125 | the callback adds `(r << 16) + (g << 8) + b` of each pixel's texel with weight 1, in order |
| `PolygonExtensions.SampleFanStep` | lib/slicer/PolygonExtensions.js:113-126 | triangle k is sampled after all triangles before it |
| `PolygonExtensions.GetColor` | lib/slicer/PolygonExtensions.js:107-128 | the result is a fresh accumulator holding every pixel of every fan triangle; with `SampledIs` its weight is the total pixel count |
| `TriangleExtensions.SpanPixels` | lib/slicer/TriangleExtensions.js:23-29 | a row emits every integer x from the smaller to the larger rounded edge position, inclusive, in increasing order, so it is never empty |
| `TriangleExtensions.FlattenStep` | lib/slicer/TriangleExtensions.js:22-32 | the pixels of the first k + 1 rows are those of the first k rows followed by row k |
| `TriangleExtensions.FlattenLength` | lib/slicer/TriangleExtensions.js:22-32 | the number of pixels a fill emits is the sum of its row widths |
| `TriangleExtensions.PrefixLength` | lib/slicer/TriangleExtensions.js:22-32 | the pixels of the first n rows number the sum of the first n row widths |
| `TriangleExtensions.BottomRow` | lib/slicer/TriangleExtensions.js:22-31 | row k of `fillBottomFlatTriangle`: y = v1.y + k between the two edges from v1 rounded as the source rounds them; `BottomRowIs` and `EdgeAtIsRounded` |
| `TriangleExtensions.BottomRows` | lib/slicer/TriangleExtensions.js:14-33 | the bottom-flat fill emits one row for each y from v1.y up to v2.y inclusive |
| `TriangleExtensions.TopRow` | lib/slicer/TriangleExtensions.js:51-64 | row k of `fillTopFlatTriangle`: y = v3.y - k between the two edges from v3; `TopRowIs` |
| `TriangleExtensions.TopRows` | lib/slicer/TriangleExtensions.js:43-66 | the top-flat fill emits one row for each y from v3.y down to v1.y, the last only when the flat line is included |
| `TriangleExtensions.RoundInteger` | lib/slicer/TriangleExtensions.js:81 | `Math.round` of an integer is that integer |
| `TriangleExtensions.RoundShift` | lib/slicer/TriangleExtensions.js:23-24 | `Math.round` commutes with adding an integer |
| `TriangleExtensions.EdgeXLinear` | lib/slicer/TriangleExtensions.js:20-31 | after k steps of `x += slope` from x0 the accumulator is exactly `x0 + k·slope` |
| `TriangleExtensions.ScaleQuotient` | lib/slicer/TriangleExtensions.js:18-19 | k times the slope `dx / dy` is `k·dx / dy` |
| `TriangleExtensions.EdgeAtIsRounded` | lib/slicer/TriangleExtensions.js:18-31 | the rounded accumulator after k rows is the integer-exact edge position `x0 + round(k·dx / dy)` |
| `TriangleExtensions.FillRow` | lib/slicer/TriangleExtensions.js:27-29 | the inner loop reports (x, y) for every x from minX to maxX in order |
| `TriangleExtensions.SpanIsRowPixels` | lib/slicer/TriangleExtensions.js:25-29 | the inner loop from the smaller to the larger rounded edge emits exactly the row's span |
| `TriangleExtensions.BottomRowIs` | lib/slicer/TriangleExtensions.js:22-31 | row k of the bottom fill lies at y = v1.y + k between the rounded loop accumulators |
| `TriangleExtensions.EmitRow` | lib/slicer/TriangleExtensions.js:22-32 | one iteration of a row loop appends exactly row k of the fill's specification |
| `TriangleExtensions.FillBottomFlatTriangle` | lib/slicer/TriangleExtensions.js:14-33 | the reported pixels are those of the bottom-flat rows, row by row |
| `TriangleExtensions.TopRowIs` | lib/slicer/TriangleExtensions.js:51-64 | row k of the top fill lies at y = v3.y - k between the rounded loop accumulators |
| `TriangleExtensions.FillTopFlatTriangle` | lib/slicer/TriangleExtensions.js:43-66 | the reported pixels are those of the top-flat rows, from v3.y downwards, including v1.y only when asked |
| `TriangleExtensions.SortOrder` | lib/slicer/TriangleExtensions.js:83-85 | the sort is a stable permutation of the three vertices that orders them by y |
| `TriangleExtensions.SortByY` | lib/slicer/TriangleExtensions.js:83-85 | the three rounded vertices in the order the `sort` by y leaves them; `SortOrder` states that order is ascending in y and a permutation |
| `TriangleExtensions.SplitVertex` | lib/slicer/TriangleExtensions.js:98-101 | `vTmp`, where the row y = v2.y meets the long edge, in integer arithmetic; `SplitVertexIsRounded` shows it equals the source's real-valued `Math.round` |
| `TriangleExtensions.SplitVertexIsRounded` | lib/slicer/TriangleExtensions.js:98-101 | the split vertex computed over reals rounds to the exact integer point where row v2.y meets the long edge |
| `TriangleExtensions.RasterizeSpec` | lib/slicer/TriangleExtensions.js:74-105 | the pixels `rasterize` reports, in callback order, or "No valid coordinate!" when a corner is neither a Vector2 nor an array; `RasterizeVectors`, `RasterizeIntegerPoints` and the `Rasterize` method are stated against it |
| `TriangleExtensions.VectorPixels` | lib/slicer/TriangleExtensions.js:80-104 | the pixels of a triangle given by three vectors: rounded, sorted by y, rows flattened; `RasterizeVectors` ties it to `RasterizeSpec` |
| `TriangleExtensions.RasterizeVectors` | lib/slicer/TriangleExtensions.js:74-105 | three Vector2 corners are rasterized from their rounded, y-sorted points |
| `TriangleExtensions.AsVector` | lib/slicer/TriangleExtensions.js:75-79 | the first map of `rasterize`: a Vector2 as it is, an array as a Vector2, anything else no coordinate |
| `TriangleExtensions.RoundedPoints` | lib/slicer/TriangleExtensions.js:75-82 | each coordinate becomes a vector with both components rounded |
| `TriangleExtensions.Rasterize` | lib/slicer/TriangleExtensions.js:74-105 | a coordinate that is neither a Vector2 nor an array is refused with the source's message; otherwise the reported pixels are the bottom-flat, top-flat or split fills of the sorted rounded vertices |
| `TriangleExtensions.FlattenAppend` | lib/slicer/TriangleExtensions.js:102-103 | the pixels of two row lists in a row are the pixels of their concatenation |
| `TriangleExtensions.RowHeights` | lib/slicer/TriangleExtensions.js:22-55 | row k of the bottom fill is at y = v1.y + k and row k of the top fill at y = v3.y - k |
| `TriangleExtensions.Rows` | lib/slicer/TriangleExtensions.js:91-104 | the rows `rasterize` fills for sorted vertices: bottom-flat, top-flat with its flat line, or both halves around `vTmp` without the shared line; `RowsCoverEachLineOnce` and `SplitRows` |
| `TriangleExtensions.RowsCoverEachLineOnce` | lib/slicer/TriangleExtensions.js:91-104 | for sorted vertices the fills emit exactly one row for every y from v1.y to v3.y: the bottom half includes the row of v2 and the top half excludes it |
| `TriangleExtensions.SplitRows` | lib/slicer/TriangleExtensions.js:96-104 | in the general case the rows go up from v1.y to v2.y, then down from v3.y to just above v2.y |
| `TriangleExtensions.FlattenMembers` | lib/slicer/TriangleExtensions.js:22-32 | a pixel is reported iff it lies in the span of one of the emitted rows |
| `TriangleExtensions.FlatLine` | lib/slicer/TriangleExtensions.js:14-32 | when all three rounded y are equal exactly one pixel is reported, the first sorted vertex, and no zero slope is divided by |
| `TriangleExtensions.RasterizeIntegerPoints` | lib/slicer/TriangleExtensions.js:74-104 | integer arrays already sorted by y are filled from the vertices themselves |
| `TriangleExtensions.FixtureTopFlat` | test/TriangleExtensionsTests.spec.js:15-22 | the triangle (0,0), (3,0), (0,3) gives 10 pixels |
| `TriangleExtensions.TopFlatWidths` | test/TriangleExtensionsTests.spec.js:15-22 | its four rows have widths summing to 10 |
| `TriangleExtensions.TopFlatRowsAre` | test/TriangleExtensionsTests.spec.js:15-22 | its rows from y = 3 down to 0 span x 0..0, 0..1, 0..2 and 0..3 |
| `TriangleExtensions.FixtureTopFlatRight` | test/TriangleExtensionsTests.spec.js:25-32 | the triangle (0,0), (3,0), (3,3) gives 10 pixels |
| `TriangleExtensions.TopFlatRightWidths` | test/TriangleExtensionsTests.spec.js:25-32 | its four rows have widths summing to 10 |
| `TriangleExtensions.TopFlatRightRowsAre` | test/TriangleExtensionsTests.spec.js:25-32 | its rows from y = 3 down to 0 span x 3..3, 2..3, 1..3 and 0..3 |
| `TriangleExtensions.FixtureSplit` | test/TriangleExtensionsTests.spec.js:35-45 | the triangle (0,0), (3,3), (0,6) gives 16 pixels, split at (0, 3) |
| `TriangleExtensions.SplitBottomWidths` | test/TriangleExtensionsTests.spec.js:35-45 | its bottom half has four rows of total width 10 |
| `TriangleExtensions.SplitBottomRowsAre` | test/TriangleExtensionsTests.spec.js:35-45 | the bottom rows y = 0..3 span x 0..0, 0..1, 0..2, 0..3 |
| `TriangleExtensions.SplitTopWidths` | test/TriangleExtensionsTests.spec.js:35-45 | its top half has three rows of total width 6 |
| `TriangleExtensions.SplitTopRowsAre` | test/TriangleExtensionsTests.spec.js:35-45 | the top rows y = 6, 5, 4 span x 0..0, 0..1, 0..2 |
| `TriangleExtensions.FixtureThin` | test/TriangleExtensionsTests.spec.js:48-57 | the triangle (0,0), (0,5), (2,5) gives 12 pixels |
| `TriangleExtensions.ThinWidths` | test/TriangleExtensionsTests.spec.js:48-57 | its six rows have widths summing to 12 |
| `TriangleExtensions.ThinRowsAre` | test/TriangleExtensionsTests.spec.js:48-57 | its rows y = 0..5 span x 0..0, 0..0, 0..1, 0..1, 0..2, 0..2 with the half-up rounding of the fractional slope |
| `Sieves.With` | lib/slicer/UnitSieve.js:137-152 | a child box corner changes only the coordinate on the split axis |
| `Sieves.GetSize` | lib/slicer/UnitSieve.js:128 | `box.getSize()` is never negative on any axis |
| `Sieves.ExtentIs` | lib/slicer/UnitSieve.js:128 | the size of an empty box (some maximum below its minimum) is 0 on every axis; otherwise each extent is `max - min` |
| `Sieves.MaxExtent` | lib/slicer/UnitSieve.js:128-129 | the largest of the three extents of `getSize()` is at least each of them and equal to one of them |
| `Sieves.Middle` | lib/slicer/UnitSieve.js:133-148 | the split coordinate `box.min[a] + Math.floor(size[a] / 2)`; `SplitShrinks` shows both halves are smaller |
| `Sieves.SplitAxis` | lib/slicer/UnitSieve.js:133-148 | the split axis has the largest extent and is the first of x, y, z that has it |
| `Sieves.AxisPlaneDistance` | lib/slicer/UnitSieve.js:89-97 | the plane `new Plane(e_a, -m)` gives a point the signed distance `p_a - m` |
| `Sieves.SplitShrinks` | lib/slicer/UnitSieve.js:133-153 | splitting at `min + floor(extent / 2)` gives a back box ending where the front box starts, each with a positive, strictly smaller extent on the split axis and the same extents elsewhere, so building terminates |
| `Sieves.Build` | lib/slicer/UnitSieve.js:127-154 | a node is a leaf iff the largest extent of `getSize()` is at most 1, so an empty box is a single leaf, and a leaf holds its own box |
| `Sieves.InvertedBoxIsLeaf` | lib/slicer/UnitSieve.js:127-131 | a box from (3, 0, 0) to (0, 4, 1) has size (0, 0, 0) and is one leaf |
| `Sieves.Tiling` | lib/slicer/UnitSieve.js:127-154 | for an integer box with every extent at least 1 the leaves are unit cubes, pairwise distinct, and the cube at c is a leaf iff c lies inside the box |
| `Sieves.LeavesAreCells` | lib/slicer/UnitSieve.js:127-154 | every leaf of such a box is a unit cube |
| `Sieves.LeavesCover` | lib/slicer/UnitSieve.js:127-154 | the cube at c is a leaf iff c lies inside the box |
| `Sieves.LeavesDistinct` | lib/slicer/UnitSieve.js:127-154 | no two leaves are the same cube |
| `Sieves.LeafIsInside` | lib/slicer/UnitSieve.js:127-154 | each leaf is the unit cube at its minimum corner, which lies inside the box |
| `Sieves.SplitInside` | lib/slicer/UnitSieve.js:137-152 | a cube of the box lies in the back child iff its coordinate is below the middle, and in the front child otherwise |
| `Sieves.SplitPlane.constructor` | lib/slicer/UnitSieve.js:97 | a new plane object records its axis and coordinate |
| `Sieves.PlaneCache.constructor` | lib/slicer/UnitSieve.js:92-94 | the three plane maps start empty |
| `Sieves.PlaneCache.LookupAxis` | lib/slicer/UnitSieve.js:95-100 | the cached plane for the coordinate, created fresh and stored on first use; every entry already cached is kept and the other axes' maps are unchanged |
| `Sieves.PlaneCache.Lookup` | lib/slicer/UnitSieve.js:101-106 | the plane for the first of x, y, z that is a number, from that axis's map; when none is, the source's error and no change |
| `Sieves.CachedInGrows` | lib/slicer/UnitSieve.js:95-100 | planes found in the cache stay there as the cache grows |
| `Sieves.CachedObjects` | lib/slicer/UnitSieve.js:95-107 | every plane object of a tree built from the cache is the cache entry for its axis and coordinate |
| `Sieves.CachedIsShared` | lib/slicer/UnitSieve.js:95-107 | identical (axis, coordinate) pairs in such a tree hold the very same plane object |
| `Sieves.BuildNode` | lib/slicer/UnitSieve.js:127-154 | the tree built with cached planes is the specified sieve tree, every plane is in the cache, and the cache only grows |
| `Sieves.BuildRoot` | lib/slicer/UnitSieve.js:88-108 | `build` gives the specified tree with equal planes shared as one object |
| `Sieves.Snap` | lib/slicer/UnitSieve.js:77-79 | `box.min.floor()` and `box.max.ceil()`; the constructor builds the sieve of this box |
| `Sieves.UnitSieve.constructor` | lib/slicer/UnitSieve.js:76-81 | the sieve is the tree of the box with its minimum floored and its maximum ceiled |
| `Sieves.Route` | lib/slicer/UnitSieve.js:31-65 | `node.add(item, callback, split)`: a leaf delivers the item with its box, a node routes each part `split` returns to the front or back child; `RouteBoxes`, `RouteFrontBack` and `MissesCell` |
| `Sieves.Forward` | lib/slicer/UnitSieve.js:32-38 | the callback of `Node.add`: each part to the front child when `isFront`, else to the back one, in order; `ForwardBoxes` and `ForwardSides` |
| `Sieves.UnitSieve.SieveWith` | lib/slicer/UnitSieve.js:117-119 | `sieveWith`: the deliveries of the root; `RouteBoxes` puts every delivered box among the leaves |
| `Sieves.RouteBoxes` | lib/slicer/UnitSieve.js:31-65 | every delivery of `add` carries one of the tree's leaf boxes |
| `Sieves.ForwardBoxes` | lib/slicer/UnitSieve.js:32-38 | every delivery of a node's split callback carries one of that node's leaf boxes |
| `Sieves.ForwardSides` | lib/slicer/UnitSieve.js:32-38 | a delivery reaching a back leaf came from a part split reported with isFront false, and one reaching a front leaf from a part with isFront true |
| `Sieves.TwoByTwoTree` | lib/slicer/UnitSieve.js:127-154 | the 2×2×1 box splits at x = 1 and then at y = 1 on both sides |
| `Sieves.Column` | lib/slicer/UnitSieve.js:140-146 | a one-by-two column splits at y = 1 into two unit cubes |
| `Sieves.LeavesInside` | lib/slicer/UnitSieve.js:127-154 | every leaf of a solid box lies inside it |
| `Sieves.CornersAgainstX` | test/UnitSieveTests.spec.js:34-38 | against x = 1 the fixture triangle's first corner is behind and the other two in front |
| `Sieves.TypesOfThree` | lib/slicer/PolygonExtensions.js:31-40 | the classes of three points, in order |
| `Sieves.BackPieces` | lib/slicer/PolygonExtensions.js:56-74 | the back fragment of a Back, Front, Front triangle is its first point and the cuts of its first and last edges |
| `Sieves.HalfwayCut` | lib/slicer/PolygonExtensions.js:69-70 | x = 1 cuts an edge from x = 0 to x = 2 halfway up |
| `Sieves.SplitPolygon` | lib/slicer/Voxelifier.js:87-91 | `PolygonExtensions.split` as the split function the sieve is given; `SplitOneBehind`, `FirstCut` and `LastCut` state what it returns for the fixture |
| `Sieves.SplitOneBehind` | lib/slicer/PolygonExtensions.js:53-80 | a triangle with one point behind and two in front splits into a front and then a back fragment |
| `Sieves.FragmentOneBehind` | lib/slicer/PolygonExtensions.js:56-74 | that back fragment is the first point followed by the two cuts |
| `Sieves.FirstCut` | test/UnitSieveTests.spec.js:34-38 | the fixture's first edge is cut by x = 1 at height 0 |
| `Sieves.LastCut` | test/UnitSieveTests.spec.js:34-38 | the fixture's last edge is cut by x = 1 at height 1 |
| `Sieves.CutAtX` | test/UnitSieveTests.spec.js:34-39 | against x = 1 the fixture gives a front part and a back triangle at heights 0, 0 and 1 |
| `Sieves.BehindY` | lib/slicer/PolygonExtensions.js:43-52 | a triangle at heights 0, 0, 1 goes back whole against y = 1 |
| `Sieves.FrontThenBack` | lib/slicer/PolygonExtensions.js:75-80 | two parts, the first in front and the second behind, as a list |
| `Sieves.RouteFrontBack` | lib/slicer/UnitSieve.js:31-39 | a node whose split gives a front and a back part routes each to its own side, front first |
| `Sieves.RouteBehind` | lib/slicer/UnitSieve.js:31-39 | a node passing the item whole to a back leaf delivers it there with that leaf's box |
| `Sieves.RouteFrontBackLeaf` | lib/slicer/UnitSieve.js:31-39 | in such a tree every delivery comes from the front side or is the back part at the back leaf |
| `Sieves.MissesCell` | lib/slicer/UnitSieve.js:31-65 | a cell that is none of the reachable leaves receives nothing |
| `Sieves.TwoLeaves` | lib/slicer/UnitSieve.js:127-154 | the leaves of a node over two leaves, back first |
| `Sieves.FixtureParts` | test/UnitSieveTests.spec.js:34-39 | the fixture splits at x = 1 into a front part and a back part that y = 1 passes back whole |
| `Sieves.FixtureRoute` | test/UnitSieveTests.spec.js:26-44 | routed through the written-out 2×2×1 tree the fixture delivers nothing to the cell with min (0, 1) |
| `Sieves.TwoByTwoSieve` | test/UnitSieveTests.spec.js:26-44 | in the 2×2×1 sieve the triangle (0,0,0), (2,0,0), (2,2,0) delivers no fragment to the leaf with min (0, 1) |
| `ColorGrids.StepIsAdjacent` | lib/slicer/WeightedColorGrid.js:8-15 | each of the six flood directions leads to a face neighbour |
| `ColorGrids.AdjacentIsStep` | lib/slicer/WeightedColorGrid.js:8-15 | every face neighbour is reached by one of the six directions |
| `ColorGrids.EncodeIndex` | lib/slicer/WeightedColorGrid.js:48-51 | for offsets inside the box, `dx + dy·(sx·sz) + dz·sx` lies in [0, sx·sy·sz) and its quotients and remainders give back the offsets |
| `ColorGrids.MulMono` | lib/slicer/WeightedColorGrid.js:48-51 | multiplying by a non-negative factor keeps an inequality |
| `ColorGrids.DecodeIndex` | lib/slicer/WeightedColorGrid.js:59-67 | every index below `sx·sy·sz` decodes to offsets inside the box whose index it is |
| `ColorGrids.PositiveFactors` | lib/slicer/WeightedColorGrid.js:32 | a positive product of two non-negative sizes has positive factors |
| `ColorGrids.QuotientBelow` | lib/slicer/WeightedColorGrid.js:64 | `floor(i / d)` is below n for `0 <= i < n·d` |
| `ColorGrids.ProductNonneg` | lib/slicer/WeightedColorGrid.js:32 | the cell count of non-negative sizes is non-negative |
| `ColorGrids.WeightedColorGrid.constructor` | lib/slicer/WeightedColorGrid.js:26-38 | the box is floored and ceiled, the stored maximum is inclusive (the ceiled maximum minus one), and every one of the `size.x·size.y·size.z` cells is a copy of the initial colour, a fresh WeightedColor when none is given |
| `ColorGrids.WeightedColorGrid.IndexOf` | lib/slicer/WeightedColorGrid.js:45-52 | the index formula of `$getIndex`: x, then z rows of `size.x`, then y layers; `IndexRoundTrip` and `CoordinatesRoundTrip` show it inverts `Coordinates` on the grid |
| `ColorGrids.WeightedColorGrid.Coordinates` | lib/slicer/WeightedColorGrid.js:59-67 | `$getCoordinates`: the point an index addresses; `IndexRoundTrip` and `CoordinatesRoundTrip` |
| `ColorGrids.WeightedColorGrid.IndexRoundTrip` | lib/slicer/WeightedColorGrid.js:45-67 | the index of a point inside the grid addresses a cell, and `$getCoordinates` maps it back to the point |
| `ColorGrids.WeightedColorGrid.CoordinatesRoundTrip` | lib/slicer/WeightedColorGrid.js:45-67 | every cell index decodes to a point inside the grid whose index it is, so the index formula is a bijection |
| `ColorGrids.WeightedColorGrid.GetIndex` | lib/slicer/WeightedColorGrid.js:45-52 | non-integer coordinates are refused first, then points outside the inclusive bounds, each with the source's message; otherwise the index addresses a cell that decodes to the point |
| `ColorGrids.WeightedColorGrid.Get` | lib/slicer/WeightedColorGrid.js:90-93 | the cell under the point, or the index error |
| `ColorGrids.WeightedColorGrid.Add` | lib/slicer/WeightedColorGrid.js:75-83 | on a valid point exactly that cell changes: a null cell is replaced by a fresh colour first, then the colour is added; on an invalid point the error and no change |
| `ColorGrids.WeightedColorGrid.Reachable` | lib/slicer/WeightedColorGrid.js:100-117 | a cell is reached from the seed by a path of in-bounds null neighbours, the cells `floodDelete` visits; `Flooded` nulls exactly those |
| `ColorGrids.WeightedColorGrid.Flooded` | lib/slicer/WeightedColorGrid.js:100-117 | the cells after a fill from the seed, as many as before |
| `ColorGrids.WeightedColorGrid.PushedAreNeighbours` | lib/slicer/WeightedColorGrid.js:110-115 | what the fill pushes are in-bounds face neighbours of the point |
| `ColorGrids.WeightedColorGrid.NeighboursArePushed` | lib/slicer/WeightedColorGrid.js:110-115 | every in-bounds neighbour along a direction is pushed |
| `ColorGrids.WeightedColorGrid.PushNeighbours` | lib/slicer/WeightedColorGrid.js:110-115 | the queue gains the in-bounds neighbours in direction order |
| `ColorGrids.WeightedColorGrid.Pop` | lib/slicer/WeightedColorGrid.js:103 | `pop` takes the last queue element |
| `ColorGrids.WeightedColorGrid.RemoveShrinks` | lib/slicer/WeightedColorGrid.js:109 | nulling a blank cell shrinks the set of blank cells left, so the loop terminates |
| `ColorGrids.WeightedColorGrid.ClosedAfterPop` | lib/slicer/WeightedColorGrid.js:103-108 | skipping a popped null or weighted cell keeps every removed cell's blank neighbours removed or queued |
| `ColorGrids.WeightedColorGrid.ClosedAfterRemove` | lib/slicer/WeightedColorGrid.js:109-115 | nulling a popped cell and pushing its neighbours keeps that closure |
| `ColorGrids.WeightedColorGrid.ExtendPath` | lib/slicer/WeightedColorGrid.js:109-115 | a blank neighbour of a reached cell is reached |
| `ColorGrids.WeightedColorGrid.WalkRemoved` | lib/slicer/WeightedColorGrid.js:100-117 | once the queue is empty every blank walk from the seed stays among the removed cells |
| `ColorGrids.WeightedColorGrid.FrontierStart` | lib/slicer/WeightedColorGrid.js:101 | the loop starts with nothing removed and the seed queued |
| `ColorGrids.WeightedColorGrid.FrontierSkip` | lib/slicer/WeightedColorGrid.js:106-108 | skipping a popped cell keeps the loop invariant |
| `ColorGrids.WeightedColorGrid.FrontierRemove` | lib/slicer/WeightedColorGrid.js:109-115 | removing a popped blank cell and pushing its neighbours keeps the loop invariant |
| `ColorGrids.WeightedColorGrid.Cleared` | lib/slicer/WeightedColorGrid.js:109 | nulling the removed cells keeps the array's length |
| `ColorGrids.WeightedColorGrid.ClearOne` | lib/slicer/WeightedColorGrid.js:109 | nulling one more cell is clearing one more index |
| `ColorGrids.WeightedColorGrid.FrontierDone` | lib/slicer/WeightedColorGrid.js:102-117 | when the queue is empty the removed cells are exactly those reachable from the seed |
| `ColorGrids.WeightedColorGrid.FloodDelete` | lib/slicer/WeightedColorGrid.js:100-117 | a seed refused by `$getIndex` gives that error and no change; otherwise the nulled cells are exactly the present cells with no positive weight reachable from the seed through face neighbours of such cells inside the grid |
| `ColorGrids.WeightedColorGrid.Flood` | lib/slicer/WeightedColorGrid.js:101-116 | the stack loop leaves exactly the flooded cells |
| `ColorGrids.WeightedColorGrid.ReachedIsBlank` | lib/slicer/WeightedColorGrid.js:106-109 | a reached cell is present and has no positive weight |
| `ColorGrids.WeightedColorGrid.FloodOnlyClearsBlank` | lib/slicer/WeightedColorGrid.js:106-109 | the fill only turns blank cells into null; cells with weight and all other cells are unchanged |
| `ColorGrids.WeightedColorGrid.SeedReached` | lib/slicer/WeightedColorGrid.js:101-109 | a blank seed is removed |
| `ColorGrids.WeightedColorGrid.FloodTwice` | lib/slicer/WeightedColorGrid.js:104-109 | a second fill from the same seed changes nothing, since the null seed is skipped |
| `ColorGrids.WeightedColorGrid.ForEach` | lib/slicer/WeightedColorGrid.js:124-131 | the callback receives the present cells in index order with their decoded coordinates |
| `ColorGrids.WeightedColorGrid.VisitsArePresent` | lib/slicer/WeightedColorGrid.js:125-129 | every visit is a present cell, the colour stored at the visited point |
| `ColorGrids.WeightedColorGrid.PresentAreVisited` | lib/slicer/WeightedColorGrid.js:125-129 | every present cell is visited |
| `ColorGrids.WeightedColorGrid.VisitsInIndexOrder` | lib/slicer/WeightedColorGrid.js:125 | the visits follow strictly increasing indices |
| `GridExport.Ys` | lib/slicer/exportGridContainer.js:23-35 | the y coordinates in order of first visit, the order in which `layers` gains its keys; `YsExactly` and `YsDistinct` |
| `GridExport.YsExactly` | lib/slicer/exportGridContainer.js:23-35 | a y gets a layer exactly when some visited cell has that y |
| `GridExport.YsDistinct` | lib/slicer/exportGridContainer.js:23-35 | no y gets two layers |
| `GridExport.IndexIn` | lib/slicer/exportGridContainer.js:29 | the position found holds the value looked for |
| `GridExport.IdOf` | lib/slicer/exportGridContainer.js:29 | the id `addSprite` gives the layer y: its position among the first visits of the layers; `IdsNumberLayers` |
| `GridExport.IdsNumberLayers` | lib/slicer/exportGridContainer.js:29 | sprite ids count the layers from 0 in order of first appearance, below the number of layers, one id per layer |
| `GridExport.LayerMinIsLeast` | lib/slicer/exportGridContainer.js:23-34 | the running `minX`/`minZ` of a layer is attained by one of its cells and is at most every cell's x (z) |
| `GridExport.Borders` | lib/slicer/exportGridContainer.js:41-48 | the running `minY` never exceeds `maxY` |
| `GridExport.BordersAreExtremes` | lib/slicer/exportGridContainer.js:41-48 | `minY` and `maxY` are the y of visited cells, and every visited y lies between them |
| `GridExport.Extend` | lib/slicer/exportGridContainer.js:21-49 | one more visit adds its layer when new (with the next id), keeps every earlier id, lowers the minima of its layer only, writes its pixel into its layer's tiles only, and widens the borders to its y |
| `GridExport.YsStep` | lib/slicer/exportGridContainer.js:23-35 | one more visit adds its y to the layers exactly when it is new |
| `GridExport.BordersStep` | lib/slicer/exportGridContainer.js:41-48 | one more visit moves the borders to the minimum and maximum with its y |
| `GridExport.AllFitStep` | lib/slicer/exportGridContainer.js:39 | the visits after one more are all writable exactly when the earlier ones are and the new cell's x and z are |
| `GridExport.AllFitPrefix` | lib/slicer/exportGridContainer.js:39 | if all visits are writable then so is every prefix |
| `GridExport.PixelValue` | lib/slicer/exportGridContainer.js:36-38 | the pixel written for a cell: its colour value, or `0x80000000` at weight 0; `LayerPixels` |
| `GridExport.LayerPixels` | lib/slicer/exportGridContainer.js:36-39 | every visited cell reads back from its layer's tiles at (x, z) as its colour value, or `0x80000000` when its weight is 0 |
| `GridExport.LayerTilesCounted` | lib/slicer/exportGridContainer.js:39 | every tile a layer's sprite gets keeps its non-null counter equal to its number of non-null pixels |
| `GridExport.GridVisitsDistinct` | lib/slicer/exportGridContainer.js:21 | the grid hands out each coordinate triple at most once |
| `GridExport.LayerTilesAbsent` | lib/slicer/exportGridContainer.js:28-35 | a y no cell has gets no tiles |
| `GridExport.TilesOfStep` | lib/slicer/exportGridContainer.js:39 | one more visit changes the tiles of its own layer only, by one pixel write |
| `GridExport.MinimaStep` | lib/slicer/exportGridContainer.js:23-35 | updating or creating the layer of one more visit keeps the layer map equal to the visited layers with their least x and z |
| `GridExport.UpdatedSprites` | lib/slicer/exportGridContainer.js:23-35 | a visit adds at most the one new sprite to the layers, and none when its layer exists |
| `GridExport.BuiltHolds` | lib/slicer/exportGridContainer.js:21-49 | after the visits, the container holds exactly one sprite per layer, sprite k holding every cell of the k-th layer to appear |
| `GridExport.Locate` | lib/slicer/exportGridContainer.js:22-35 | the layer of the cell is found or created with a fresh empty sprite from `addSprite`, and its minima are lowered to the cell |
| `GridExport.Paint` | lib/slicer/exportGridContainer.js:36-39 | the cell's value is written at (x, z) into its layer's sprite and no other sprite changes; a cell the sprite refuses fails with the sprite's error |
| `GridExport.Place` | lib/slicer/exportGridContainer.js:22-39 | one callback: layer located, pixel written; it fails exactly when x or z cannot be written |
| `GridExport.Advance` | lib/slicer/exportGridContainer.js:21-49 | the export state of the visits so far becomes that of one more visit, with only fresh sprites added |
| `GridExport.Fill` | lib/slicer/exportGridContainer.js:21-49 | the whole visiting pass fails exactly when some cell cannot be written; otherwise the container holds the layered sprites, `initialized` says a cell was visited, and the borders are the least and greatest y |
| `GridExport.Entry` | lib/slicer/exportGridContainer.js:60-69 | one entry of `model.layers`: the layer's sprite id and its least x and z, or null; `LayerEntryMeaning` |
| `GridExport.LayerEntries` | lib/slicer/exportGridContainer.js:59-70 | `model.layers` from the greatest y down to the least; `LayerEntryMeaning` |
| `GridExport.ModelJson` | lib/slicer/exportGridContainer.js:55-70 | the `model` meta object, format `grid-1.0.0` and the layers; `ToGridContainer` sets it as the only meta object and `Formats.GridIdParses` parses its format |
| `GridExport.Describe` | lib/slicer/exportGridContainer.js:59-70 | `model.layers` lists every y from `maxY` down to `minY`, with the layer's sprite id and least x and z, or null |
| `GridExport.LayerEntryMeaning` | lib/slicer/exportGridContainer.js:59-70 | `model.layers` has `maxY - minY + 1` entries; entry i is null exactly when no cell has y `maxY - i`, and otherwise carries that layer's sprite id and its least x and z |
| `GridExport.ToGridContainer` | lib/slicer/exportGridContainer.js:11-75 | an empty grid is refused with "Color grid did not seem to have color information!", a cell no sprite accepts fails with the sprite's error, and otherwise a new container holds one sprite per layer and the `grid-1.0.0` model |
| `Tiles.CheckBounds` | lib/formats/Tile.js:33-37 | a coordinate passes exactly when it lies in 0..15, and is otherwise refused with "Coordinate is out of tile bounds." |
| `Tiles.CheckColor` | lib/formats/Tile.js:65-69 | a colour passes exactly when it is an integer or null, and is otherwise refused with "Only integers and null are allowed!" |
| `Tiles.GetIndex` | lib/formats/Tile.js:107-111 | the index exists exactly for coordinates in 0..15, lies in 0..255, and gives back x as its remainder and y as its quotient by 16 |
| `Tiles.Zeros` | lib/formats/Tile.js:10-16 | a new tile has 256 entries, every one 0 |
| `Tiles.NonNull` | lib/formats/Tile.js:79-89 | the number of non-null entries is at most the number of entries |
| `Tiles.PixelAt` | lib/formats/Tile.js:54-57 | `getPixel` fails exactly where `getIndex` does, and otherwise returns the entry at `x + 16·y` |
| `Tiles.Put` | lib/formats/Tile.js:82-88 | the entry set to the colour and the counter moved as `setPixel` moves it; `NonNullUpdate` keeps the counter equal to the non-null entries |
| `Tiles.NonNullUpdate` | lib/formats/Tile.js:82-88 | replacing one entry changes the non-null count by minus one for a lost non-null and plus one for a new non-null |
| `Tiles.NonNullAll` | lib/formats/Tile.js:22-24 | the non-null count equals the length exactly when no entry is null |
| `Tiles.FreshCounted` | lib/formats/Tile.js:10-16 | a new tile's counter is its non-null count minus 256 |
| `Tiles.Write` | lib/formats/Tile.js:79-89 | `setPixel` on a tile state: an invalid colour or out-of-range coordinates are refused with the state unchanged, otherwise `Put` at `x + 16 * y`; `WriteKeepsCounted`, `ReadAfterWrite` and `FirstWriteNotCounted` |
| `Tiles.WriteKeepsCounted` | lib/formats/Tile.js:79-89 | `setPixel`, refused or not, keeps the counter equal to the non-null count minus 256 |
| `Tiles.ReadAfterWrite` | lib/formats/Tile.js:79-89 | `setPixel` is refused for a non-integer colour, then for a coordinate outside 0..15, leaving the tile unchanged; otherwise the pixel reads back as the colour (or null) and every other pixel as before |
| `Tiles.EmptyMeansNoNull` | lib/formats/Tile.js:22-24 | under the counter invariant, `isEmpty` holds exactly when no entry is null |
| `Tiles.FirstWriteNotCounted` | lib/formats/Tile.js:82-88 | a colour written into a new tile stores it and leaves the counter at 0, because the entries start as 0 rather than null |
| `Tiles.Pixels` | lib/formats/Tile.js:96-102 | the visits of `forEachPixel`: colour, `index % 16` and `floor(index / 16)` of every non-null entry in index order; `PixelsExactly` |
| `Tiles.PixelsExactly` | lib/formats/Tile.js:96-102 | the visits of `forEachPixel` are exactly the non-null entries, each with its colour, `index % 16` and `index / 16` |
| `Tiles.Tile.constructor` | lib/formats/Tile.js:10-16 | 256 zero entries, a zero counter, the counter invariant |
| `Tiles.Tile.IsEmpty` | lib/formats/Tile.js:22-24 | the getter holds exactly when no entry of the array is null |
| `Tiles.Tile.GetPixel` | lib/formats/Tile.js:54-57 | the result is `PixelAt` of the tile's state |
| `Tiles.Tile.SetPixel` | lib/formats/Tile.js:79-89 | outcome and new array and counter are those of `Write` on the old state, and the counter invariant is kept |
| `Tiles.Tile.ForEachPixel` | lib/formats/Tile.js:96-102 | the visits are the non-null entries in index order, with colour and coordinates |
| `Sprites.CheckId` | lib/formats/Sprite.js:14-16 | the id passes exactly when it is a number with an integer value, and is otherwise refused with "`id` must be an integer!" |
| `Sprites.TileAtCounted` | lib/formats/Sprite.js:71-79 | the tile `setPixel` writes into, stored or freshly created, keeps the tile counter invariant |
| `Sprites.FitsSplit` | lib/formats/Sprite.js:64-80 | a coordinate whose JavaScript remainder by 16 is not negative is its tile index times 16 plus that remainder, which lies in 0..15 |
| `Sprites.StoreKeepsCounted` | lib/formats/Sprite.js:69-79 | storing a counted tile keeps every tile of the sprite counted |
| `Sprites.PutPixel` | lib/formats/Sprite.js:62-81 | `setPixel` on the tiles: an invalid colour refused first; a null colour where the column or tile is missing changes nothing; otherwise the missing column and tile are created and kept even when the tile refuses the coordinates; `PutOtherTile`, `PutSameTile`, `GetAfterSet` and `SetKeepsOthers` |
| `Sprites.PutKeepsCounted` | lib/formats/Sprite.js:62-81 | `setPixel` keeps every tile of the sprite counted |
| `Sprites.TileOf` | lib/formats/Sprite.js:43-46 | `Math.floor(n / Tile.SIZE)`: the tile holding coordinate n, also for negative n |
| `Sprites.InTile` | lib/formats/Sprite.js:49 | `n % Tile.SIZE` with JavaScript's truncating remainder, negative for negative n; `NegativeRefused` |
| `Sprites.GetAfterSet` | lib/formats/Sprite.js:42-81 | at coordinates whose remainder by 16 is not negative, `setPixel` of an integer or null succeeds and `getPixel` there returns it |
| `Sprites.PutOtherTile` | lib/formats/Sprite.js:62-81 | `setPixel` creates or changes no tile but the one holding (x, y) |
| `Sprites.PutSameTile` | lib/formats/Sprite.js:62-81 | a null written where the tile is missing changes nothing; otherwise the tile of (x, y) exists afterwards and is the tile's `setPixel` applied to the stored or fresh tile |
| `Sprites.SetKeepsOthers` | lib/formats/Sprite.js:42-81 | every other pixel reads as before, except that a colour written into a missing tile creates it, so that its other pixels read 0 instead of null |
| `Sprites.NegativeRefused` | lib/formats/Sprite.js:80 | a negative coordinate that is not a multiple of 16 gives a negative in-tile coordinate and is refused with the tile's bounds error |
| `Sprites.IntegerOutcome` | lib/formats/Sprite.js:62-81 | an integer colour is stored exactly when both coordinates have a non-negative remainder by 16, and is otherwise refused with the bounds error |
| `Sprites.NullCreatesNothing` | lib/formats/Sprite.js:64-78 | clearing a pixel whose column or tile is missing succeeds and leaves the tiles as they were |
| `Sprites.PixelSet` | lib/formats/Sprite.js:88-98 | the visits of `forEachPixel`: each non-null tile entry with the tile's offset added; `PixelSetSound`, `PixelSetComplete` and `PixelSetExactly` |
| `Sprites.PixelSetSound` | lib/formats/Sprite.js:88-98 | every (colour, x, y) that `forEachPixel` reports is a non-null entry of the tile holding (x, y) |
| `Sprites.PixelSetComplete` | lib/formats/Sprite.js:88-98 | every non-null entry of every tile is reported, at its absolute coordinates |
| `Sprites.PixelSetExactly` | lib/formats/Sprite.js:88-98 | `forEachPixel` reports a colour at (x, y) exactly when the tile holding (x, y) exists and holds that colour there |
| `Sprites.Sprite.constructor` | lib/formats/Sprite.js:13-19 | the sprite keeps its id and starts without tiles |
| `Sprites.Sprite.IsEmpty` | lib/formats/Sprite.js:24-26 | the getter holds exactly when there is no tile column, and then every pixel reads as null |
| `Sprites.Sprite.Clear` | lib/formats/Sprite.js:32-34 | all tiles are dropped and the sprite is empty |
| `Sprites.Sprite.GetPixel` | lib/formats/Sprite.js:42-53 | the result is null where the column or the tile is missing, and otherwise the tile's `getPixel` at the JavaScript remainders by 16 |
| `Sprites.Sprite.SetPixel` | lib/formats/Sprite.js:62-81 | outcome and new tiles are those of `PutPixel` on the old tiles, and every tile stays counted |
| `Containers.AllocationKeepsBound` | lib/formats/Container.js:30-41 | every sprite id stays below the counter, the counter never decreases, and an id taken from the counter is never one in use |
| `Containers.Container.constructor` | lib/formats/Container.js:19-23 | no sprites, no meta objects, the counter at 0 |
| `Containers.Container.AddSprite` | lib/formats/Container.js:30-41 | a fresh empty sprite is stored under the given id (raising the counter past it) or under the counter (incrementing it), replacing only that id; the meta objects are kept |
| `Containers.Container.GetSprite` | lib/formats/Container.js:48-52 | the sprite stored under the id, whose own id it is, or null exactly when there is none |
| `Containers.Container.RemoveSprite` | lib/formats/Container.js:59-61 | only that id is dropped; meta objects and counter are kept |
| `Containers.Container.GetMetaObject` | lib/formats/Container.js:77-81 | the meta object under the key, or null exactly when there is none |
| `Containers.Container.SetMetaObject` | lib/formats/Container.js:89-91 | the key now holds the value; sprites, counter and other keys are kept |
| `Containers.Container.RemoveMetaObject` | lib/formats/Container.js:98-100 | only that key is dropped and reads as null; sprites and counter are kept |
| `Containers.Container.Clear` | lib/formats/Container.js:115-118 | sprites and meta objects are emptied; the counter keeps its value |
| `SpriteIdValidation.Collect` | lib/formats/spriteId.validator.js:14-17 | the query `$..spriteId`: an object's own `spriteId` first, then the matches in its member values, an array's matches item by item; `ChildContained` and `Nested` |
| `SpriteIdValidation.ChildContained` | lib/formats/spriteId.validator.js:14-17 | the matches inside a member or item are among the matches collected from any earlier position of the same object or array |
| `SpriteIdValidation.Nested` | lib/formats/spriteId.validator.js:14-17 | `$..spriteId` finds an object's own `spriteId` first and every match at any depth inside its members or items |
| `SpriteIdValidation.FirstMissing` | lib/formats/spriteId.validator.js:18-22 | nothing is reported exactly when every reference names a sprite; otherwise the report is the first reference that names none |
| `SpriteIdValidation.FirstUnnecessary` | lib/formats/spriteId.validator.js:23-27 | nothing is reported exactly when every sprite is referenced; otherwise the report is the first sprite, in visiting order, that no reference names |
| `SpriteIdValidation.Validate` | lib/formats/spriteId.validator.js:12-28 | the verdict: no model or a falsy one throws; else the first referenced id without a sprite; else the first sprite no reference names, in `forEachSprite` order; else accepted; `AcceptedExactly` and `SameIds` |
| `SpriteIdValidation.Validator` | lib/formats/spriteId.validator.js:12-28 | the validator on a container is its verdict on the container's model meta object and sprite ids |
| `SpriteIdValidation.AcceptedExactly` | lib/formats/spriteId.validator.js:12-28 | the validator accepts exactly when there is a model, every reference names a sprite and every sprite is referenced; a missing-sprite refusal names a reference that names no sprite, and an unnecessary-sprite refusal names an unreferenced sprite after all references were found |
| `SpriteIdValidation.SameIds` | lib/formats/spriteId.validator.js:12-28 | when all references are integers, the validator accepts exactly when the referenced ids are the container's sprite ids |
| `SpriteIdValidation.AcceptsNestedReferences` | test/FormatTests.spec.js:59-69 | a model referencing the only sprite at the top and one level down is accepted |
| `SpriteIdValidation.RefusesMissingSprite` | test/FormatTests.spec.js:71-77 | a reference to sprite 123 in an empty container is reported as a missing sprite |
| `SpriteIdValidation.RefusesWithoutModel` | test/FormatTests.spec.js:79-83 | a container with a sprite and no model is refused |
| `Formats.Newer` | lib/formats/index.js:194 | `semver.gt` on `X.Y.Z`: major, then minor, then patch, numerically; `NewerIsStrictTotal` |
| `Formats.NewerIsStrictTotal` | lib/formats/index.js:194 | version precedence (`semver.gt` on `X.Y.Z`) is irreflexive, transitive and total on distinct versions |
| `Formats.Find` | lib/formats/index.js:37 | the position found holds the character and no earlier one does; none is found exactly when the character does not occur |
| `Formats.Decimal` | lib/formats/index.js:37 | the decimal text of a number is a non-empty digit string |
| `Formats.DecimalValue` | lib/formats/index.js:37 | the decimal text of a number reads back as that number |
| `Formats.ParseVersion` | lib/formats/index.js:37 | a version is read exactly from the texts split into three digit groups |
| `Formats.SplitAtFirst` | lib/formats/index.js:37 | splitting at the first separator gives back a first part free of it and the rest |
| `Formats.SplitAtDot` | lib/formats/index.js:37 | splitting digits, a dot and a rest at the first dot gives back the digits and the rest |
| `Formats.VersionParts` | lib/formats/index.js:37 | the three parts of the version group, split at the first two dots; `VersionPartsExactly` and `VersionPartsSound` |
| `Formats.VersionPartsExactly` | lib/formats/index.js:37 | a text matches `\d+\.\d+\.\d+` with groups a, b, c exactly when the splitter returns a, b, c |
| `Formats.VersionRoundTrip` | lib/formats/index.js:37 | the `X.Y.Z` text of a version reads back as that version |
| `Formats.ParseFormatId` | lib/formats/index.js:37 | `formatPattern.exec`: the name and version groups, split at the first `-`, or no match; `FormatIdExactly`, `FormatIdSound`, `FormatIdComplete` and `FormatIdRoundTrip` relate it to the pattern |
| `Formats.FormatIdExactly` | lib/formats/index.js:37 | the format id parser returns name and version exactly when the text is `name-version` with a name of `[a-z_]+` and a version of `\d+\.\d+\.\d+` |
| `Formats.FormatIdComplete` | lib/formats/index.js:37 | every text of the format id grammar is parsed into its own name and version |
| `Formats.FormatIdSound` | lib/formats/index.js:37 | everything the parser accepts is in the grammar, with the groups it returns |
| `Formats.VersionPartsSound` | lib/formats/index.js:37 | what the version splitter accepts follows `\d+\.\d+\.\d+` |
| `Formats.FormatIdRoundTrip` | lib/formats/index.js:37 | a format id built from a valid name and a version parses back to them |
| `Formats.MatchText` | lib/formats/index.js:134 | the text `exec` sees for a `format` value: a string itself, a one-element array its element's text, anything else a text the pattern cannot match; `GetFormatVersion` |
| `Formats.GetFormatVersion` | lib/formats/index.js:125-144 | a result is returned only for a model whose `format` matches the grammar, with its name and a readable version |
| `Formats.FormatVersionErrors` | lib/formats/index.js:125-144 | the errors come in order: "Meta object 'model' required!" exactly when the model is absent or null, then "`format` attribute required!" exactly when `format` is missing or falsy, then "Wrong syntax for `format` attribute" exactly when it is outside the grammar |
| `Formats.RunAll` | lib/formats/index.js:168 | the validators pass exactly when each passes, and otherwise the error is that of the first to throw |
| `Formats.RunAllConcat` | lib/formats/index.js:167-168 | running concatenated lists runs the second only when the first passed |
| `Formats.Lookup` | lib/formats/index.js:152-166 | the lookups of `checkContainer`: the format version read, then an unknown format and then an unknown version refused, else the version entry; `LookupOrder` |
| `Formats.LookupOrder` | lib/formats/index.js:152-166 | lookup errors come in order: those of the format version, then "Unknown format", then "Unknown format version"; otherwise the entries of that format and version are found |
| `Formats.CheckContainer` | lib/formats/index.js:152-169 | intended (see Findings index.js:167): the lookups, then the root, format and version validators run in that order; `CheckOrder` |
| `Formats.CheckOrder` | lib/formats/index.js:152-169 | intended (see Findings index.js:167): `checkContainer` fails with the lookup error first, then with the first failing root validator, format validator, version validator, in that order, and passes only when all pass |
| `Formats.CheckContainerAsWritten` | lib/formats/index.js:152-169 | as written (see Findings index.js:167): past the lookups, `Array.concat` throws; `CheckAsWrittenNeverPasses` and `ConcatCounterexample` |
| `Formats.CheckAsWrittenNeverPasses` | lib/formats/index.js:167 | as written, `checkContainer` throws for every container: a lookup error, or else the `Array.concat` TypeError |
| `Formats.ConcatCounterexample` | lib/formats/index.js:167 | a `grid-1.0.0` container in a registry without validators passes the intended check and fails the written one |
| `Formats.GridFormatVersion` | lib/formats/index.js:125-144 | the model `{format: 'grid-1.0.0'}` has format `grid` and version `1.0.0` |
| `Formats.GridIdParses` | lib/formats/index.js:37 | `grid-1.0.0` parses into `grid` and `1.0.0` |
| `Formats.NewestUnique` | lib/formats/index.js:191-198 | at most one migrator key is the newest one newer than the version, whatever the order of the entries |
| `Formats.FindNewest` | lib/formats/index.js:191-198 | no migrator is chosen exactly when none is newer than the container's version; otherwise the chosen one is newer and no key is newer than it |
| `Formats.Migrate` | lib/formats/index.js:202-204 | intended (see Findings index.js:167; as written every migrated container is refused by the throwing check): a migrated container is returned exactly when it passes `checkContainer`, and otherwise the check's error is thrown |
| `Formats.UpgradeFound` | lib/formats/index.js:189-204 | intended (see Findings index.js:167): without a newer migrator the container itself is returned; otherwise the result is that of the newest migrator, checked |
| `Formats.Upgrade` | lib/formats/index.js:176-205 | intended (see Findings index.js:167): lookup errors throw, except an unknown version, which is returned as an `Error` value; otherwise the container itself or the checked result of the newest migrator |
| `VoxelModels.Visible` | lib/models/VoxelModel.js:20-23 | a stored 0 reads as null and every other colour as itself |
| `VoxelModels.Blank` | lib/models/VoxelModel.js:4-10 | a new tile's 256 colours are all 0 |
| `VoxelModels.Filled` | lib/models/VoxelModel.js:34-38 | the number of non-zero colours is at most the number of entries |
| `VoxelModels.FilledUpdate` | lib/models/VoxelModel.js:33-39 | replacing one colour changes the non-zero count by minus one for a lost colour and plus one for a new one, as the counter is adjusted |
| `VoxelModels.NoneFilled` | lib/models/VoxelModel.js:11-13 | the non-zero count is 0 exactly when every colour is 0 |
| `VoxelModels.TileRead` | lib/models/VoxelModel.js:14-27 | reading fails with "Coordinate is out of tile bounds." exactly outside 0..15, and otherwise gives the entry at `x + 16·z`, 0 as null |
| `VoxelModels.TileWrite` | lib/models/VoxelModel.js:28-40 | writing fails with the bounds error exactly outside 0..15 |
| `VoxelModels.TileReadAfterWrite` | lib/models/VoxelModel.js:14-40 | after a write, the written coordinates read the colour (null for 0 or null) and all others read as before |
| `VoxelModels.Store` | lib/models/VoxelModel.js:85-94 | after storing, the column and the tile exist and hold the stored tile |
| `VoxelModels.StoreSame` | lib/models/VoxelModel.js:96-98 | storing the tile a place already holds changes nothing |
| `VoxelModels.LayerRead` | lib/models/VoxelModel.js:62-75 | `Layer.getPixel`: null where the column or tile is missing, else the tile read at `x % 16` and `z % 16`, negative for negative coordinates; `LayerReadAfterWrite` |
| `VoxelModels.LayerWrite` | lib/models/VoxelModel.js:76-99 | intended (see Findings VoxelModel.js:98): the tile is written at `x % 16` and `z % 16`; `LayerReadAfterWrite` |
| `VoxelModels.LayerReadAfterWrite` | lib/models/VoxelModel.js:62-99 | intended (see Findings VoxelModel.js:98): the corrected `setPixel` fails exactly for coordinates with a negative remainder by 16 when a colour or an existing tile is involved; afterwards the written coordinates read the colour (0 as null) and every other accepted coordinate reads as before |
| `VoxelModels.NoTileForNothing` | lib/models/VoxelModel.js:77-95 | a 0 or null colour where the column or tile is missing changes nothing, in the written and the intended `setPixel` alike |
| `VoxelModels.LayerWriteAsWritten` | lib/models/VoxelModel.js:76-99 | as written (see Findings VoxelModel.js:98): the tile is given the layer coordinates themselves; `AsWrittenOnlyFirstTile` and `SecondTileCounterexample` |
| `VoxelModels.AsWrittenOnlyFirstTile` | lib/models/VoxelModel.js:98 | as written, a colour is stored only for x and z in 0..15; elsewhere it is refused after its column was created |
| `VoxelModels.SecondTileCounterexample` | lib/models/VoxelModel.js:98 | colour 7 at (16, 0) of an empty layer is refused as written, leaving an empty tile behind, and is stored and read back as intended |
| `VoxelModels.Kept` | lib/models/VoxelModel.js:52-56 | intended (see Findings VoxelModel.js:53): the tiles of a column that hold a colour; `LayerCleaned` and `CleanedReadsSame` |
| `VoxelModels.LayerCleaned` | lib/models/VoxelModel.js:50-61 | intended (see Findings VoxelModel.js:53): after the corrected clean-up no column is left empty |
| `VoxelModels.LayerCleanUpAsWritten` | lib/models/VoxelModel.js:50-61 | as written (see Findings VoxelModel.js:53): calling the getter `isEmpty` throws at the first tile, before anything is deleted; `CleanUpAsWrittenThrows` |
| `VoxelModels.CleanUpAsWrittenThrows` | lib/models/VoxelModel.js:53 | as written, `cleanUp` of a layer holding any tile throws the TypeError of calling the `isEmpty` getter, before deleting anything |
| `VoxelModels.CleanedReadsSame` | lib/models/VoxelModel.js:50-61 | intended (see Findings VoxelModel.js:53): the corrected clean-up keeps every tile with a colour and changes no pixel at accepted coordinates |
| `VoxelModels.ModelRead` | lib/models/VoxelModel.js:113-119 | `getVoxel`: null where the layer is missing, else the layer's `getPixel`; `ModelReadAfterWrite` |
| `VoxelModels.ModelWrite` | lib/models/VoxelModel.js:120-132 | intended (see Findings VoxelModel.js:98): `setVoxel` with a 0 or null colour where the layer is missing creates nothing, else the layer is created and written by `LayerWrite`; `ModelReadAfterWrite` |
| `VoxelModels.ModelReadAfterWrite` | lib/models/VoxelModel.js:113-132 | intended (see Findings VoxelModel.js:98; as written x or z outside 0..15 is refused): `setVoxel` succeeds exactly for accepted x and z, or for a 0 or null colour where nothing exists; `getVoxel` then returns the colour (0 as null) there and every other accepted voxel as before |
| `VoxelModels.ModelCleaned` | lib/models/VoxelModel.js:106-112 | `VoxelModel.cleanUp` as written, which calls only the `Layer.isEmpty` method and never `Layer.cleanUp`: exactly the layers without a column are dropped, so afterwards no layer is without a column |
| `VoxelModels.ModelCleanedReadsSame` | lib/models/VoxelModel.js:106-112 | `VoxelModel.cleanUp` as written changes no voxel `getVoxel` reads and keeps every layer with a column |
| `VoxelModels.Tile.constructor` | lib/models/VoxelModel.js:4-10 | 256 zero colours, and the counter counts the non-zero ones |
| `VoxelModels.Tile.IsEmpty` | lib/models/VoxelModel.js:11-13 | the getter holds exactly when every colour is 0 |
| `VoxelModels.Tile.GetPixel` | lib/models/VoxelModel.js:24-27 | the result is `TileRead` of the tile's colours |
| `VoxelModels.Tile.SetPixel` | lib/models/VoxelModel.js:28-40 | the colours become `TileWrite` of the old ones (unchanged when refused), and the counter keeps counting the non-zero colours |
| `VoxelModels.Layer.constructor` | lib/models/VoxelModel.js:44-46 | a layer starts without columns |
| `VoxelModels.Layer.IsEmpty` | lib/models/VoxelModel.js:47-49 | holds exactly when the layer has no column |
| `VoxelModels.Layer.GetPixel` | lib/models/VoxelModel.js:62-75 | the result is `LayerRead` of the layer's tiles |
| `VoxelModels.Layer.SetPixel` | lib/models/VoxelModel.js:76-99 | intended (see Findings VoxelModel.js:98): outcome and new tiles are those of the intended `LayerWrite` on the old tiles |
| `VoxelModels.Layer.CleanUp` | lib/models/VoxelModel.js:50-61 | intended (see Findings VoxelModel.js:53): the tiles become `LayerCleaned` of the old ones |
| `VoxelModels.KeepFilled` | lib/models/VoxelModel.js:52-56 | the inner loop keeps exactly the tiles of the column that hold a colour |
| `VoxelModels.CleanedButStep` | lib/models/VoxelModel.js:51-60 | cleaning one more column replaces it by its kept tiles, or drops it when none is kept |
| `VoxelModels.CleanedAll` | lib/models/VoxelModel.js:51-60 | once every column was visited the layer is cleaned up |
| `VoxelModels.VoxelModel.constructor` | lib/models/VoxelModel.js:103-105 | a model starts without layers |
| `VoxelModels.VoxelModel.GetVoxel` | lib/models/VoxelModel.js:113-119 | the result is `ModelRead` of the model's contents |
| `VoxelModels.VoxelModel.SetVoxel` | lib/models/VoxelModel.js:120-132 | intended (see Findings VoxelModel.js:98): outcome and new contents are those of `ModelWrite`, with only fresh layers added |
| `VoxelModels.VoxelModel.SetIn` | lib/models/VoxelModel.js:130-131 | intended (see Findings VoxelModel.js:98): the layer at y is set by the intended `setPixel` and no other layer changes |
| `VoxelModels.VoxelModel.AddLayer` | lib/models/VoxelModel.js:128 | a fresh empty layer is added at y and nothing else changes |
| `VoxelModels.VoxelModel.CleanUp` | lib/models/VoxelModel.js:106-112 | `cleanUp` as written: the loop over the layers leaves `ModelCleaned` of the old contents |
| `VoxelModels.VoxelModel.Drop` | lib/models/VoxelModel.js:109 | only the layer at y is deleted |
| `VoxelModels.ModelCleanedButStep` | lib/models/VoxelModel.js:107-111 | visiting one more layer drops it when it has no column and keeps it otherwise |
| `Utils.Lower` | lib/utils.js:32 | lowercasing keeps the length and maps each character on its own |
| `Utils.ToAscending` | lib/utils.js:31-33 | `toAscending`: the flag lowercased is "asc"; `AscendingExactly` names the inputs |
| `Utils.AscendingExactly` | lib/utils.js:31-33 | the sort flag is ascending exactly for `asc` in any mix of cases |
| `Utils.Escape` | lib/utils.js:163-165 | the escaped text is at least as long as the input and at most twice as long |
| `Utils.Unescape` | lib/utils.js:163-165 | the text a literal pattern matches, each escaped character without its backslash; `EscapeRoundTrip` shows it undoes `escapeRegExp` |
| `Utils.EscapeRoundTrip` | lib/utils.js:163-165 | the escaped text is a pattern whose every special character is escaped, and the text it matches literally is the input |
| `Utils.LiteralIsEscaped` | lib/utils.js:163-165 | every such literal pattern is the escaping of the text it matches, so escaping is a bijection onto literal patterns |
| `Utils.EscapeKeepsPlain` | lib/utils.js:163-165 | text without special characters is its own escaping |
| `Utils.ToUint32` | lib/utils.js:274-277 | `>>> 0` yields a value in [0, 2^32) |
| `Utils.ToInt32` | lib/utils.js:274-277 | the 32-bit view of `<<` yields a value in [-2^31, 2^31) |
| `Utils.ColorToPixel` | lib/formats/Container.js:168-171 | a colour becomes four pixel entries |
| `Utils.ShiftByte` | lib/utils.js:274-277 | a byte shifted left by 0, 8, 16 or 24 places and made unsigned is the byte times that power of two, even when the shift reaches the sign bit |
| `Utils.MaskShifted` | lib/formats/Container.js:168-171 | the two's-complement wrap does not change the byte that `>> k & 0xff` extracts |
| `Utils.ShiftMaskIsByte` | lib/formats/Container.js:168-171 | on an unsigned 32-bit colour, `(c >> k) & 0xff` is bits k..k+7 of the colour |
| `Utils.PackBytes` | lib/utils.js:273-278 | every unsigned 32-bit colour is the packing of its alpha, red, green and blue bytes |
| `Utils.PixelToColor` | lib/utils.js:273-278 | `pixelToColor`: the four bytes at `index` shifted to red 16, green 8, blue 0 and alpha 24, each made unsigned, a byte past the end reading as 0; `PixelToColorPacks` and `PixelRoundTrip` |
| `Utils.PixelToColorPacks` | lib/utils.js:273-278 | `pixelToColor` packs alpha high, then red, green and blue, into a value in [0, 2^32), a byte past the end reading as 0 |
| `Utils.PixelRoundTrip` | lib/utils.js:273-278 | writing a read pixel back, as the sprite export does, gives the same four bytes |
| `Utils.ColorRoundTrip` | lib/formats/Container.js:168-171 | the four bytes written for an unsigned colour are bytes, and `pixelToColor` reads them back as that colour |
| `Utils.TrailingWord` | lib/utils.js:19 | the trailing word is a suffix of word characters, preceded by a non-word character when shorter than the name |
| `Utils.Extension` | lib/utils.js:19 | group 1 of `regexExtension`: the word characters after a final `.`; `ExtensionExactly` |
| `Utils.ExtensionExactly` | lib/utils.js:19 | an extension found follows the name's last `.`; a name that is some text, a `.` and a non-empty run of word characters has that run as its extension |
| `Utils.TrailingWordOf` | lib/utils.js:19 | after a non-word character, a run of word characters is the trailing word |
| `Utils.FormatOf` | lib/utils.js:77-84 | the format looked up: the argument lowercased, or in `auto` mode the extension lowercased, "Unknown format!" without one; `GetLoaderExactly` |
| `Utils.GetLoader` | lib/utils.js:76-89 | intended (see Findings utils.js:85): only the own key `obj` names a loader, any other format is refused by name; `GetLoaderExactly` |
| `Utils.GetLoaderExactly` | lib/utils.js:76-89 | the intended lookup finds a loader exactly for `obj` in any case, given outright or in `auto` mode as the extension; `auto` on a name without extension is refused with "Unknown format!", any other format by name; every own-key loader the written lookup finds is found too |
| `Utils.GetLoaderAsWritten` | lib/utils.js:76-89 | as written (see Findings utils.js:85): the `in` test also finds `constructor` and `__proto__`; `InheritedKeyCounterexample` |
| `Utils.InheritedKeyCounterexample` | lib/utils.js:85 | a model file `<stem>.constructor` in `auto` mode gets the inherited `constructor` member as its loader as written, and is refused by the intended lookup |
| `Common.JsRem` | lib/formats/Sprite.js:49 | JavaScript `%` by 16 lies in (-16, 16), is non-negative exactly for a non-negative dividend or a multiple of 16, and differs from the Euclidean remainder by 16 otherwise |
| `Common.Round` | lib/slicer/WeightedColor.js:55 | `Math.round` is the integer within half of x, a half rounding up |
| `Common.UnpackPack` | lib/formats/Container.js:168-171 | shifting and masking recovers each byte of a packed colour |
| `Common.Member` | lib/formats/index.js:130 | property access finds a member the object has under that key, and `undefined` only when no member has it |

## Left out

- Zip, PNG and canvas serialisation are not modelled, because they rest on JSZip, node-canvas and streams. This covers `Container.save`/`load` (lib/formats/Container.js:124-246), the grid's `save`/`toMesh` and the exporters. Only the byte packing that `save` applies to each pixel (`Utils.ColorToPixel`) is modelled.
- The registry is a parameter (`Formats.Registry`). The module-level directory scan that builds it (lib/formats/index.js:15-117) is file-system I/O and is not modelled.
- The JSON-schema validators the scan creates are not modelled; they come from the `jsonschema` library.
- `semver.valid` is not modelled. `semver.gt` is modelled on `X.Y.Z` triples of naturals; prerelease and build tags are not.
- THREE.js plumbing is not modelled, because it is geometry outside the core: the rotation, bounding box and scaling of `Voxelifier`, `MeshExtensions.getFaces`, and the driver that wires the sieve, the grid and the flood fill together.
- `Polygon.normal` is taken as the unnormalised cross product `(c - b) x (a - b)` rather than `Plane.setFromCoplanarPoints`. Only its sign against the split plane's normal is used.
- `material.toImageData` is a parameter: a texture is a width, a height and RGBA bytes.
- IEEE doubles are not modelled: coordinates, lerp parameters, plane constants and slopes are exact reals, and numbers in JSON are reals. Bit-exact double rounding in the rasterizer's `x += slope` and in `lerp` is therefore not captured. NaN appears only where a division by a zero weight produces it (`WeightedColors.Average`).
- Loaders, the node-three shims, timers, the CLI programs and the file-system helpers of lib/utils.js are not modelled, because they are I/O, processes or UI.
- The earlier copies of the algorithms are not modelled: lib/converters/*, lib/UnitSieve.js, lib/FaceExtensions.js, lib/TriangleRasterizer.js, lib/VoxelGrid.js, lib/WeightedColor.js, lib/WeightedColorGrid.js and lib/formats/base/*. The lib/slicer copies are modelled instead. The fixture lemmas restate tests that run on the generator copies, which are identical in these parts.
- lib/formats/Keys.js is not part of this model. The model key is the stand-in `"model"` (`Containers.ModelKey`), and nothing proved depends on its value.
- Object identity is modelled only where the source relies on it: the sieve's shared planes, the fresh sprites of the export and the layers of the voxel model.
  - Vertices, polygons, colours held in grid cells, tiles held in sprites and tiles held in voxel layers are values.
  - So the aliasing that `WeightedColorGrid.get` and `clone` expose is not captured.
  - The same holds for a `Tile` object shared between two places; the source never shares one.
- The iteration order of a JavaScript `Map` is modelled only where the source's result depends on it. Those places are:
  - the export's sprite numbering;
  - the validator's order of sprites;
  - the migrator entries, in scan order.

  `Sprite.forEachPixel` is modelled as the set of its visits (`Sprites.PixelSetExactly`), not in Map order.
- Non-integer sprite ids and coordinates are not modelled: ids, pixel coordinates and voxel coordinates are integers. `Sprites.CheckId` models the constructor's integer check on a JSON value.
- The colours of the voxel model (type `Color`), which a `Uint32Array` stores, are restricted to [0, 2^32). The wrap of a larger value on store is not modelled.
- `SpriteIdValidation.Collect` models `$..spriteId` as a depth-first search: an object's own member first, then its members in stored order. JavaScript lists integer-like keys first, in ascending numeric order, before the other keys; that reordering is not modelled, so when several references are missing, the one `MissingSprite` reports can differ from the source's. Acceptance does not depend on the order (`SpriteIdValidation.AcceptedExactly`). Other JSONPath features are not modelled, and the exact message texts of the validator's errors are reduced to the verdict.
- `Formats.MatchText` models how `exec` converts a non-string `format` value. It is exact only for strings and one-element arrays; for other values it only says that no match is possible.
- `Utils.Lower`: `toLowerCase` is modelled on ASCII capitals only. Unicode case mapping is not modelled.
- `Vertices.NewVertex` requires an array argument to hold at least three (position) or two (uv) entries. The source accepts shorter arrays and builds a vector with `undefined` components; the real-valued vectors of this model cannot hold those, so that case is not modelled.
- `TriangleExtensions.Rasterize` requires exactly three coordinates. The source indexes `triangle[0..2]` of any array, and its behaviour on shorter or longer arrays is not modelled.
- `PolygonExtensions.GetColor` reads the texture through `material.toImageData`, which is a parameter here (see above).

## Findings

| source | as written | input that shows it | evidently intended | confidence | as-written member | corrected member |
|---|---|---|---|---|---|---|
| lib/formats/index.js:167 | `Array.concat(rootValidators, formatValidators, versionValidators)` calls a static method arrays do not have, so `checkContainer` throws a TypeError for every container that gets past the lookups | the model `{format: 'grid-1.0.0'}` in a registry with format `grid`, version `1.0.0` and no validators | the three validator lists concatenated in that order and run in turn | not executed | `Formats.ConcatCounterexample` | `Formats.CheckOrder` |
| lib/models/VoxelModel.js:98 | `Layer.setPixel` hands the tile the layer coordinates x, z instead of `x % 16`, `z % 16`, so every voxel outside the tile at the origin is refused after its empty tile was created | `setVoxel(16, y, 0, 7)` on an empty model | the tile is written at `x % 16`, `z % 16`, as `getPixel` reads it (lines 69-70) | not executed | `VoxelModels.SecondTileCounterexample` | `VoxelModels.LayerReadAfterWrite` |
| lib/models/VoxelModel.js:53 | `tile.isEmpty()` calls the getter's boolean as a function, so `Layer.cleanUp` throws a TypeError for any layer holding a tile | `cleanUp()` on a layer after one `setPixel(0, 0, 1)` | empty tiles dropped, then empty columns | not executed | `VoxelModels.CleanUpAsWrittenThrows` | `VoxelModels.CleanedReadsSame` |
| lib/utils.js:85 | `format in inputModelLoaders` also holds for members every object inherits, so the extension `constructor` yields the `Object` function as a loader instead of "Unknown format" | `getLoaderFromFormat('auto', 'model.constructor')` | only the object's own key `obj` names a loader | not executed | `Utils.InheritedKeyCounterexample` | `Utils.GetLoaderExactly` |
