# sw_render core in Dafny

A model of the software rasteriser sw_render and of the proofs about it. It covers five parts:

- **Frame buffer** (`frame.dfy`, module `Frame`). A borrowed row-major slice of packed pixels
  with its width and height. Segments are clipped against `[0, width] x [0, height]` with the
  Cohen-Sutherland outcodes. The clipped endpoints are rounded and joined by the integer
  Bresenham loop, through a bounds-guarded `set_pixel`. `clear` zeroes every pixel.
- **Triangle primitive** (`primitives.dfy`, module `Primitives`). `PolygonPoints2::new`
  precomputes the edges, their dot products and the reciprocal of the Cramer denominator.
  `barycentric` solves for the weights of a probe point and keeps them only when all three are
  non-negative. `bounding_box` is the rectangle spanned by the three points.
- **Mesh** (`mesh.dfy`, module `Mesh`). The part of `Mesh::from_obj` after parsing:
  - vertices drop the homogeneous `w`;
  - each polygon's position indices are cut into consecutive triples;
  - the bounding box is folded over the vertices from sentinel corners at `f32::MAX` / `f32::MIN`.

  `tris_faces` resolves the triples into vertices.
- **Line demo** (`line_demo.dfy`, module `LineDemo`). The demo binary's fixed 240 x 240 buffer
  with its 1-based `xy`, and the `line` routine:
  1. It transposes steep lines.
  2. It orders the endpoints by the original x distance.
  3. It walks the columns with a doubled error term.
- **Benchmark** (`drawing_benchmark.dfy`, module `DrawingBenchmark`). The benchmark's copy of
  `line`. Its `xy` returns an `Option` guarded by `is_contained`, and the drawing unwraps it.

Shared geometry (points, vectors, dot and cross products, interpolation) is in `space.dfy`.
Real-arithmetic helper lemmas are in `arith.dfy`.

Each imperative routine is a `method` proved against a specification function:
- `FrameBuffer.ClipLine` against `Clipped`;
- `FrameBuffer.DrawLineInside` against `PaintPixels` of `BresenhamLine`;
- `LineDemo.Line` against `Painted` of `Trace`;
- `DrawingBenchmark.BenchLine` against the prefix of `Trace` that its lookups find;
- `Mesh.FromRawObj` against `FoldBox`.

The properties of those functions are proved as lemmas.

## Model

| member | source | states |
|---|---|---|
| Frame.ComputeOutcode | src/buffers/frame.rs:13-42 | each region bit is set exactly when the point lies beyond that edge; LEFT and RIGHT are never both set, nor BOTTOM and TOP; the code is INSIDE exactly when the point lies in [0, width] x [0, height] |
| Frame.BitCount | src/buffers/frame.rs:82-90 | the number of region bits set in an outcode: at most four, and zero exactly when no region bit is set |
| Frame.ChosenBitFacts | src/buffers/frame.rs:61-79 | when clipping continues, the bit tested first is one of the four edges, set in the outside point's code and clear in the other point's code |
| Frame.CrossingFacts | src/buffers/frame.rs:56-79 | the two endpoints lie on opposite sides of the chosen edge, and the point replaced is the one outside it |
| Frame.CrossX | src/buffers/frame.rs:67-72 | the TOP/BOTTOM x formula: (x, target) is collinear with p1 and p2 |
| Frame.CrossY | src/buffers/frame.rs:73-79 | the RIGHT/LEFT y formula: (target, y) is collinear with p1 and p2 |
| Frame.Intersection | src/buffers/frame.rs:67-79 | the replacement point of the chosen branch lies on that branch's boundary line and on the line through p1 and p2 |
| Frame.ClipDivisors | src/buffers/frame.rs:67-79 | the divisor of the chosen intersection formula (p2.y - p1.y or p2.x - p1.x) is never zero |
| Frame.IntersectionIsLerp | src/buffers/frame.rs:67-79 | the computed intersection is the point p1 + s (p2 - p1) for some s in [0, 1] |
| Frame.HorizontalCrossing | src/buffers/frame.rs:67-72 | the TOP/BOTTOM formula gives the point of the segment at the target height |
| Frame.VerticalCrossing | src/buffers/frame.rs:73-79 | the RIGHT/LEFT formula gives the point of the segment at the target abscissa |
| Frame.OutcodeOfBetween | src/buffers/frame.rs:28-42 | a point between the endpoints has no region bit that neither endpoint has |
| Frame.BitCountShrinks | src/buffers/frame.rs:82-90 | replacing a point that clears the chosen bit and adds no bit strictly lowers the number of bits set in o1 \| o2 |
| Frame.ReplacementFacts | src/buffers/frame.rs:61-90 | the replacement lies on the chosen edge and on the segment; both new endpoints are inside that edge's half-plane; the combined bit count drops; the new segment lies within the old one |
| Frame.ClipStep | src/buffers/frame.rs:61-90 | one replacement lowers the combined bit count and yields a sub-segment of the input |
| Frame.Clipped | src/buffers/frame.rs:52-93 | the loop ends: accepted means both endpoints' outcodes are INSIDE; rejected means the outcodes share a bit; in both cases the result lies within the input segment |
| Frame.ClipSteps | src/buffers/frame.rs:52-93 | the number of replacements clip_line makes: zero exactly when the first test decides, and never more than the bits set in o1 \| o2, hence at most four; FrameBuffer.ClipLine's loop counter is kept equal to it |
| Frame.ClipDecided | src/buffers/frame.rs:53-58 | a segment the first tests decide is returned unchanged, accepted exactly when both outcodes are INSIDE |
| Frame.ClipUnfold | src/buffers/frame.rs:59-90 | one replacement keeps the final verdict and uses up exactly one of the counted steps |
| Frame.SubSegmentTransitive | src/buffers/frame.rs:52-93 | a sub-segment of a sub-segment is a sub-segment, which lets replacements compose |
| Frame.LerpComposition | src/buffers/frame.rs:82-90 | interpolating between two points of a segment gives a point of the segment at a parameter between theirs |
| Frame.BoundaryParameter | src/buffers/frame.rs:67-79 | a target value between the endpoints' coordinates is reached at a parameter in [0, 1] |
| Frame.FrameBuffer.ClipLine | src/buffers/frame.rs:45-93 | given the endpoints' outcodes, the loop returns exactly Clipped's verdict and endpoints |
| Frame.FrameBuffer.ReplaceOutside | src/buffers/frame.rs:61-90 | one loop iteration returns ClipStep's segment and the outcodes of the new endpoints; the verdict is unchanged and one fewer replacement remains |
| Frame.LineStepper | src/buffers/frame.rs:110-114 | the definition of the loop constants dx = \|x1 - x0\|, dy = -\|y1 - y0\| and the step signs; what they achieve is stated by LineStart and AdvanceFacts |
| Frame.Advance | src/buffers/frame.rs:122-130 | one step keeps the stepper on course, moves at least one axis by its sign and none by more, and brings the target one step nearer |
| Frame.AdvanceFacts | src/buffers/frame.rs:122-130 | the branches taken never step past the target, at least one is taken, and the deviation from the ideal line stays within half the major extent |
| Frame.DeviationStep | src/buffers/frame.rs:122-130 | each axis step changes the cross-product deviation by dy or dx, as the error term does |
| Frame.AdvanceUpdates | src/buffers/frame.rs:122-130 | the loop's updates of x0, y0 and error are exactly Advance |
| Frame.FrameBuffer.StepCursor | src/buffers/frame.rs:122-130 | the two conditional updates of the loop body, with e2 = 2·error, produce exactly Advance of the cursor |
| Frame.BresenhamFrom | src/buffers/frame.rs:116-131 | the traced pixels number one more than the remaining major extent, starting at the cursor and ending at (x1, y1) |
| Frame.BresenhamFromNear | src/buffers/frame.rs:116-131 | every traced pixel lies in the endpoints' box and within half the major extent of the ideal line |
| Frame.BresenhamFromSteps | src/buffers/frame.rs:116-131 | consecutive traced pixels are distinct and 8-adjacent |
| Frame.LineStart | src/buffers/frame.rs:110-114 | the initial error puts the stepper on course with major extent max(\|dx\|, \|dy\|) |
| Frame.BresenhamLine | src/buffers/frame.rs:104-131 | the line has max(\|dx\|, \|dy\|) + 1 pixels, from (x0, y0) to (x1, y1) |
| Frame.BresenhamLineNear | src/buffers/frame.rs:104-131 | every pixel lies in the endpoints' bounding box, and its doubled cross product with the line is within the major extent |
| Frame.BresenhamLineSteps | src/buffers/frame.rs:104-131 | consecutive pixels differ by at most one in each axis and are never equal |
| Frame.DeviationIsCross | src/buffers/frame.rs:110-114 | the stepper's deviation is, up to sign, the cross product of the pixel's offset with the line |
| Frame.TwoPixelColumn | src/buffers/frame.rs:104-131 | a vertical segment of one unit is traced as its two endpoints |
| Frame.Round | src/buffers/frame.rs:105-108 | f32::round: within one half of its argument, halves rounded away from zero |
| Frame.RoundWithin | src/buffers/frame.rs:105-108 | rounding keeps a value between two integer bounds |
| Frame.AsU32 | src/buffers/frame.rs:117 | the i32-to-u32 cast: identity on non-negative values, adds 2^32 to negative ones |
| Frame.Stored | src/buffers/frame.rs:96 | the stored word is red·2^16 + green·2^8 + blue |
| Frame.StoredChannels | src/buffers/frame.rs:96 | the stored word fits in 24 bits and gives back each channel |
| Frame.IndexInBounds | src/buffers/frame.rs:98-100 | a guarded index y·width + x lies inside the buffer |
| Frame.SetPixelEffect | src/buffers/frame.rs:95-102 | the write changes exactly the element y·width + x, and only when x < width and y < height |
| Frame.PaintPixels | src/buffers/frame.rs:116-131 | the buffer after set_pixel of each pixel in order, with the i32-to-u32 casts; its length is kept, and PaintPixelsAt gives each element |
| Frame.FrameBuffer.SetPixel | src/buffers/frame.rs:95-102 | the new buffer is SetPixelEffect of the old one with the packed colour |
| Frame.PaintPixelsAt | src/buffers/frame.rs:116-131 | after painting a pixel list, an element holds the colour exactly when some pixel hits it; otherwise it is unchanged |
| Frame.PaintAdvance | src/buffers/frame.rs:116-131 | writing the cursor's pixel and then painting the rest equals painting the whole trace |
| Frame.FrameBuffer.DrawLineInside | src/buffers/frame.rs:104-132 | the buffer becomes the old buffer with the colour painted over BresenhamLine of the rounded endpoints |
| Frame.LinePixels | src/buffers/frame.rs:134-148 | the pixels draw_line traces run from the rounded first clipped endpoint to the rounded second; when both outcodes are INSIDE they are the Bresenham line of the rounded endpoints themselves, unclipped |
| Frame.AcceptedLineInside | src/buffers/frame.rs:134-148 | for an accepted segment every traced pixel lies in [0, width] x [0, height], and the u32 casts are exact |
| Frame.FrameBuffer.DrawLine | src/buffers/frame.rs:134-148 | as written: a segment whose outcodes are both INSIDE is painted along the Bresenham line of its own rounded endpoints, unclipped; otherwise the clipped endpoints are traced whatever clip_line returned; the caller's points are values and stay as they were |

| Frame.RejectedSegmentStillDrawn | src/buffers/frame.rs:144-146 | a segment left of the frame, which clipping rejects, is still traced as column-0 pixels |
| Frame.ColumnZeroPainted | src/buffers/frame.rs:144-146 | those pixels are written into the buffer |
| Frame.FrameBuffer.DrawLineClipped | src/buffers/frame.rs:134-148 | corrected: a rejected segment leaves the buffer unchanged, and an accepted one is painted along its clipped trace |
| Frame.FrameBuffer.Clear | src/buffers/frame.rs:150-152 | every element becomes zero |
| Frame.FrameBuffer.constructor | src/buffers/frame.rs:19-25 | the buffer keeps the slice, width and height it is given |
| Primitives.Reciprocal | src/common/primitives.rs:30 | f32::recip: infinite exactly at zero, otherwise the multiplicative inverse |
| Primitives.New | src/common/primitives.rs:24-43 | the points are kept; the inverse denominator is infinite exactly when the points are collinear, and otherwise inverts the Gram determinant |
| Primitives.Barycentric | src/common/primitives.rs:45-74 | None for a degenerate triangle; any weights returned sum to one and are all non-negative |
| Primitives.RawWeights | src/common/primitives.rs:54-65 | the Cramer-rule weights before the sign test: they always sum to one |
| Primitives.BarycentricReconstructs | src/common/primitives.rs:54-65 | for a proper triangle the computed weights sum to one and combine the vertices into the probe point |
| Primitives.RawWeightsSolve | src/common/primitives.rs:54-65 | v and w solve the 2 x 2 edge system for the probe's offset from A, and u = 1 - v - w |
| Primitives.WeightsUnique | src/common/primitives.rs:54-65 | any weights that sum to one and reconstruct the probe are the computed ones |
| Primitives.BarycentricCharacterised | src/common/primitives.rs:45-74 | barycentric returns Some(uvw) exactly when the triangle is proper and uvw is the unique non-negative affine combination giving the probe |
| Primitives.VertexWeights | src/common/primitives.rs:45-74 | each vertex has the unit weights of its own index |
| Primitives.DenominatorVanishes | src/common/primitives.rs:27-30 | the Gram determinant is zero exactly when the edge cross product is zero |
| Primitives.CramerVectors | src/common/primitives.rs:56-64 | the Cramer formulas solve v·ab + w·ac = ap |
| Primitives.BoundingBox | src/common/primitives.rs:76-78 | the rectangle has non-negative size, contains all three points, and each side touches one of them |
| Mesh.Vertices | src/objects/mesh.rs:27-31 | one vertex per position, in order, with w dropped |
| Mesh.PositionIndices | src/objects/mesh.rs:37-42 | each polygon form yields its position indices, in order |
| Mesh.Chunks | src/objects/mesh.rs:43-46 | chunks_exact(3): \|indices\| / 3 triangles, the k-th made of indices 3k, 3k + 1 and 3k + 2 |
| Mesh.Triangulate | src/objects/mesh.rs:33-48 | the flat_map over the polygons: the first polygon's triples come first, in order, and a single polygon gives exactly its chunks |
| Mesh.FlattenChunks | src/objects/mesh.rs:43-46 | flattening the triangles gives the indices back without the last \|indices\| mod 3 |
| Mesh.TriangulateAppend | src/objects/mesh.rs:33-48 | flat_map distributes over concatenation of polygon lists |
| Mesh.TriangulateCount | src/objects/mesh.rs:33-48 | the triangle count is the sum of floor(n / 3) over the polygons |
| Mesh.FoldBox | src/objects/mesh.rs:50-53 | the bounding-box loop from a given box: the box only grows, its min never above and its max never below the starting corners |
| Mesh.FoldBoxContains | src/objects/mesh.rs:50-53 | the folded box contains every vertex |
| Mesh.FoldBoxAttained | src/objects/mesh.rs:50-53 | every corner coordinate of the folded box is a starting coordinate or some vertex's |
| Mesh.MeshBox | src/objects/mesh.rs:18-25 | with no vertices the box stays at the sentinels, min above max; otherwise (f32-range vertices) it is the tightest box |
| Mesh.FromRawObj | src/objects/mesh.rs:17-56 | the mesh's vertices, triangles and box are Vertices, Triangulate and the fold from the sentinels |
| Mesh.TrisFaces | src/objects/mesh.rs:58-62 | one face per stored triple, each corner the indexed vertex |
| Mesh.SinglePolygonFaces | src/objects/mesh.rs:33-62 | the k-th face of a single-polygon mesh starts at the position named by index 3k |
| LineDemo.XDistanceTo | src/main.rs:39-41 | the signed difference of the x coordinates |
| LineDemo.YDistanceTo | src/main.rs:43-45 | the signed difference of the y coordinates |
| LineDemo.Xy | src/main.rs:19-21 | the 1-based index (y - 1)·240 + x - 1 lies in the buffer |
| LineDemo.XyBijective | src/main.rs:19-21 | on [1, 240]^2 xy is defined, injective and onto the buffer |
| LineDemo.Buffer.constructor | src/main.rs:13-17 | a fresh buffer of 240·240 zeros |
| LineDemo.PaintedAt | src/main.rs:85-90 | after the writes an element is white exactly when some written cell maps to it; otherwise it is unchanged |
| LineDemo.PlanOf | src/main.rs:60-75 | steep exactly when \|dx\| < \|dy\|; the resulting plan never climbs faster than it runs |
| LineDemo.Trace | src/main.rs:54-98 | the cells line writes, in order: the scan of the plan PlanOf gives; TraceEnds, TraceSteps, NonSteepColumns and SteepEmpty state its shape |
| LineDemo.Rise | src/main.rs:92-96 | the rows climbed after t columns are between 0 and the rise, and the doubled error stays within (-run, run] |
| LineDemo.RiseUnique | src/main.rs:92-96 | only one row count keeps the error term in (-run, run] |
| LineDemo.RiseEnds | src/main.rs:83-97 | the loop starts on the first endpoint's row and ends on the second's |
| LineDemo.RiseStep | src/main.rs:92-96 | the row moves by one exactly when the accumulated error exceeds the run |
| LineDemo.Scan | src/main.rs:85-97 | one cell per column of the plan, none when the columns run backwards |
| LineDemo.StepError | src/main.rs:92-96 | the error update keeps the loop on the rounded ideal line and moves the row by at most one |
| LineDemo.ScanColumn | src/main.rs:85-97 | one pass of the loop writes cell t of the scan and carries the error and row to column t + 1 |
| LineDemo.Plot | src/main.rs:86-90 | both branches write white at xy(Point2D { x, y }) and nothing else |
| LineDemo.ScanLine | src/main.rs:77-97 | the loop paints exactly the scan of the plan |
| LineDemo.ScanStart | src/main.rs:80-83 | before the first column the doubled error is zero and y is on the first endpoint's row, as the scan expects |
| LineDemo.ScanColumns | src/main.rs:85-97 | the for loop over p1.x..=p2.x paints exactly the scan of the plan |
| LineDemo.Line | src/main.rs:54-98 | the buffer becomes the old one with every cell of the trace painted white |
| LineDemo.TraceEnds | src/main.rs:72-97 | a non-empty trace runs from the plan's left endpoint to its right one |
| LineDemo.TraceSteps | src/main.rs:85-97 | each next cell is one column on and at most one row towards the end |
| LineDemo.NonSteepColumns | src/main.rs:64-85 | a line with \|dx\| >= \|dy\| writes \|dx\| + 1 cells, one per column from the left endpoint's x on |
| LineDemo.SteepEmpty | src/main.rs:60-85 | a steep line writes nothing exactly when dx < 0 < dy or dy < 0 <= dx |
| LineDemo.SinglePoint | src/main.rs:54-98 | equal endpoints write that one cell |
| LineDemo.EndpointsDrawn | src/main.rs:63-90 | a drawn line's end cells are its endpoints, transposed when the line is steep |
| LineDemo.SteepMisdrawn | src/main.rs:72-90 | a steep line with dx < 0 < dy writes nothing, and one with both positive ends on its mirrored endpoint |
| LineDemo.ScanRows | src/main.rs:85-97 | every scanned cell lies between the plan's endpoint rows |
| LineDemo.GridSuffices | src/main.rs:19-21 | endpoints in [1, 240]^2 keep every traced cell addressable |
| LineDemo.PlanCorrected | src/main.rs:63-75 | corrected: after transposing, the endpoints are ordered by their own x, so the plan runs left to right over the two endpoints |
| LineDemo.TraceCorrected | src/main.rs:54-98 | corrected: the cells of the corrected plan, transposed back for steep lines; CorrectedEndpoints states its length and ends |
| LineDemo.CorrectedEndpoints | src/main.rs:54-98 | corrected: every line writes max(\|dx\|, \|dy\|) + 1 cells, from one of its endpoints to the other |
| DrawingBenchmark.BitOr | benches/drawing_benchmark.rs:47 | bitwise or on naturals: zero exactly when both are zero, and at least each operand |
| DrawingBenchmark.AsU16 | benches/drawing_benchmark.rs:47 | the `as u16` cast keeps the low sixteen bits |
| DrawingBenchmark.ShiftedLowByte | benches/drawing_benchmark.rs:47 | `(x as u16) << 8` is zero exactly when the low byte of x is |
| DrawingBenchmark.IsNonzero | benches/drawing_benchmark.rs:46-48 | true exactly when x mod 256 or y mod 65536 is non-zero |
| DrawingBenchmark.IsContained | benches/drawing_benchmark.rs:50-56 | true exactly when the point is not the origin and both coordinates are at most 240 |
| DrawingBenchmark.Xy | benches/drawing_benchmark.rs:20-28 | None exactly when not contained; the arithmetic underflows exactly for contained points with y = 0 or at (0, 1); otherwise it is the demo's index |
| DrawingBenchmark.XyOnGrid | benches/drawing_benchmark.rs:20-28 | on [1, 240]^2 the lookup finds the demo's index, which is addressable |
| DrawingBenchmark.ContainedEdges | benches/drawing_benchmark.rs:20-56 | (0, 5) and (5, 0) pass the test; (0, 5) reaches (240, 4)'s element; (5, 0) and (0, 1) underflow |
| DrawingBenchmark.ColumnZeroAliases | benches/drawing_benchmark.rs:20-28 | every (0, y) with y >= 2 reaches the element of (240, y - 1) |
| DrawingBenchmark.XyChecked | benches/drawing_benchmark.rs:20-28 | corrected: an element exactly for points of [1, 240]^2, always in bounds, never an underflow |
| DrawingBenchmark.XyCheckedInjective | benches/drawing_benchmark.rs:20-28 | the corrected lookup is injective and agrees with the one as written wherever it finds an element |
| DrawingBenchmark.FoundPrefix | benches/drawing_benchmark.rs:98-103 | the leading cells whose lookup succeeds are all addressable |
| DrawingBenchmark.FoundPrefixAt | benches/drawing_benchmark.rs:98-103 | a lookup succeeds exactly within that prefix |
| DrawingBenchmark.BenchColumn | benches/drawing_benchmark.rs:99-109 | a successful lookup writes the cell and steps the error; a failing one panics with nothing written |
| DrawingBenchmark.BenchScan | benches/drawing_benchmark.rs:90-110 | the loop paints the found prefix, then completes or panics at the first cell not found |
| DrawingBenchmark.BenchLine | benches/drawing_benchmark.rs:67-111 | completes exactly when every lookup succeeds, panics at the first cell not found, and paints the trace up to it |
| DrawingBenchmark.GridNeverPanics | benches/drawing_benchmark.rs:67-111 | endpoints in [1, 240]^2 never panic, and the benchmark paints what the demo paints |

## Left out

- Floating point: f32 values are exact reals. Rounding error, NaN and infinities are not
  modelled. Primitives.Reciprocal is infinite only at exactly zero, so a denominator that
  underflows to a subnormal is not captured.
- Frame.Round: the saturation of `round() as i32` for values beyond the i32 range is not
  modelled. Rounded coordinates are unbounded integers.
- Frame.FrameBuffer.DrawLineInside: `2 * error` and the coordinate updates are unbounded, so
  i32 overflow is not modelled.
- Frame.SetPixelEffect: `y * self.width + x` is exact. Its u32 overflow, which could panic in
  debug builds, is not modelled.
- Frame.Stored: the packing by the palette crate is taken as documented (red, green, blue,
  alpha bytes, shifted right by 8). The palette crate is not part of this model.
- Frame.FrameBuffer.Valid: the buffer length is required to be width·height. The source never
  checks this; its callers allocate it that way.
- Frame.FrameBuffer.ClipLine: requires the outcodes passed in to be those of the endpoints, as
  draw_line always passes them.
- Frame.FrameBuffer.constructor: `new` takes a glamour Vector2 for the dimensions. The model
  takes width and height directly.
- Primitives.BoundingBox: glamour's `Rect::from_points` is taken as the minimum corner plus a
  non-negative extent. glamour is not part of this model.
- Mesh.FromRawObj: the parser `obj::raw::parse_obj`, the reader and the `ObjError` path are
  left out. The method takes the parsed RawObj as a parameter.
- Mesh.MeshBox: the tightness claims assume every vertex is within the f32 range, as parsed
  f32 values are.
- Mesh.TrisFaces: tris_faces panics on an index past the vertex list. The model requires
  IndicesInRange instead, and it returns a sequence rather than a lazy iterator.
- LineDemo.Xy: returns the index rather than a `&mut u32` into the buffer.
- LineDemo.Line: the usize underflow and out-of-bounds panics of xy are a precondition.
  Every traced cell must be addressable; GridSuffices gives a sufficient condition.
- LineDemo.XDistanceTo: the `as isize` casts of usize are exact, so wrap-around for values
  above isize::MAX is not modelled.
- DrawingBenchmark.Xy: `(point.y - 1) * WIDTH + point.x - 1` underflows for y = 0 and for
  (0, 1). The model reports Underflow, the debug-build panic; the release-build wrap-around
  to a huge index (which then panics on the bounds check) is not distinguished.
- The `main` functions, the random point generation, the window and timing code of both
  binaries and the criterion harness are left out.

## Findings

| source | as written | input that shows it | evidently intended | confidence | as-written member | corrected member |
|---|---|---|---|---|---|---|
| src/buffers/frame.rs:144-146 | draw_line ignores clip_line's result and draws the clipped endpoints even when the segment was rejected | the segment (-0.25, 5) to (-0.25, 6) on a 10 x 10 frame is rejected, yet pixels (0, 5) and (0, 6) are painted | draw only when clip_line returns true | not executed | Frame.RejectedSegmentStillDrawn, Frame.ColumnZeroPainted, Frame.FrameBuffer.DrawLine | Frame.FrameBuffer.DrawLineClipped |
| benches/drawing_benchmark.rs:20-56 | is_contained only excludes the origin, so x = 0 or y = 0 reaches the index arithmetic | (0, 5) reaches the element of (240, 4); (5, 0) and (0, 1) underflow usize | accept exactly the 1-based grid [1, 240]^2 | not executed | DrawingBenchmark.ContainedEdges, DrawingBenchmark.ColumnZeroAliases | DrawingBenchmark.XyChecked, DrawingBenchmark.XyCheckedInjective |
| src/main.rs:72-90 | the endpoint swap tests the x distance from before the transposition, and `Point2D{y, x}` is shorthand for `Point2D { x: x, y: y }`, so steep lines are not transposed back | (2, 1) to (1, 5) writes nothing; (1, 1) to (2, 5) ends at (5, 2) and never reaches (2, 5) | order the transposed endpoints by their own x and write the transposed cell for steep lines | not executed | LineDemo.SteepMisdrawn, LineDemo.SteepEmpty, LineDemo.EndpointsDrawn | LineDemo.PlanCorrected, LineDemo.CorrectedEndpoints |
