/** The part of Mesh::from_obj that follows parsing: vertex positions lose their w component,
    every polygon's position indices are cut into consecutive triples, and the bounding box is
    folded over the vertices from sentinel corners. tris_faces resolves the triples into points. */
module Mesh {
  import opened Space

  /** f32::MAX; f32::MIN is its negation. */
  const F32_MAX: real := 340282346638528859811704183484516925440.0

  /** A parsed position: x, y, z and the homogeneous w the mesh drops. */
  datatype Position = Position(x: real, y: real, z: real, w: real)

  /** A parsed face: position indices, each possibly paired with texture and normal indices. */
  datatype Polygon =
    | P(indices: seq<nat>)
    | PT(pairs: seq<(nat, nat)>)
    | PN(pairs: seq<(nat, nat)>)
    | PTN(triples: seq<(nat, nat, nat)>)

  /** What the parser hands over: positions and polygons. */
  datatype RawObj = RawObj(positions: seq<Position>, polygons: seq<Polygon>)

  /** Three vertex indices of a triangle. */
  datatype Tri = Tri(a: nat, b: nat, c: nat)

  datatype ModelBox = ModelBox(min: ModelPoint, max: ModelPoint)

  datatype Mesh = Mesh(vertices: seq<ModelPoint>, trisFaceIndices: seq<Tri>, boundingBox: ModelBox)

  /** The resolved corners of a triangle. */
  datatype Face = Face(a: ModelPoint, b: ModelPoint, c: ModelPoint)

  /** The corners from_obj starts the fold from: min at f32::MAX, max at f32::MIN. */
  const SENTINEL_BOX: ModelBox :=
    ModelBox(ModelPoint(F32_MAX, F32_MAX, F32_MAX), ModelPoint(-F32_MAX, -F32_MAX, -F32_MAX))

  // ---------------------------------------------------------------------------
  // Vertices
  // ---------------------------------------------------------------------------

  /** One vertex per parsed position, in order, with w dropped. */
  function Vertices(positions: seq<Position>): (vs: seq<ModelPoint>)
    ensures |vs| == |positions|
    ensures forall i :: 0 <= i < |positions| ==>
      vs[i] == ModelPoint(positions[i].x, positions[i].y, positions[i].z)
  {
    seq(|positions|, i requires 0 <= i < |positions| => ModelPoint(positions[i].x, positions[i].y, positions[i].z))
  }

  // ---------------------------------------------------------------------------
  // Triangles
  // ---------------------------------------------------------------------------

  /** The position indices of a polygon, whatever else each corner carries. */
  function PositionIndices(polygon: Polygon): (indices: seq<nat>)
    ensures polygon.P? ==> indices == polygon.indices
    ensures polygon.PT? ==> (|indices| == |polygon.pairs| &&
      forall i :: 0 <= i < |indices| ==> indices[i] == polygon.pairs[i].0)
    ensures polygon.PN? ==> (|indices| == |polygon.pairs| &&
      forall i :: 0 <= i < |indices| ==> indices[i] == polygon.pairs[i].0)
    ensures polygon.PTN? ==> (|indices| == |polygon.triples| &&
      forall i :: 0 <= i < |indices| ==> indices[i] == polygon.triples[i].0)
  {
    match polygon
    case P(indices) => indices
    case PT(pairs) => seq(|pairs|, i requires 0 <= i < |pairs| => pairs[i].0)
    case PN(pairs) => seq(|pairs|, i requires 0 <= i < |pairs| => pairs[i].0)
    case PTN(triples) => seq(|triples|, i requires 0 <= i < |triples| => triples[i].0)
  }

  /** chunks_exact(3): consecutive triples, the one or two leftover indices dropped. */
  function Chunks(indices: seq<nat>): (tris: seq<Tri>)
    ensures |tris| == |indices| / 3
    ensures forall k :: 0 <= k < |tris| ==>
      tris[k] == Tri(indices[3 * k], indices[3 * k + 1], indices[3 * k + 2])
  {
    if |indices| < 3 then [] else [Tri(indices[0], indices[1], indices[2])] + Chunks(indices[3..])
  }

  /** The indices of a sequence of triangles, in order. */
  function Flatten(tris: seq<Tri>): (indices: seq<nat>)
    ensures |indices| == 3 * |tris|
  {
    if tris == [] then [] else [tris[0].a, tris[0].b, tris[0].c] + Flatten(tris[1..])
  }

  /** The triangles of all polygons: each polygon's triples, polygon after polygon. */
  function Triangulate(polygons: seq<Polygon>): (tris: seq<Tri>)
    ensures polygons != [] ==>
      var first := Chunks(PositionIndices(polygons[0]));
      |first| <= |tris| && tris[..|first|] == first
    ensures |polygons| == 1 ==> tris == Chunks(PositionIndices(polygons[0]))
  {
    if polygons == [] then [] else Chunks(PositionIndices(polygons[0])) + Triangulate(polygons[1..])
  }

  /** Number of triangles the polygons yield: floor(n / 3) for a polygon of n corners. */
  function TriangleCount(polygons: seq<Polygon>): nat
  {
    if polygons == [] then 0 else |PositionIndices(polygons[0])| / 3 + TriangleCount(polygons[1..])
  }

  /** Chunking loses only the leftover: flattening the triples gives back the indices without
      their last |indices| % 3. */
  lemma {:induction false} FlattenChunks(indices: seq<nat>)
    ensures Flatten(Chunks(indices)) == indices[..|indices| - |indices| % 3]
  {
    if |indices| >= 3 {
      FlattenChunks(indices[3..]);
      assert indices[3..][..|indices[3..]| - |indices[3..]| % 3] == indices[3..|indices| - |indices| % 3];
    }
  }

  /** Triangulating polygon lists one after the other gives the triangles one after the other. */
  lemma {:induction false} TriangulateAppend(first: seq<Polygon>, second: seq<Polygon>)
    ensures Triangulate(first + second) == Triangulate(first) + Triangulate(second)
  {
    if first != [] {
      assert (first + second)[1..] == first[1..] + second;
      TriangulateAppend(first[1..], second);
    } else {
      assert first + second == second;
    }
  }

  lemma {:induction false} TriangulateCount(polygons: seq<Polygon>)
    ensures |Triangulate(polygons)| == TriangleCount(polygons)
  {
    if polygons != [] {
      TriangulateCount(polygons[1..]);
    }
  }

  // ---------------------------------------------------------------------------
  // Bounding box
  // ---------------------------------------------------------------------------

  function MinR(a: real, b: real): real
  {
    if a <= b then a else b
  }

  function MaxR(a: real, b: real): real
  {
    if a >= b then a else b
  }

  /** Point3::min and Point3::max: componentwise. */
  function PointMin(p: ModelPoint, q: ModelPoint): ModelPoint
  {
    ModelPoint(MinR(p.x, q.x), MinR(p.y, q.y), MinR(p.z, q.z))
  }

  function PointMax(p: ModelPoint, q: ModelPoint): ModelPoint
  {
    ModelPoint(MaxR(p.x, q.x), MaxR(p.y, q.y), MaxR(p.z, q.z))
  }

  /** One iteration of the bounding-box loop. */
  function Extend(box: ModelBox, v: ModelPoint): ModelBox
  {
    ModelBox(PointMin(box.min, v), PointMax(box.max, v))
  }

  /** The bounding-box loop over the remaining vertices, from a given box: the box only grows. */
  function FoldBox(box: ModelBox, vs: seq<ModelPoint>): (r: ModelBox)
    ensures LessEq(r.min, box.min) && LessEq(box.max, r.max)
    decreases |vs|
  {
    if vs == [] then box else FoldBox(Extend(box, vs[0]), vs[1..])
  }

  predicate LessEq(p: ModelPoint, q: ModelPoint)
  {
    p.x <= q.x && p.y <= q.y && p.z <= q.z
  }

  /** Coordinates an f32 can hold: between f32::MIN and f32::MAX. */
  predicate Finite(v: ModelPoint)
  {
    -F32_MAX <= v.x <= F32_MAX && -F32_MAX <= v.y <= F32_MAX && -F32_MAX <= v.z <= F32_MAX
  }

  /** The folded box holds every vertex (and, by FoldBox's contract, the starting corners). */
  lemma {:induction false} FoldBoxContains(box: ModelBox, vs: seq<ModelPoint>)
    decreases |vs|
    ensures forall i :: 0 <= i < |vs| ==>
      LessEq(FoldBox(box, vs).min, vs[i]) && LessEq(vs[i], FoldBox(box, vs).max)
  {
    if vs != [] {
      FoldBoxContains(Extend(box, vs[0]), vs[1..]);
      forall i | 1 <= i < |vs|
        ensures LessEq(FoldBox(box, vs).min, vs[i]) && LessEq(vs[i], FoldBox(box, vs).max)
      {
        assert vs[i] == vs[1..][i - 1];
      }
    }
  }

  /** Every coordinate of the folded corners is a starting corner's or a vertex's. */
  lemma {:induction false} FoldBoxAttained(box: ModelBox, vs: seq<ModelPoint>)
    decreases |vs|
    ensures FoldBox(box, vs).min.x == box.min.x || exists i :: 0 <= i < |vs| && FoldBox(box, vs).min.x == vs[i].x
    ensures FoldBox(box, vs).min.y == box.min.y || exists i :: 0 <= i < |vs| && FoldBox(box, vs).min.y == vs[i].y
    ensures FoldBox(box, vs).min.z == box.min.z || exists i :: 0 <= i < |vs| && FoldBox(box, vs).min.z == vs[i].z
    ensures FoldBox(box, vs).max.x == box.max.x || exists i :: 0 <= i < |vs| && FoldBox(box, vs).max.x == vs[i].x
    ensures FoldBox(box, vs).max.y == box.max.y || exists i :: 0 <= i < |vs| && FoldBox(box, vs).max.y == vs[i].y
    ensures FoldBox(box, vs).max.z == box.max.z || exists i :: 0 <= i < |vs| && FoldBox(box, vs).max.z == vs[i].z
  {
    if vs != [] {
      var rest := vs[1..];
      FoldBoxAttained(Extend(box, vs[0]), rest);
      forall i | 0 <= i < |rest|
        ensures rest[i] == vs[i + 1]
      {
      }
    }
  }

  /** from_obj's box over a non-empty list of f32 vertices is the tightest one: every vertex
      lies between its corners and each corner coordinate is some vertex's. Over no vertices
      it stays at the sentinels, whose min lies above their max. */
  lemma MeshBox(vs: seq<ModelPoint>)
    requires forall i :: 0 <= i < |vs| ==> Finite(vs[i])
    ensures vs == [] ==> FoldBox(SENTINEL_BOX, vs) == SENTINEL_BOX
    ensures vs == [] ==> !LessEq(SENTINEL_BOX.min, SENTINEL_BOX.max)
    ensures forall i :: 0 <= i < |vs| ==>
      LessEq(FoldBox(SENTINEL_BOX, vs).min, vs[i]) && LessEq(vs[i], FoldBox(SENTINEL_BOX, vs).max)
    ensures vs != [] ==> exists i :: 0 <= i < |vs| && FoldBox(SENTINEL_BOX, vs).min.x == vs[i].x
    ensures vs != [] ==> exists i :: 0 <= i < |vs| && FoldBox(SENTINEL_BOX, vs).min.y == vs[i].y
    ensures vs != [] ==> exists i :: 0 <= i < |vs| && FoldBox(SENTINEL_BOX, vs).min.z == vs[i].z
    ensures vs != [] ==> exists i :: 0 <= i < |vs| && FoldBox(SENTINEL_BOX, vs).max.x == vs[i].x
    ensures vs != [] ==> exists i :: 0 <= i < |vs| && FoldBox(SENTINEL_BOX, vs).max.y == vs[i].y
    ensures vs != [] ==> exists i :: 0 <= i < |vs| && FoldBox(SENTINEL_BOX, vs).max.z == vs[i].z
  {
    FoldBoxContains(SENTINEL_BOX, vs);
    FoldBoxAttained(SENTINEL_BOX, vs);
    if vs != [] {
      var box := FoldBox(SENTINEL_BOX, vs);
      // A sentinel coordinate that survives the fold is matched by the first vertex, which lies
      // inside the f32 range and so cannot be beyond the sentinel.
      assert Finite(vs[0]);
      if box.min.x == F32_MAX { assert box.min.x == vs[0].x; }
      if box.min.y == F32_MAX { assert box.min.y == vs[0].y; }
      if box.min.z == F32_MAX { assert box.min.z == vs[0].z; }
      if box.max.x == -F32_MAX { assert box.max.x == vs[0].x; }
      if box.max.y == -F32_MAX { assert box.max.y == vs[0].y; }
      if box.max.z == -F32_MAX { assert box.max.z == vs[0].z; }
    }
  }

  // ---------------------------------------------------------------------------
  // from_obj and tris_faces
  // ---------------------------------------------------------------------------

  /** Mesh::from_obj after parsing: vertices and triangles by comprehension, then the box by a
      loop over the vertices from the sentinel corners. */
  method FromRawObj(rawObj: RawObj) returns (mesh: Mesh)
    ensures mesh.vertices == Vertices(rawObj.positions)
    ensures mesh.trisFaceIndices == Triangulate(rawObj.polygons)
    ensures mesh.boundingBox == FoldBox(SENTINEL_BOX, mesh.vertices)
  {
    mesh := Mesh([], [], SENTINEL_BOX);
    mesh := mesh.(vertices := Vertices(rawObj.positions));
    mesh := mesh.(trisFaceIndices := Triangulate(rawObj.polygons));
    for i := 0 to |mesh.vertices|
      invariant mesh.vertices == Vertices(rawObj.positions)
      invariant mesh.trisFaceIndices == Triangulate(rawObj.polygons)
      invariant FoldBox(mesh.boundingBox, mesh.vertices[i..]) == FoldBox(SENTINEL_BOX, mesh.vertices)
    {
      var vertex := mesh.vertices[i];
      assert mesh.vertices[i..][1..] == mesh.vertices[i + 1..];
      mesh := mesh.(boundingBox := mesh.boundingBox.(min := PointMin(mesh.boundingBox.min, vertex)));
      mesh := mesh.(boundingBox := mesh.boundingBox.(max := PointMax(mesh.boundingBox.max, vertex)));
    }
  }

  /** Every triangle index names a vertex; tris_faces indexes without checking. */
  predicate IndicesInRange(mesh: Mesh)
  {
    forall k :: 0 <= k < |mesh.trisFaceIndices| ==>
      mesh.trisFaceIndices[k].a < |mesh.vertices| &&
      mesh.trisFaceIndices[k].b < |mesh.vertices| &&
      mesh.trisFaceIndices[k].c < |mesh.vertices|
  }

  /** Mesh::tris_faces: one face per stored triple, in order, each corner the indexed vertex. */
  function TrisFaces(mesh: Mesh): (faces: seq<Face>)
    requires IndicesInRange(mesh)
    ensures |faces| == |mesh.trisFaceIndices|
    ensures forall k :: 0 <= k < |faces| ==>
      faces[k] == Face(mesh.vertices[mesh.trisFaceIndices[k].a],
                       mesh.vertices[mesh.trisFaceIndices[k].b],
                       mesh.vertices[mesh.trisFaceIndices[k].c])
  {
    seq(|mesh.trisFaceIndices|, k requires 0 <= k < |mesh.trisFaceIndices| =>
      Face(mesh.vertices[mesh.trisFaceIndices[k].a],
           mesh.vertices[mesh.trisFaceIndices[k].b],
           mesh.vertices[mesh.trisFaceIndices[k].c]))
  }

  /** For a mesh read from a single face list, the k-th face is made of the positions named by
      the k-th consecutive triple of its indices, with w dropped. */
  lemma SinglePolygonFaces(rawObj: RawObj, mesh: Mesh, k: nat)
    requires |rawObj.polygons| == 1
    requires mesh.vertices == Vertices(rawObj.positions) && mesh.trisFaceIndices == Triangulate(rawObj.polygons)
    requires IndicesInRange(mesh)
    requires k < |PositionIndices(rawObj.polygons[0])| / 3
    ensures var indices := PositionIndices(rawObj.polygons[0]);
      k < |TrisFaces(mesh)| &&
      TrisFaces(mesh)[k].a == ModelPoint(rawObj.positions[indices[3 * k]].x,
                                         rawObj.positions[indices[3 * k]].y,
                                         rawObj.positions[indices[3 * k]].z)
  {
    assert Triangulate(rawObj.polygons) == Chunks(PositionIndices(rawObj.polygons[0])) + Triangulate([]);
  }
}
