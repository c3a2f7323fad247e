/** holoscribe's `ObjInterpolator`: turns the triangle mesh of a Wavefront OBJ model
    into a point cloud by sampling points along every distinct edge. The OBJ loader
    is not modelled: the model starts from the loaded data. */
module EdgeInterpolator {
  import opened Results
  import opened Numbers
  import opened Geometry

  // ---------------------------------------------------------------------
  // Loaded OBJ data

  /** One corner of a face: indices into the position, texture and normal lists. */
  datatype IndexTuple = IndexTuple(position: nat, texture: Option<nat>, normal: Option<nat>)

  datatype SimplePolygon = SimplePolygon(vertices: seq<IndexTuple>)

  datatype Group = Group(name: string, polys: seq<SimplePolygon>)

  datatype Object = Object(name: string, groups: seq<Group>)

  datatype ObjData = ObjData(position: seq<Vec3>, objects: seq<Object>)

  /** `ObjInterpolator`: holds the model it samples and never changes it. */
  datatype ObjInterpolator = ObjInterpolator(model: ObjData)

  /** The ways `interpolate_edges` panics. */
  datatype MeshError =
    | MissingObject     // the model has no object
    | MissingGroup      // the first object has no group
    | ShortPolygon      // a face has fewer than three corners
    | VertexOutOfRange  // an edge names a position the model does not have

  // ---------------------------------------------------------------------
  // Edges

  /** An undirected edge, stored with its smaller index first. */
  datatype Edge = Edge(lo: nat, hi: nat)

  /** The canonical form of the edge between two vertices. */
  function CanonicalEdge(a: nat, b: nat): (e: Edge)
    ensures e.lo <= e.hi
    ensures (e.lo == a && e.hi == b) || (e.lo == b && e.hi == a)
  {
    Edge(if a <= b then a else b, if a <= b then b else a)
  }

  /** Both orientations of an edge collapse to one set element. */
  lemma CanonicalEdgeSymmetric(a: nat, b: nat)
    ensures CanonicalEdge(a, b) == CanonicalEdge(b, a)
    ensures CanonicalEdge(a, b) == Edge(a, b) <==> a <= b
  {
  }

  /** The position indices of a face's corners, in order. */
  function PositionIndices(vs: seq<IndexTuple>): (path: seq<nat>)
    ensures |path| == |vs|
    ensures forall i :: 0 <= i < |vs| ==> path[i] == vs[i].position
  {
    if vs == [] then [] else PositionIndices(vs[..|vs| - 1]) + [vs[|vs| - 1].position]
  }

  function PolyPaths(polys: seq<SimplePolygon>): (paths: seq<seq<nat>>)
    ensures |paths| == |polys|
    ensures forall i :: 0 <= i < |polys| ==> paths[i] == PositionIndices(polys[i].vertices)
  {
    if polys == [] then [] else PolyPaths(polys[..|polys| - 1]) + [PositionIndices(polys[|polys| - 1].vertices)]
  }

  /** The three edges of the triangle made by a face's first three corners. */
  function FaceEdges(path: seq<nat>): set<Edge>
    requires |path| >= 3
  {
    {CanonicalEdge(path[0], path[1]), CanonicalEdge(path[1], path[2]), CanonicalEdge(path[2], path[0])}
  }

  predicate AllTriangles(paths: seq<seq<nat>>) {
    forall k :: 0 <= k < |paths| ==> |paths[k]| >= 3
  }

  /** The edge set built by inserting each face's three edges in turn. */
  function EdgeSetOf(paths: seq<seq<nat>>): set<Edge>
    requires AllTriangles(paths)
  {
    if paths == [] then {} else EdgeSetOf(paths[..|paths| - 1]) + FaceEdges(paths[|paths| - 1])
  }

  /** The edge set of the model's first group, or the panic that building it hits. */
  function EdgesOf(model: ObjData): Result<set<Edge>, MeshError> {
    if |model.objects| == 0 then Err(MissingObject)
    else if |model.objects[0].groups| == 0 then Err(MissingGroup)
    else
      var paths := PolyPaths(model.objects[0].groups[0].polys);
      if AllTriangles(paths) then Ok(EdgeSetOf(paths)) else Err(ShortPolygon)
  }

  /** An edge belongs to the set exactly when it is an edge of some face's first triangle. */
  lemma {:induction false} EdgeSetMembership(paths: seq<seq<nat>>, e: Edge)
    requires AllTriangles(paths)
    ensures e in EdgeSetOf(paths) <==> exists k :: 0 <= k < |paths| && e in FaceEdges(paths[k])
  {
    if paths != [] {
      var init := paths[..|paths| - 1];
      EdgeSetMembership(init, e);
      assert forall k :: 0 <= k < |init| ==> init[k] == paths[k];
      if e in EdgeSetOf(paths) && e !in FaceEdges(paths[|paths| - 1]) {
        var k :| 0 <= k < |init| && e in FaceEdges(init[k]);
        assert e in FaceEdges(paths[k]);
      }
    }
  }

  /** Every stored edge is canonical: its smaller index comes first. */
  lemma {:induction false} EdgeSetCanonical(paths: seq<seq<nat>>)
    requires AllTriangles(paths)
    ensures forall e :: e in EdgeSetOf(paths) ==> e.lo <= e.hi
  {
    if paths != [] {
      var init := paths[..|paths| - 1];
      assert AllTriangles(init);
      EdgeSetCanonical(init);
    }
  }

  /** Only the first three corners of a face count: a quad 0-1-2-3 yields the triangle
      edges 0-1, 1-2 and 0-2 and loses its sides 2-3 and 3-0. */
  lemma QuadKeepsFirstTriangle()
    ensures EdgeSetOf([[0, 1, 2, 3]]) == {Edge(0, 1), Edge(1, 2), Edge(0, 2)}
  {
    assert [[0, 1, 2, 3]][..0] == [];
  }

  /** Two triangles sharing a side in opposite orientations produce five edges, not six. */
  lemma SharedEdgeStoredOnce()
    ensures EdgeSetOf([[0, 1, 2], [2, 1, 3]]) == {Edge(0, 1), Edge(1, 2), Edge(0, 2), Edge(1, 3), Edge(2, 3)}
  {
    var paths: seq<seq<nat>> := [[0, 1, 2], [2, 1, 3]];
    assert paths[..1][..0] == [];
    assert paths[..1] == [[0, 1, 2]];
  }

  // ---------------------------------------------------------------------
  // Sampling one edge

  /** The number of intervals an edge is cut into: `points_per_unit` per unit of length,
      truncated and saturated to `i32`, but never fewer than three. */
  function NumPoints(distance: real, pointsPerUnit: nat): (n: nat)
    ensures n >= 3
  {
    var t := SaturatingI32(distance * pointsPerUnit as real);
    if 3 < t then t else 3
  }

  /** Above the floor of three, the count is the whole part of length times density:
      it never exceeds that product and (while it fits an `i32`) falls short of it by
      less than one. */
  lemma NumPointsDensity(distance: real, pointsPerUnit: nat)
    requires 0.0 <= distance
    ensures var n := NumPoints(distance, pointsPerUnit);
      && (n > 3 ==> n as real <= distance * pointsPerUnit as real)
      && (distance * pointsPerUnit as real <= I32_MAX as real ==> distance * pointsPerUnit as real < n as real + 1.0)
  {
    var d := distance * pointsPerUnit as real;
    assert 0.0 <= d;
  }

  /** The interpolation parameter of the i-th sample out of `n` intervals. */
  function LerpFactor(n: nat, i: nat): real
    requires n > 0
  {
    (1.0 / n as real) * i as real
  }

  /** The parameters run strictly upward from 0 to exactly 1, so each edge is sampled
      from its start to its end with no repeated sample; the infinity guard of the
      source can never fire. */
  lemma LerpFactorsIncrease(n: nat, i: nat, j: nat)
    requires 0 < n && i < j <= n
    ensures 0.0 <= LerpFactor(n, i) < LerpFactor(n, j) <= 1.0
    ensures LerpFactor(n, 0) == 0.0 && LerpFactor(n, n) == 1.0
  {
    var u := 1.0 / n as real;
    assert 0.0 < u;
    assert u * n as real == 1.0;
    assert u * i as real < u * j as real;
    assert u * j as real <= u * n as real;
  }

  /** The `n + 1` samples of the segment from `a` to `b`. */
  function EdgePoints(a: Vec3, b: Vec3, n: nat): (pts: seq<Vec3>)
    requires n > 0
    ensures |pts| == n + 1 && pts[0] == a && pts[n] == b
  {
    LerpFactorsIncrease(n, 0, n);
    seq(n + 1, i requires 0 <= i <= n => Lerp(a, b, LerpFactor(n, i)))
  }

  predicate EdgeInRange(positions: seq<Vec3>, e: Edge) {
    e.lo < |positions| && e.hi < |positions|
  }

  /** The samples emitted for one edge. */
  function EdgeSamples(positions: seq<Vec3>, e: Edge, pointsPerUnit: nat, distance: (Vec3, Vec3) -> real): (pts: seq<Vec3>)
    requires EdgeInRange(positions, e)
    ensures 4 <= |pts| && pts[0] == positions[e.lo] && pts[|pts| - 1] == positions[e.hi]
  {
    var a := positions[e.lo];
    var b := positions[e.hi];
    EdgePoints(a, b, NumPoints(distance(a, b), pointsPerUnit))
  }

  predicate AllInRange(positions: seq<Vec3>, order: seq<Edge>) {
    forall k :: 0 <= k < |order| ==> EdgeInRange(positions, order[k])
  }

  /** The point cloud for the edges visited in the given order. */
  function Interpolated(positions: seq<Vec3>, order: seq<Edge>, pointsPerUnit: nat, distance: (Vec3, Vec3) -> real): seq<Vec3>
    requires AllInRange(positions, order)
  {
    if order == [] then []
    else Interpolated(positions, order[..|order| - 1], pointsPerUnit, distance)
         + EdgeSamples(positions, order[|order| - 1], pointsPerUnit, distance)
  }

  /** Visiting edges one after another concatenates their samples. */
  lemma {:induction false} InterpolatedAppend(positions: seq<Vec3>, a: seq<Edge>, b: seq<Edge>, ppu: nat, distance: (Vec3, Vec3) -> real)
    requires AllInRange(positions, a) && AllInRange(positions, b)
    ensures AllInRange(positions, a + b)
    ensures Interpolated(positions, a + b, ppu, distance) == Interpolated(positions, a, ppu, distance) + Interpolated(positions, b, ppu, distance)
  {
    if b != [] {
      var b' := b[..|b| - 1];
      InterpolatedAppend(positions, a, b', ppu, distance);
      assert (a + b)[..|a + b| - 1] == a + b';
      assert (a + b)[|a + b| - 1] == b[|b| - 1];
    } else {
      assert a + b == a;
    }
  }

  /** Every edge contributes at least four samples, its two end points among them. */
  lemma {:induction false} InterpolatedLength(positions: seq<Vec3>, order: seq<Edge>, ppu: nat, distance: (Vec3, Vec3) -> real)
    requires AllInRange(positions, order)
    ensures |Interpolated(positions, order, ppu, distance)| >= 4 * |order|
  {
    if order != [] {
      InterpolatedLength(positions, order[..|order| - 1], ppu, distance);
    }
  }

  /** Removing the same element from two equal multisets of edges. */
  lemma RemoveMatching(a: seq<Edge>, b: seq<Edge>, j: nat)
    requires a != [] && multiset(a) == multiset(b) && j < |b| && b[j] == a[|a| - 1]
    ensures multiset(a[..|a| - 1]) == multiset(b[..j] + b[j + 1..])
  {
    var init, e := a[..|a| - 1], a[|a| - 1];
    var b1, b2 := b[..j], b[j + 1..];
    assert a == init + [e];
    assert b == b1 + [e] + b2;
    calc {
      multiset(init);
      (multiset(init) + multiset{e}) - multiset{e};
      multiset(a) - multiset{e};
      multiset(b) - multiset{e};
      (multiset(b1 + b2) + multiset{e}) - multiset{e};
      multiset(b1 + b2);
    }
  }

  /** Range checks depend only on which edges occur. */
  lemma InRangeByMultiset(positions: seq<Vec3>, a: seq<Edge>, b: seq<Edge>)
    requires AllInRange(positions, a) && multiset(a) == multiset(b)
    ensures AllInRange(positions, b)
  {
    forall k | 0 <= k < |b| ensures EdgeInRange(positions, b[k]) {
      assert b[k] in multiset(a);
    }
  }

  /** Samples of b1 + [e] + b2, split around the middle edge. */
  lemma InterpolatedAround(positions: seq<Vec3>, b1: seq<Edge>, e: Edge, b2: seq<Edge>, ppu: nat, distance: (Vec3, Vec3) -> real)
    requires AllInRange(positions, b1) && EdgeInRange(positions, e) && AllInRange(positions, b2)
    ensures AllInRange(positions, b1 + [e] + b2) && AllInRange(positions, b1 + b2)
    ensures Interpolated(positions, b1 + [e] + b2, ppu, distance)
      == Interpolated(positions, b1, ppu, distance) + EdgeSamples(positions, e, ppu, distance) + Interpolated(positions, b2, ppu, distance)
    ensures Interpolated(positions, b1 + b2, ppu, distance)
      == Interpolated(positions, b1, ppu, distance) + Interpolated(positions, b2, ppu, distance)
  {
    assert [e][..0] == [];
    InterpolatedAppend(positions, b1, b2, ppu, distance);
    InterpolatedAppend(positions, b1, [e], ppu, distance);
    InterpolatedAppend(positions, b1 + [e], b2, ppu, distance);
  }

  /** The pieces either side of one edge are in range when the whole is. */
  lemma InRangeSlices(positions: seq<Vec3>, b: seq<Edge>, j: nat)
    requires AllInRange(positions, b) && j < |b|
    ensures AllInRange(positions, b[..j]) && AllInRange(positions, b[j + 1..])
    ensures b == b[..j] + [b[j]] + b[j + 1..]
  {
    var b2 := b[j + 1..];
    assert forall k :: 0 <= k < |b2| ==> b2[k] == b[j + 1 + k];
  }

  lemma MultisetMoveMiddle(ia: seq<Vec3>, iInit: seq<Vec3>, s: seq<Vec3>, i1: seq<Vec3>, i2: seq<Vec3>)
    requires ia == iInit + s && multiset(iInit) == multiset(i1 + i2)
    ensures multiset(ia) == multiset(i1 + s + i2)
  {
    calc {
      multiset(ia);
      multiset(iInit) + multiset(s);
      multiset(i1) + multiset(i2) + multiset(s);
      multiset(i1 + s + i2);
    }
  }

  /** The point cloud, as a multiset, does not depend on the order in which the hash
      set hands out its edges. */
  lemma {:induction false} InterpolatedOrderIndependent(positions: seq<Vec3>, a: seq<Edge>, b: seq<Edge>, ppu: nat, distance: (Vec3, Vec3) -> real)
    requires AllInRange(positions, a) && multiset(a) == multiset(b)
    ensures AllInRange(positions, b)
    ensures multiset(Interpolated(positions, a, ppu, distance)) == multiset(Interpolated(positions, b, ppu, distance))
  {
    InRangeByMultiset(positions, a, b);
    if a != [] {
      var init := a[..|a| - 1];
      var e := a[|a| - 1];
      assert e in multiset(b);
      var j :| 0 <= j < |b| && b[j] == e;
      var b1, b2 := b[..j], b[j + 1..];
      RemoveMatching(a, b, j);
      InRangeSlices(positions, b, j);
      InRangeSlices(positions, a, |a| - 1);
      InterpolatedOrderIndependent(positions, init, b1 + b2, ppu, distance);
      InterpolatedAround(positions, b1, e, b2, ppu, distance);
      MultisetMoveMiddle(Interpolated(positions, a, ppu, distance), Interpolated(positions, init, ppu, distance),
        EdgeSamples(positions, e, ppu, distance), Interpolated(positions, b1, ppu, distance), Interpolated(positions, b2, ppu, distance));
    }
  }

  // ---------------------------------------------------------------------
  // The operation

  /** `order` lists each edge of `edges` exactly once. */
  predicate IsEnumeration(order: seq<Edge>, edges: set<Edge>) {
    && |order| == |edges|
    && (forall e :: e in edges ==> e in order)
    && (forall k :: 0 <= k < |order| ==> order[k] in edges)
    && (forall j, k :: 0 <= j < k < |order| ==> order[j] != order[k])
  }

  lemma EnumerationSnoc(order: seq<Edge>, visited: set<Edge>, e: Edge)
    requires IsEnumeration(order, visited) && e !in visited
    ensures IsEnumeration(order + [e], visited + {e})
  {
  }

  lemma EnumerationInRange(positions: seq<Vec3>, order: seq<Edge>, edges: set<Edge>)
    requires IsEnumeration(order, edges) && AllInRange(positions, order)
    ensures forall e :: e in edges ==> EdgeInRange(positions, e)
  {
    forall e | e in edges ensures EdgeInRange(positions, e) {
      var k :| 0 <= k < |order| && order[k] == e;
    }
  }

  lemma InterpolatedSnoc(positions: seq<Vec3>, order: seq<Edge>, e: Edge, ppu: nat, distance: (Vec3, Vec3) -> real)
    requires AllInRange(positions, order) && EdgeInRange(positions, e)
    ensures AllInRange(positions, order + [e])
    ensures Interpolated(positions, order + [e], ppu, distance)
      == Interpolated(positions, order, ppu, distance) + EdgeSamples(positions, e, ppu, distance)
  {
    assert (order + [e])[..|order|] == order;
  }

  /** The first loop of `interpolate_edges`: the position indices of every face. */
  method CollectPolyPaths(polys: seq<SimplePolygon>) returns (polyPaths: seq<seq<nat>>)
    ensures |polyPaths| == |polys|
    ensures forall i :: 0 <= i < |polys| ==> polyPaths[i] == PositionIndices(polys[i].vertices)
  {
    polyPaths := [];
    for i := 0 to |polys|
      invariant polyPaths == PolyPaths(polys[..i])
    {
      var polyPath: seq<nat> := [];
      var verts := polys[i].vertices;
      for j := 0 to |verts|
        invariant polyPath == PositionIndices(verts[..j])
      {
        assert verts[..j + 1][..j] == verts[..j];
        polyPath := polyPath + [verts[j].position];
      }
      assert verts[..|verts|] == verts;
      assert polys[..i + 1][..i] == polys[..i];
      polyPaths := polyPaths + [polyPath];
    }
    assert polys[..|polys|] == polys;
  }

  /** The second loop: insert each face's three canonical edges into the set; a face
      with fewer than three corners panics on indexing. */
  method InsertFaceEdges(polyPaths: seq<seq<nat>>) returns (r: Result<set<Edge>, MeshError>)
    ensures AllTriangles(polyPaths) ==> r == Ok(EdgeSetOf(polyPaths))
    ensures !AllTriangles(polyPaths) ==> r == Err(ShortPolygon)
  {
    var edgeSet: set<Edge> := {};
    for i := 0 to |polyPaths|
      invariant AllTriangles(polyPaths[..i])
      invariant edgeSet == EdgeSetOf(polyPaths[..i])
    {
      var path := polyPaths[i];
      if |path| < 3 {
        return Err(ShortPolygon);
      }
      assert polyPaths[..i + 1][..i] == polyPaths[..i];
      edgeSet := edgeSet + {CanonicalEdge(path[0], path[1])};
      edgeSet := edgeSet + {CanonicalEdge(path[1], path[2])};
      edgeSet := edgeSet + {CanonicalEdge(path[2], path[0])};
    }
    assert polyPaths[..|polyPaths|] == polyPaths;
    r := Ok(edgeSet);
  }

  /** The inner loop of the third: `n + 1` samples at parameters i/n, appended to `data`. */
  method SampleEdge(data: seq<Vec3>, start: Vec3, end: Vec3, n: nat) returns (data': seq<Vec3>)
    requires n > 0
    ensures data' == data + EdgePoints(start, end, n)
  {
    data' := data;
    for i := 0 to n + 1
      invariant data' == data + EdgePoints(start, end, n)[..i]
    {
      var lerpFactor := (1.0 / n as real) * i as real;
      ghost var pts := EdgePoints(start, end, n);
      assert pts[i] == Lerp(start, end, lerpFactor);
      assert pts[..i + 1] == pts[..i] + [pts[i]];
      data' := data' + [Lerp(start, end, lerpFactor)];
    }
    assert EdgePoints(start, end, n)[..n + 1] == EdgePoints(start, end, n);
  }

  /** One pass of the third loop's body: look up the end points of an edge, count its
      intervals from its length and append its samples. */
  method InterpolateEdge(data: seq<Vec3>, positions: seq<Vec3>, e: Edge, pointsPerUnit: nat, distance: (Vec3, Vec3) -> real)
    returns (data': seq<Vec3>)
    requires EdgeInRange(positions, e)
    ensures data' == data + EdgeSamples(positions, e, pointsPerUnit, distance)
  {
    var start := positions[e.lo];
    var end := positions[e.hi];
    var n := NumPoints(distance(start, end), pointsPerUnit);
    data' := SampleEdge(data, start, end, n);
  }

  /** The hash set's iteration: every edge exactly once, in an order the model leaves open. */
  method IterationOrder(edgeSet: set<Edge>) returns (order: seq<Edge>)
    ensures IsEnumeration(order, edgeSet)
  {
    order := [];
    ghost var visited: set<Edge> := {};
    var remaining := edgeSet;
    while remaining != {}
      invariant visited + remaining == edgeSet && visited !! remaining
      invariant IsEnumeration(order, visited)
      decreases |remaining|
    {
      var e :| e in remaining;
      EnumerationSnoc(order, visited, e);
      order := order + [e];
      visited := visited + {e};
      remaining := remaining - {e};
    }
  }

  /** The third loop: visit the edges in the hash set's iteration order, look up both
      end positions (panicking on an index past the end) and sample the edge. */
  method SampleEdges(positions: seq<Vec3>, edgeSet: set<Edge>, pointsPerUnit: nat, distance: (Vec3, Vec3) -> real)
    returns (r: Result<seq<Vec3>, MeshError>, ghost order: seq<Edge>)
    ensures r.Err? <==> exists e :: e in edgeSet && !EdgeInRange(positions, e)
    ensures r.Err? ==> r.error == VertexOutOfRange
    ensures r.Ok? ==>
      && IsEnumeration(order, edgeSet)
      && AllInRange(positions, order)
      && r.value == Interpolated(positions, order, pointsPerUnit, distance)
  {
    var edges := IterationOrder(edgeSet);
    order := edges;
    var vertexData: seq<Vec3> := [];
    for i := 0 to |edges|
      invariant AllInRange(positions, edges[..i])
      invariant vertexData == Interpolated(positions, edges[..i], pointsPerUnit, distance)
    {
      var e := edges[i];
      if e.lo >= |positions| || e.hi >= |positions| {
        return Err(VertexOutOfRange), order;
      }
      vertexData := InterpolateEdge(vertexData, positions, e, pointsPerUnit, distance);
      InterpolatedSnoc(positions, edges[..i], e, pointsPerUnit, distance);
      assert edges[..i + 1] == edges[..i] + [e];
    }
    assert edges[..|edges|] == edges;
    EnumerationInRange(positions, edges, edgeSet);
    r := Ok(vertexData);
  }

  /** `interpolate_edges`: collect the position indices of every face of the first group
      of the first object, insert each face's three triangle edges into a hash set, and
      for every edge, in the set's iteration order (returned as `order`), emit
      `num_points + 1` evenly spaced points from its start vertex to its end vertex. */
  method InterpolateEdges(interp: ObjInterpolator, pointsPerUnit: nat, distance: (Vec3, Vec3) -> real)
    returns (r: Result<seq<Vec3>, MeshError>, ghost order: seq<Edge>)
    ensures EdgesOf(interp.model).Err? ==> r == Err(EdgesOf(interp.model).error)
    ensures EdgesOf(interp.model).Ok? ==>
      var edges := EdgesOf(interp.model).value;
      var positions := interp.model.position;
      && (r.Err? <==> exists e :: e in edges && !EdgeInRange(positions, e))
      && (r.Err? ==> r.error == VertexOutOfRange)
      && (r.Ok? ==>
            && IsEnumeration(order, edges)
            && AllInRange(positions, order)
            && r.value == Interpolated(positions, order, pointsPerUnit, distance))
  {
    order := [];
    var model := interp.model;
    if |model.objects| == 0 {
      return Err(MissingObject), order;
    }
    if |model.objects[0].groups| == 0 {
      return Err(MissingGroup), order;
    }
    var polyPaths := CollectPolyPaths(model.objects[0].groups[0].polys);
    assert polyPaths == PolyPaths(model.objects[0].groups[0].polys);
    var edges := InsertFaceEdges(polyPaths);
    if edges.Err? {
      return Err(edges.error), order;
    }
    r, order := SampleEdges(model.position, edges.value, pointsPerUnit, distance);
  }
}
