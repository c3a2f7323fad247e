/** holoscribe's scriber: projects a point cloud into one SVG path. Each point is
    drawn by the point strategy (`DebugScriber`, a diamond whose size encodes the
    depth), then a rectangle traces the margin-extended bounds, which also give the
    document's viewBox. Path data is a sequence of commands; the svg crate's
    number formatting is not modelled. */
module Scribing {
  import opened Numbers
  import opened Geometry

  // ---------------------------------------------------------------------
  // Path data and what it draws

  datatype Command =
    | MoveTo(x: real, y: real)
    | MoveBy(dx: real, dy: real)
    | LineTo(x: real, y: real)
    | LineBy(dx: real, dy: real)

  /** The pen position after one command. */
  function Next(pen: Point, c: Command): Point {
    match c
    case MoveTo(x, y) => Point(x, y)
    case LineTo(x, y) => Point(x, y)
    case MoveBy(dx, dy) => Point(pen.x + dx, pen.y + dy)
    case LineBy(dx, dy) => Point(pen.x + dx, pen.y + dy)
  }

  /** The pen positions after each command of `cmds`, starting from `pen`. */
  function Trace(pen: Point, cmds: seq<Command>): (t: seq<Point>)
    ensures |t| == |cmds|
    decreases |cmds|
  {
    if cmds == [] then [] else [Next(pen, cmds[0])] + Trace(Next(pen, cmds[0]), cmds[1..])
  }

  function PenAfter(pen: Point, cmds: seq<Command>): Point
    decreases |cmds|
  {
    if cmds == [] then pen else PenAfter(Next(pen, cmds[0]), cmds[1..])
  }

  /** Tracing a concatenation traces the second part from where the first left the pen. */
  lemma {:induction false} TraceAppend(pen: Point, a: seq<Command>, b: seq<Command>)
    ensures Trace(pen, a + b) == Trace(pen, a) + Trace(PenAfter(pen, a), b)
    ensures PenAfter(pen, a + b) == PenAfter(PenAfter(pen, a), b)
    decreases |a|
  {
    if a == [] {
      assert a + b == b;
    } else {
      assert (a + b)[0] == a[0] && (a + b)[1..] == a[1..] + b;
      TraceAppend(Next(pen, a[0]), a[1..], b);
    }
  }

  // ---------------------------------------------------------------------
  // The diamond point strategy

  datatype DebugScriber = DebugScriber(planeStart: real, planeEnd: real, minSize: real, maxSize: real)
  {
    /** The depth planes must differ, or the remap divides by zero. */
    predicate Valid() { planeEnd != planeStart }
  }

  /** `map_range`: the linear remap of a depth to a diamond size. */
  function MapRange(s: DebugScriber, z: real): real
    requires s.Valid()
  {
    s.minSize + (z - s.planeStart) * (s.maxSize - s.minSize) / (s.planeEnd - s.planeStart)
  }

  /** The remap sends the near plane to the minimum size and the far plane to the maximum. */
  lemma MapRangeEndpoints(s: DebugScriber)
    requires s.Valid()
    ensures MapRange(s, s.planeStart) == s.minSize
    ensures MapRange(s, s.planeEnd) == s.maxSize
  {
    var d := s.planeEnd - s.planeStart;
    assert (s.planeEnd - s.planeStart) * (s.maxSize - s.minSize) / d == s.maxSize - s.minSize;
  }

  /** The remap is affine: it maps the point a fraction `t` of the way from `z1` to `z2`
      to the point the same fraction of the way between their sizes. */
  lemma MapRangeAffine(s: DebugScriber, z1: real, z2: real, t: real)
    requires s.Valid()
    ensures MapRange(s, z1 + t * (z2 - z1)) == MapRange(s, z1) + t * (MapRange(s, z2) - MapRange(s, z1))
  {
    var k := (s.maxSize - s.minSize) / (s.planeEnd - s.planeStart);
    assert forall z :: MapRange(s, z) == s.minSize + (z - s.planeStart) * k;
    calc {
      MapRange(s, z1) + t * (MapRange(s, z2) - MapRange(s, z1));
      s.minSize + (z1 - s.planeStart) * k + t * ((z2 - z1) * k);
      s.minSize + (z1 + t * (z2 - z1) - s.planeStart) * k;
    }
  }

  /** The six commands `scribe_point` appends for one point. */
  function Diamond(s: DebugScriber, p: Vec3): seq<Command>
    requires s.Valid()
  {
    var z := MapRange(s, p.z);
    [MoveTo(p.x, p.y), MoveBy(0.0, -z), LineBy(-z, z), LineBy(z, z), LineBy(z, -z), LineBy(-z, -z)]
  }

  /** `scribe_point`: the path data so far, extended by the point's diamond. */
  function ScribePoint(s: DebugScriber, data: seq<Command>, p: Vec3): (d: seq<Command>)
    requires s.Valid()
    ensures |d| == |data| + 6 && d[..|data|] == data
  {
    data + Diamond(s, p)
  }

  /** Whatever the pen's position, a point's commands draw a closed diamond centred on
      (x, y) with half-diagonal s = map_range(z): the pen jumps to the centre, moves up
      to the top vertex, visits the left, bottom and right vertices and returns to the top. */
  lemma DiamondShape(s: DebugScriber, data: seq<Command>, p: Vec3, pen: Point)
    requires s.Valid()
    ensures var z := MapRange(s, p.z);
      Trace(pen, ScribePoint(s, data, p))[|data|..] ==
        [Point(p.x, p.y), Point(p.x, p.y - z), Point(p.x - z, p.y), Point(p.x, p.y + z),
         Point(p.x + z, p.y), Point(p.x, p.y - z)]
    ensures PenAfter(pen, ScribePoint(s, data, p)) == Point(p.x, p.y - MapRange(s, p.z))
  {
    var d := Diamond(s, p);
    TraceAppend(pen, data, d);
    var z := MapRange(s, p.z);
    var q := PenAfter(pen, data);
    var p0 := Point(p.x, p.y);
    var p1 := Point(p.x, p.y - z);
    var p2 := Point(p.x - z, p.y);
    var p3 := Point(p.x, p.y + z);
    var p4 := Point(p.x + z, p.y);
    assert Trace(p4, [LineBy(-z, -z)]) == [p1];
    assert PenAfter(p4, [LineBy(-z, -z)]) == p1;
    assert Trace(p3, d[4..]) == [p4, p1];
    assert PenAfter(p3, d[4..]) == p1;
    assert Trace(p2, d[3..]) == [p3, p4, p1];
    assert PenAfter(p2, d[3..]) == p1;
    assert Trace(p1, d[2..]) == [p2, p3, p4, p1];
    assert PenAfter(p1, d[2..]) == p1;
    assert Trace(p0, d[1..]) == [p1, p2, p3, p4, p1];
    assert PenAfter(p0, d[1..]) == p1;
    assert Trace(q, d) == [p0, p1, p2, p3, p4, p1];
    assert PenAfter(q, d) == p1;
    assert (data + d)[|data|..] == d;
  }

  // ---------------------------------------------------------------------
  // Bounds

  datatype Axis = X | Y | Z

  function Coord(p: Vec3, a: Axis): real {
    match a
    case X => p.x
    case Y => p.y
    case Z => p.z
  }

  function Min(a: real, b: real): real { if b < a then b else a }
  function Max(a: real, b: real): real { if b > a then b else a }

  /** The running minimum of one coordinate, started from the sentinel `f32::MAX`. */
  function RunningMin(points: seq<Vec3>, a: Axis): real {
    if points == [] then F32_MAX
    else Min(RunningMin(points[..|points| - 1], a), Coord(points[|points| - 1], a))
  }

  /** The running maximum of one coordinate, started from the sentinel `f32::MIN`. */
  function RunningMax(points: seq<Vec3>, a: Axis): real {
    if points == [] then -F32_MAX
    else Max(RunningMax(points[..|points| - 1], a), Coord(points[|points| - 1], a))
  }

  datatype Range = Range(lo: real, hi: real)

  datatype Bounds = Bounds(x: Range, y: Range, z: Range)

  function AxisRange(b: Bounds, a: Axis): Range {
    match a
    case X => b.x
    case Y => b.y
    case Z => b.z
  }

  /** The bounds of the points on each axis, widened by the margin on both sides. */
  function BoundsOf(points: seq<Vec3>, margin: real): Bounds {
    Bounds(
      Range(RunningMin(points, X) - margin, RunningMax(points, X) + margin),
      Range(RunningMin(points, Y) - margin, RunningMax(points, Y) + margin),
      Range(RunningMin(points, Z) - margin, RunningMax(points, Z) + margin))
  }

  /** A coordinate an `f32` can hold. */
  predicate IsFinite(p: Vec3) {
    -F32_MAX <= p.x <= F32_MAX && -F32_MAX <= p.y <= F32_MAX && -F32_MAX <= p.z <= F32_MAX
  }

  /** For finite points the running minimum is attained and below every coordinate. */
  lemma {:induction false} RunningMinIsMinimum(points: seq<Vec3>, a: Axis)
    requires forall i :: 0 <= i < |points| ==> IsFinite(points[i])
    ensures forall i :: 0 <= i < |points| ==> RunningMin(points, a) <= Coord(points[i], a)
    ensures points != [] ==> exists i :: 0 <= i < |points| && Coord(points[i], a) == RunningMin(points, a)
  {
    if points != [] {
      var init := points[..|points| - 1];
      RunningMinIsMinimum(init, a);
      assert forall i :: 0 <= i < |init| ==> init[i] == points[i];
      if init == [] {
        assert Coord(points[0], a) <= F32_MAX;
      } else {
        var j :| 0 <= j < |init| && Coord(init[j], a) == RunningMin(init, a);
        if RunningMin(points, a) != Coord(points[|points| - 1], a) {
          assert Coord(points[j], a) == RunningMin(points, a);
        }
      }
    }
  }

  /** For finite points the running maximum is attained and above every coordinate. */
  lemma {:induction false} RunningMaxIsMaximum(points: seq<Vec3>, a: Axis)
    requires forall i :: 0 <= i < |points| ==> IsFinite(points[i])
    ensures forall i :: 0 <= i < |points| ==> Coord(points[i], a) <= RunningMax(points, a)
    ensures points != [] ==> exists i :: 0 <= i < |points| && Coord(points[i], a) == RunningMax(points, a)
  {
    if points != [] {
      var init := points[..|points| - 1];
      RunningMaxIsMaximum(init, a);
      assert forall i :: 0 <= i < |init| ==> init[i] == points[i];
      if init == [] {
        assert -F32_MAX <= Coord(points[0], a);
      } else {
        var j :| 0 <= j < |init| && Coord(init[j], a) == RunningMax(init, a);
        if RunningMax(points, a) != Coord(points[|points| - 1], a) {
          assert Coord(points[j], a) == RunningMax(points, a);
        }
      }
    }
  }

  /** For a non-empty cloud of finite points, each axis range is (min - m, max + m):
      every point lies at least the margin inside it, the extreme points exactly the
      margin, and lo <= hi whenever the margin is not negative. */
  lemma BoundsEnclose(points: seq<Vec3>, margin: real, a: Axis)
    requires points != []
    requires forall i :: 0 <= i < |points| ==> IsFinite(points[i])
    ensures var r := AxisRange(BoundsOf(points, margin), a);
      && (forall i :: 0 <= i < |points| ==> r.lo + margin <= Coord(points[i], a) <= r.hi - margin)
      && (exists i :: 0 <= i < |points| && Coord(points[i], a) == r.lo + margin)
      && (exists i :: 0 <= i < |points| && Coord(points[i], a) == r.hi - margin)
      && (0.0 <= margin ==> r.lo <= r.hi)
  {
    RunningMinIsMinimum(points, a);
    RunningMaxIsMaximum(points, a);
    var i :| 0 <= i < |points| && Coord(points[i], a) == RunningMin(points, a);
    assert RunningMin(points, a) <= RunningMax(points, a);
  }

  /** With no points the sentinels are never overwritten and every range is inverted. */
  lemma EmptyBoundsInverted(margin: real, a: Axis)
    requires margin < F32_MAX
    ensures var r := AxisRange(BoundsOf([], margin), a);
      r.lo == F32_MAX - margin && r.hi == -F32_MAX + margin && r.lo > r.hi
  {
  }

  // ---------------------------------------------------------------------
  // The scriber

  datatype Scriber = Scriber(margin: real, stroke: string, strokeWidth: real, strategy: DebugScriber)

  /** `Scriber::new`: a margin of one unit and a thin black stroke. */
  function NewScriber(strategy: DebugScriber): (s: Scriber)
    ensures s.margin == 1.0 && s.strategy == strategy
    ensures s.stroke == "black" && s.strokeWidth == 0.05
  {
    Scriber(1.0, "black", 0.05, strategy)
  }

  /** `bounds`: one pass over the points updating six running extremes, then the margin. */
  method ComputeBounds(s: Scriber, points: seq<Vec3>) returns (b: Bounds)
    ensures b == BoundsOf(points, s.margin)
  {
    var xMin, yMin, zMin := F32_MAX, F32_MAX, F32_MAX;
    var xMax, yMax, zMax := -F32_MAX, -F32_MAX, -F32_MAX;
    for i := 0 to |points|
      invariant xMin == RunningMin(points[..i], X) && xMax == RunningMax(points[..i], X)
      invariant yMin == RunningMin(points[..i], Y) && yMax == RunningMax(points[..i], Y)
      invariant zMin == RunningMin(points[..i], Z) && zMax == RunningMax(points[..i], Z)
    {
      var p := points[i];
      assert points[..i + 1][..i] == points[..i];
      xMin := Min(xMin, p.x);
      xMax := Max(xMax, p.x);
      yMin := Min(yMin, p.y);
      yMax := Max(yMax, p.y);
      zMin := Min(zMin, p.z);
      zMax := Max(zMax, p.z);
    }
    assert points[..|points|] == points;
    var m := s.margin;
    b := Bounds(Range(xMin - m, xMax + m), Range(yMin - m, yMax + m), Range(zMin - m, zMax + m));
  }

  datatype ViewBox = ViewBox(minX: real, minY: real, width: real, height: real)

  datatype PathElement = PathElement(fill: string, stroke: string, strokeWidth: real, d: seq<Command>)

  datatype Document = Document(viewBox: ViewBox, path: PathElement)

  /** The viewBox spanned by the x and y ranges. */
  function ViewBoxOf(b: Bounds): (v: ViewBox)
    ensures v.minX == b.x.lo && v.minY == b.y.lo
    ensures v.minX + v.width == b.x.hi && v.minY + v.height == b.y.hi
  {
    ViewBox(b.x.lo, b.y.lo, b.x.hi - b.x.lo, b.y.hi - b.y.lo)
  }

  /** The left fold of `scribe_point` over the points, in input order. */
  function ScribePoints(s: DebugScriber, data: seq<Command>, points: seq<Vec3>): seq<Command>
    requires s.Valid()
    decreases |points|
  {
    if points == [] then data else ScribePoints(s, ScribePoint(s, data, points[0]), points[1..])
  }

  /** The fold emits each point's six commands, in input order, after the data it starts from. */
  lemma {:induction false} ScribePointsBlocks(s: DebugScriber, data: seq<Command>, points: seq<Vec3>)
    requires s.Valid()
    ensures |ScribePoints(s, data, points)| == |data| + 6 * |points|
    ensures ScribePoints(s, data, points)[..|data|] == data
    ensures forall i :: 0 <= i < |points| ==>
      ScribePoints(s, data, points)[|data| + 6 * i..|data| + 6 * i + 6] == Diamond(s, points[i])
    decreases |points|
  {
    if points != [] {
      var data' := ScribePoint(s, data, points[0]);
      ScribePointsBlocks(s, data', points[1..]);
      var r := ScribePoints(s, data, points);
      assert r[..|data'|] == data';
      assert r[..|data|] == data' [..|data|];
      forall i | 0 <= i < |points|
        ensures r[|data| + 6 * i..|data| + 6 * i + 6] == Diamond(s, points[i])
      {
        if i == 0 {
          assert r[|data|..|data| + 6] == data'[|data|..];
        } else {
          assert points[1..][i - 1] == points[i];
          assert |data'| + 6 * (i - 1) == |data| + 6 * i;
        }
      }
    }
  }

  /** The closing rectangle: from (x_min, y_min) through the other three corners and back. */
  function BoundingRectangle(b: Bounds): seq<Command> {
    [MoveTo(b.x.lo, b.y.lo), LineTo(b.x.lo, b.y.hi), LineTo(b.x.hi, b.y.hi),
     LineTo(b.x.hi, b.y.lo), LineTo(b.x.lo, b.y.lo)]
  }

  /** Wherever the pen was, the rectangle visits the four corners of the bounds and
      ends where it started, closing the outline. */
  lemma RectangleShape(b: Bounds, pen: Point)
    ensures Trace(pen, BoundingRectangle(b)) ==
      [Point(b.x.lo, b.y.lo), Point(b.x.lo, b.y.hi), Point(b.x.hi, b.y.hi),
       Point(b.x.hi, b.y.lo), Point(b.x.lo, b.y.lo)]
  {
    var r := BoundingRectangle(b);
    var c0, c1, c2, c3 := Point(b.x.lo, b.y.lo), Point(b.x.lo, b.y.hi), Point(b.x.hi, b.y.hi), Point(b.x.hi, b.y.lo);
    assert Trace(c3, r[4..]) == [c0];
    assert Trace(c2, r[3..]) == [c3, c0];
    assert Trace(c1, r[2..]) == [c2, c3, c0];
    assert Trace(c0, r[1..]) == [c1, c2, c3, c0];
  }

  /** `scribe`: the viewBox comes from the margin-extended x and y bounds; the path
      holds each point's diamond in input order followed by the closing rectangle. */
  method Scribe(s: Scriber, points: seq<Vec3>) returns (doc: Document)
    requires s.strategy.Valid()
    ensures var b := BoundsOf(points, s.margin);
      && doc.viewBox == ViewBoxOf(b)
      && doc.path.fill == "none" && doc.path.stroke == s.stroke && doc.path.strokeWidth == s.strokeWidth
      && |doc.path.d| == 6 * |points| + 5
      && (forall i :: 0 <= i < |points| ==> doc.path.d[6 * i..6 * i + 6] == Diamond(s.strategy, points[i]))
      && doc.path.d[6 * |points|..] == BoundingRectangle(b)
  {
    var b := ComputeBounds(s, points);
    var data := ScribePoints(s.strategy, [], points);
    ScribePointsBlocks(s.strategy, [], points);
    var d := data + BoundingRectangle(b);
    assert d[6 * |points|..] == BoundingRectangle(b);
    assert forall i :: 0 <= i < |points| ==> d[6 * i..6 * i + 6] == data[6 * i..6 * i + 6];
    doc := Document(ViewBoxOf(b), PathElement("none", s.stroke, s.strokeWidth, d));
  }

  /** With `Scriber::new`'s unit margin, a single finite point yields a viewBox of
      width = height = 2 margins, centred on the point. */
  lemma NewScriberSinglePoint(strategy: DebugScriber, p: Vec3)
    requires IsFinite(p)
    ensures ViewBoxOf(BoundsOf([p], NewScriber(strategy).margin)) == ViewBox(p.x - 1.0, p.y - 1.0, 2.0, 2.0)
  {
    assert [p][..0] == [];
    assert RunningMin([p], X) == p.x && RunningMax([p], X) == p.x;
    assert RunningMin([p], Y) == p.y && RunningMax([p], Y) == p.y;
  }
}
