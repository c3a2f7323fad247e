/** holoviz's `Visualizer`: the input circles and extents of a parsed drawing, a light
    source, and the two hologram builders. The static builder draws each input circle
    followed by the arc of it that reflects the light; the animated builder replaces the
    arc by an SVG animation of its `d` attribute that swings back and forth between two
    light positions.

    The trigonometry is not evaluated: an arc is described by its centre, radius and the
    polar angles of its two end points, and `atan` and glam's `Vec2::angle_between` are
    parameters. The text formatting of path data is not modelled. */
module Hologram {
  import opened Results
  import opened Numbers
  import opened Geometry
  import opened SvgParsing

  // ---------------------------------------------------------------------
  // Constants

  /** Half the angular width of a static arc, and the whole width of an animated one, in degrees. */
  const HOLO_WIDTH_DEG: real := 3.5

  /** Stroke widths, as fractions of the drawing's width. */
  const HOLO_STROKE_WIDTH: real := 0.005
  const CIRCLE_STROKE_WIDTH: real := 0.0001

  /** `std::f32::consts::PI`: the `f32` nearest to pi. */
  const F32_PI: real := 3.1415927410125732421875

  /** `f32::to_radians`. */
  function ToRadians(deg: real): real {
    deg * F32_PI / 180.0
  }

  /** `HOLO_WIDTH_DEG.to_radians()`. */
  const HOLO_WIDTH_RAD: real := ToRadians(HOLO_WIDTH_DEG)

  function Abs(x: real): real {
    if x < 0.0 then -x else x
  }

  // ---------------------------------------------------------------------
  // The visualizer and the documents it builds

  datatype Visualizer = Visualizer(
    inputCircles: seq<Circle>,
    extents: Extents,
    lightSource: Point,
    style: string,          // the embedded stylesheet
    holoStrokeWidth: real)

  /** An arc of a circle from the polar angle `fromAngle` to `toAngle`. With `flipY` the
      end points are centre + radius (cos a, -sin a), otherwise centre + radius (cos a,
      sin a); `sweep` is the SVG sweep flag of the elliptical-arc command. */
  datatype Arc = Arc(center: Point, radius: real, fromAngle: real, toAngle: real, flipY: bool, sweep: bool)

  /** An animation of a path's `d` attribute through the listed frames. */
  datatype Animation = Animation(dur: real, repeatCount: string, attributeName: string, values: seq<Arc>)

  /** The children of the output `svg` element. An output arc is absent when its
      coordinates are not numbers (the light source sits on the circle's centre). */
  datatype Element =
    | InputCircle(circle: Circle, strokeWidth: real)               // class "inputCircle"
    | OutputArc(arc: Option<Arc>, strokeWidth: real)               // class "outputArc"
    | AnimatedOutputArc(animation: Animation, strokeWidth: real)   // class "outputArc"

  datatype Document = Document(
    width: real,
    height: real,
    style: string,
    viewBox: (real, real, real, real),
    elements: seq<Element>)

  /** The panics of the builders. */
  datatype ArcError =
    | InvalidCircleValue(name: string) // cx, cy or r is not a number
    | NonPositiveDuration              // the animation's duration is not positive
    | StepCountOverflow                // `num_steps * 2` overflows `usize`
    | NoSteps                          // `num_steps * 2 - 1` underflows: the sweep is narrower than one arc

  /** `Visualizer::from_svg_contents`: parse the drawing and put the light source at
      (width / 2, -height / 3) of its extents, above the drawing. */
  function FromSvgContents(events: seq<Event>, parseF32: string -> Option<real>, stylesheet: string): (r: Result<Visualizer, ParseError>)
    ensures var prefix := events[..SvgEndIndex(events)];
      && (r.Ok? <==> WellFormed(prefix, parseF32))
      && (r.Ok? ==>
            && r.value.inputCircles == CirclesIn(prefix)
            && r.value.extents == FinalExtents(prefix, parseF32, DEFAULT_EXTENTS)
            && r.value.lightSource == Point(r.value.extents.width / 2.0, -r.value.extents.height / 3.0)
            && r.value.style == stylesheet
            && r.value.holoStrokeWidth == HOLO_STROKE_WIDTH)
  {
    ParseMatchesReference(events, parseF32);
    var parsed :- Scan(events, parseF32, [], DEFAULT_EXTENTS);
    var light := Point(parsed.extents.width / 2.0, -parsed.extents.height / 3.0);
    Ok(Visualizer(parsed.circles, parsed.extents, light, stylesheet, HOLO_STROKE_WIDTH))
  }

  /** The numbers of a circle, parsed in the order cx, cy, r; the first that is not a
      number panics. */
  function CircleValues(c: Circle, parseF32: string -> Option<real>): (r: Result<(real, real, real), ArcError>)
    ensures r.Ok? <==> parseF32(c.cx).Some? && parseF32(c.cy).Some? && parseF32(c.r).Some?
    ensures r.Ok? ==> r.value == (parseF32(c.cx).value, parseF32(c.cy).value, parseF32(c.r).value)
    ensures r.Err? ==> r.error.InvalidCircleValue? && parseF32(Attribute(c, r.error.name)).None?
  {
    match (parseF32(c.cx), parseF32(c.cy), parseF32(c.r))
    case (None, _, _) => Err(InvalidCircleValue("cx"))
    case (Some(_), None, _) => Err(InvalidCircleValue("cy"))
    case (Some(_), Some(_), None) => Err(InvalidCircleValue("r"))
    case (Some(x), Some(y), Some(radius)) => Ok((x, y, radius))
  }

  /** The attribute of a circle with the given name. */
  function Attribute(c: Circle, name: string): string {
    if name == "cx" then c.cx else if name == "cy" then c.cy else c.r
  }

  // ---------------------------------------------------------------------
  // The static arc

  /** An angle below zero moves down by pi. */
  function BelowAxis(t: real): real {
    if t < 0.0 then t - F32_PI else t
  }

  /** The angle `(-dy / dx).atan()`, moved down by pi when negative; `None` when it is not
      a number. A zero `dx` divides to an infinity, whose arc tangent is plus or minus
      pi / 2, unless `dy` is zero as well. */
  function IncidenceAngle(dx: real, dy: real, atan: real -> real): (a: Option<real>)
    ensures a.None? <==> dx == 0.0 && dy == 0.0
    ensures dx == 0.0 && dy < 0.0 ==> a == Some(F32_PI / 2.0)
    ensures dx == 0.0 && dy > 0.0 ==> a == Some(-3.0 * F32_PI / 2.0)
  {
    if dx == 0.0 then
      if dy == 0.0 then None
      else if -dy > 0.0 then Some(BelowAxis(F32_PI / 2.0))
      else Some(BelowAxis(-F32_PI / 2.0))
    else Some(BelowAxis(atan(-dy / dx)))
  }

  /** With an arc tangent in [-pi/2, pi/2] the incidence angle lies in [0, pi/2] or in
      [-3pi/2, -pi): never in the quarter turns on either side of -pi/2. */
  lemma IncidenceAngleRange(dx: real, dy: real, atan: real -> real)
    requires forall t :: -F32_PI / 2.0 <= atan(t) <= F32_PI / 2.0
    ensures var a := IncidenceAngle(dx, dy, atan);
      a.Some? ==> (0.0 <= a.value <= F32_PI / 2.0 || -3.0 * F32_PI / 2.0 <= a.value < -F32_PI)
  {
    if dx != 0.0 {
      var t := atan(-dy / dx);
      assert -F32_PI / 2.0 <= t <= F32_PI / 2.0;
    }
  }

  /** `arc_from_light_source` and `circular_arc_hologram_path`: the arc of the circle
      centred on the incidence angle of the light and reaching `halfConeDeg` to either
      side of it, drawn with the y axis pointing up and sweep flag 0. */
  function ArcFromLightSource(c: Circle, halfConeDeg: real, light: Point, parseF32: string -> Option<real>, atan: real -> real): (r: Result<Option<Arc>, ArcError>)
    ensures r.Ok? <==> CircleValues(c, parseF32).Ok?
    ensures r.Err? ==> r == Err(CircleValues(c, parseF32).error)
    ensures r.Ok? ==> var (cx, cy, radius) := CircleValues(c, parseF32).value;
      && (r.value.Some? <==> light != Point(cx, cy))
      && (r.value.Some? ==>
            var arc := r.value.value;
            && arc.center == Point(cx, cy) && arc.radius == radius
            && (arc.fromAngle + arc.toAngle) / 2.0 == IncidenceAngle(light.x - cx, light.y - cy, atan).value
            && arc.toAngle - arc.fromAngle == 2.0 * ToRadians(halfConeDeg)
            && arc.flipY && !arc.sweep)
  {
    var v :- CircleValues(c, parseF32);
    var (cx, cy, radius) := v;
    match IncidenceAngle(light.x - cx, light.y - cy, atan)
    case None => Ok(None)
    case Some(incidence) =>
      var half := ToRadians(halfConeDeg);
      Ok(Some(Arc(Point(cx, cy), radius, incidence - half, incidence + half, true, false)))
  }

  // ---------------------------------------------------------------------
  // The static hologram

  /** The two elements drawn for one input circle: the circle, then its arc. */
  function StaticPair(v: Visualizer, c: Circle, parseF32: string -> Option<real>, atan: real -> real): Result<seq<Element>, ArcError> {
    var arc :- ArcFromLightSource(c, HOLO_WIDTH_DEG, v.lightSource, parseF32, atan);
    Ok([InputCircle(c, v.extents.width * CIRCLE_STROKE_WIDTH), OutputArc(arc, v.extents.width * v.holoStrokeWidth)])
  }

  /** The pair of a circle whose arc succeeds. */
  lemma StaticPairValue(v: Visualizer, c: Circle, parseF32: string -> Option<real>, atan: real -> real)
    ensures var arc := ArcFromLightSource(c, HOLO_WIDTH_DEG, v.lightSource, parseF32, atan);
      arc.Ok? ==> StaticPair(v, c, parseF32, atan) == Ok([InputCircle(c, v.extents.width * CIRCLE_STROKE_WIDTH), OutputArc(arc.value, v.extents.width * v.holoStrokeWidth)])
  {
    var arc := ArcFromLightSource(c, HOLO_WIDTH_DEG, v.lightSource, parseF32, atan);
    if arc.Ok? {
      assert !arc.IsFailure();
      assert arc.Extract() == arc.value;
      var p := StaticPair(v, c, parseF32, atan);
      assert p.Ok?;
      assert |p.value| == 2;
      assert p.value[0] == InputCircle(c, v.extents.width * CIRCLE_STROKE_WIDTH);
      assert p.value[1] == OutputArc(arc.value, v.extents.width * v.holoStrokeWidth);
    }
  }

  /** The elements of the static hologram for `circles`; the first circle that fails
      fails the whole. */
  function StaticElements(v: Visualizer, circles: seq<Circle>, parseF32: string -> Option<real>, atan: real -> real): Result<seq<Element>, ArcError>
    decreases |circles|
  {
    if circles == [] then Ok([])
    else
      var pair :- StaticPair(v, circles[0], parseF32, atan);
      var rest :- StaticElements(v, circles[1..], parseF32, atan);
      Ok(pair + rest)
  }

  /** The document around some elements: 500 by 500 pixels, the stylesheet, and an `svg`
      element whose viewBox is the drawing's extents. */
  function Wrap(v: Visualizer, elements: seq<Element>): Document {
    Document(DEFAULT_WIDTH_PX, DEFAULT_HEIGHT_PX, v.style, AsTuple(v.extents), elements)
  }

  /** The static hologram of a visualizer. */
  function StaticHologram(v: Visualizer, parseF32: string -> Option<real>, atan: real -> real): Result<Document, ArcError> {
    var elements :- StaticElements(v, v.inputCircles, parseF32, atan);
    Ok(Wrap(v, elements))
  }

  /** The static hologram draws, per input circle and in order, the circle and then its
      arc; it fails exactly when some circle has a value that is not a number. */
  lemma {:induction false} StaticElementsShape(v: Visualizer, circles: seq<Circle>, parseF32: string -> Option<real>, atan: real -> real)
    decreases |circles|
    ensures var r := StaticElements(v, circles, parseF32, atan);
      && (r.Ok? <==> forall i :: 0 <= i < |circles| ==> CircleValues(circles[i], parseF32).Ok?)
      && (r.Err? ==> r.error.InvalidCircleValue?)
      && (r.Ok? ==> |r.value| == 2 * |circles|)
      && (r.Ok? ==> forall i :: 0 <= i < |circles| ==>
            && r.value[2 * i] == InputCircle(circles[i], v.extents.width * CIRCLE_STROKE_WIDTH)
            && r.value[2 * i + 1] == OutputArc(ArcFromLightSource(circles[i], HOLO_WIDTH_DEG, v.lightSource, parseF32, atan).value,
                                               v.extents.width * v.holoStrokeWidth))
  {
    if circles != [] {
      var tail := circles[1..];
      StaticElementsShape(v, tail, parseF32, atan);
      assert forall i :: 0 <= i < |tail| ==> tail[i] == circles[i + 1];
      var head := StaticPair(v, circles[0], parseF32, atan);
      var rest := StaticElements(v, tail, parseF32, atan);
      if head.Ok? && rest.Ok? {
        StaticElementsCons(v, circles, parseF32, atan, head.value, rest.value);
      } else if head.Ok? {
        var i :| 0 <= i < |tail| && CircleValues(tail[i], parseF32).Err?;
        assert CircleValues(circles[i + 1], parseF32).Err?;
      }
    }
  }

  lemma StaticElementsCons(v: Visualizer, circles: seq<Circle>, parseF32: string -> Option<real>, atan: real -> real, pair: seq<Element>, rest: seq<Element>)
    requires circles != []
    requires forall i :: 0 <= i < |circles| ==> CircleValues(circles[i], parseF32).Ok?
    requires StaticPair(v, circles[0], parseF32, atan) == Ok(pair)
    requires |rest| == 2 * (|circles| - 1)
    requires forall i :: 0 <= i < |circles| - 1 ==>
      && rest[2 * i] == InputCircle(circles[1..][i], v.extents.width * CIRCLE_STROKE_WIDTH)
      && rest[2 * i + 1] == OutputArc(ArcFromLightSource(circles[1..][i], HOLO_WIDTH_DEG, v.lightSource, parseF32, atan).value,
                                      v.extents.width * v.holoStrokeWidth)
    ensures forall i :: 0 <= i < |circles| ==>
      && (pair + rest)[2 * i] == InputCircle(circles[i], v.extents.width * CIRCLE_STROKE_WIDTH)
      && (pair + rest)[2 * i + 1] == OutputArc(ArcFromLightSource(circles[i], HOLO_WIDTH_DEG, v.lightSource, parseF32, atan).value,
                                               v.extents.width * v.holoStrokeWidth)
  {
    forall i | 0 <= i < |circles|
      ensures (pair + rest)[2 * i] == InputCircle(circles[i], v.extents.width * CIRCLE_STROKE_WIDTH)
      ensures (pair + rest)[2 * i + 1] == OutputArc(ArcFromLightSource(circles[i], HOLO_WIDTH_DEG, v.lightSource, parseF32, atan).value,
                                                    v.extents.width * v.holoStrokeWidth)
    {
      if i > 0 {
        assert circles[i] == circles[1..][i - 1];
        assert (pair + rest)[2 * i] == rest[2 * (i - 1)];
        assert (pair + rest)[2 * i + 1] == rest[2 * (i - 1) + 1];
      }
    }
  }

  /** A result with `prefix` put in front of its elements. */
  function Prefixed(prefix: seq<Element>, r: Result<seq<Element>, ArcError>): Result<seq<Element>, ArcError> {
    if r.Ok? then Ok(prefix + r.value) else r
  }

  lemma PrefixedEmpty(r: Result<seq<Element>, ArcError>)
    ensures Prefixed([], r) == r
  {
    if r.Ok? {
      assert [] + r.value == r.value;
    }
  }

  lemma PrefixedTwice(p: seq<Element>, q: seq<Element>, r: Result<seq<Element>, ArcError>)
    ensures Prefixed(p, Prefixed(q, r)) == Prefixed(p + q, r)
  {
    if r.Ok? {
      assert p + (q + r.value) == (p + q) + r.value;
    }
  }

  lemma StaticElementsStep(v: Visualizer, circles: seq<Circle>, parseF32: string -> Option<real>, atan: real -> real)
    requires circles != []
    ensures var pair := StaticPair(v, circles[0], parseF32, atan);
      && (pair.Err? ==> StaticElements(v, circles, parseF32, atan) == Err(pair.error))
      && (pair.Ok? ==> StaticElements(v, circles, parseF32, atan) == Prefixed(pair.value, StaticElements(v, circles[1..], parseF32, atan)))
  {
  }

  /** `build_static_hologram`: one pass over the input circles, appending the circle and
      its arc to the `svg` element, inside a 500 by 500 document whose viewBox is the
      drawing's extents. */
  method BuildStaticHologram(v: Visualizer, parseF32: string -> Option<real>, atan: real -> real) returns (d: Result<Document, ArcError>)
    ensures d == StaticHologram(v, parseF32, atan)
  {
    var elements: seq<Element> := [];
    var i := 0;
    ghost var all := StaticElements(v, v.inputCircles, parseF32, atan);
    PrefixedEmpty(all);
    assert v.inputCircles[i..] == v.inputCircles;
    while i < |v.inputCircles|
      invariant i <= |v.inputCircles|
      invariant all == Prefixed(elements, StaticElements(v, v.inputCircles[i..], parseF32, atan))
    {
      var circle := v.inputCircles[i];
      var newCircle := InputCircle(circle, v.extents.width * CIRCLE_STROKE_WIDTH);
      var arc := ArcFromLightSource(circle, HOLO_WIDTH_DEG, v.lightSource, parseF32, atan);
      StaticLoopStep(v, parseF32, atan, i, elements);
      if arc.Err? {
        return Err(arc.error);
      }
      var svgArc := OutputArc(arc.value, v.extents.width * v.holoStrokeWidth);
      elements := elements + [newCircle, svgArc];
      i := i + 1;
    }
    assert v.inputCircles[i..] == [];
    assert elements + [] == elements;
    d := Ok(Wrap(v, elements));
  }

  /** The static document is 500 by 500 pixels with the drawing's extents as its viewBox,
      and holds per input circle, in order, the circle and then its arc. */
  lemma StaticHologramDocument(v: Visualizer, parseF32: string -> Option<real>, atan: real -> real)
    ensures var d := StaticHologram(v, parseF32, atan);
      && (d.Ok? <==> forall i :: 0 <= i < |v.inputCircles| ==> CircleValues(v.inputCircles[i], parseF32).Ok?)
      && (d.Ok? ==>
            && d.value.width == DEFAULT_WIDTH_PX && d.value.height == DEFAULT_HEIGHT_PX
            && d.value.viewBox == AsTuple(v.extents) && d.value.style == v.style
            && |d.value.elements| == 2 * |v.inputCircles|
            && forall i :: 0 <= i < |v.inputCircles| ==>
                 d.value.elements[2 * i] == InputCircle(v.inputCircles[i], v.extents.width * CIRCLE_STROKE_WIDTH))
  {
    StaticElementsShape(v, v.inputCircles, parseF32, atan);
  }

  /** One turn of the static builder's loop: a circle whose arc fails fails the whole,
      otherwise its circle and arc join the elements built so far. */
  lemma StaticLoopStep(v: Visualizer, parseF32: string -> Option<real>, atan: real -> real, i: nat, elements: seq<Element>)
    requires i < |v.inputCircles|
    ensures var c := v.inputCircles[i];
      var arc := ArcFromLightSource(c, HOLO_WIDTH_DEG, v.lightSource, parseF32, atan);
      var before := Prefixed(elements, StaticElements(v, v.inputCircles[i..], parseF32, atan));
      && (arc.Err? ==> before == Err(arc.error))
      && (arc.Ok? ==> before == Prefixed(elements + [InputCircle(c, v.extents.width * CIRCLE_STROKE_WIDTH),
                                                     OutputArc(arc.value, v.extents.width * v.holoStrokeWidth)],
                                         StaticElements(v, v.inputCircles[i + 1..], parseF32, atan)))
  {
    var rest := v.inputCircles[i..];
    assert rest[0] == v.inputCircles[i] && rest[1..] == v.inputCircles[i + 1..];
    StaticElementsStep(v, rest, parseF32, atan);
    var pair := StaticPair(v, rest[0], parseF32, atan);
    var arc := ArcFromLightSource(rest[0], HOLO_WIDTH_DEG, v.lightSource, parseF32, atan);
    StaticPairValue(v, rest[0], parseF32, atan);
    if pair.Ok? {
      PrefixedTwice(elements, pair.value, StaticElements(v, v.inputCircles[i + 1..], parseF32, atan));
    }
  }

  // ---------------------------------------------------------------------
  // The animated arc

  /** The geometry an animation shares: the circle's centre and radius, the angle of the
      first frame, the signed sweep between the two light positions and the number of
      steps it is cut into. */
  datatype Sweep = Sweep(center: Point, radius: real, startAngle: real, sweepAngle: real, steps: nat)

  /** `(sweep_angle.abs() / HOLO_WIDTH_DEG.to_radians()) as usize`: how many whole arc
      widths fit in the sweep, saturated at `usize::MAX`. */
  function StepCount(sweep: real): (n: nat)
    ensures n <= USIZE_MAX
    ensures n as real * HOLO_WIDTH_RAD <= Abs(sweep)
    ensures n < USIZE_MAX ==> Abs(sweep) < (n + 1) as real * HOLO_WIDTH_RAD
  {
    TruncatedQuotientBounds(Abs(sweep), HOLO_WIDTH_RAD);
    SaturatingUsize(Abs(sweep) / HOLO_WIDTH_RAD)
  }

  lemma TruncatedQuotientBounds(a: real, w: real)
    requires 0.0 <= a && 0.0 < w
    ensures SaturatingUsize(a / w) as real * w <= a
    ensures SaturatingUsize(a / w) < USIZE_MAX ==> a < (SaturatingUsize(a / w) + 1) as real * w
  {
    var x := a / w;
    var n := SaturatingUsize(x);
    assert x * w == a;
    DivNonNegative(a, w);
    var t := Trunc(x);
    assert t as real <= x < t as real + 1.0;
    assert 0 <= t;
    assert n == if t > USIZE_MAX then USIZE_MAX else t;
    assert n as real <= x;
    MulRightMono(n as real, x, w);
    if n < USIZE_MAX {
      assert n == t;
      assert x < (n + 1) as real;
      var m := (n + 1) as real;
      MulRightStrict(x, m, w);
      calc {
        a;
        == x * w;
        < m * w;
      }
    }
  }

  lemma DivNonNegative(a: real, w: real)
    requires 0.0 <= a && 0.0 < w
    ensures 0.0 <= a / w
  {
  }

  lemma MulRightMono(a: real, b: real, c: real)
    requires a <= b && 0.0 <= c
    ensures a * c <= b * c
  {
  }

  lemma MulRightStrict(a: real, b: real, c: real)
    requires a < b && 0.0 < c
    ensures a * c < b * c
  {
  }

  /** The checks and the geometry of `animated_arc`, in the order the source meets them:
      the duration, the circle's numbers, then the step count. */
  function SweepOf(c: Circle, lsStart: Point, lsEnd: Point, dur: real, parseF32: string -> Option<real>, angleBetween: (Point, Point) -> real): (r: Result<Sweep, ArcError>)
    ensures r == Err(NonPositiveDuration) <==> dur <= 0.0
    ensures (r.Err? && r.error.InvalidCircleValue?) <==> dur > 0.0 && CircleValues(c, parseF32).Err?
    ensures dur > 0.0 && CircleValues(c, parseF32).Err? ==> r == Err(CircleValues(c, parseF32).error)
    ensures dur > 0.0 && CircleValues(c, parseF32).Ok? ==>
      var (cx, cy, _) := CircleValues(c, parseF32).value;
      var n := StepCount(angleBetween(Point(lsEnd.x - cx, lsEnd.y - cy), Point(lsStart.x - cx, lsStart.y - cy)));
      && (r == Err(StepCountOverflow) <==> 2 * n > USIZE_MAX)
      && (r == Err(NoSteps) <==> n == 0)
      && (r.Ok? <==> 1 <= n && 2 * n <= USIZE_MAX)
    ensures r.Ok? ==>
      var (cx, cy, radius) := CircleValues(c, parseF32).value;
      var vecStart := Point(lsStart.x - cx, lsStart.y - cy);
      var vecEnd := Point(lsEnd.x - cx, lsEnd.y - cy);
      && dur > 0.0
      && r.value == Sweep(Point(cx, cy), radius, angleBetween(vecStart, Point(1.0, 0.0)), angleBetween(vecEnd, vecStart), r.value.steps)
      && 1 <= r.value.steps && 2 * r.value.steps <= USIZE_MAX
      && r.value.steps == StepCount(r.value.sweepAngle)
  {
    if dur <= 0.0 then Err(NonPositiveDuration)
    else
      var v :- CircleValues(c, parseF32);
      var (cx, cy, radius) := v;
      var vecStart := Point(lsStart.x - cx, lsStart.y - cy);
      var vecEnd := Point(lsEnd.x - cx, lsEnd.y - cy);
      var sweep := angleBetween(vecEnd, vecStart);
      var n := StepCount(sweep);
      if 2 * n > USIZE_MAX then Err(StepCountOverflow)
      else if n == 0 then Err(NoSteps)
      else Ok(Sweep(Point(cx, cy), radius, angleBetween(vecStart, Point(1.0, 0.0)), sweep, n))
  }

  /** `step_size`: the sweep divided by the number of steps. */
  function StepSize(s: Sweep): real
    requires s.steps >= 1
  {
    s.sweepAngle / s.steps as real
  }

  /** Consecutive frames are between one and two arc widths apart: the arcs of two
      neighbouring frames do not overlap, and the gap between them is narrower than an
      arc. */
  lemma StepSizeBounds(s: Sweep)
    requires 1 <= s.steps < USIZE_MAX
    requires s.steps == StepCount(s.sweepAngle)
    ensures HOLO_WIDTH_RAD <= Abs(StepSize(s)) < 2.0 * HOLO_WIDTH_RAD
  {
    AbsQuotient(s.sweepAngle, s.steps as real);
    QuotientBounds(Abs(s.sweepAngle), s.steps as real, HOLO_WIDTH_RAD);
  }

  lemma AbsQuotient(a: real, n: real)
    requires 0.0 < n
    ensures Abs(a / n) == Abs(a) / n
  {
    if a < 0.0 {
      assert a / n < 0.0;
      assert -(a / n) == (-a) / n;
    } else {
      DivNonNegative(a, n);
    }
  }

  /** If n widths fit in `a` and n + 1 do not, with n at least 1, then `a / n` is at
      least one width and less than two. */
  lemma QuotientBounds(a: real, n: real, w: real)
    requires 1.0 <= n && 0.0 < w
    requires n * w <= a < (n + 1.0) * w
    ensures w <= a / n < 2.0 * w
  {
    var q := a / n;
    assert q * n == a;
    if q < w {
      MulRightStrict(q, w, n);
      assert false;
    }
    if q >= 2.0 * w {
      MulRightMono(2.0 * w, q, n);
      MulRightMono(1.0, n, w);
      assert false;
    }
  }

  /** The angle of frame `k`: `start_angle + k * step_size`. */
  function FrameAngle(s: Sweep, k: nat): real
    requires s.steps >= 1
  {
    s.startAngle + k as real * StepSize(s)
  }

  /** Every frame of the schedule lies within the sweep, at least one step short of its
      far end: the light's end position is never drawn. */
  lemma FramesStopShortOfEnd(s: Sweep, k: nat)
    requires k < s.steps
    ensures FrameAngle(s, 0) == s.startAngle
    ensures Abs(FrameAngle(s, k) - s.startAngle) <= Abs(s.sweepAngle) - Abs(StepSize(s))
    ensures s.sweepAngle != 0.0 ==> FrameAngle(s, k) != s.startAngle + s.sweepAngle
  {
    assert FrameAngle(s, k) - s.startAngle == k as real * StepSize(s);
    ShortOfEnd(k as real, s.steps as real, s.sweepAngle);
  }

  /** k steps of sweep / n, with k < n, stay one step short of the sweep. */
  lemma ShortOfEnd(k: real, n: real, sweep: real)
    requires 0.0 <= k <= n - 1.0
    ensures Abs(k * (sweep / n)) <= Abs(sweep) - Abs(sweep / n)
    ensures sweep != 0.0 ==> Abs(k * (sweep / n)) < Abs(sweep)
  {
    var q := Abs(sweep / n);
    AbsQuotient(sweep, n);
    assert q * n == Abs(sweep);
    AbsScale(k, sweep / n);
    MulRightMono(k, n - 1.0, q);
    assert (n - 1.0) * q == n * q - q;
    if sweep != 0.0 {
      DivPositive(Abs(sweep), n);
    }
  }

  lemma AbsScale(k: real, x: real)
    requires 0.0 <= k
    ensures Abs(k * x) == k * Abs(x)
  {
    if x < 0.0 {
      assert k * x == -(k * -x);
      MulRightMono(0.0, k, -x);
    } else {
      MulRightMono(0.0, k, x);
    }
  }

  lemma DivPositive(a: real, n: real)
    requires 0.0 < a && 0.0 < n
    ensures 0.0 < a / n
  {
  }

  /** `circular_arc_animation_by_angle`: the arc `widthDeg` wide centred on `angle`,
      drawn with the y axis pointing down and sweep flag 1. */
  function ArcByAngle(center: Point, radius: real, angle: real, widthDeg: real): (a: Arc)
    ensures a.center == center && a.radius == radius
    ensures (a.fromAngle + a.toAngle) / 2.0 == angle
    ensures a.toAngle - a.fromAngle == ToRadians(widthDeg)
    ensures !a.flipY && a.sweep
  {
    Arc(center, radius, angle - ToRadians(widthDeg) / 2.0, angle + ToRadians(widthDeg) / 2.0, false, true)
  }

  /** Frame `k` of the animation. */
  function Frame(s: Sweep, k: nat): Arc
    requires s.steps >= 1
  {
    ArcByAngle(s.center, s.radius, FrameAngle(s, k), HOLO_WIDTH_DEG)
  }

  /** The frame shown at position `j` of the schedule of `n` frames: up from 0 to n - 1,
      then down again to 0. */
  function FrameIndex(n: nat, j: nat): (k: nat)
    requires j < 2 * n - 1
    ensures k < n
    ensures k == j || k == 2 * n - 2 - j
  {
    if j < n then j else 2 * n - 2 - j
  }

  /** The schedule is a palindrome of length 2n - 1 that starts and ends at frame 0 and
      turns at frame n - 1, showing every frame on the way up and on the way down. */
  lemma ScheduleShape(n: nat)
    requires n >= 1
    ensures FrameIndex(n, 0) == 0 && FrameIndex(n, 2 * n - 2) == 0
    ensures FrameIndex(n, n - 1) == n - 1
    ensures forall j :: 0 <= j < 2 * n - 1 ==> FrameIndex(n, j) == FrameIndex(n, 2 * n - 2 - j)
    ensures forall j :: 0 <= j < n ==> FrameIndex(n, j) == j
    ensures forall j :: n - 1 <= j < 2 * n - 1 ==> FrameIndex(n, j) == 2 * n - 2 - j
  {
  }

  /** The frames of the animation in schedule order. */
  function AnimationValues(s: Sweep): (values: seq<Arc>)
    requires s.steps >= 1
    ensures |values| == 2 * s.steps - 1
    ensures values[0] == values[|values| - 1] == Frame(s, 0)
    ensures values[s.steps - 1] == Frame(s, s.steps - 1)
    ensures forall j :: 0 <= j < |values| ==> values[j] == values[|values| - 1 - j]
    ensures forall j :: 0 <= j < s.steps ==> values[j] == Frame(s, j)
  {
    ScheduleShape(s.steps);
    seq(2 * s.steps - 1, j requires 0 <= j < 2 * s.steps - 1 => Frame(s, FrameIndex(s.steps, j)))
  }

  /** The animation of one circle's arc, repeating without end. */
  function AnimationOf(c: Circle, lsStart: Point, lsEnd: Point, dur: real, parseF32: string -> Option<real>, angleBetween: (Point, Point) -> real): Result<Animation, ArcError> {
    var s :- SweepOf(c, lsStart, lsEnd, dur, parseF32, angleBetween);
    Ok(Animation(dur, "indefinite", "d", AnimationValues(s)))
  }

  /** `animated_arc`: the checks, then the frames in schedule order. The animation runs
      forward and back through the frames and returns to where it started. */
  method AnimatedArc(c: Circle, lsStart: Point, lsEnd: Point, dur: real, parseF32: string -> Option<real>, angleBetween: (Point, Point) -> real) returns (r: Result<Animation, ArcError>)
    ensures r == AnimationOf(c, lsStart, lsEnd, dur, parseF32, angleBetween)
    ensures r.Ok? <==> SweepOf(c, lsStart, lsEnd, dur, parseF32, angleBetween).Ok?
    ensures r.Err? ==> r.error == SweepOf(c, lsStart, lsEnd, dur, parseF32, angleBetween).error
    ensures r.Ok? ==>
      var values := r.value.values;
      && |values| % 2 == 1
      && values[0] == values[|values| - 1]
      && forall j :: 0 <= j < |values| ==> values[j] == values[|values| - 1 - j]
  {
    var sweep := SweepOf(c, lsStart, lsEnd, dur, parseF32, angleBetween);
    if sweep.Err? {
      return Err(sweep.error);
    }
    var s := sweep.value;
    var values := AnimationFrames(s);
    assert values == AnimationValues(s);
    r := Ok(Animation(dur, "indefinite", "d", values));
    ScheduleShape(s.steps);
  }

  /** The loop of `animated_arc`: over steps 0 ..= 2n - 1, a step below n computes frame
      `step` and shows it, step n is skipped, and a step above n shows the stored frame
      2n - 1 - step again. */
  method AnimationFrames(s: Sweep) returns (values: seq<Arc>)
    requires 1 <= s.steps
    ensures |values| == 2 * s.steps - 1
    ensures forall j :: 0 <= j < |values| ==> values[j] == Frame(s, FrameIndex(s.steps, j))
  {
    var numSteps := s.steps;
    var numFrames := numSteps * 2 - 1;
    var frames: seq<Arc> := [];
    values := [];
    for step := 0 to numFrames + 1
      invariant |frames| == if step < numSteps then step else numSteps
      invariant forall k :: 0 <= k < |frames| ==> frames[k] == Frame(s, k)
      invariant |values| == if step <= numSteps then step else step - 1
      invariant forall j :: 0 <= j < |values| ==> values[j] == Frame(s, FrameIndex(numSteps, j))
    {
      if step < numSteps {
        frames := frames + [ArcByAngle(s.center, s.radius, s.startAngle + step as real * StepSize(s), HOLO_WIDTH_DEG)];
        values := values + [frames[step]];
      } else if step > numSteps {
        assert FrameIndex(numSteps, step - 1) == numFrames - step;
        values := values + [frames[numFrames - step]];
      }
    }
  }

  // ---------------------------------------------------------------------
  // The animated hologram

  /** The two elements drawn for one input circle: the circle, then its animated arc. */
  function AnimatedPair(v: Visualizer, c: Circle, lsStart: Point, lsEnd: Point, dur: real, parseF32: string -> Option<real>, angleBetween: (Point, Point) -> real): Result<seq<Element>, ArcError> {
    var animation :- AnimationOf(c, lsStart, lsEnd, dur, parseF32, angleBetween);
    Ok([InputCircle(c, v.extents.width * CIRCLE_STROKE_WIDTH), AnimatedOutputArc(animation, v.extents.width * HOLO_STROKE_WIDTH)])
  }

  /** The elements of the animated hologram for `circles`; the first circle that fails
      fails the whole. */
  function AnimatedElements(v: Visualizer, circles: seq<Circle>, lsStart: Point, lsEnd: Point, dur: real, parseF32: string -> Option<real>, angleBetween: (Point, Point) -> real): Result<seq<Element>, ArcError>
    decreases |circles|
  {
    if circles == [] then Ok([])
    else
      var pair :- AnimatedPair(v, circles[0], lsStart, lsEnd, dur, parseF32, angleBetween);
      var rest :- AnimatedElements(v, circles[1..], lsStart, lsEnd, dur, parseF32, angleBetween);
      Ok(pair + rest)
  }

  /** The animated hologram of a visualizer. */
  function AnimatedHologram(v: Visualizer, lsStart: Point, lsEnd: Point, dur: real, parseF32: string -> Option<real>, angleBetween: (Point, Point) -> real): Result<Document, ArcError> {
    var elements :- AnimatedElements(v, v.inputCircles, lsStart, lsEnd, dur, parseF32, angleBetween);
    Ok(Wrap(v, elements))
  }

  /** The animated hologram draws, per input circle and in order, the circle and then its
      animated arc; it fails exactly when the animation of some circle fails. */
  lemma {:induction false} AnimatedElementsShape(v: Visualizer, circles: seq<Circle>, lsStart: Point, lsEnd: Point, dur: real, parseF32: string -> Option<real>, angleBetween: (Point, Point) -> real)
    decreases |circles|
    ensures var r := AnimatedElements(v, circles, lsStart, lsEnd, dur, parseF32, angleBetween);
      && (r.Ok? <==> forall i :: 0 <= i < |circles| ==> AnimationOf(circles[i], lsStart, lsEnd, dur, parseF32, angleBetween).Ok?)
      && (r.Ok? ==> |r.value| == 2 * |circles|)
      && (r.Ok? ==> forall i :: 0 <= i < |circles| ==>
            && r.value[2 * i] == InputCircle(circles[i], v.extents.width * CIRCLE_STROKE_WIDTH)
            && r.value[2 * i + 1] == AnimatedOutputArc(AnimationOf(circles[i], lsStart, lsEnd, dur, parseF32, angleBetween).value,
                                                       v.extents.width * HOLO_STROKE_WIDTH))
  {
    if circles != [] {
      var tail := circles[1..];
      AnimatedElementsShape(v, tail, lsStart, lsEnd, dur, parseF32, angleBetween);
      assert forall i :: 0 <= i < |tail| ==> tail[i] == circles[i + 1];
      var head := AnimatedPair(v, circles[0], lsStart, lsEnd, dur, parseF32, angleBetween);
      var rest := AnimatedElements(v, tail, lsStart, lsEnd, dur, parseF32, angleBetween);
      if head.Ok? && rest.Ok? {
        AnimatedElementsCons(v, circles, lsStart, lsEnd, dur, parseF32, angleBetween, head.value, rest.value);
      } else if head.Ok? {
        var i :| 0 <= i < |tail| && AnimationOf(tail[i], lsStart, lsEnd, dur, parseF32, angleBetween).Err?;
        assert AnimationOf(circles[i + 1], lsStart, lsEnd, dur, parseF32, angleBetween).Err?;
      }
    }
  }

  lemma AnimatedElementsStep(v: Visualizer, circles: seq<Circle>, lsStart: Point, lsEnd: Point, dur: real, parseF32: string -> Option<real>, angleBetween: (Point, Point) -> real)
    requires circles != []
    ensures var pair := AnimatedPair(v, circles[0], lsStart, lsEnd, dur, parseF32, angleBetween);
      && (pair.Err? ==> AnimatedElements(v, circles, lsStart, lsEnd, dur, parseF32, angleBetween) == Err(pair.error))
      && (pair.Ok? ==> AnimatedElements(v, circles, lsStart, lsEnd, dur, parseF32, angleBetween)
                         == Prefixed(pair.value, AnimatedElements(v, circles[1..], lsStart, lsEnd, dur, parseF32, angleBetween)))
  {
  }

  lemma AnimatedElementsCons(v: Visualizer, circles: seq<Circle>, lsStart: Point, lsEnd: Point, dur: real, parseF32: string -> Option<real>, angleBetween: (Point, Point) -> real, pair: seq<Element>, rest: seq<Element>)
    requires circles != []
    requires forall i :: 0 <= i < |circles| ==> AnimationOf(circles[i], lsStart, lsEnd, dur, parseF32, angleBetween).Ok?
    requires AnimatedPair(v, circles[0], lsStart, lsEnd, dur, parseF32, angleBetween) == Ok(pair)
    requires |rest| == 2 * (|circles| - 1)
    requires forall i :: 0 <= i < |circles| - 1 ==>
      && rest[2 * i] == InputCircle(circles[1..][i], v.extents.width * CIRCLE_STROKE_WIDTH)
      && rest[2 * i + 1] == AnimatedOutputArc(AnimationOf(circles[1..][i], lsStart, lsEnd, dur, parseF32, angleBetween).value,
                                              v.extents.width * HOLO_STROKE_WIDTH)
    ensures forall i :: 0 <= i < |circles| ==>
      && (pair + rest)[2 * i] == InputCircle(circles[i], v.extents.width * CIRCLE_STROKE_WIDTH)
      && (pair + rest)[2 * i + 1] == AnimatedOutputArc(AnimationOf(circles[i], lsStart, lsEnd, dur, parseF32, angleBetween).value,
                                                       v.extents.width * HOLO_STROKE_WIDTH)
  {
    forall i | 0 <= i < |circles|
      ensures (pair + rest)[2 * i] == InputCircle(circles[i], v.extents.width * CIRCLE_STROKE_WIDTH)
      ensures (pair + rest)[2 * i + 1] == AnimatedOutputArc(AnimationOf(circles[i], lsStart, lsEnd, dur, parseF32, angleBetween).value,
                                                            v.extents.width * HOLO_STROKE_WIDTH)
    {
      if i > 0 {
        assert circles[i] == circles[1..][i - 1];
        assert (pair + rest)[2 * i] == rest[2 * (i - 1)];
        assert (pair + rest)[2 * i + 1] == rest[2 * (i - 1) + 1];
      }
    }
  }

  /** `build_animated_hologram`: one pass over the input circles, appending the circle
      and its animated arc, inside a 500 by 500 document whose viewBox is the drawing's
      extents. */
  method BuildAnimatedHologram(v: Visualizer, lsStart: Point, lsEnd: Point, dur: real, parseF32: string -> Option<real>, angleBetween: (Point, Point) -> real) returns (d: Result<Document, ArcError>)
    ensures d == AnimatedHologram(v, lsStart, lsEnd, dur, parseF32, angleBetween)
  {
    var elements: seq<Element> := [];
    var i := 0;
    ghost var all := AnimatedElements(v, v.inputCircles, lsStart, lsEnd, dur, parseF32, angleBetween);
    PrefixedEmpty(all);
    assert v.inputCircles[i..] == v.inputCircles;
    while i < |v.inputCircles|
      invariant i <= |v.inputCircles|
      invariant all == Prefixed(elements, AnimatedElements(v, v.inputCircles[i..], lsStart, lsEnd, dur, parseF32, angleBetween))
    {
      var circle := v.inputCircles[i];
      var newCircle := InputCircle(circle, v.extents.width * CIRCLE_STROKE_WIDTH);
      var animation := AnimatedArc(circle, lsStart, lsEnd, dur, parseF32, angleBetween);
      AnimatedLoopStep(v, lsStart, lsEnd, dur, parseF32, angleBetween, i, elements);
      if animation.Err? {
        return Err(animation.error);
      }
      var svgArc := AnimatedOutputArc(animation.value, v.extents.width * HOLO_STROKE_WIDTH);
      elements := elements + [newCircle, svgArc];
      i := i + 1;
    }
    assert v.inputCircles[i..] == [];
    assert elements + [] == elements;
    d := Ok(Wrap(v, elements));
  }

  /** The animated document is 500 by 500 pixels with the drawing's extents as its
      viewBox, and holds per input circle, in order, the circle and then its animation. */
  lemma AnimatedHologramDocument(v: Visualizer, lsStart: Point, lsEnd: Point, dur: real, parseF32: string -> Option<real>, angleBetween: (Point, Point) -> real)
    ensures var d := AnimatedHologram(v, lsStart, lsEnd, dur, parseF32, angleBetween);
      && (d.Ok? <==> forall i :: 0 <= i < |v.inputCircles| ==> AnimationOf(v.inputCircles[i], lsStart, lsEnd, dur, parseF32, angleBetween).Ok?)
      && (d.Ok? ==>
            && d.value.width == DEFAULT_WIDTH_PX && d.value.height == DEFAULT_HEIGHT_PX
            && d.value.viewBox == AsTuple(v.extents) && d.value.style == v.style
            && |d.value.elements| == 2 * |v.inputCircles|
            && forall i :: 0 <= i < |v.inputCircles| ==>
                 d.value.elements[2 * i] == InputCircle(v.inputCircles[i], v.extents.width * CIRCLE_STROKE_WIDTH))
  {
    AnimatedElementsShape(v, v.inputCircles, lsStart, lsEnd, dur, parseF32, angleBetween);
  }

  /** One turn of the animated builder's loop. */
  lemma AnimatedLoopStep(v: Visualizer, lsStart: Point, lsEnd: Point, dur: real, parseF32: string -> Option<real>, angleBetween: (Point, Point) -> real, i: nat, elements: seq<Element>)
    requires i < |v.inputCircles|
    ensures var c := v.inputCircles[i];
      var animation := AnimationOf(c, lsStart, lsEnd, dur, parseF32, angleBetween);
      var before := Prefixed(elements, AnimatedElements(v, v.inputCircles[i..], lsStart, lsEnd, dur, parseF32, angleBetween));
      && (animation.Err? ==> before == Err(animation.error))
      && (animation.Ok? ==> before == Prefixed(elements + [InputCircle(c, v.extents.width * CIRCLE_STROKE_WIDTH),
                                                           AnimatedOutputArc(animation.value, v.extents.width * HOLO_STROKE_WIDTH)],
                                               AnimatedElements(v, v.inputCircles[i + 1..], lsStart, lsEnd, dur, parseF32, angleBetween)))
  {
    var rest := v.inputCircles[i..];
    assert rest[0] == v.inputCircles[i] && rest[1..] == v.inputCircles[i + 1..];
    AnimatedElementsStep(v, rest, lsStart, lsEnd, dur, parseF32, angleBetween);
    var pair := AnimatedPair(v, rest[0], lsStart, lsEnd, dur, parseF32, angleBetween);
    var animation := AnimationOf(rest[0], lsStart, lsEnd, dur, parseF32, angleBetween);
    if pair.Ok? {
      assert animation.Ok?;
      assert pair.value == [InputCircle(rest[0], v.extents.width * CIRCLE_STROKE_WIDTH),
                            AnimatedOutputArc(animation.value, v.extents.width * HOLO_STROKE_WIDTH)];
      PrefixedTwice(elements, pair.value, AnimatedElements(v, v.inputCircles[i + 1..], lsStart, lsEnd, dur, parseF32, angleBetween));
    }
  }

  // ---------------------------------------------------------------------
  // The documented cases

  /** Without input circles the duration is never checked: any duration gives an empty
      drawing. With at least one circle a duration that is not positive fails. */
  lemma DurationCheckedPerCircle(v: Visualizer, lsStart: Point, lsEnd: Point, dur: real, parseF32: string -> Option<real>, angleBetween: (Point, Point) -> real)
    ensures v.inputCircles == [] ==> AnimatedElements(v, v.inputCircles, lsStart, lsEnd, dur, parseF32, angleBetween) == Ok([])
    ensures v.inputCircles != [] && dur <= 0.0 ==>
      AnimatedElements(v, v.inputCircles, lsStart, lsEnd, dur, parseF32, angleBetween) == Err(NonPositiveDuration)
  {
  }

  /** A light source that moves by less than one arc width as seen from the circle
      leaves no step to animate, which fails. */
  lemma NarrowSweepFails(c: Circle, lsStart: Point, lsEnd: Point, dur: real, parseF32: string -> Option<real>, angleBetween: (Point, Point) -> real)
    requires dur > 0.0 && CircleValues(c, parseF32).Ok?
    requires var (cx, cy, _) := CircleValues(c, parseF32).value;
      Abs(angleBetween(Point(lsEnd.x - cx, lsEnd.y - cy), Point(lsStart.x - cx, lsStart.y - cy))) < HOLO_WIDTH_RAD
    ensures SweepOf(c, lsStart, lsEnd, dur, parseF32, angleBetween) == Err(NoSteps)
  {
    var (cx, cy, _) := CircleValues(c, parseF32).value;
    var sweep := angleBetween(Point(lsEnd.x - cx, lsEnd.y - cy), Point(lsStart.x - cx, lsStart.y - cy));
    var n := StepCount(sweep);
    if n >= 1 {
      MulRightMono(1.0, n as real, HOLO_WIDTH_RAD);
      assert false;
    }
  }
}
