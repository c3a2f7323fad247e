# holographit in Dafny

holographit turns a 3D model into scratch holograms: a drawing of circles that are
scratched into a plastic sheet. Under a point light, each circle reflects the light
from one short arc only, and that arc moves as the viewer moves. This project models
the core of the repository's three crates and proves properties of that model:

- **holoscribe**, model.rs (`ObjInterpolator::interpolate_edges`).
  - Reads the faces of a Wavefront OBJ mesh.
  - Collects each face's triangle edges in a set. The edges are undirected and each is stored once.
  - Emits evenly spaced points along every edge.
- **holoscribe**, scriber/mod.rs (`Scriber`, `DebugScriber`).
  - Draws every point as a small diamond whose size encodes its depth.
  - Adds a rectangle around the margin-extended bounds.
  - Sets the document's viewBox to those bounds.
- **holoviz**, lib.rs and visualizer.rs (`Visualizer`).
  - Parses the circles and the viewBox extents out of an SVG drawing.
  - Places a default light source.
  - Builds the static hologram: every circle, followed by the arc that reflects the light.
  - Builds the animated hologram: every circle, followed by an arc animation that swings forward and back between two light positions.
  - visualizer.rs is a near copy of lib.rs's parser and static builder. It is modelled once, by the same members, and the table below cites both files.
- **holocli** and **holoscribe**, cli.rs (`parse_size`).
  - Parse the canvas size argument `width[xheight](mm|cm|m)` into millimetres.
  - The two crates use different regular expressions. Each is replaced by a hand-written scanner, proved to accept exactly the language of its pattern.

The files:

| file | module | models |
|---|---|---|
| results.dfy | Results | `Option` and `Result` types. A Rust panic becomes an `Err`. |
| numbers.dfy | Numbers | `usize`/`i32`/`f32` limits, truncating and saturating `as` casts, 64-bit wrapping multiplication |
| geometry.dfy | Geometry | `Vec3`, `Point`, `Vec3::lerp` |
| edge_interpolator.dfy | EdgeInterpolator | holoscribe/src/model.rs |
| scriber.dfy | Scribing | holoscribe/src/scriber/mod.rs |
| size_tokens.dfy | SizeTokens | digit runs, `usize::from_str`, the unit factors |
| holocli_size.dfy | HolocliSize | holocli/src/cli.rs |
| holoscribe_size.dfy | HoloscribeSize | holoscribe/src/cli.rs |
| svg_parser.dfy | SvgParsing | `parse_circles_with_extents` and `Extents` (holoviz) |
| hologram.dfy | Hologram | `Visualizer`, the arcs and both hologram builders (holoviz) |

How the model represents the code:

- Code written with loops is modelled as methods with loops.
  - Examples: the three loops of `interpolate_edges`, `bounds`, the parser loop with its `break`, the two builder loops and the frame loop of `animated_arc`.
  - Each such method is proved equal to a recursive specification function.
  - The properties themselves are lemmas about that function.
- Code written as expressions is modelled as functions.
- Where the source would panic, the model returns an `Err` that names the cause: an index out of range, `expect` on a parse failure, `assert!`, or `usize` arithmetic that overflows or underflows.

## Model

| member | source | states |
|---|---|---|
| Numbers.SaturatingI32 | holoscribe/src/model.rs:65 | `f as i32` truncates toward zero; a truncation below `i32::MIN` gives `i32::MIN` and one above `i32::MAX` gives `i32::MAX` |
| Numbers.SaturatingUsize | holoviz/src/lib.rs:346 | `f as usize` truncates toward zero; a negative truncation gives 0 and one above `usize::MAX` gives `usize::MAX` |
| Numbers.WrappingMul | holocli/src/cli.rs:78-81 | the product is below 2^64 and is exact when it fits in a `usize` |
| Geometry.Lerp | holoscribe/src/model.rs:73 | factor 0 gives the start vertex and factor 1 gives the end vertex |
| EdgeInterpolator.CanonicalEdge | holoscribe/src/model.rs:38-42 | the stored pair is (min, max) of the two vertex indices: ordered, with the same end points |
| EdgeInterpolator.CanonicalEdgeSymmetric | holoscribe/src/model.rs:38-42 | both orientations of an edge give the same set element; an edge is already canonical iff a <= b |
| EdgeInterpolator.EdgeSetMembership | holoscribe/src/model.rs:37-43 | an edge is in the set iff it is one of the three triangle edges of some face |
| EdgeInterpolator.EdgeSetCanonical | holoscribe/src/model.rs:38-43 | every stored edge has its smaller index first |
| EdgeInterpolator.QuadKeepsFirstTriangle | holoscribe/src/model.rs:39-42 | only the first three corners of a face are read: a quad loses two of its sides |
| EdgeInterpolator.SharedEdgeStoredOnce | holoscribe/src/model.rs:37-43 | two faces that share a side in opposite directions give five edges, not six |
| EdgeInterpolator.NumPoints | holoscribe/src/model.rs:62-65 | the interval count of an edge is at least 3 |
| EdgeInterpolator.NumPointsDensity | holoscribe/src/model.rs:62-65 | above 3, the count is the whole part of length times density: never above the product, less than one below it while it fits an `i32` |
| EdgeInterpolator.LerpFactorsIncrease | holoscribe/src/model.rs:68-72 | the factors i/n increase strictly from exactly 0 to exactly 1, so the infinity guard never fires |
| EdgeInterpolator.EdgePoints | holoscribe/src/model.rs:68-75 | n + 1 samples; the first is the start vertex and the last is the end vertex |
| EdgeInterpolator.EdgeSamples | holoscribe/src/model.rs:49-75 | an edge emits at least 4 points, from the position of its lower index to that of its higher index |
| EdgeInterpolator.InterpolatedAppend | holoscribe/src/model.rs:46-76 | the points of consecutive edges form contiguous blocks, concatenated in visiting order |
| EdgeInterpolator.InterpolatedLength | holoscribe/src/model.rs:46-76 | the output has at least 4 points per distinct edge |
| EdgeInterpolator.InterpolatedOrderIndependent | holoscribe/src/model.rs:46 | as a multiset, the point cloud does not depend on the order in which the hash set yields its edges |
| EdgeInterpolator.CollectPolyPaths | holoscribe/src/model.rs:28-35 | one path per face, listing the position index of each corner in order |
| EdgeInterpolator.InsertFaceEdges | holoscribe/src/model.rs:37-43 | the edge set of all faces; a face with fewer than three corners fails |
| EdgeInterpolator.SampleEdge | holoscribe/src/model.rs:68-75 | the inner loop appends exactly the n + 1 samples of the edge, in order |
| EdgeInterpolator.InterpolateEdge | holoscribe/src/model.rs:49-75 | one edge: looks up both end positions, counts its intervals and appends its samples |
| EdgeInterpolator.IterationOrder | holoscribe/src/model.rs:46 | the hash set is visited once per edge, in some order |
| EdgeInterpolator.SampleEdges | holoscribe/src/model.rs:45-78 | fails iff some edge names a position past the end; otherwise the samples of every edge, in visiting order |
| EdgeInterpolator.InterpolateEdges | holoscribe/src/model.rs:24-79 | reads only the first group of the first object; each missing level fails; otherwise fails (with `VertexOutOfRange`) iff some edge names a position past the end, and succeeds with the samples of every edge in visiting order |
| Scribing.MapRangeEndpoints | holoscribe/src/scriber/mod.rs:14-18 | the remap sends plane_start to min_size and plane_end to max_size |
| Scribing.MapRangeAffine | holoscribe/src/scriber/mod.rs:14-18 | the remap is affine: it preserves fractions of the way between two depths |
| Scribing.ScribePoint | holoscribe/src/scriber/mod.rs:21-32 | appends exactly six commands and keeps the data before them |
| Scribing.DiamondShape | holoscribe/src/scriber/mod.rs:21-32 | from any pen position: centre, top, left, bottom, right, top again, with half-diagonal map_range(z); the pen ends at (x, y - s) |
| Scribing.RunningMinIsMinimum | holoscribe/src/scriber/mod.rs:90-100 | for finite points the running minimum from the `f32::MAX` sentinel is below every coordinate and is attained |
| Scribing.RunningMaxIsMaximum | holoscribe/src/scriber/mod.rs:91-100 | for finite points the running maximum from the `f32::MIN` sentinel is above every coordinate and is attained |
| Scribing.BoundsEnclose | holoscribe/src/scriber/mod.rs:89-108 | for a non-empty cloud each range is (min - m, max + m): every point lies at least m inside, the extremes exactly m, and lo <= hi when m >= 0 |
| Scribing.EmptyBoundsInverted | holoscribe/src/scriber/mod.rs:89-108 | with no points the sentinels survive and every range is inverted (lo > hi) |
| Scribing.NewScriber | holoscribe/src/scriber/mod.rs:53-60 | a new scriber has margin 1, a black stroke of width 0.05 and the given strategy |
| Scribing.ComputeBounds | holoscribe/src/scriber/mod.rs:89-108 | the loop over six running extremes computes the bounds of the points widened by the margin |
| Scribing.ViewBoxOf | holoscribe/src/scriber/mod.rs:84 | the viewBox starts at (x_min, y_min) and reaches (x_max, y_max) |
| Scribing.ScribePointsBlocks | holoscribe/src/scriber/mod.rs:69-71 | the fold emits six commands per point, each point's diamond in input order |
| Scribing.RectangleShape | holoscribe/src/scriber/mod.rs:72-77 | the rectangle visits the four corners of the bounds and closes where it started |
| Scribing.Scribe | holoscribe/src/scriber/mod.rs:67-86 | the viewBox comes from the bounds; the path has fill none, the scriber's stroke, the diamonds in input order, then exactly the five rectangle commands |
| Scribing.NewScriberSinglePoint | holoscribe/src/scriber/mod.rs:53-59 | one point with the default margin gives a 2 by 2 viewBox centred on it |
| SizeTokens.ParseUsize | holocli/src/cli.rs:63-73 | a digit run parses iff it is non-empty and at most `usize::MAX`; otherwise the error is Empty or PosOverflow |
| SizeTokens.UnitFactor | holocli/src/cli.rs:53-58 | mm is 1, cm is 10 and m is 1000 millimetres |
| SizeTokens.LeadingDigits | holoscribe/src/cli.rs:46 | the greedy `\d+`: the longest prefix of ASCII digits |
| HolocliSize.FindX | holocli/src/cli.rs:61 | `split_once('x')` cuts at the first 'x', or nowhere when there is none |
| HolocliSize.Captures | holocli/src/cli.rs:50-51 | when the scanner matches, the input is size group + unit, and the unit is mm, cm or m |
| HolocliSize.CapturesIffMatches | holocli/src/cli.rs:50-51 | the scanner matches exactly the strings of the pattern: digits, or digits 'x' digits, then mm, cm or m, anchored at both ends |
| HolocliSize.CapturesSound | holocli/src/cli.rs:50-51 | every string the scanner matches is in the pattern's language |
| HolocliSize.CapturesComplete | holocli/src/cli.rs:50-51 | every string in the pattern's language is matched by the scanner |
| SizeTokens.ParseDimension | holocli/src/cli.rs:62-73 | a dimension is its decimal value when it is a non-empty run of digits not above `usize::MAX`, otherwise the crate's `InvalidSizeInt` with the parse error's kind; holoscribe/src/cli.rs:50-52 does the same |
| HolocliSize.ParseSize | holocli/src/cli.rs:49-85 | `InvalidSize` iff the scanner does not match |
| HolocliSize.InvalidSizeIffNoMatch | holocli/src/cli.rs:50-84 | `InvalidSize` is returned exactly for strings outside the pattern's language |
| HolocliSize.ParseSizeRectangle | holocli/src/cli.rs:60-81 | "WxH" + unit gives width from W and height from H, both times the unit factor; overflow of W, then of H, is `InvalidSizeInt(PosOverflow)` |
| HolocliSize.ParseSizeSquare | holocli/src/cli.rs:70-81 | "W" + unit gives a square W by W times the unit factor |
| HolocliSize.UnitAlwaysKnown | holocli/src/cli.rs:52-58 | every accepted string has unit mm, cm or m, so the panic arm cannot be reached |
| HolocliSize.ExampleMillimetres | holocli/src/cli.rs:96-102 | "10x10mm" is 10 by 10 |
| HolocliSize.ExampleCentimetres | holocli/src/cli.rs:103-109 | "10x50cm" is 100 by 500 |
| HolocliSize.ExampleSquare | holocli/src/cli.rs:110-116 | "10cm" is 100 by 100 |
| HolocliSize.ExampleMetres | holocli/src/cli.rs:117-123 | "2x1m" is 2000 by 1000 |
| HolocliSize.RejectsMissingHeight | holocli/src/cli.rs:126 | "10x" is `InvalidSize` |
| HolocliSize.RejectsMissingUnit | holocli/src/cli.rs:127 | "10" is `InvalidSize` |
| HolocliSize.RejectsXBeforeUnit | holocli/src/cli.rs:128 | "312xmm" is `InvalidSize` |
| HolocliSize.RejectsUnknownUnit | holocli/src/cli.rs:129 | "10x10ft" is `InvalidSize` |
| HolocliSize.RejectsSign | holocli/src/cli.rs:130 | "-10x10mm" is `InvalidSize` |
| HolocliSize.OverflowExample | holocli/src/cli.rs:132-138 | "18446744073709552000mm" is `InvalidSizeInt(PosOverflow)` |
| HoloscribeSize.Captures | holoscribe/src/cli.rs:46-47 | when the scanner matches, the width group is a non-empty digit run, the height group a digit run, the unit mm, cm or m |
| HoloscribeSize.CapturesIffMatches | holoscribe/src/cli.rs:46-47 | the scanner matches exactly the strings of the pattern: digits, an optional 'x', optional digits, then mm, cm or m, anchored at both ends |
| HoloscribeSize.CapturesSound | holoscribe/src/cli.rs:46-47 | every string the scanner matches is in the pattern's language |
| HoloscribeSize.CapturesComplete | holoscribe/src/cli.rs:46-47 | every string in the pattern's language is matched by the scanner |
| HoloscribeSize.ParseSize | holoscribe/src/cli.rs:45-86 | `InvalidSize` iff the scanner does not match |
| HoloscribeSize.InvalidSizeIffNoMatch | holoscribe/src/cli.rs:46-85 | `InvalidSize` is returned exactly for strings outside the pattern's language |
| HoloscribeSize.ParseSizeRectangle | holoscribe/src/cli.rs:49-61 | "WxH" + unit gives width from W and height from H, times the unit factor; overflow of W, then of H, is `InvalidSizeInt(PosOverflow)` |
| HoloscribeSize.ParseSizeSquare | holoscribe/src/cli.rs:55-67 | "W" or "Wx" + unit gives a square W by W times the unit factor |
| HoloscribeSize.GreedyWidth | holoscribe/src/cli.rs:46-52 | without an 'x', the width group takes the whole digit run and the height group is empty: "WH" + unit is the square of the number WH (or `InvalidSizeInt(PosOverflow)` when WH exceeds `usize::MAX`) |
| HoloscribeSize.UnitAlwaysKnown | holoscribe/src/cli.rs:70-78 | every accepted string has unit mm, cm or m, so the panic arm cannot be reached |
| HoloscribeSize.ExampleMillimetres | holoscribe/src/cli.rs:100-106 | "10x10mm" is 10 by 10 |
| HoloscribeSize.ExampleCentimetres | holoscribe/src/cli.rs:107-113 | "10x50cm" is 100 by 500 |
| HoloscribeSize.ExampleSquare | holoscribe/src/cli.rs:114-120 | "10cm" is 100 by 100 |
| HoloscribeSize.ExampleMetres | holoscribe/src/cli.rs:121-127 | "2x1m" is 2000 by 1000 |
| HoloscribeSize.ExampleEmptyHeight | holoscribe/src/cli.rs:55-67 | "312xmm" (rejected by holocli) is 312 by 312 |
| HoloscribeSize.RejectsMissingHeight | holoscribe/src/cli.rs:130 | "10x" is `InvalidSize` |
| HoloscribeSize.RejectsUnknownUnit | holoscribe/src/cli.rs:131 | "10x10ft" is `InvalidSize` |
| HoloscribeSize.RejectsSign | holoscribe/src/cli.rs:132 | "-10x10mm" is `InvalidSize` |
| HoloscribeSize.OverflowExample | holoscribe/src/cli.rs:134-140 | "18446744073709552000mm" is `InvalidSizeInt(PosOverflow)` |
| SvgParsing.FromVec | holoviz/src/lib.rs:170-178 | succeeds iff the vector has at least four elements; otherwise the indexing panic |
| SvgParsing.FromVecAsTuple | holoviz/src/visualizer.rs:100-113 | `from_vec` then `as_tuple` gives back the first four elements unchanged and in order |
| SvgParsing.AsTupleFromVec | holoviz/src/lib.rs:165-179 | `from_vec` of an extents value's tuple rebuilds that value |
| SvgParsing.Split | holoviz/src/lib.rs:200 | splitting on ' ' and ',' yields at least one piece |
| SvgParsing.SplitPiecesClean | holoviz/src/lib.rs:200 | no piece contains a separator |
| SvgParsing.SplitJoin | holoviz/src/lib.rs:200 | joining the pieces with spaces gives back the input with commas read as spaces: only separators are lost |
| SvgParsing.SplitFour | holoviz/src/lib.rs:197-202 | four separator-free tokens split by single separators give exactly those four tokens |
| SvgParsing.ParseAll | holoviz/src/lib.rs:198-202 | succeeds iff every token is a number; the values correspond to the tokens one by one |
| SvgParsing.ViewBoxExtents | holoviz/src/lib.rs:197-202 | with a viewBox: a token that is not a number fails, fewer than four tokens fail, and it succeeds exactly when every token parses and there are at least four, giving the first four values |
| SvgParsing.WidthHeightExtents | holoviz/src/visualizer.rs:138-148 | without a viewBox: (0, 0, width, height), each missing dimension defaulting to 500; a width that is not a number fails with `InvalidWidth`, else a height that is not a number fails with `InvalidHeight`; it succeeds exactly when each dimension present is a number |
| SvgParsing.CircleOfTag | holoviz/src/lib.rs:216-222 | succeeds iff cx, cy and r are present, and copies exactly those three attributes verbatim |
| SvgParsing.ParseCirclesWithExtents | holoviz/src/lib.rs:183-233 | the event loop with its two accumulators and its `break` computes the scan from (no circles, 0 0 500 500) |
| SvgParsing.SvgEndIndex | holoviz/src/lib.rs:223-225 | the position of the first `svg` end tag, with none before it |
| SvgParsing.LastSvgStart | holoviz/src/lib.rs:195-215 | the position of the last `svg` start tag, with none after it |
| SvgParsing.ScanWithoutEnd | holoviz/src/lib.rs:193-231 | before any end tag the scan succeeds iff every svg and circle tag is well formed, appends the circles in order and keeps the last svg start tag's extents |
| SvgParsing.ScanStopsAtEnd | holoviz/src/lib.rs:223-225 | nothing after the first `svg` end tag affects the result |
| SvgParsing.ParseMatchesReference | holoviz/src/visualizer.rs:118-168 | the parse succeeds iff the tags before the first `svg` end are well formed; then it gives all circles in document order and the extents of the last svg start tag, or (0, 0, 500, 500) when there is none |
| SvgParsing.SelfClosingSvgKeepsDefault | holoviz/src/lib.rs:510-516 | `<svg/>` leaves the extents at (0, 0, 500, 500) |
| SvgParsing.NestedSvgInnerExtentsWin | holoviz/src/lib.rs:445-463 | in nested drawings the inner viewBox wins and the circle inside is kept |
| SvgParsing.SpaceSeparatedViewBox | holoviz/src/lib.rs:477-493 | the viewBox "-10 -20 300 100" gives (-10, -20, 300, 100) whatever the width and height say |
| SvgParsing.MixedSeparatorViewBox | holoviz/src/lib.rs:449 | commas and spaces both separate: the test's viewBox has four tokens |
| SvgParsing.DoubleSpaceIsInvalid | holoviz/src/lib.rs:198-201 | two adjacent separators make an empty token, which fails |
| SvgParsing.CircleEndTagFails | holoviz/src/lib.rs:216-222 | a circle end tag is handled like any circle tag and fails on its missing cx |
| Hologram.FromSvgContents | holoviz/src/lib.rs:55-71 | succeeds iff the drawing parses; keeps its circles and extents, puts the light at (width / 2, -height / 3), stores the stylesheet and the holo stroke width |
| Hologram.CircleValues | holoviz/src/lib.rs:240-248 | succeeds iff cx, cy and r are numbers; otherwise names one of them that is not |
| Hologram.IncidenceAngle | holoviz/src/visualizer.rs:200-205 | undefined iff the light is at the centre; a light straight above gives pi/2 and one straight below gives -3pi/2 |
| Hologram.IncidenceAngleRange | holoviz/src/lib.rs:265-270 | the angle lies in [0, pi/2] or [-3pi/2, -pi) |
| Hologram.ArcFromLightSource | holoviz/src/visualizer.rs:173-216 | fails iff the circle's numbers fail; otherwise an arc of the circle centred on the incidence angle, 2 x half-cone wide, y flipped, sweep flag 0; no arc when the light is at the centre |
| Hologram.StaticElementsShape | holoviz/src/lib.rs:95-110 | per input circle, in order: the circle and then its arc, with stroke widths width x constant; fails iff some circle does |
| Hologram.StaticLoopStep | holoviz/src/lib.rs:95-110 | one loop turn either fails as the whole fails or appends exactly the circle and its arc |
| Hologram.BuildStaticHologram | holoviz/src/visualizer.rs:76-97 | the builder loop computes the static hologram |
| Hologram.StaticHologramDocument | holoviz/src/lib.rs:93-116 | 500 by 500 with the extents as viewBox and the stylesheet; two elements per circle, the circle first |
| Hologram.StepCount | holoviz/src/lib.rs:346 | the number of whole arc widths that fit in the sweep, saturated at `usize::MAX` |
| Hologram.SweepOf | holoviz/src/lib.rs:324-351 | each check fails exactly when its cause holds and no earlier check failed: duration not positive, a circle number that does not parse, `2n` above `usize::MAX`, n = 0; it succeeds iff none holds, with centre, radius, start angle, sweep and steps |
| Hologram.StepSizeBounds | holoviz/src/lib.rs:346-348 | consecutive frames are at least one and less than two arc widths apart |
| Hologram.FramesStopShortOfEnd | holoviz/src/lib.rs:356-364 | frame 0 is at the start angle; every frame stays one step short of the end, which is never drawn |
| Hologram.ArcByAngle | holoviz/src/lib.rs:394-406 | an arc of the given width centred on the angle, y not flipped, sweep flag 1 |
| Hologram.FrameIndex | holoviz/src/lib.rs:356-370 | the frame shown at a position is below n and is either the position or its mirror 2n - 2 - j |
| Hologram.ScheduleShape | holoviz/src/lib.rs:356-370 | the schedule 0, 1, ..., n-1, n-2, ..., 0 is a palindrome of length 2n - 1 that turns at n - 1 |
| Hologram.AnimationValues | holoviz/src/lib.rs:356-370 | 2n - 1 frames forming a palindrome: frames 0 .. n-1 on the way up, the turn at n - 1, and frame 0 at both ends |
| Hologram.AnimationFrames | holoviz/src/lib.rs:356-370 | the loop over steps 0 ..= 2n - 1, skipping step n, shows frame FrameIndex(n, j) at position j |
| Hologram.AnimatedArc | holoviz/src/lib.rs:318-392 | the animation of one circle; it fails iff the sweep's checks fail, with the same error; its values are an odd-length palindrome that ends on the frame it starts with |
| Hologram.AnimatedElementsShape | holoviz/src/lib.rs:144-156 | per input circle, in order: the circle and then its animation; fails iff some animation does |
| Hologram.AnimatedLoopStep | holoviz/src/lib.rs:144-156 | one loop turn either fails as the whole fails or appends exactly the circle and its animation |
| Hologram.BuildAnimatedHologram | holoviz/src/lib.rs:137-162 | the builder loop computes the animated hologram |
| Hologram.AnimatedHologramDocument | holoviz/src/lib.rs:137-162 | 500 by 500 with the extents as viewBox and the stylesheet; two elements per circle, the circle first |
| Hologram.DurationCheckedPerCircle | holoviz/src/lib.rs:144-152 | the duration check runs per circle: no circles succeed with any duration; otherwise a duration that is not positive fails |
| Hologram.NarrowSweepFails | holoviz/src/lib.rs:346-347 | a sweep narrower than one arc width gives zero steps and fails |

## Left out

- Reading files (`from_file`, `svg::open` and `svg::save`, `Obj::load`), `generate_csv` and the embedded stylesheet file. These are I/O. The stylesheet's text is a parameter.
- The OBJ loader. The model starts from the loaded positions and faces.
- The XML tokenizer of the svg crate. The parser reads the stream of tag events it would produce.
- The number formatting of the svg crate and of `format!`. Path data is a sequence of commands, and an arc is described by its centre, radius and end angles.
- f32 arithmetic is modelled with exact reals: no rounding, NaN or infinities. The sentinels `f32::MAX` and `f32::MIN` are exact constants.
- `f32::from_str`, `atan`, glam's `Vec2::angle_between` and `Vec3::distance` are function parameters. Their results are not computed.
- Hologram.ArcFromLightSource: the arc's end points are given by their polar angles, not by cos and sin. A light at the circle's centre, where the source computes NaN coordinates, gives no arc.
- Hologram.AnimatedArc: the `values` attribute is modelled as the sequence of frames. The source concatenates the frames' text with no separator between them, and that text is not modelled.
- Hologram.SweepOf: `num_steps * 2` is checked as in a debug build: a step count above `usize::MAX / 2` is `StepCountOverflow`, where a release build would wrap and go on. A step count of 0 is `NoSteps` in either build: a debug build panics on the underflow of `num_steps * 2 - 1`, and a release build wraps it and then panics when it indexes the empty frame list (holoviz/src/lib.rs:367).
- HolocliSize.ParseSize: `width * factor` wraps modulo 2^64 as in a release build. A debug build panics instead. HoloscribeSize.ParseSize behaves the same way.
- SizeTokens.IsDigit: `\d` is read as the ASCII digits. The regex crate's `\d` also accepts other Unicode digits, which `parse::<usize>` then rejects with `InvalidSizeInt`.
- EdgeInterpolator.InterpolateEdges: the hash set's iteration order is not modelled. The method returns the order it used as a ghost value, and the point cloud is specified for that order. Properties that hold for every order are stated as multisets.
- The warning that the parser prints for a tag it does not know (holoviz/src/lib.rs:227, holoviz/src/visualizer.rs:162). The model skips such a tag without output.
- `incidence_angle` (holoviz/src/lib.rs:289-307) is unused by the library and is not modelled.
- `CircleScriber` and the strategy argument of the two-argument `Scriber::new` are not defined in the scriber module shown. Only `DebugScriber` is modelled.
- The command-line glue (main.rs of each crate, the clap `Args` structs), the web server, and the benchmarks and file-writing tests.
