/** holoviz's `parse_circles_with_extents` and `Extents`: a scan over the event stream
    of an SVG document that collects the circles and the viewBox extents. The XML
    tokenizer is not modelled: the input is the stream of events it produces, and
    `f32::from_str` is the parameter `parseF32`. */
module SvgParsing {
  import opened Results

  // ---------------------------------------------------------------------
  // Events and results

  datatype TagKind = Start | End | Empty

  /** A tag with its attributes, or any other event (text, comment, declaration,
      instruction or a tokenizer error), which the scan skips. */
  datatype Event =
    | Tag(name: string, kind: TagKind, attributes: map<string, string>)
    | Other(content: string)

  /** An input circle: its centre and radius attributes, copied verbatim. */
  datatype Circle = Circle(cx: string, cy: string, r: string)

  /** `Extents`: the viewBox of the drawing. */
  datatype Extents = Extents(xmin: real, ymin: real, width: real, height: real)

  const DEFAULT_WIDTH_PX: real := 500.0
  const DEFAULT_HEIGHT_PX: real := 500.0

  /** The extents before any `svg` start tag is seen. */
  const DEFAULT_EXTENTS: Extents := Extents(0.0, 0.0, DEFAULT_WIDTH_PX, DEFAULT_HEIGHT_PX)

  /** The panics of the parser. */
  datatype ParseError =
    | InvalidViewBounds            // a viewBox token is not a number
    | TooFewBounds                 // the viewBox has fewer than four tokens
    | InvalidWidth                 // the width attribute is not a number
    | InvalidHeight                // the height attribute is not a number
    | MissingAttribute(name: string) // a circle tag lacks cx, cy or r

  datatype Parsed = Parsed(circles: seq<Circle>, extents: Extents)

  // ---------------------------------------------------------------------
  // Extents

  /** `Extents::from_vec`: the first four numbers; a shorter vector panics on indexing. */
  function FromVec(v: seq<real>): (r: Result<Extents, ParseError>)
    ensures r.Ok? <==> |v| >= 4
    ensures r.Err? ==> r.error == TooFewBounds
  {
    if |v| < 4 then Err(TooFewBounds) else Ok(Extents(v[0], v[1], v[2], v[3]))
  }

  /** `Extents::as_tuple`. */
  function AsTuple(e: Extents): (real, real, real, real) {
    (e.xmin, e.ymin, e.width, e.height)
  }

  /** `from_vec` then `as_tuple` gives back the first four elements unchanged, in order. */
  lemma FromVecAsTuple(v: seq<real>)
    requires |v| >= 4
    ensures AsTuple(FromVec(v).value) == (v[0], v[1], v[2], v[3])
  {
  }

  /** Every extents value is rebuilt by `from_vec` from its own tuple. */
  lemma AsTupleFromVec(e: Extents)
    ensures var t := AsTuple(e); FromVec([t.0, t.1, t.2, t.3]) == Ok(e)
  {
  }

  // ---------------------------------------------------------------------
  // Splitting the viewBox

  predicate IsSeparator(c: char) { c == ' ' || c == ',' }

  /** No character of `s` separates. */
  predicate NoSeparator(s: string) {
    forall i :: 0 <= i < |s| ==> !IsSeparator(s[i])
  }

  /** Splitting from a partly read piece `current`: a separator closes the piece, any
      other character extends it, and the end of input closes the last piece. */
  function SplitFrom(s: string, current: string): (pieces: seq<string>)
    ensures |pieces| >= 1
  {
    if s == [] then [current]
    else if IsSeparator(s[0]) then [current] + SplitFrom(s[1..], "")
    else SplitFrom(s[1..], current + [s[0]])
  }

  /** `str::split([' ', ','])`: the pieces between separators, empty pieces included. */
  function Split(s: string): (pieces: seq<string>)
    ensures |pieces| >= 1
  {
    SplitFrom(s, "")
  }

  /** The pieces joined with single spaces. */
  function JoinSpaces(pieces: seq<string>): string
    requires |pieces| >= 1
  {
    if |pieces| == 1 then pieces[0] else pieces[0] + " " + JoinSpaces(pieces[1..])
  }

  /** The string with every comma read as a space. */
  function CommasToSpaces(s: string): (t: string)
    ensures |t| == |s|
    ensures forall i :: 0 <= i < |s| ==> t[i] == (if s[i] == ',' then ' ' else s[i])
  {
    seq(|s|, i requires 0 <= i < |s| => if s[i] == ',' then ' ' else s[i])
  }

  /** No piece of a split holds a separator. */
  lemma {:induction false} SplitPiecesClean(s: string, current: string)
    requires NoSeparator(current)
    ensures forall i :: 0 <= i < |SplitFrom(s, current)| ==> NoSeparator(SplitFrom(s, current)[i])
  {
    if s != [] {
      if IsSeparator(s[0]) {
        SplitPiecesClean(s[1..], "");
        var p := SplitFrom(s, current);
        forall i | 0 <= i < |p| ensures NoSeparator(p[i]) {
          if i > 0 { assert p[i] == SplitFrom(s[1..], "")[i - 1]; }
        }
      } else {
        assert NoSeparator(current + [s[0]]) by {
          assert forall i :: 0 <= i < |current| ==> (current + [s[0]])[i] == current[i];
        }
        SplitPiecesClean(s[1..], current + [s[0]]);
      }
    }
  }

  /** Splitting loses nothing but the choice of separator: joining the pieces with
      spaces gives back the input with its commas read as spaces. */
  lemma {:induction false} SplitJoin(s: string, current: string)
    ensures JoinSpaces(SplitFrom(s, current)) == current + CommasToSpaces(s)
  {
    if s == [] {
      assert current + CommasToSpaces(s) == current;
    } else {
      var rest := s[1..];
      assert s == [s[0]] + rest;
      CommasToSpacesAppend([s[0]], rest);
      if IsSeparator(s[0]) {
        SplitJoin(rest, "");
        assert CommasToSpaces([s[0]]) == " ";
        assert "" + CommasToSpaces(rest) == CommasToSpaces(rest);
      } else {
        SplitJoin(rest, current + [s[0]]);
        assert CommasToSpaces([s[0]]) == [s[0]];
      }
    }
  }

  lemma CommasToSpacesAppend(a: string, b: string)
    ensures CommasToSpaces(a + b) == CommasToSpaces(a) + CommasToSpaces(b)
  {
    var l, r := CommasToSpaces(a + b), CommasToSpaces(a) + CommasToSpaces(b);
    forall i | 0 <= i < |l| ensures l[i] == r[i] {
      if i < |a| { assert (a + b)[i] == a[i]; } else { assert (a + b)[i] == b[i - |a|]; }
    }
  }

  /** A separator-free run extends the current piece; the separator after it closes it. */
  lemma {:induction false} SplitFromCons(a: string, sep: char, rest: string, current: string)
    requires NoSeparator(a) && IsSeparator(sep)
    ensures SplitFrom(a + [sep] + rest, current) == [current + a] + SplitFrom(rest, "")
  {
    var s := a + [sep] + rest;
    if a == [] {
      assert s[0] == sep && s[1..] == rest;
      assert current + a == current;
    } else {
      assert s[0] == a[0] && !IsSeparator(a[0]);
      assert s[1..] == a[1..] + [sep] + rest;
      assert NoSeparator(a[1..]) by {
        assert forall i :: 0 <= i < |a[1..]| ==> a[1..][i] == a[i + 1];
      }
      SplitFromCons(a[1..], sep, rest, current + [a[0]]);
      assert current + [a[0]] + a[1..] == current + a;
    }
  }

  /** A separator-free tail becomes the last piece. */
  lemma {:induction false} SplitFromWhole(a: string, current: string)
    requires NoSeparator(a)
    ensures SplitFrom(a, current) == [current + a]
  {
    if a == [] {
      assert current + a == current;
    } else {
      assert NoSeparator(a[1..]) by {
        assert forall i :: 0 <= i < |a[1..]| ==> a[1..][i] == a[i + 1];
      }
      SplitFromWhole(a[1..], current + [a[0]]);
      assert current + [a[0]] + a[1..] == current + a;
    }
  }

  /** A viewBox of four separator-free tokens splits into exactly those four tokens. */
  lemma SplitFour(a: string, b: string, c: string, d: string, s1: char, s2: char, s3: char)
    requires NoSeparator(a) && NoSeparator(b) && NoSeparator(c) && NoSeparator(d)
    requires IsSeparator(s1) && IsSeparator(s2) && IsSeparator(s3)
    ensures Split(a + [s1] + (b + [s2] + (c + [s3] + d))) == [a, b, c, d]
  {
    var t3 := c + [s3] + d;
    var t2 := b + [s2] + t3;
    var t1 := a + [s1] + t2;
    SplitFromWhole(d, "");
    assert "" + d == d && "" + c == c && "" + b == b && "" + a == a;
    SplitFromCons(c, s3, d, "");
    assert SplitFrom(t3, "") == [c, d];
    SplitFromCons(b, s2, t3, "");
    assert SplitFrom(t2, "") == [b, c, d];
    SplitFromCons(a, s1, t2, "");
  }

  // ---------------------------------------------------------------------
  // One tag

  /** `.map(|b| b.parse::<f32>().expect(..)).collect()`: every token must parse. */
  function ParseAll(tokens: seq<string>, parseF32: string -> Option<real>): (r: Result<seq<real>, ParseError>)
    ensures r.Ok? <==> forall i :: 0 <= i < |tokens| ==> parseF32(tokens[i]).Some?
    ensures r.Ok? ==> |r.value| == |tokens| && forall i :: 0 <= i < |tokens| ==> parseF32(tokens[i]) == Some(r.value[i])
    ensures r.Err? ==> r.error == InvalidViewBounds
  {
    if tokens == [] then Ok([])
    else match parseF32(tokens[0])
      case None => Err(InvalidViewBounds)
      case Some(v) =>
        var rest := ParseAll(tokens[1..], parseF32);
        if rest.Err? then rest
        else
          assert forall i :: 1 <= i < |tokens| ==> tokens[i] == tokens[1..][i - 1];
          Ok([v] + rest.value)
  }

  /** A dimension attribute: parsed when present, 500 when absent. */
  function Dimension(attributes: map<string, string>, name: string, parseF32: string -> Option<real>, error: ParseError): Result<real, ParseError> {
    if name !in attributes then Ok(500.0)
    else match parseF32(attributes[name])
      case None => Err(error)
      case Some(v) => Ok(v)
  }

  /** The extents an `svg` start tag sets: from the viewBox when it has one, otherwise
      from its width and height. */
  function ExtentsOfSvgTag(attributes: map<string, string>, parseF32: string -> Option<real>): Result<Extents, ParseError> {
    if "viewBox" in attributes then
      var values :- ParseAll(Split(attributes["viewBox"]), parseF32);
      FromVec(values)
    else
      var width :- Dimension(attributes, "width", parseF32, InvalidWidth);
      var height :- Dimension(attributes, "height", parseF32, InvalidHeight);
      FromVec([0.0, 0.0, width, height])
  }

  /** With a viewBox the extents are its first four tokens; a token that is not a number
      or fewer than four tokens is a failure, every other viewBox succeeds, and the width
      and height are ignored. */
  lemma ViewBoxExtents(attributes: map<string, string>, parseF32: string -> Option<real>)
    requires "viewBox" in attributes
    ensures var tokens := Split(attributes["viewBox"]);
      var r := ExtentsOfSvgTag(attributes, parseF32);
      && (r == Err(InvalidViewBounds) <==> exists i :: 0 <= i < |tokens| && parseF32(tokens[i]).None?)
      && (r == Err(TooFewBounds) <==> (forall i :: 0 <= i < |tokens| ==> parseF32(tokens[i]).Some?) && |tokens| < 4)
      && (r.Ok? <==> (forall i :: 0 <= i < |tokens| ==> parseF32(tokens[i]).Some?) && |tokens| >= 4)
      && (r.Ok? ==> |tokens| >= 4 && forall i :: 0 <= i < 4 ==> parseF32(tokens[i]) == Some([r.value.xmin, r.value.ymin, r.value.width, r.value.height][i]))
  {
  }

  /** Without a viewBox the extents are (0, 0, width, height), each missing dimension
      defaulting to 500; a dimension that is not a number is a failure, width first, and
      the tag succeeds exactly when each dimension present is a number. */
  lemma WidthHeightExtents(attributes: map<string, string>, parseF32: string -> Option<real>)
    requires "viewBox" !in attributes
    ensures var r := ExtentsOfSvgTag(attributes, parseF32);
      && (r == Err(InvalidWidth) <==> "width" in attributes && parseF32(attributes["width"]).None?)
      && (r == Err(InvalidHeight) <==>
            && ("width" !in attributes || parseF32(attributes["width"]).Some?)
            && "height" in attributes && parseF32(attributes["height"]).None?)
      && (r.Ok? <==>
            && ("width" !in attributes || parseF32(attributes["width"]).Some?)
            && ("height" !in attributes || parseF32(attributes["height"]).Some?))
      && (r.Ok? ==>
            && r.value.xmin == 0.0 && r.value.ymin == 0.0
            && ("width" !in attributes ==> r.value.width == DEFAULT_WIDTH_PX)
            && ("width" in attributes ==> parseF32(attributes["width"]) == Some(r.value.width))
            && ("height" !in attributes ==> r.value.height == DEFAULT_HEIGHT_PX)
            && ("height" in attributes ==> parseF32(attributes["height"]) == Some(r.value.height)))
  {
  }

  /** A circle tag's cx, cy and r; indexing a missing attribute panics, cx first. */
  function CircleOfTag(attributes: map<string, string>): (r: Result<Circle, ParseError>)
    ensures r.Ok? <==> "cx" in attributes && "cy" in attributes && "r" in attributes
    ensures r.Ok? ==> r.value == Circle(attributes["cx"], attributes["cy"], attributes["r"])
  {
    if "cx" !in attributes then Err(MissingAttribute("cx"))
    else if "cy" !in attributes then Err(MissingAttribute("cy"))
    else if "r" !in attributes then Err(MissingAttribute("r"))
    else Ok(Circle(attributes["cx"], attributes["cy"], attributes["r"]))
  }

  // ---------------------------------------------------------------------
  // The scan

  predicate IsSvgStart(e: Event) { e.Tag? && e.name == "svg" && e.kind == Start }
  predicate IsSvgEnd(e: Event) { e.Tag? && e.name == "svg" && e.kind == End }
  /** A `circle` tag of any kind: start, end or self-closing. */
  predicate IsCircle(e: Event) { e.Tag? && e.name == "circle" }

  /** The scan from a given state: an `svg` start tag replaces the extents, a circle tag
      appends a circle, the first `svg` end tag stops, anything else is skipped. */
  function Scan(events: seq<Event>, parseF32: string -> Option<real>, circles: seq<Circle>, extents: Extents): Result<Parsed, ParseError> {
    if events == [] then Ok(Parsed(circles, extents))
    else
      var e := events[0];
      if IsSvgStart(e) then
        match ExtentsOfSvgTag(e.attributes, parseF32)
        case Err(err) => Err(err)
        case Ok(x) => Scan(events[1..], parseF32, circles, x)
      else if IsCircle(e) then
        match CircleOfTag(e.attributes)
        case Err(err) => Err(err)
        case Ok(c) => Scan(events[1..], parseF32, circles + [c], extents)
      else if IsSvgEnd(e) then Ok(Parsed(circles, extents))
      else Scan(events[1..], parseF32, circles, extents)
  }

  /** `parse_circles_with_extents`: one pass over the events with two accumulators,
      leaving the loop at the first `svg` end tag. */
  method ParseCirclesWithExtents(events: seq<Event>, parseF32: string -> Option<real>) returns (r: Result<Parsed, ParseError>)
    ensures r == Scan(events, parseF32, [], DEFAULT_EXTENTS)
  {
    var circles: seq<Circle> := [];
    var extents := DEFAULT_EXTENTS;
    var i := 0;
    while i < |events|
      invariant i <= |events|
      invariant Scan(events, parseF32, [], DEFAULT_EXTENTS) == Scan(events[i..], parseF32, circles, extents)
    {
      var event := events[i];
      assert events[i..][0] == event && events[i..][1..] == events[i + 1..];
      if IsSvgStart(event) {
        var x := ExtentsOfSvgTag(event.attributes, parseF32);
        if x.Err? {
          return Err(x.error);
        }
        extents := x.value;
      } else if IsCircle(event) {
        var c := CircleOfTag(event.attributes);
        if c.Err? {
          return Err(c.error);
        }
        circles := circles + [c.value];
      } else if IsSvgEnd(event) {
        break;
      }
      i := i + 1;
    }
    r := Ok(Parsed(circles, extents));
  }

  // ---------------------------------------------------------------------
  // A reference description of the result

  /** The index of the first `svg` end tag, or the length when there is none. */
  function SvgEndIndex(events: seq<Event>): (k: nat)
    ensures k <= |events|
    ensures k < |events| ==> IsSvgEnd(events[k])
    ensures forall i :: 0 <= i < k ==> !IsSvgEnd(events[i])
  {
    if events == [] then 0
    else if IsSvgEnd(events[0]) then 0
    else 1 + SvgEndIndex(events[1..])
  }

  /** A tag the scan acts on is well formed. */
  predicate TagWellFormed(e: Event, parseF32: string -> Option<real>) {
    && (IsSvgStart(e) ==> ExtentsOfSvgTag(e.attributes, parseF32).Ok?)
    && (IsCircle(e) ==> CircleOfTag(e.attributes).Ok?)
  }

  predicate WellFormed(events: seq<Event>, parseF32: string -> Option<real>) {
    forall i :: 0 <= i < |events| ==> TagWellFormed(events[i], parseF32)
  }

  lemma WellFormedCons(e: Event, rest: seq<Event>, parseF32: string -> Option<real>)
    ensures WellFormed([e] + rest, parseF32) <==> TagWellFormed(e, parseF32) && WellFormed(rest, parseF32)
  {
    assert forall i :: 0 <= i < |rest| ==> rest[i] == ([e] + rest)[i + 1];
    if WellFormed([e] + rest, parseF32) {
      assert TagWellFormed(([e] + rest)[0], parseF32);
      forall i | 0 <= i < |rest| ensures TagWellFormed(rest[i], parseF32) {
        assert TagWellFormed(([e] + rest)[i + 1], parseF32);
      }
    }
    if TagWellFormed(e, parseF32) && WellFormed(rest, parseF32) {
      forall i | 0 <= i < |[e] + rest| ensures TagWellFormed(([e] + rest)[i], parseF32) {
        if i > 0 { assert ([e] + rest)[i] == rest[i - 1]; }
      }
    }
  }

  /** Every circle tag has its cx, cy and r. */
  predicate CirclesParse(events: seq<Event>) {
    forall i :: 0 <= i < |events| ==> IsCircle(events[i]) ==> CircleOfTag(events[i].attributes).Ok?
  }

  /** The circles of the circle tags, in document order. */
  function CirclesIn(events: seq<Event>): seq<Circle>
    requires CirclesParse(events)
  {
    if events == [] then []
    else
      var last := events[|events| - 1];
      CirclesIn(events[..|events| - 1]) + (if IsCircle(last) then [CircleOfTag(last.attributes).value] else [])
  }

  /** The position of the last `svg` start tag, if any. */
  function LastSvgStart(events: seq<Event>): (j: Option<nat>)
    ensures j.Some? ==> (j.value < |events| && IsSvgStart(events[j.value])
      && forall k :: j.value < k < |events| ==> !IsSvgStart(events[k]))
    ensures j.None? ==> forall k :: 0 <= k < |events| ==> !IsSvgStart(events[k])
  {
    if events == [] then None
    else if IsSvgStart(events[|events| - 1]) then Some(|events| - 1)
    else LastSvgStart(events[..|events| - 1])
  }

  /** The extents set by the last `svg` start tag, or `extents` if there is none. */
  function FinalExtents(events: seq<Event>, parseF32: string -> Option<real>, extents: Extents): Extents
    requires WellFormed(events, parseF32)
  {
    match LastSvgStart(events)
    case None => extents
    case Some(j) => ExtentsOfSvgTag(events[j].attributes, parseF32).value
  }

  lemma {:induction false} CirclesInCons(e: Event, rest: seq<Event>)
    requires CirclesParse([e] + rest)
    ensures CirclesParse(rest)
    ensures IsCircle(e) ==> CircleOfTag(e.attributes).Ok?
    ensures CirclesIn([e] + rest) == (if IsCircle(e) then [CircleOfTag(e.attributes).value] else []) + CirclesIn(rest)
    decreases |rest|
  {
    var es := [e] + rest;
    assert forall i :: 0 <= i < |rest| ==> rest[i] == es[i + 1];
    assert IsCircle(e) ==> CircleOfTag(e.attributes).Ok? by {
      assert es[0] == e;
    }
    if rest == [] {
      assert es == [e];
      assert es[..0] == [];
    } else {
      var init := rest[..|rest| - 1];
      assert es[..|es| - 1] == [e] + init;
      assert forall i :: 0 <= i < |[e] + init| ==> ([e] + init)[i] == es[i];
      CirclesInCons(e, init);
    }
  }

  lemma {:induction false} LastSvgStartCons(e: Event, rest: seq<Event>)
    ensures LastSvgStart([e] + rest) ==
      (match LastSvgStart(rest)
       case Some(j) => Some(j + 1)
       case None => if IsSvgStart(e) then Some(0) else None)
    decreases |rest|
  {
    if rest != [] {
      var s := [e] + rest;
      var init := rest[..|rest| - 1];
      assert s[|s| - 1] == rest[|rest| - 1];
      assert s[..|s| - 1] == [e] + init;
      if !IsSvgStart(rest[|rest| - 1]) {
        LastSvgStartCons(e, init);
      }
    }
  }

  lemma FinalExtentsCons(e: Event, rest: seq<Event>, parseF32: string -> Option<real>, extents: Extents)
    requires TagWellFormed(e, parseF32) && WellFormed(rest, parseF32)
    ensures WellFormed([e] + rest, parseF32)
    ensures FinalExtents([e] + rest, parseF32, extents) ==
      FinalExtents(rest, parseF32, if IsSvgStart(e) then ExtentsOfSvgTag(e.attributes, parseF32).value else extents)
  {
    WellFormedCons(e, rest, parseF32);
    LastSvgStartCons(e, rest);
    if LastSvgStart(rest).Some? {
      FinalExtentsConsLater(e, rest, parseF32, extents, LastSvgStart(rest).value);
    }
  }

  lemma FinalExtentsConsLater(e: Event, rest: seq<Event>, parseF32: string -> Option<real>, extents: Extents, j: nat)
    requires WellFormed([e] + rest, parseF32) && WellFormed(rest, parseF32)
    requires LastSvgStart(rest) == Some(j) && LastSvgStart([e] + rest) == Some(j + 1)
    ensures FinalExtents([e] + rest, parseF32, extents) == FinalExtents(rest, parseF32, extents)
  {
    assert ([e] + rest)[j + 1] == rest[j];
  }

  /** The scan, from any state and over events with no `svg` end tag, succeeds exactly
      when every tag is well formed, and then appends the circles in order and ends
      with the extents of the last `svg` start tag. */
  lemma {:induction false} ScanWithoutEnd(events: seq<Event>, parseF32: string -> Option<real>, circles: seq<Circle>, extents: Extents)
    requires forall i :: 0 <= i < |events| ==> !IsSvgEnd(events[i])
    ensures Scan(events, parseF32, circles, extents).Ok? <==> WellFormed(events, parseF32)
    ensures WellFormed(events, parseF32) ==>
      Scan(events, parseF32, circles, extents) ==
        Ok(Parsed(circles + CirclesIn(events), FinalExtents(events, parseF32, extents)))
  {
    if events == [] {
      assert circles + CirclesIn(events) == circles;
    } else {
      var e, rest := events[0], events[1..];
      assert events == [e] + rest;
      assert forall i :: 0 <= i < |rest| ==> rest[i] == events[i + 1];
      assert !IsSvgEnd(e);
      WellFormedCons(e, rest, parseF32);
      if TagWellFormed(e, parseF32) {
        var circles' := if IsCircle(e) then circles + [CircleOfTag(e.attributes).value] else circles;
        var extents' := if IsSvgStart(e) then ExtentsOfSvgTag(e.attributes, parseF32).value else extents;
        ScanStep(events, parseF32, circles, extents);
        ScanWithoutEnd(rest, parseF32, circles', extents');
        if WellFormed(rest, parseF32) {
          CirclesInCons(e, rest);
          FinalExtentsCons(e, rest, parseF32, extents);
          assert circles' + CirclesIn(rest) == circles + CirclesIn(events);
        }
      }
    }
  }

  /** One step of the scan over a well-formed tag that is not an `svg` end tag. */
  lemma ScanStep(events: seq<Event>, parseF32: string -> Option<real>, circles: seq<Circle>, extents: Extents)
    requires events != [] && !IsSvgEnd(events[0]) && TagWellFormed(events[0], parseF32)
    ensures var e := events[0];
      Scan(events, parseF32, circles, extents) ==
        Scan(events[1..], parseF32,
             if IsCircle(e) then circles + [CircleOfTag(e.attributes).value] else circles,
             if IsSvgStart(e) then ExtentsOfSvgTag(e.attributes, parseF32).value else extents)
  {
  }

  /** The scan never looks past the first `svg` end tag. */
  lemma {:induction false} ScanStopsAtEnd(events: seq<Event>, parseF32: string -> Option<real>, circles: seq<Circle>, extents: Extents)
    ensures Scan(events, parseF32, circles, extents) == Scan(events[..SvgEndIndex(events)], parseF32, circles, extents)
  {
    if events != [] && !IsSvgEnd(events[0]) {
      var k := SvgEndIndex(events);
      assert events[..k][1..] == events[1..][..k - 1];
      var e := events[0];
      if IsSvgStart(e) && ExtentsOfSvgTag(e.attributes, parseF32).Ok? {
        ScanStopsAtEnd(events[1..], parseF32, circles, ExtentsOfSvgTag(e.attributes, parseF32).value);
      } else if IsCircle(e) && CircleOfTag(e.attributes).Ok? {
        ScanStopsAtEnd(events[1..], parseF32, circles + [CircleOfTag(e.attributes).value], extents);
      } else {
        ScanStopsAtEnd(events[1..], parseF32, circles, extents);
      }
    }
  }

  /** What `parse_circles_with_extents` returns, described without the loop: over the
      events before the first `svg` end tag, it succeeds exactly when every `svg` start
      and circle tag is well formed, and then holds the circles of all circle tags in
      document order and the extents of the last `svg` start tag (the default 0, 0,
      500, 500 when there is none). */
  lemma ParseMatchesReference(events: seq<Event>, parseF32: string -> Option<real>)
    ensures var prefix := events[..SvgEndIndex(events)];
      var r := Scan(events, parseF32, [], DEFAULT_EXTENTS);
      && (r.Ok? <==> WellFormed(prefix, parseF32))
      && (r.Ok? ==> r.value == Parsed(CirclesIn(prefix), FinalExtents(prefix, parseF32, DEFAULT_EXTENTS)))
  {
    var prefix := events[..SvgEndIndex(events)];
    ScanStopsAtEnd(events, parseF32, [], DEFAULT_EXTENTS);
    ScanWithoutEnd(prefix, parseF32, [], DEFAULT_EXTENTS);
    if WellFormed(prefix, parseF32) {
      assert [] + CirclesIn(prefix) == CirclesIn(prefix);
    }
  }

  // ---------------------------------------------------------------------
  // The documented cases

  /** A self-closing `<svg/>` is not a start tag: the extents stay at the default. */
  lemma SelfClosingSvgKeepsDefault(parseF32: string -> Option<real>)
    ensures Scan([Tag("svg", Empty, map[])], parseF32, [], DEFAULT_EXTENTS) == Ok(Parsed([], DEFAULT_EXTENTS))
  {
  }

  /** In nested drawings each `svg` start tag overwrites the extents, so the inner one
      wins; the circle inside is kept and the scan stops at the first end tag. */
  lemma NestedSvgInnerExtentsWin(outer: map<string, string>, inner: map<string, string>, circle: map<string, string>,
                                 trailing: seq<Event>, parseF32: string -> Option<real>)
    requires ExtentsOfSvgTag(outer, parseF32).Ok? && ExtentsOfSvgTag(inner, parseF32).Ok?
    requires CircleOfTag(circle).Ok?
    ensures Scan([Tag("svg", Start, outer), Tag("svg", Start, inner), Tag("circle", Empty, circle), Tag("svg", End, map[])] + trailing,
                 parseF32, [], DEFAULT_EXTENTS)
      == Ok(Parsed([CircleOfTag(circle).value], ExtentsOfSvgTag(inner, parseF32).value))
  {
    var es := [Tag("svg", Start, outer), Tag("svg", Start, inner), Tag("circle", Empty, circle), Tag("svg", End, map[])] + trailing;
    var c := CircleOfTag(circle).value;
    var x := ExtentsOfSvgTag(inner, parseF32).value;
    assert es[1..][1..][1..][0] == Tag("svg", End, map[]);
    calc {
      Scan(es, parseF32, [], DEFAULT_EXTENTS);
      Scan(es[1..], parseF32, [], ExtentsOfSvgTag(outer, parseF32).value);
      Scan(es[1..][1..], parseF32, [], x);
      Scan(es[1..][1..][1..], parseF32, [] + [c], x);
      { assert [] + [c] == [c]; }
      Scan(es[1..][1..][1..], parseF32, [c], x);
      Ok(Parsed([c], x));
    }
  }

  /** The viewBox "-10 -20 300 100" gives the extents (-10, -20, 300, 100) whatever the
      width and height attributes say. */
  lemma SpaceSeparatedViewBox(attributes: map<string, string>, parseF32: string -> Option<real>)
    requires "viewBox" in attributes && attributes["viewBox"] == "-10 -20 300 100"
    requires parseF32("-10") == Some(-10.0) && parseF32("-20") == Some(-20.0)
    requires parseF32("300") == Some(300.0) && parseF32("100") == Some(100.0)
    ensures ExtentsOfSvgTag(attributes, parseF32) == Ok(Extents(-10.0, -20.0, 300.0, 100.0))
  {
    assert "-10 -20 300 100" == "-10" + [' '] + ("-20" + [' '] + ("300" + [' '] + "100"));
    SplitFour("-10", "-20", "300", "100", ' ', ' ', ' ');
  }

  /** Commas separate like spaces: "-1.2759765,-1.2759765 2.551953,2.551953" has four tokens. */
  lemma MixedSeparatorViewBox()
    ensures Split("-1.2759765,-1.2759765 2.551953,2.551953") == ["-1.2759765", "-1.2759765", "2.551953", "2.551953"]
  {
    assert "-1.2759765,-1.2759765 2.551953,2.551953" == "-1.2759765" + [','] + ("-1.2759765" + [' '] + ("2.551953" + [','] + "2.551953"));
    SplitFour("-1.2759765", "-1.2759765", "2.551953", "2.551953", ',', ' ', ',');
  }

  /** Two adjacent separators make an empty token, which is not a number. */
  lemma DoubleSpaceIsInvalid(attributes: map<string, string>, parseF32: string -> Option<real>)
    requires "viewBox" in attributes && attributes["viewBox"] == "0  10 10"
    requires parseF32("") == None
    ensures ExtentsOfSvgTag(attributes, parseF32) == Err(InvalidViewBounds)
  {
    var tail := "10 10";
    var mid := "" + [' '] + tail;
    SplitFromCons("", ' ', tail, "");
    var whole := "0" + [' '] + mid;
    assert whole == "0  10 10";
    SplitFromCons("0", ' ', mid, "");
    var tokens := Split(whole);
    assert tokens == [[] + "0"] + ([[] + ""] + SplitFrom(tail, ""));
    assert tokens[1] == "";
    assert !ParseAll(tokens, parseF32).Ok?;
  }

  /** A circle end tag carries no attributes, and the scan treats it like any circle
      tag, so `<circle ...></circle>` fails on the missing cx. */
  lemma CircleEndTagFails(parseF32: string -> Option<real>)
    ensures Scan([Tag("circle", End, map[])], parseF32, [], DEFAULT_EXTENTS) == Err(MissingAttribute("cx"))
  {
  }
}
