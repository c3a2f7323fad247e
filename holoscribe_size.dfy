/** holoscribe's `parse_size`: the `--size` argument, normalised to millimetres.
    Its pattern `^(\d+)x?(\d*)(mm|cm|m)$` differs from holocli's: the 'x' and the
    height are both optional, so "312xmm" is accepted as a 312 mm square. Under the
    regex engine's leftmost-first, greedy matching, group 1 is the whole leading
    digit run; the scanner below computes the same captures. */
module HoloscribeSize {
  import opened Results
  import opened Numbers
  import opened SizeTokens

  datatype CliError = InvalidSizeInt(kind: IntErrorKind) | InvalidSize

  /** A size in millimetres. */
  datatype Size = Size(width: nat, height: nat)

  // ---------------------------------------------------------------------
  // The language of the pattern, stated directly

  /** Strings matched by `(\d*)(mm|cm|m)`. */
  predicate DigitsThenUnit(r: string) {
    exists m | 0 <= m <= |r| :: AllDigits(r[..m]) && IsUnit(r[m..])
  }

  /** Strings matched by the whole anchored pattern `(\d+)x?(\d*)(mm|cm|m)`. */
  predicate MatchesPattern(s: string) {
    exists k | 0 < k <= |s| ::
      && AllDigits(s[..k])
      && (|| DigitsThenUnit(s[k..])
          || (k < |s| && s[k] == 'x' && DigitsThenUnit(s[k + 1..])))
  }

  // ---------------------------------------------------------------------
  // The scanner

  /** The capture groups `(width, height, unit)`, or None when the pattern does not match. */
  function Captures(s: string): (c: Option<(string, string, string)>)
    ensures c.Some? ==> 0 < |c.value.0| && AllDigits(c.value.0) && AllDigits(c.value.1)
    ensures c.Some? ==> IsUnit(c.value.2)
  {
    var k := LeadingDigits(s);
    if k == 0 then None
    else
      var rest := s[k..];
      var r := if 0 < |rest| && rest[0] == 'x' then rest[1..] else rest;
      var m := LeadingDigits(r);
      if IsUnit(r[m..]) then Some((s[..k], r[..m], r[m..])) else None
  }

  lemma UnitStartsWithNonDigit(u: string)
    requires IsUnit(u)
    ensures 0 < |u| && !IsDigit(u[0]) && u[0] != 'x'
  {
  }

  /** The scanner accepts exactly the strings of the pattern's language. */
  lemma CapturesIffMatches(s: string)
    ensures Captures(s).Some? <==> MatchesPattern(s)
  {
    if Captures(s).Some? {
      CapturesSound(s);
    }
    if MatchesPattern(s) {
      var k :| 0 < k <= |s| && AllDigits(s[..k])
        && (DigitsThenUnit(s[k..]) || (k < |s| && s[k] == 'x' && DigitsThenUnit(s[k + 1..])));
      CapturesComplete(s, k);
    }
  }

  lemma CapturesComplete(s: string, k: nat)
    requires 0 < k <= |s| && AllDigits(s[..k])
    requires DigitsThenUnit(s[k..]) || (k < |s| && s[k] == 'x' && DigitsThenUnit(s[k + 1..]))
    ensures Captures(s).Some?
  {
    if DigitsThenUnit(s[k..]) {
      var m :| 0 <= m <= |s[k..]| && AllDigits(s[k..][..m]) && IsUnit(s[k..][m..]);
      assert s[k..][..m] == s[k..k + m] && s[k..][m..] == s[k + m..];
      CapturesWithoutX(s, k, m);
    } else {
      CapturesWithX(s, k);
    }
  }

  lemma CapturesSound(s: string)
    requires Captures(s).Some?
    ensures MatchesPattern(s)
  {
    var k := LeadingDigits(s);
    var rest := s[k..];
    var r := if 0 < |rest| && rest[0] == 'x' then rest[1..] else rest;
    var m := LeadingDigits(r);
    assert AllDigits(r[..m]) && IsUnit(r[m..]);
    if 0 < |rest| && rest[0] == 'x' {
      assert s[k] == 'x' && s[k + 1..] == r;
    }
  }

  lemma CapturesWithoutX(s: string, k: nat, m: nat)
    requires 0 < k && k + m <= |s| && AllDigits(s[..k]) && AllDigits(s[k..k + m]) && IsUnit(s[k + m..])
    ensures Captures(s).Some?
  {
    UnitStartsWithNonDigit(s[k + m..]);
    assert s[..k + m] == s[..k] + s[k..k + m];
    AllDigitsConcat(s[..k], s[k..k + m]);
    assert s[k + m] == s[k + m..][0];
    LeadingDigitsOf(s, k + m);
    LeadingDigitsOf(s[k + m..], 0);
    assert s[k + m..][0..] == s[k + m..];
  }

  lemma CapturesWithX(s: string, k: nat)
    requires 0 < k < |s| && AllDigits(s[..k]) && s[k] == 'x' && DigitsThenUnit(s[k + 1..])
    ensures Captures(s).Some?
  {
    var r := s[k + 1..];
    var m :| 0 <= m <= |r| && AllDigits(r[..m]) && IsUnit(r[m..]);
    LeadingDigitsOf(s, k);
    UnitStartsWithNonDigit(r[m..]);
    assert r[m] == r[m..][0];
    LeadingDigitsOf(r, m);
    assert s[k..][1..] == r;
  }

  /** `parse_size`: width first, then the height (the width when the height group is
      empty), then the unit factor; both scaled to millimetres (64-bit wrap on overflow). */
  function ParseSize(arg: string): (r: Result<Size, CliError>)
    ensures r == Err(InvalidSize) <==> Captures(arg).None?
  {
    match Captures(arg)
    case None => Err(InvalidSize)
    case Some((w, h, unit)) =>
      var width :- ParseDimension(w, k => InvalidSizeInt(k));
      var height :- if 0 < |h| then ParseDimension(h, k => InvalidSizeInt(k)) else Ok(width);
      var factor := UnitFactor(unit);
      Ok(Size(WrappingMul(width, factor), WrappingMul(height, factor)))
  }

  // ---------------------------------------------------------------------
  // What parse_size promises

  /** `InvalidSize` is returned exactly for the strings outside the pattern's language. */
  lemma InvalidSizeIffNoMatch(arg: string)
    ensures ParseSize(arg) == Err(InvalidSize) <==> !MatchesPattern(arg)
  {
    CapturesIffMatches(arg);
  }

  /** "WxH" with a unit: width from W, height from H, both scaled by the unit's factor;
      a digit run above `usize::MAX` is `InvalidSizeInt(PosOverflow)`, width first. */
  lemma {:induction false} ParseSizeRectangle(w: string, h: string, unit: string)
    requires 0 < |w| && AllDigits(w) && 0 < |h| && AllDigits(h) && IsUnit(unit)
    ensures var f := UnitFactor(unit);
      ParseSize(w + "x" + h + unit) ==
        if DigitsValue(w) > USIZE_MAX then Err(InvalidSizeInt(PosOverflow))
        else if DigitsValue(h) > USIZE_MAX then Err(InvalidSizeInt(PosOverflow))
        else Ok(Size(WrappingMul(DigitsValue(w), f), WrappingMul(DigitsValue(h), f)))
  {
    var s := w + "x" + h + unit;
    assert s[..|w|] == w;
    assert s[|w|] == 'x';
    LeadingDigitsOf(s, |w|);
    var r := s[|w|..][1..];
    assert r == h + unit;
    UnitStartsWithNonDigit(unit);
    assert r[..|h|] == h && r[|h|..] == unit;
    assert r[|h|] == unit[0];
    LeadingDigitsOf(r, |h|);
  }

  /** Without a height the canvas is square: "W" or "Wx" followed by a unit gives
      width = height = W, scaled by the unit's factor. */
  lemma {:induction false} ParseSizeSquare(w: string, withX: bool, unit: string)
    requires 0 < |w| && AllDigits(w) && IsUnit(unit)
    ensures var f := UnitFactor(unit);
      ParseSize(w + (if withX then "x" else "") + unit) ==
        if DigitsValue(w) > USIZE_MAX then Err(InvalidSizeInt(PosOverflow))
        else Ok(Size(WrappingMul(DigitsValue(w), f), WrappingMul(DigitsValue(w), f)))
  {
    var s := w + (if withX then "x" else "") + unit;
    UnitStartsWithNonDigit(unit);
    assert s[..|w|] == w;
    assert s[|w|] == if withX then 'x' else unit[0];
    LeadingDigitsOf(s, |w|);
    var rest := s[|w|..];
    var r := if withX then rest[1..] else rest;
    assert r == unit;
    LeadingDigitsOf(r, 0);
    assert r[..0] == [] && r[0..] == unit;
  }

  /** Without an 'x' the greedy width group takes the whole digit run: "WH" followed by
      a unit is the square of the number WH, never W by H. */
  lemma GreedyWidth(w: string, h: string, unit: string)
    requires 0 < |w| && AllDigits(w) && AllDigits(h) && IsUnit(unit)
    ensures Captures(w + h + unit).Some?
    ensures Captures(w + h + unit).value.0 == w + h && Captures(w + h + unit).value.1 == ""
    ensures ParseSize(w + h + unit) ==
      if DigitsValue(w + h) > USIZE_MAX then Err(InvalidSizeInt(PosOverflow))
      else Ok(Size(WrappingMul(DigitsValue(w + h), UnitFactor(unit)), WrappingMul(DigitsValue(w + h), UnitFactor(unit))))
  {
    AllDigitsConcat(w, h);
    var s := w + h + unit;
    UnitStartsWithNonDigit(unit);
    assert s[..|w + h|] == w + h;
    assert s[|w + h|] == unit[0];
    LeadingDigitsOf(s, |w + h|);
    assert s[|w + h|..] == unit;
    LeadingDigitsOf(unit, 0);
    assert unit[..0] == [] && unit[0..] == unit;
    assert (w + h) + "" + unit == s;
    ParseSizeSquare(w + h, false, unit);
  }

  /** Any string the pattern accepts has unit mm, cm or m, so the panic arm of the
      unit match is unreachable. */
  lemma UnitAlwaysKnown(arg: string)
    requires MatchesPattern(arg)
    ensures Captures(arg).Some? && IsUnit(Captures(arg).value.2)
  {
    CapturesIffMatches(arg);
  }

  /** Accepted example of the crate's unit test: "10x10mm" is 10 by 10 millimetres. */
  lemma ExampleMillimetres()
    ensures ParseSize("10x10mm") == Ok(Size(10, 10))
  {
    TwoDigits('1', '0');
    assert "10x10mm" == "10" + "x" + "10" + "mm";
    ParseSizeRectangle("10", "10", "mm");
  }

  /** Accepted example of the crate's unit test: "10x50cm" is 100 by 500 millimetres. */
  lemma ExampleCentimetres()
    ensures ParseSize("10x50cm") == Ok(Size(100, 500))
  {
    TwoDigits('1', '0');
    TwoDigits('5', '0');
    assert "10x50cm" == "10" + "x" + "50" + "cm";
    ParseSizeRectangle("10", "50", "cm");
  }

  /** Accepted example of the crate's unit test: "10cm" is a 100 millimetre square. */
  lemma ExampleSquare()
    ensures ParseSize("10cm") == Ok(Size(100, 100))
  {
    TwoDigits('1', '0');
    assert "10cm" == "10" + "" + "cm";
    ParseSizeSquare("10", false, "cm");
  }

  /** Accepted example of the crate's unit test: "2x1m" is 2000 by 1000 millimetres. */
  lemma ExampleMetres()
    ensures ParseSize("2x1m") == Ok(Size(2000, 1000))
  {
    OneDigit('2');
    OneDigit('1');
    assert "2x1m" == "2" + "x" + "1" + "m";
    ParseSizeRectangle("2", "1", "m");
  }

  /** "312xmm", which holocli rejects, is a 312 millimetre square here. */
  lemma ExampleEmptyHeight()
    ensures ParseSize("312xmm") == Ok(Size(312, 312))
  {
    OneDigit('3');
    DigitsValueSnoc("3", '1');
    assert "3" + ['1'] == "31";
    DigitsValueSnoc("31", '2');
    assert "31" + ['2'] == "312";
    assert "312xmm" == "312" + "x" + "mm";
    ParseSizeSquare("312", true, "mm");
  }

  /** Rejected by the crate's unit test: a trailing 'x' with no height. */
  lemma RejectsMissingHeight()
    ensures ParseSize("10x") == Err(InvalidSize)
  {
  }

  /** Rejected by the crate's unit test: an unknown unit. */
  lemma RejectsUnknownUnit()
    ensures ParseSize("10x10ft") == Err(InvalidSize)
  {
  }

  /** Rejected by the crate's unit test: a leading sign. */
  lemma RejectsSign()
    ensures ParseSize("-10x10mm") == Err(InvalidSize)
  {
  }

  /** `usize::MAX + 1` (as the test writes it) overflows: `InvalidSizeInt(PosOverflow)`. */
  lemma OverflowExample()
    ensures ParseSize("18446744073709552000mm") == Err(InvalidSizeInt(PosOverflow))
  {
    OverflowDigits();
    assert "18446744073709552000mm" == "18446744073709552000" + "" + "mm";
    ParseSizeSquare("18446744073709552000", false, "mm");
  }
}
