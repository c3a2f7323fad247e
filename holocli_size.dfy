/** holocli's `parse_size`: the `--canvas-size` argument `width[xheight](mm|cm|m)`,
    normalised to millimetres. The regular expression `^(\d+|\d+x\d+)(mm|cm|m)$`
    is replaced by a hand-written scanner that is proved to accept exactly its
    language. */
module HolocliSize {
  import opened Results
  import opened Numbers
  import opened SizeTokens

  datatype CliError = InvalidSizeInt(kind: IntErrorKind) | InvalidSize

  /** A size in millimetres. */
  datatype CanvasSize = CanvasSize(width: nat, height: nat)

  // ---------------------------------------------------------------------
  // The language of the pattern, stated directly

  /** Strings matched by the size group `(\d+|\d+x\d+)`. */
  predicate IsSizeGroup(t: string) {
    || (0 < |t| && AllDigits(t))
    || exists j | 0 < j < |t| - 1 :: t[j] == 'x' && AllDigits(t[..j]) && AllDigits(t[j + 1..])
  }

  /** Strings matched by the whole anchored pattern. */
  predicate MatchesPattern(s: string) {
    exists k | 0 <= k <= |s| :: IsSizeGroup(s[..k]) && IsUnit(s[k..])
  }

  // ---------------------------------------------------------------------
  // The scanner

  predicate IsSizeChar(c: char) { IsDigit(c) || c == 'x' }

  /** Length of the longest prefix of `s` made of digits and 'x'. */
  function LeadingSizeChars(s: string): (k: nat)
    ensures k <= |s|
    ensures forall i :: 0 <= i < k ==> IsSizeChar(s[i])
    ensures k < |s| ==> !IsSizeChar(s[k])
  {
    if |s| == 0 || !IsSizeChar(s[0]) then 0 else 1 + LeadingSizeChars(s[1..])
  }

  lemma {:induction false} LeadingSizeCharsOf(s: string, k: nat)
    requires k <= |s|
    requires forall i :: 0 <= i < k ==> IsSizeChar(s[i])
    requires k < |s| ==> !IsSizeChar(s[k])
    ensures LeadingSizeChars(s) == k
  {
    if k > 0 {
      assert IsSizeChar(s[0]);
      LeadingSizeCharsOf(s[1..], k - 1);
    }
  }

  /** Index of the first 'x' in `t`, or `|t|`: where `split_once('x')` cuts. */
  function FindX(t: string): (j: nat)
    ensures j <= |t|
    ensures forall i :: 0 <= i < j ==> t[i] != 'x'
    ensures j < |t| ==> t[j] == 'x'
  {
    if |t| == 0 || t[0] == 'x' then 0 else 1 + FindX(t[1..])
  }

  lemma {:induction false} FindXOf(t: string, j: nat)
    requires j <= |t|
    requires forall i :: 0 <= i < j ==> t[i] != 'x'
    requires j < |t| ==> t[j] == 'x'
    ensures FindX(t) == j
  {
    if j > 0 {
      assert t[0] != 'x';
      FindXOf(t[1..], j - 1);
    }
  }

  /** The size group's shape, decided by cutting at the first 'x'. */
  predicate SizeGroupShape(t: string) {
    var j := FindX(t);
    if j == |t| then 0 < |t| && AllDigits(t)
    else 0 < j && j + 1 < |t| && AllDigits(t[..j]) && AllDigits(t[j + 1..])
  }

  /** The two capture groups `(size, unit)` of the pattern, or None when it does not match. */
  function Captures(s: string): (c: Option<(string, string)>)
    ensures c.Some? ==> s == c.value.0 + c.value.1
    ensures c.Some? ==> IsUnit(c.value.1) && SizeGroupShape(c.value.0)
  {
    var k := LeadingSizeChars(s);
    assert s == s[..k] + s[k..];
    if IsUnit(s[k..]) && SizeGroupShape(s[..k]) then Some((s[..k], s[k..])) else None
  }

  /** The scanner accepts exactly the strings of the pattern's language. */
  lemma CapturesIffMatches(s: string)
    ensures Captures(s).Some? <==> MatchesPattern(s)
  {
    if Captures(s).Some? {
      CapturesSound(s);
    }
    if MatchesPattern(s) {
      var k :| 0 <= k <= |s| && IsSizeGroup(s[..k]) && IsUnit(s[k..]);
      CapturesComplete(s, k);
    }
  }

  lemma CapturesSound(s: string)
    requires Captures(s).Some?
    ensures MatchesPattern(s)
  {
    var k := LeadingSizeChars(s);
    var t := s[..k];
    var j := FindX(t);
    if j < |t| {
      assert t[j] == 'x' && AllDigits(t[..j]) && AllDigits(t[j + 1..]);
    }
    assert IsSizeGroup(s[..k]) && IsUnit(s[k..]);
  }

  /** A size group is made of digits and 'x'. */
  lemma SizeGroupChars(t: string)
    requires IsSizeGroup(t)
    ensures forall i :: 0 <= i < |t| ==> IsSizeChar(t[i])
  {
    forall i | 0 <= i < |t| ensures IsSizeChar(t[i]) {
      if !AllDigits(t) {
        var j :| 0 < j < |t| - 1 && t[j] == 'x' && AllDigits(t[..j]) && AllDigits(t[j + 1..]);
        if i < j { assert t[..j][i] == t[i]; }
        else if i > j { assert t[j + 1..][i - j - 1] == t[i]; }
      }
    }
  }

  lemma CapturesComplete(s: string, k: nat)
    requires k <= |s| && IsSizeGroup(s[..k]) && IsUnit(s[k..])
    ensures Captures(s).Some?
  {
    var t := s[..k];
    assert s[k..][0] == s[k];
    SizeGroupChars(t);
    assert forall i :: 0 <= i < k ==> t[i] == s[i];
    LeadingSizeCharsOf(s, k);
    if !AllDigits(t) || |t| == 0 {
      var j :| 0 < j < |t| - 1 && t[j] == 'x' && AllDigits(t[..j]) && AllDigits(t[j + 1..]);
      forall i | 0 <= i < j ensures t[i] != 'x' { assert t[..j][i] == t[i]; }
      FindXOf(t, j);
    } else {
      forall i | 0 <= i < |t| ensures t[i] != 'x' { assert IsDigit(t[i]); }
      FindXOf(t, |t|);
    }
  }

  /** `parse_size`: unit factor first, then width and height from `split_once('x')`,
      each scaled to millimetres (64-bit wrap on overflow). */
  function ParseSize(arg: string): (r: Result<CanvasSize, CliError>)
    ensures r == Err(InvalidSize) <==> Captures(arg).None?
  {
    match Captures(arg)
    case None => Err(InvalidSize)
    case Some((size, unit)) =>
      var factor := UnitFactor(unit);
      var j := FindX(size);
      if j < |size| then
        var width :- ParseDimension(size[..j], k => InvalidSizeInt(k));
        var height :- ParseDimension(size[j + 1..], k => InvalidSizeInt(k));
        Ok(CanvasSize(WrappingMul(width, factor), WrappingMul(height, factor)))
      else
        var width :- ParseDimension(size, k => InvalidSizeInt(k));
        Ok(CanvasSize(WrappingMul(width, factor), WrappingMul(width, factor)))
  }

  // ---------------------------------------------------------------------
  // What parse_size promises

  /** `InvalidSize` is returned exactly for the strings outside the pattern's language;
      a string inside it can still fail, but only with `InvalidSizeInt`. */
  lemma InvalidSizeIffNoMatch(arg: string)
    ensures ParseSize(arg) == Err(InvalidSize) <==> !MatchesPattern(arg)
  {
    CapturesIffMatches(arg);
  }

  /** "WxH" with a unit: width from W, height from H, both scaled by the unit's
      factor; a digit run above `usize::MAX` is `InvalidSizeInt(PosOverflow)`, width first. */
  lemma {:induction false} ParseSizeRectangle(w: string, h: string, unit: string)
    requires 0 < |w| && AllDigits(w) && 0 < |h| && AllDigits(h) && IsUnit(unit)
    ensures var f := UnitFactor(unit);
      ParseSize(w + "x" + h + unit) ==
        if DigitsValue(w) > USIZE_MAX then Err(InvalidSizeInt(PosOverflow))
        else if DigitsValue(h) > USIZE_MAX then Err(InvalidSizeInt(PosOverflow))
        else Ok(CanvasSize(WrappingMul(DigitsValue(w), f), WrappingMul(DigitsValue(h), f)))
  {
    var s := w + "x" + h + unit;
    var k := |w| + 1 + |h|;
    forall i | 0 <= i < k ensures IsSizeChar(s[i]) {
      if i < |w| { assert s[i] == w[i]; } else if i > |w| { assert s[i] == h[i - |w| - 1]; }
    }
    assert s[k] == unit[0];
    LeadingSizeCharsOf(s, k);
    var t := s[..k];
    assert t == w + "x" + h;
    forall i | 0 <= i < |w| ensures t[i] != 'x' { assert t[i] == w[i]; }
    FindXOf(t, |w|);
    assert t[..|w|] == w && t[|w| + 1..] == h;
    assert s[k..] == unit;
  }

  /** A single number gives a square canvas: width = height, scaled by the unit's factor. */
  lemma {:induction false} ParseSizeSquare(w: string, unit: string)
    requires 0 < |w| && AllDigits(w) && IsUnit(unit)
    ensures var f := UnitFactor(unit);
      ParseSize(w + unit) ==
        if DigitsValue(w) > USIZE_MAX then Err(InvalidSizeInt(PosOverflow))
        else Ok(CanvasSize(WrappingMul(DigitsValue(w), f), WrappingMul(DigitsValue(w), f)))
  {
    var s := w + unit;
    forall i | 0 <= i < |w| ensures IsSizeChar(s[i]) { assert s[i] == w[i]; }
    assert s[|w|] == unit[0];
    LeadingSizeCharsOf(s, |w|);
    assert s[..|w|] == w && s[|w|..] == unit;
    forall i | 0 <= i < |w| ensures w[i] != 'x' { assert IsDigit(w[i]); }
    FindXOf(w, |w|);
  }

  /** Any string the pattern accepts has unit mm, cm or m, so the panic arm of the
      unit match is unreachable. */
  lemma UnitAlwaysKnown(arg: string)
    requires MatchesPattern(arg)
    ensures Captures(arg).Some? && IsUnit(Captures(arg).value.1)
  {
    CapturesIffMatches(arg);
  }

  /** Accepted example of the crate's unit test: "10x10mm" is 10 by 10 millimetres. */
  lemma ExampleMillimetres()
    ensures ParseSize("10x10mm") == Ok(CanvasSize(10, 10))
  {
    TwoDigits('1', '0');
    assert "10x10mm" == "10" + "x" + "10" + "mm";
    ParseSizeRectangle("10", "10", "mm");
  }

  /** Accepted example of the crate's unit test: "10x50cm" is 100 by 500 millimetres. */
  lemma ExampleCentimetres()
    ensures ParseSize("10x50cm") == Ok(CanvasSize(100, 500))
  {
    TwoDigits('1', '0');
    TwoDigits('5', '0');
    assert "10x50cm" == "10" + "x" + "50" + "cm";
    ParseSizeRectangle("10", "50", "cm");
  }

  /** Accepted example of the crate's unit test: "10cm" is a 100 millimetre square. */
  lemma ExampleSquare()
    ensures ParseSize("10cm") == Ok(CanvasSize(100, 100))
  {
    TwoDigits('1', '0');
    assert "10cm" == "10" + "cm";
    ParseSizeSquare("10", "cm");
  }

  /** Accepted example of the crate's unit test: "2x1m" is 2000 by 1000 millimetres. */
  lemma ExampleMetres()
    ensures ParseSize("2x1m") == Ok(CanvasSize(2000, 1000))
  {
    OneDigit('2');
    OneDigit('1');
    assert "2x1m" == "2" + "x" + "1" + "m";
    ParseSizeRectangle("2", "1", "m");
  }

  /** Rejected by the crate's unit test: a trailing 'x' with no height. */
  lemma RejectsMissingHeight()
    ensures ParseSize("10x") == Err(InvalidSize)
  {
  }

  /** Rejected by the crate's unit test: no unit. */
  lemma RejectsMissingUnit()
    ensures ParseSize("10") == Err(InvalidSize)
  {
  }

  /** Rejected by the crate's unit test: an 'x' directly before the unit. */
  lemma RejectsXBeforeUnit()
    ensures ParseSize("312xmm") == Err(InvalidSize)
  {
  }

  /** Rejected by the crate's unit test: an unknown unit. */
  lemma RejectsUnknownUnit()
    ensures ParseSize("10x10ft") == Err(InvalidSize)
  {
  }

  /** Rejected by the crate's unit test: a leading sign. */
  lemma RejectsSign()
    ensures ParseSize("-10x10mm") == Err(InvalidSize)
  {
  }

  /** `usize::MAX + 1` (as the test writes it) overflows: `InvalidSizeInt(PosOverflow)`. */
  lemma OverflowExample()
    ensures ParseSize("18446744073709552000mm") == Err(InvalidSizeInt(PosOverflow))
  {
    OverflowDigits();
    assert "18446744073709552000mm" == "18446744073709552000" + "mm";
    ParseSizeSquare("18446744073709552000", "mm");
  }
}
