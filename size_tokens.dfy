/** Pieces shared by the two canvas-size argument parsers: ASCII digit runs,
    `usize::from_str` on such runs, and the three length units. */
module SizeTokens {
  import opened Results
  import opened Numbers

  predicate IsDigit(c: char) { '0' <= c <= '9' }

  predicate AllDigits(s: string) { forall i :: 0 <= i < |s| ==> IsDigit(s[i]) }

  /** Decimal value of a digit run, most significant digit first. */
  function DigitsValue(s: string): nat
    requires AllDigits(s)
  {
    if |s| == 0 then 0
    else DigitsValue(s[..|s| - 1]) * 10 + (s[|s| - 1] as int - '0' as int)
  }

  /** Appending a digit multiplies the value by ten and adds the digit. */
  lemma DigitsValueSnoc(a: string, c: char)
    requires AllDigits(a) && IsDigit(c)
    ensures AllDigits(a + [c]) && DigitsValue(a + [c]) == DigitsValue(a) * 10 + (c as int - '0' as int)
  {
    assert (a + [c])[..|a|] == a;
  }

  lemma OneDigit(c: char)
    requires IsDigit(c)
    ensures DigitsValue([c]) == c as int - '0' as int
  {
    assert [c][..0] == [];
  }

  lemma TwoDigits(c: char, d: char)
    requires IsDigit(c) && IsDigit(d)
    ensures DigitsValue([c, d]) == (c as int - '0' as int) * 10 + (d as int - '0' as int)
  {
    OneDigit(c);
    assert [c, d][..1] == [c];
  }

  /** The digit run of the overflow examples in both crates' tests, `usize::MAX + 385`,
      evaluated a few digits at a time. */
  lemma OverflowDigits()
    ensures DigitsValue("18446744073709552000") == USIZE_MAX + 385
  {
    DigitsPrefix16();
    DigitsValueSnoc("1844674407370955", '2');
    assert "1844674407370955" + ['2'] == "18446744073709552";
    DigitsValueSnoc("18446744073709552", '0');
    assert "18446744073709552" + ['0'] == "184467440737095520";
    DigitsValueSnoc("184467440737095520", '0');
    assert "184467440737095520" + ['0'] == "1844674407370955200";
    DigitsValueSnoc("1844674407370955200", '0');
    assert "1844674407370955200" + ['0'] == "18446744073709552000";
  }

  lemma DigitsPrefix16()
    ensures DigitsValue("1844674407370955") == 1844674407370955
  {
    DigitsPrefix12();
    DigitsValueSnoc("184467440737", '0');
    assert "184467440737" + ['0'] == "1844674407370";
    DigitsValueSnoc("1844674407370", '9');
    assert "1844674407370" + ['9'] == "18446744073709";
    DigitsValueSnoc("18446744073709", '5');
    assert "18446744073709" + ['5'] == "184467440737095";
    DigitsValueSnoc("184467440737095", '5');
    assert "184467440737095" + ['5'] == "1844674407370955";
  }

  lemma DigitsPrefix12()
    ensures DigitsValue("184467440737") == 184467440737
  {
    DigitsPrefix8();
    DigitsValueSnoc("18446744", '0');
    assert "18446744" + ['0'] == "184467440";
    DigitsValueSnoc("184467440", '7');
    assert "184467440" + ['7'] == "1844674407";
    DigitsValueSnoc("1844674407", '3');
    assert "1844674407" + ['3'] == "18446744073";
    DigitsValueSnoc("18446744073", '7');
    assert "18446744073" + ['7'] == "184467440737";
  }

  lemma DigitsPrefix8()
    ensures DigitsValue("18446744") == 18446744
  {
    DigitsPrefix4();
    DigitsValueSnoc("1844", '6');
    assert "1844" + ['6'] == "18446";
    DigitsValueSnoc("18446", '7');
    assert "18446" + ['7'] == "184467";
    DigitsValueSnoc("184467", '4');
    assert "184467" + ['4'] == "1844674";
    DigitsValueSnoc("1844674", '4');
    assert "1844674" + ['4'] == "18446744";
  }

  lemma DigitsPrefix4()
    ensures DigitsValue("1844") == 1844
  {
    OneDigit('1');
    DigitsValueSnoc("1", '8');
    assert "1" + ['8'] == "18";
    DigitsValueSnoc("18", '4');
    assert "18" + ['4'] == "184";
    DigitsValueSnoc("184", '4');
    assert "184" + ['4'] == "1844";
  }

  /** The kinds of `std::num::ParseIntError` that a digit run can produce. */
  datatype IntErrorKind = Empty | PosOverflow

  /** `s.parse::<usize>()` for a run of ASCII digits: empty is an error,
      and so is a value above `usize::MAX`. */
  function ParseUsize(s: string): (r: Result<nat, IntErrorKind>)
    requires AllDigits(s)
    ensures r.Ok? <==> 0 < |s| && DigitsValue(s) <= USIZE_MAX
    ensures r.Ok? ==> r.value == DigitsValue(s) && r.value <= USIZE_MAX
    ensures r == Err(Empty) <==> |s| == 0
  {
    if |s| == 0 then Err(Empty)
    else if DigitsValue(s) > USIZE_MAX then Err(PosOverflow)
    else Ok(DigitsValue(s))
  }

  /** One dimension of a size argument: `s.parse::<usize>()`, its error wrapped by the
      parser's own `InvalidSizeInt` variant (`map_err` or `?` with `From`). */
  function ParseDimension<E>(digits: string, invalidInt: IntErrorKind -> E): (r: Result<nat, E>)
    requires AllDigits(digits)
    ensures r.Ok? <==> 0 < |digits| && DigitsValue(digits) <= USIZE_MAX
    ensures r.Ok? ==> r.value == DigitsValue(digits)
    ensures r.Err? ==> r.error == invalidInt(ParseUsize(digits).error)
  {
    match ParseUsize(digits)
    case Ok(v) => Ok(v)
    case Err(e) => Err(invalidInt(e))
  }

  /** The unit alternatives `(mm|cm|m)` of both size patterns. */
  predicate IsUnit(u: string) { u == "mm" || u == "cm" || u == "m" }

  /** Millimetres per unit; the `_ => panic!` arm is excluded by the requires. */
  function UnitFactor(u: string): (f: nat)
    requires IsUnit(u)
    ensures u == "mm" ==> f == 1
    ensures u == "cm" ==> f == 10
    ensures u == "m" ==> f == 1000
  {
    if u == "mm" then 1 else if u == "cm" then 10 else 1000
  }

  lemma AllDigitsConcat(a: string, b: string)
    requires AllDigits(a) && AllDigits(b)
    ensures AllDigits(a + b)
  {
    forall i | 0 <= i < |a + b| ensures IsDigit((a + b)[i]) {
      if i < |a| { assert (a + b)[i] == a[i]; } else { assert (a + b)[i] == b[i - |a|]; }
    }
  }

  /** Length of the longest prefix of `s` made of ASCII digits. */
  function LeadingDigits(s: string): (k: nat)
    ensures k <= |s| && AllDigits(s[..k])
    ensures k < |s| ==> !IsDigit(s[k])
  {
    if |s| == 0 || !IsDigit(s[0]) then 0
    else
      var k := 1 + LeadingDigits(s[1..]);
      assert s[..k] == [s[0]] + s[1..][..k - 1];
      k
  }

  /** A digit run followed by a non-digit (or nothing) is exactly the longest digit prefix. */
  lemma {:induction false} LeadingDigitsOf(s: string, k: nat)
    requires k <= |s| && AllDigits(s[..k])
    requires k < |s| ==> !IsDigit(s[k])
    ensures LeadingDigits(s) == k
  {
    if k > 0 {
      assert IsDigit(s[..k][0]);
      assert s[1..][..k - 1] == s[..k][1..];
      LeadingDigitsOf(s[1..], k - 1);
    }
  }
}
