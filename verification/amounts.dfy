/**
 * Amounts on a receipt line: the `\d+[.,]?\d*` shape the item pattern accepts
 * for the unit price and the line total, the comma-to-point rewrite applied to
 * them, and the `float()` conversion that follows, with exact decimal values.
 */
module Amounts {
  import opened Wrappers
  import opened Chars

  function Pow10(n: nat): (r: nat)
    ensures r >= 1
  {
    if n == 0 then 1 else 10 * Pow10(n - 1)
  }

  /** The value of a string of decimal digits; the empty string is worth 0. */
  function DigitsValue(s: string): (v: nat)
    requires AllDigits(s)
    ensures v < Pow10(|s|)
  {
    if |s| == 0 then 0
    else DigitsValue(s[..|s| - 1]) * 10 + (s[|s| - 1] as int - '0' as int)
  }

  lemma FractionBelowOne(f: real, d: real)
    requires 0.0 <= f < d
    ensures 0.0 <= f / d < 1.0
  {
    assert f / d < d / d;
  }

  /** An exact decimal number written as whole digits and fraction digits. */
  datatype Decimal = Decimal(whole: string, frac: string)
  {
    predicate Valid()
    {
      AllDigits(whole) && AllDigits(frac)
    }

    /** whole + frac / 10^|frac|: the fraction digits make up the part below one. */
    function Value(): (v: real)
      requires Valid()
      ensures DigitsValue(whole) as real <= v < DigitsValue(whole) as real + 1.0
    {
      var f := DigitsValue(frac) as real;
      var d := Pow10(|frac|) as real;
      FractionBelowOne(f, d);
      DigitsValue(whole) as real + f / d
    }
  }

  /** The longest prefix of `s` made of digits. */
  function LeadingDigits(s: string): (r: string)
    ensures |r| <= |s| && r == s[..|r|]
    ensures AllDigits(r)
    ensures |r| == |s| || !IsDigit(s[|r|])
    decreases |s|
  {
    if |s| > 0 && IsDigit(s[0]) then [s[0]] + LeadingDigits(s[1..]) else []
  }

  lemma {:induction false} LeadingDigitsUnique(a: string, b: string)
    requires AllDigits(a)
    requires b == [] || !IsDigit(b[0])
    ensures LeadingDigits(a + b) == a
    decreases |a|
  {
    if |a| > 0 {
      assert (a + b)[1..] == a[1..] + b;
      LeadingDigitsUnique(a[1..], b);
      assert a == [a[0]] + a[1..];
    } else {
      assert a + b == b;
    }
  }

  /** The language of the regular expression `\d+[.,]?\d*`. */
  ghost predicate AmountSyntax(s: string)
  {
    exists whole, sep, frac ::
      && s == whole + sep + frac
      && |whole| > 0 && AllDigits(whole)
      && (sep == "" || sep == "." || sep == ",")
      && AllDigits(frac)
  }

  /**
   * Reads `s` as `\d+[.,]?\d*`: the leading digits, then either nothing or one
   * separator followed by digits only.
   */
  function ScanAmount(s: string): (r: Option<Decimal>)
    ensures r.Some? ==>
      && r.value.Valid() && |r.value.whole| > 0
      && (|| (s == r.value.whole && r.value.frac == [])
          || s == r.value.whole + "." + r.value.frac
          || s == r.value.whole + "," + r.value.frac)
  {
    var whole := LeadingDigits(s);
    var rest := s[|whole|..];
    if |whole| == 0 then None
    else if rest == [] then
      assert s == whole;
      Some(Decimal(whole, []))
    else if (rest[0] == '.' || rest[0] == ',') && AllDigits(rest[1..]) then
      assert s == whole + [rest[0]] + rest[1..];
      Some(Decimal(whole, rest[1..]))
    else None
  }

  predicate IsAmount(s: string)
  {
    ScanAmount(s).Some?
  }

  lemma AllDigitsAppend(a: string, b: string)
    requires AllDigits(a) && AllDigits(b)
    ensures AllDigits(a + b)
  {
    forall i | 0 <= i < |a + b|
      ensures IsDigit((a + b)[i])
    {
      if i < |a| { assert (a + b)[i] == a[i]; } else { assert (a + b)[i] == b[i - |a|]; }
    }
  }

  /** A string of the regular expression `\d+[.,]?\d*` is accepted by ScanAmount. */
  lemma ScanAmountComplete(whole: string, sep: string, frac: string)
    requires |whole| > 0 && AllDigits(whole)
    requires sep == "" || sep == "." || sep == ","
    requires AllDigits(frac)
    ensures IsAmount(whole + sep + frac)
  {
    var s := whole + sep + frac;
    if sep == "" {
      assert s == whole + frac;
      AllDigitsAppend(whole, frac);
      assert s == s + [];
      LeadingDigitsUnique(s, []);
    } else {
      assert s == whole + (sep + frac);
      LeadingDigitsUnique(whole, sep + frac);
      assert s[|whole|..] == sep + frac;
      assert (sep + frac)[1..] == frac;
    }
  }

  /** ScanAmount accepts exactly the strings of the regular expression `\d+[.,]?\d*`. */
  lemma ScanAmountIsRegex(s: string)
    ensures IsAmount(s) <==> AmountSyntax(s)
  {
    if IsAmount(s) {
      var d := ScanAmount(s).value;
      if s == d.whole + "." + d.frac {
      } else if s == d.whole + "," + d.frac {
      } else {
        assert s == d.whole + "" + d.frac;
      }
    }
    if AmountSyntax(s) {
      var whole, sep, frac :| s == whole + sep + frac && |whole| > 0 && AllDigits(whole)
        && (sep == "" || sep == "." || sep == ",") && AllDigits(frac);
      ScanAmountComplete(whole, sep, frac);
    }
  }

  /** The value of an accepted amount. */
  function AmountValue(s: string): (v: real)
    requires IsAmount(s)
    ensures v >= 0.0
  {
    ScanAmount(s).value.Value()
  }

  /** An amount written with a separator is read as its whole digits and its fraction digits. */
  lemma ScanOfDecimal(s: string, whole: string, sep: string, frac: string)
    requires s == whole + sep + frac
    requires |whole| > 0 && AllDigits(whole)
    requires sep == "." || sep == ","
    requires AllDigits(frac)
    ensures ScanAmount(s) == Some(Decimal(whole, frac))
  {
    assert s == whole + (sep + frac);
    LeadingDigitsUnique(whole, sep + frac);
    assert s[|whole|..] == sep + frac;
    assert (sep + frac)[1..] == frac;
  }

  /** An amount written with a separator is its whole digits plus its fraction digits over a power of ten. */
  lemma AmountOfDecimal(s: string, whole: string, sep: string, frac: string)
    requires s == whole + sep + frac
    requires |whole| > 0 && AllDigits(whole)
    requires sep == "." || sep == ","
    requires AllDigits(frac)
    ensures IsAmount(s)
    ensures AmountValue(s) == DigitsValue(whole) as real + DigitsValue(frac) as real / Pow10(|frac|) as real
  {
    ScanOfDecimal(s, whole, sep, frac);
  }

  /** An amount written without a separator is read as whole digits with no fraction. */
  lemma ScanOfWhole(whole: string)
    requires |whole| > 0 && AllDigits(whole)
    ensures ScanAmount(whole) == Some(Decimal(whole, []))
  {
    assert whole == whole + [];
    LeadingDigitsUnique(whole, []);
  }

  /** An amount written without a separator is the number its digits spell. */
  lemma AmountOfWhole(whole: string)
    requires |whole| > 0 && AllDigits(whole)
    ensures IsAmount(whole)
    ensures AmountValue(whole) == DigitsValue(whole) as real
  {
    ScanOfWhole(whole);
    var d := Decimal(whole, []);
    assert DigitsValue(d.frac) == 0 && Pow10(|d.frac|) == 1;
  }

  /** Python's `s.replace(",", ".")`. */
  function CommaToPoint(s: string): (r: string)
    ensures |r| == |s|
    ensures forall i :: 0 <= i < |s| ==> r[i] == (if s[i] == ',' then '.' else s[i])
    ensures forall i :: 0 <= i < |r| ==> r[i] != ','
  {
    if |s| == 0 then [] else [if s[0] == ',' then '.' else s[0]] + CommaToPoint(s[1..])
  }

  lemma NoCommaUnchanged(s: string)
    requires forall i :: 0 <= i < |s| ==> IsDigit(s[i]) || s[i] == '.'
    ensures CommaToPoint(s) == s
  {
  }

  /** The separator comma between two digit strings becomes a point. */
  lemma CommaBecomesPoint(whole: string, frac: string)
    requires AllDigits(whole) && AllDigits(frac)
    ensures CommaToPoint(whole + "," + frac) == whole + "." + frac
  {
    var s, pointed := whole + "," + frac, whole + "." + frac;
    forall i | 0 <= i < |s|
      ensures CommaToPoint(s)[i] == pointed[i]
    {
      if i < |whole| {
        assert s[i] == whole[i] == pointed[i];
      } else if i > |whole| {
        assert s[i] == frac[i - |whole| - 1] == pointed[i];
      }
    }
  }

  /**
   * Python's `float(s)` on the strings it can meet here: an optional sign, then
   * digits with at most one decimal point and at least one digit. Anything else
   * is the ValueError that the caller's `except` catches, here None.
   */
  function ParseFloat(s: string): (r: Option<real>)
    ensures r.Some? ==> exists i :: 0 <= i < |s| && IsDigit(s[i])
    ensures r.Some? && (s == [] || s[0] != '-') ==> r.value >= 0.0
  {
    var negative := |s| > 0 && s[0] == '-';
    var body := if |s| > 0 && (s[0] == '-' || s[0] == '+') then s[1..] else s;
    var whole := LeadingDigits(body);
    var rest := body[|whole|..];
    if rest == [] && |whole| > 0 then
      assert body[0] == whole[0];
      var v := Decimal(whole, []).Value();
      Some(if negative then -v else v)
    else if |rest| > 1 && rest[0] == '.' && AllDigits(rest[1..]) then
      assert body[|whole| + 1] == rest[1];
      var v := Decimal(whole, rest[1..]).Value();
      Some(if negative then -v else v)
    else if |rest| == 1 && rest[0] == '.' && |whole| > 0 then
      assert body[0] == whole[0];
      var v := Decimal(whole, []).Value();
      Some(if negative then -v else v)
    else None
  }

  /** Writing a decimal with a point and reading it back with float() gives its value. */
  lemma {:induction false} FloatOfWrittenDecimal(d: Decimal)
    requires d.Valid() && |d.whole| > 0
    ensures ParseFloat(d.whole + "." + d.frac) == Some(d.Value())
    ensures d.frac == [] ==> ParseFloat(d.whole) == Some(d.Value())
  {
    var s := d.whole + "." + d.frac;
    assert s == d.whole + ("." + d.frac);
    LeadingDigitsUnique(d.whole, "." + d.frac);
    assert s[|d.whole|..] == "." + d.frac;
    assert ("." + d.frac)[1..] == d.frac;
    if d.frac == [] {
      assert d.whole == d.whole + [];
      LeadingDigitsUnique(d.whole, []);
    }
  }

  /**
   * Every price or total the pattern accepts survives the comma rewrite and
   * float(): the conversion cannot fail, and it yields the amount's exact value.
   */
  lemma AmountAlwaysParses(s: string)
    requires IsAmount(s)
    ensures ParseFloat(CommaToPoint(s)) == Some(AmountValue(s))
  {
    var d := ScanAmount(s).value;
    FloatOfWrittenDecimal(d);
    var pointed := d.whole + "." + d.frac;
    if s == d.whole && d.frac == [] {
      NoCommaUnchanged(s);
    } else if s == pointed {
      NoCommaUnchanged(s);
    } else {
      CommaBecomesPoint(d.whole, d.frac);
    }
  }

}
