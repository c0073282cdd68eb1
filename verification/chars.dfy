/**
 * Character classes and whitespace handling used by the receipt-line parser.
 *
 * The item pattern uses the regular-expression classes `\s`, `\S` and `\d`, and
 * the captured name is cleaned with Python's `str.strip()`. Both are modelled on
 * the ASCII range, where Python's `re` and `str.isspace` agree: whitespace is
 * tab, line feed, vertical tab, form feed, carriage return (0x09-0x0D), the
 * four information separators (0x1C-0x1F) and space; a digit is '0'..'9'.
 */
module Chars {

  predicate IsSpace(c: char)
  {
    ('\t' <= c <= '\r') || ('\U{1C}' <= c <= '\U{1F}') || c == ' '
  }

  predicate IsDigit(c: char)
  {
    '0' <= c <= '9'
  }

  /** Every character is whitespace; the empty string is blank. */
  predicate Blank(s: string)
  {
    forall i :: 0 <= i < |s| ==> IsSpace(s[i])
  }

  /** What `\s+` matches: a non-empty run of whitespace. */
  predicate Gap(s: string)
  {
    |s| > 0 && Blank(s)
  }

  /** No character is whitespace. */
  predicate Solid(s: string)
  {
    forall i :: 0 <= i < |s| ==> !IsSpace(s[i])
  }

  /** What `\S+` matches: a non-empty run of non-whitespace. */
  predicate Token(s: string)
  {
    |s| > 0 && Solid(s)
  }

  predicate AllDigits(s: string)
  {
    forall i :: 0 <= i < |s| ==> IsDigit(s[i])
  }

  /**
   * Splits `s` into a prefix and the longest suffix whose characters are all
   * whitespace (`space`) or all non-whitespace (`!space`).
   */
  function SplitRun(s: string, space: bool): (r: (string, string))
    ensures s == r.0 + r.1
    ensures forall i :: 0 <= i < |r.1| ==> IsSpace(r.1[i]) == space
    ensures r.0 == [] || IsSpace(r.0[|r.0| - 1]) != space
    decreases |s|
  {
    if |s| > 0 && IsSpace(s[|s| - 1]) == space then
      var (a, b) := SplitRun(s[..|s| - 1], space);
      (a, b + [s[|s| - 1]])
    else
      (s, [])
  }

  /** The split of SplitRun is the only one with its three properties. */
  lemma {:induction false} SplitRunUnique(s: string, a: string, b: string, space: bool)
    requires s == a + b
    requires forall i :: 0 <= i < |b| ==> IsSpace(b[i]) == space
    requires a == [] || IsSpace(a[|a| - 1]) != space
    ensures SplitRun(s, space) == (a, b)
    decreases |b|
  {
    if |b| == 0 {
      assert s == a;
    } else {
      var b' := b[..|b| - 1];
      assert s[..|s| - 1] == a + b';
      SplitRunUnique(s[..|s| - 1], a, b', space);
      assert b == b' + [s[|s| - 1]];
    }
  }

  /** Whitespace appended to a string joins its trailing whitespace run. */
  lemma SplitRunAbsorbs(s: string, w: string)
    requires Blank(w)
    ensures SplitRun(s + w, true) == (SplitRun(s, true).0, SplitRun(s, true).1 + w)
  {
    var h, tail := SplitRun(s, true).0, SplitRun(s, true).1;
    var g := tail + w;
    assert Blank(g) by {
      forall i | 0 <= i < |g| ensures IsSpace(g[i]) {
        if i < |tail| { assert g[i] == tail[i]; } else { assert g[i] == w[i - |tail|]; }
      }
    }
    assert s + w == h + g;
    SplitRunUnique(s + w, h, g, true);
  }

  /** Removes the leading whitespace of `s`. */
  function DropLeadingSpaces(s: string): (r: string)
    ensures |r| <= |s| && r == s[|s| - |r|..]
    ensures Blank(s[..|s| - |r|])
    ensures r == [] || !IsSpace(r[0])
    decreases |s|
  {
    if |s| > 0 && IsSpace(s[0]) then DropLeadingSpaces(s[1..]) else s
  }

  lemma {:induction false} DropLeadingSpacesUnique(a: string, r: string)
    requires Blank(a)
    requires r == [] || !IsSpace(r[0])
    ensures DropLeadingSpaces(a + r) == r
    decreases |a|
  {
    if |a| > 0 {
      assert (a + r)[1..] == a[1..] + r;
      DropLeadingSpacesUnique(a[1..], r);
    } else {
      assert a + r == r;
    }
  }

  /** A string with no whitespace at either end. */
  predicate Trimmed(s: string)
  {
    s == [] || (!IsSpace(s[0]) && !IsSpace(s[|s| - 1]))
  }

  /** Python's `str.strip()` with no argument. */
  function Strip(s: string): (r: string)
    ensures Trimmed(r)
    ensures exists i, j :: 0 <= i <= j <= |s| && r == s[i..j] && Blank(s[..i]) && Blank(s[j..])
  {
    var t, tail := SplitRun(s, true).0, SplitRun(s, true).1;
    var r := DropLeadingSpaces(t);
    var i := |t| - |r|;
    assert s == t + tail;
    assert r == [] || r[|r| - 1] == t[|t| - 1];
    assert s[i..|t|] == r;
    assert Blank(s[..i]) by {
      assert s[..i] == t[..i];
    }
    assert Blank(s[|t|..]) by {
      assert s[|t|..] == tail;
    }
    r
  }

  /** Stripping removes exactly the whitespace padding around a trimmed string. */
  lemma StripPadded(a: string, r: string, b: string)
    requires Blank(a) && Blank(b) && Trimmed(r)
    ensures Strip(a + r + b) == r
  {
    if r == [] {
      assert a + r + b == [] + (a + b);
      SplitRunUnique(a + r + b, [], a + b, true);
      assert DropLeadingSpaces([]) == [];
    } else {
      SplitRunUnique(a + r + b, a + r, b, true);
      DropLeadingSpacesUnique(a, r);
    }
  }

  /** Whitespace appended to a string does not change what it strips to. */
  lemma StripIgnoresTrailingSpace(s: string, w: string)
    requires Blank(w)
    ensures Strip(s + w) == Strip(s)
  {
    SplitRunAbsorbs(s, w);
  }

  lemma StripBlank(s: string)
    requires Blank(s)
    ensures Strip(s) == []
  {
    assert s == s + [] + [];
    StripPadded(s, [], []);
  }

  /** A string without a line feed, such as every piece of `split('\n')`. */
  predicate NoLineFeed(s: string)
  {
    forall i :: 0 <= i < |s| ==> s[i] != '\n'
  }

  /** A slice of a string without line feeds has none either. */
  lemma NoLineFeedInSlice(s: string, i: nat, j: nat)
    requires i <= j <= |s| && NoLineFeed(s)
    ensures NoLineFeed(s[i..j])
  {
  }
}
