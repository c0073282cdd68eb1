/**
 * The item-line pattern of `parse_ticket`,
 *
 *     (.+?)\s+(\S+)\s+(\d+[.,]?\d*)\s+(\d+[.,]?\d*)$
 *
 * applied with `pattern.search(line)` to one line of receipt text. Its meaning
 * as a regular expression is stated as a language (MatchAt) and computed by
 * Search, which reads the line from its end: the last three whitespace-separated
 * runs are total, price and quantity, and group 1 is what precedes them.
 */
module LinePattern {
  import opened Wrappers
  import opened Chars
  import opened Amounts

  /** The four capture groups of a match; `lead` is group 1 before stripping. */
  datatype Groups = Groups(lead: string, quantity: string, price: string, total: string)

  /**
   * A line cut, from its end, into alternating runs of non-whitespace and
   * whitespace. LayoutOf takes each run as long as it can (SplitRun), and
   * LayoutOfPadded pins down the cut of every line of the matched shape.
   */
  datatype Layout = Layout(head: string, gap1: string, quantity: string, gap2: string,
                           price: string, gap3: string, total: string)
  {
    function Joined(): string
    {
      head + gap1 + quantity + gap2 + price + gap3 + total
    }
  }

  function LayoutOf(line: string): (l: Layout)
    ensures l.Joined() == line
    ensures Blank(l.gap1) && Blank(l.gap2) && Blank(l.gap3)
    ensures Solid(l.quantity) && Solid(l.price) && Solid(l.total)
    ensures l.head == [] || !IsSpace(l.head[|l.head| - 1])
  {
    var total := SplitRun(line, false);
    var gap3 := SplitRun(total.0, true);
    var price := SplitRun(gap3.0, false);
    var gap2 := SplitRun(price.0, true);
    var quantity := SplitRun(gap2.0, false);
    var gap1 := SplitRun(quantity.0, true);
    Layout(gap1.0, gap1.1, quantity.1, gap2.1, price.1, gap3.1, total.1)
  }

  /**
   * `pattern.search(line)`: None when there is no match, otherwise the groups
   * of the match the regular-expression engine reports.
   */
  function Search(line: string): (m: Option<Groups>)
    ensures m.Some? ==>
      && |m.value.lead| >= 1
      && Token(m.value.quantity) && IsAmount(m.value.price) && IsAmount(m.value.total)
  {
    var l := LayoutOf(line);
    if && |l.gap1| > 0 && |l.quantity| > 0 && |l.gap2| > 0 && |l.gap3| > 0
       && IsAmount(l.price) && IsAmount(l.total)
       && |l.head| + |l.gap1| >= 2
    then
      var k := if |l.head| == 0 then 1 else |l.head|;
      Some(Groups((l.head + l.gap1)[..k], l.quantity, l.price, l.total))
    else
      None
  }

  /**
   * `\s+(\S+)\s+(\d+[.,]?\d*)\s+(\d+[.,]?\d*)$` as a language: `s` is matched
   * by the pattern after group 1, with groups 2, 3 and 4 equal to q, p and t.
   */
  ghost predicate TailMatch(s: string, q: string, p: string, t: string)
  {
    exists w1, w2, w3 ::
      && Gap(w1) && Gap(w2) && Gap(w3)
      && s == w1 + q + w2 + p + w3 + t
      && Token(q) && AmountSyntax(p) && AmountSyntax(t)
  }

  /**
   * The pattern matches `line` with group 1 spanning line[start..k] (`.+?`: at
   * least one character, none a line feed) and groups 2-4 equal to q, p and t.
   */
  ghost predicate MatchAt(line: string, start: nat, k: nat, q: string, p: string, t: string)
  {
    && start < k <= |line|
    && NoLineFeed(line[start..k])
    && TailMatch(line[k..], q, p, t)
  }

  /** An accepted amount is a non-empty run of digits and at most one separator. */
  lemma AmountIsToken(s: string)
    requires IsAmount(s)
    ensures Token(s)
    ensures IsDigit(s[|s| - 1]) || s[|s| - 1] == '.' || s[|s| - 1] == ','
  {
    var d := ScanAmount(s).value;
    if s == d.whole + "." + d.frac {
      assert s == d.whole + ("." + d.frac);
    } else if s == d.whole + "," + d.frac {
      assert s == d.whole + ("," + d.frac);
    }
  }

  /** A run whose last character differs in kind from what follows ends the longest trailing run. */
  lemma PeelRun(a: string, b: string, c: string, space: bool)
    requires |b| > 0 && IsSpace(b[|b| - 1]) != space
    requires forall i :: 0 <= i < |c| ==> IsSpace(c[i]) == space
    ensures SplitRun(a + b + c, space) == (a + b, c)
  {
    SplitRunUnique(a + b + c, a + b, c, space);
  }

  /** LayoutOf read off the six run splits it performs. */
  lemma LayoutOfRuns(line: string, x1: string, x2: string, x3: string, x4: string, x5: string,
                     h: string, g1: string, q: string, w2: string, p: string, w3: string, t: string)
    requires SplitRun(line, false) == (x5, t)
    requires SplitRun(x5, true) == (x4, w3)
    requires SplitRun(x4, false) == (x3, p)
    requires SplitRun(x3, true) == (x2, w2)
    requires SplitRun(x2, false) == (x1, q)
    requires SplitRun(x1, true) == (h, g1)
    ensures LayoutOf(line) == Layout(h, g1, q, w2, p, w3, t)
  {
  }

  /**
   * A line made of any prefix and three whitespace-separated runs is cut by
   * LayoutOf at exactly those runs; whitespace ending the prefix joins the first gap.
   */
  lemma LayoutOfPadded(line: string, pre: string, w1: string, q: string, w2: string, p: string, w3: string, t: string)
    requires line == pre + w1 + q + w2 + p + w3 + t
    requires Gap(w1) && Gap(w2) && Gap(w3) && Token(q) && Token(p) && Token(t)
    ensures var trimmed := SplitRun(pre, true);
      LayoutOf(line) == Layout(trimmed.0, trimmed.1 + w1, q, w2, p, w3, t)
  {
    var x1 := pre + w1;
    var x2 := x1 + q;
    var x3 := x2 + w2;
    var x4 := x3 + p;
    var x5 := x4 + w3;
    PeelRun(x4, w3, t, false);
    PeelRun(x3, p, w3, true);
    PeelRun(x2, w2, p, false);
    PeelRun(x1, q, w2, true);
    PeelRun(pre, w1, q, false);
    SplitRunAbsorbs(pre, w1);
    var h, g1 := SplitRun(pre, true).0, SplitRun(pre, true).1 + w1;
    LayoutOfRuns(line, x1, x2, x3, x4, x5, h, g1, q, w2, p, w3, t);
  }

  /** Cutting a laid-out line inside its head and first gap. */
  lemma SliceOfLayout(l: Layout, k: nat)
    requires k <= |l.head| + |l.gap1|
    ensures l.Joined()[..k] == (l.head + l.gap1)[..k]
    ensures l.Joined()[k..] == (l.head + l.gap1)[k..] + l.quantity + l.gap2 + l.price + l.gap3 + l.total
  {
    var rest := l.quantity + l.gap2 + l.price + l.gap3 + l.total;
    assert l.Joined() == (l.head + l.gap1) + rest;
    var x := l.head + l.gap1;
    assert (x + rest)[k..] == x[k..] + rest;
    assert x[k..] + rest == x[k..] + l.quantity + l.gap2 + l.price + l.gap3 + l.total;
  }

  /** What Search reports is a match of the pattern, with group 1 starting at 0. */
  lemma SearchSound(line: string)
    requires Search(line).Some?
    ensures var g := Search(line).value;
      && 1 <= |g.lead| <= |line|
      && line[..|g.lead|] == g.lead
      && TailMatch(line[|g.lead|..], g.quantity, g.price, g.total)
  {
    var l := LayoutOf(line);
    var g := Search(line).value;
    var k := |g.lead|;
    assert k == if |l.head| == 0 then 1 else |l.head|;
    ScanAmountIsRegex(l.price);
    ScanAmountIsRegex(l.total);
    SliceOfLayout(l, k);
    var w1 := (l.head + l.gap1)[k..];
    assert w1 == if |l.head| == 0 then l.gap1[1..] else l.gap1;
    assert Gap(w1) && Gap(l.gap2) && Gap(l.gap3) && Token(l.quantity);
    assert line[k..] == w1 + l.quantity + l.gap2 + l.price + l.gap3 + l.total;
    assert TailMatch(line[k..], l.quantity, l.price, l.total);
  }

  /**
   * A line made of a prefix of at least one character, a gap, a token, a gap,
   * an amount, a gap and an amount is matched; its groups 2-4 are those three
   * runs and group 1 strips to the stripped prefix.
   */
  lemma SearchOfPadded(line: string, pre: string, w1: string, q: string, w2: string, p: string, w3: string, t: string)
    requires line == pre + w1 + q + w2 + p + w3 + t
    requires Gap(w1) && Gap(w2) && Gap(w3) && Token(q) && IsAmount(p) && IsAmount(t)
    requires |pre| + |w1| >= 2
    ensures Search(line).Some?
    ensures var g := Search(line).value;
      && g.quantity == q && g.price == p && g.total == t
      && |g.lead| <= (if |pre| == 0 then 1 else |pre|)
      && Strip(g.lead) == Strip(pre)
  {
    AmountIsToken(p);
    AmountIsToken(t);
    LayoutOfPadded(line, pre, w1, q, w2, p, w3, t);
    var h, ptail := SplitRun(pre, true).0, SplitRun(pre, true).1;
    var g1 := ptail + w1;
    assert pre == h + ptail;
    assert LayoutOf(line) == Layout(h, g1, q, w2, p, w3, t);
    var g := Search(line).value;
    if |h| == 0 {
      assert g.lead == [g1[0]];
      assert Blank(g.lead);
      StripBlank(g.lead);
      assert pre == ptail;
      StripBlank(pre);
    } else {
      assert g.lead == h;
      StripIgnoresTrailingSpace(h, ptail);
    }
  }

  /**
   * The converse edge of SearchOfPadded: when the token is preceded by a
   * single whitespace character and nothing else (so `pre` is empty), group 1
   * has no character it may take, and the line is not matched.
   */
  lemma SearchOfPaddedTooShort(line: string, pre: string, w1: string, q: string, w2: string, p: string, w3: string, t: string)
    requires line == pre + w1 + q + w2 + p + w3 + t
    requires Gap(w1) && Gap(w2) && Gap(w3) && Token(q) && IsAmount(p) && IsAmount(t)
    requires |pre| + |w1| < 2
    ensures Search(line).None?
  {
    AmountIsToken(p);
    AmountIsToken(t);
    LayoutOfPadded(line, pre, w1, q, w2, p, w3, t);
    assert pre == [];
    ShortHeadNotMatched(line);
  }

  /** Fewer than two characters before the quantity: group 1 and the `\s+` after it need one each. */
  lemma ShortHeadNotMatched(line: string)
    requires |LayoutOf(line).head| + |LayoutOf(line).gap1| < 2
    ensures Search(line).None?
  {
  }

  lemma CutAndJoin(line: string, k: nat, w1: string, q: string, w2: string, p: string, w3: string, t: string)
    requires k <= |line|
    requires line[k..] == w1 + q + w2 + p + w3 + t
    ensures line == line[..k] + w1 + q + w2 + p + w3 + t
  {
    assert line == line[..k] + line[k..];
  }

  /**
   * Any match of the pattern whose group 1 ends at k has the groups Search
   * reports, and Search's group 1 ends no later than k: the lazy `.+?` stops at the
   * first place the rest can match. Both group 1 candidates strip to the same name.
   */
  lemma SearchComplete(line: string, k: nat, q: string, p: string, t: string)
    requires 1 <= k <= |line|
    requires TailMatch(line[k..], q, p, t)
    ensures Search(line).Some?
    ensures var g := Search(line).value;
      && g.quantity == q && g.price == p && g.total == t
      && |g.lead| <= k
      && Strip(g.lead) == Strip(line[..k])
  {
    var w1, w2, w3 :| && Gap(w1) && Gap(w2) && Gap(w3)
      && line[k..] == w1 + q + w2 + p + w3 + t
      && Token(q) && AmountSyntax(p) && AmountSyntax(t);
    ScanAmountIsRegex(p);
    ScanAmountIsRegex(t);
    var pre := line[..k];
    CutAndJoin(line, k, w1, q, w2, p, w3, t);
    SearchOfPadded(line, pre, w1, q, w2, p, w3, t);
  }

  /**
   * Search computes `pattern.search(line)` on an ASCII line without line feeds (every
   * line `str.split('\n')` produces): it reports a match exactly when the
   * pattern matches somewhere, and then the leftmost one (at 0); no match's
   * group 1 ends before Search's, so among the matches at 0 it has the shortest
   * group 1 (lazy `.+?`), and it has the only groups 2-4 any match can have.
   */
  lemma SearchIsLeftmostLazyMatch(line: string)
    requires NoLineFeed(line)
    ensures Search(line).Some? <==> exists start, k, q, p, t :: MatchAt(line, start, k, q, p, t)
    ensures Search(line).Some? ==>
      var g := Search(line).value;
      && MatchAt(line, 0, |g.lead|, g.quantity, g.price, g.total)
      && line[..|g.lead|] == g.lead
      && forall start, k, q, p, t :: MatchAt(line, start, k, q, p, t) ==>
           |g.lead| <= k && q == g.quantity && p == g.price && t == g.total
  {
    if Search(line).Some? {
      var g := Search(line).value;
      SearchSound(line);
      NoLineFeedInSlice(line, 0, |g.lead|);
      assert MatchAt(line, 0, |g.lead|, g.quantity, g.price, g.total);
      forall start, k, q, p, t | MatchAt(line, start, k, q, p, t)
        ensures |g.lead| <= k && q == g.quantity && p == g.price && t == g.total
      {
        SearchComplete(line, k, q, p, t);
      }
    }
    if exists start, k, q, p, t :: MatchAt(line, start, k, q, p, t) {
      var start, k, q, p, t :| MatchAt(line, start, k, q, p, t);
      SearchComplete(line, k, q, p, t);
    }
  }

}
