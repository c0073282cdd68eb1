/**
 * The receipt text as lines: Python's `text.split('\n')` and its inverse
 * `'\n'.join`, a line-by-line parse with any per-line step, and the upload
 * handler's joining of page texts. Everything here is independent of what one
 * line yields, so it is stated for an arbitrary step `f`.
 */
module TextLines {
  import opened Wrappers
  import opened Chars
  import opened Sequences

  /** Python's `'\n'.join(lines)`. */
  function JoinLines(lines: seq<string>): string
  {
    if |lines| == 0 then ""
    else if |lines| == 1 then lines[0]
    else lines[0] + "\n" + JoinLines(lines[1..])
  }

  /**
   * Python's `text.split('\n')`: the pieces between line feeds, so there is
   * always at least one piece, and joining them back gives the text.
   */
  function SplitLines(text: string): (lines: seq<string>)
    ensures |lines| >= 1
    ensures forall i :: 0 <= i < |lines| ==> NoLineFeed(lines[i])
    ensures JoinLines(lines) == text
    decreases |text|
  {
    if |text| == 0 then [""]
    else
      var rest := SplitLines(text[1..]);
      assert text == [text[0]] + text[1..];
      if text[0] == '\n' then
        assert ([""] + rest)[1..] == rest;
        [""] + rest
      else
        var first := [text[0]] + rest[0];
        assert ([first] + rest[1..])[1..] == rest[1..];
        assert NoLineFeed(first) by {
          forall i | 0 <= i < |first| ensures first[i] != '\n' {
            if i > 0 { assert first[i] == rest[0][i - 1]; }
          }
        }
        [first] + rest[1..]
  }

  /** A line without line feeds followed by a line feed starts a new piece. */
  lemma {:induction false} SplitAfterLine(a: string, s: string)
    requires NoLineFeed(a)
    ensures SplitLines(a + "\n" + s) == [a] + SplitLines(s)
    ensures SplitLines(a) == [a]
    decreases |a|
  {
    if |a| > 0 {
      assert (a + "\n" + s)[1..] == a[1..] + "\n" + s;
      SplitAfterLine(a[1..], s);
      assert a == [a[0]] + a[1..];
    } else {
      assert (a + "\n" + s)[1..] == s;
    }
  }

  /** Splitting undoes joining, for pieces without line feeds. */
  lemma {:induction false} SplitOfJoin(lines: seq<string>)
    requires |lines| >= 1
    requires forall i :: 0 <= i < |lines| ==> NoLineFeed(lines[i])
    ensures SplitLines(JoinLines(lines)) == lines
    decreases |lines|
  {
    SplitAfterLine(lines[0], "");
    if |lines| > 1 {
      SplitOfJoin(lines[1..]);
      SplitAfterLine(lines[0], JoinLines(lines[1..]));
      assert lines == [lines[0]] + lines[1..];
    }
  }

  /** Splitting at a line feed splits the two sides independently. */
  lemma {:induction false} SplitLinesDistributes(a: string, b: string)
    ensures SplitLines(a + "\n" + b) == SplitLines(a) + SplitLines(b)
    decreases |a|
  {
    if |a| == 0 {
      assert a + "\n" + b == "\n" + b;
      assert ("\n" + b)[1..] == b;
    } else {
      assert (a + "\n" + b)[1..] == a[1..] + "\n" + b;
      assert (a + "\n" + b)[0] == a[0];
      SplitLinesDistributes(a[1..], b);
    }
  }

  /** Split the text into lines and keep the present results of `f`, in line order. */
  function ParseText<U>(f: string -> Option<U>, text: string): seq<U>
  {
    FilterMap(f, SplitLines(text))
  }

  /** Parsing text joined at a line feed gives the results of the first part, then those of the second. */
  lemma ParseTextDistributes<U>(f: string -> Option<U>, a: string, b: string)
    ensures ParseText(f, a + "\n" + b) == ParseText(f, a) + ParseText(f, b)
  {
    SplitLinesDistributes(a, b);
    FilterMapAppend(f, SplitLines(a), SplitLines(b));
  }

  /** The empty text is one empty line, so it yields what the empty line yields. */
  lemma ParseEmptyText<U>(f: string -> Option<U>)
    ensures ParseText(f, "") == if f("").Some? then [f("").value] else []
  {
    assert SplitLines("") == [""];
  }

  /** A line break at the end only adds an empty line, which yields nothing. */
  lemma DropTrailingLineBreak<U>(f: string -> Option<U>, a: string)
    requires f("").None?
    ensures ParseText(f, a + "\n") == ParseText(f, a)
  {
    assert a + "\n" == a + "\n" + "";
    ParseTextDistributes(f, a, "");
    ParseEmptyText(f);
  }

  /** Text that ends at a line break parses independently of what follows it. */
  lemma AppendAfterLineBreak<U>(f: string -> Option<U>, a: string, x: string)
    requires f("").None?
    requires a == [] || a[|a| - 1] == '\n'
    ensures ParseText(f, a + x) == ParseText(f, a) + ParseText(f, x)
  {
    if a == [] {
      ParseEmptyText(f);
      assert a + x == x;
    } else {
      var a' := a[..|a| - 1];
      assert a == a' + "\n";
      assert a + x == a' + "\n" + x;
      ParseTextDistributes(f, a', x);
      DropTrailingLineBreak(f, a');
    }
  }

  /**
   * The upload handler's `all_text`: each page text that is not empty
   * (`if text:`), followed by a line feed. A missing page text is the empty string.
   */
  function AllText(pages: seq<string>): (text: string)
    ensures text == [] || text[|text| - 1] == '\n'
  {
    if |pages| == 0 then ""
    else
      var init := AllText(pages[..|pages| - 1]);
      var page := pages[|pages| - 1];
      if page == "" then init else init + page + "\n"
  }

  /** The results of each page's text parsed on its own, page after page. */
  function ParsePages<U>(f: string -> Option<U>, pages: seq<string>): seq<U>
  {
    if |pages| == 0 then []
    else ParsePages(f, pages[..|pages| - 1]) + ParseText(f, pages[|pages| - 1])
  }

  /** One more page after text that ends at a line break adds that page's results. */
  lemma AppendPage<U>(f: string -> Option<U>, a: string, page: string)
    requires f("").None?
    requires a == [] || a[|a| - 1] == '\n'
    ensures ParseText(f, a + page + "\n") == ParseText(f, a) + ParseText(f, page)
  {
    assert a + page + "\n" == a + (page + "\n");
    AppendAfterLineBreak(f, a, page + "\n");
    DropTrailingLineBreak(f, page);
  }

  /**
   * When the empty line yields nothing, parsing the joined pages gives the
   * results of the pages parsed one by one, in page order.
   */
  lemma {:induction false} PagesParseIndependently<U>(f: string -> Option<U>, pages: seq<string>)
    requires f("").None?
    ensures ParseText(f, AllText(pages)) == ParsePages(f, pages)
    decreases |pages|
  {
    if |pages| == 0 {
      ParseEmptyText(f);
    } else {
      var init := pages[..|pages| - 1];
      var page := pages[|pages| - 1];
      PagesParseIndependently(f, init);
      assert ParsePages(f, pages) == ParsePages(f, init) + ParseText(f, page);
      if page == "" {
        ParseEmptyText(f);
        assert AllText(pages) == AllText(init);
      } else {
        assert AllText(pages) == AllText(init) + page + "\n";
        AppendPage(f, AllText(init), page);
      }
    }
  }

}
