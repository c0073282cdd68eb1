/**
 * `parse_ticket`: the extracted receipt text is split at line feeds, every line
 * is searched with the item pattern, and each matching line contributes one
 * record (name, quantity, unit price, line total), in line order. The upload
 * handler's joining of page texts is modelled as well, since it decides which
 * text reaches the parser.
 */
module Ticket {
  import opened Wrappers
  import opened Chars
  import opened Amounts
  import opened LinePattern
  import opened Sequences
  import opened TextLines

  /** One row of the result table: Benaming, Hoeveelheid, Eenheidsprijs, Totaalprijs. */
  datatype Item = Item(name: string, quantity: string, unitPrice: real, total: real)

  /**
   * The body of the loop once the pattern has matched: strip name and quantity,
   * rewrite the amounts' commas and convert them with `float()`; None is the
   * `except` branch.
   */
  function ItemOf(g: Groups): (r: Option<Item>)
    ensures r.Some? ==> Trimmed(r.value.name) && Trimmed(r.value.quantity)
  {
    var price := ParseFloat(CommaToPoint(g.price));
    var total := ParseFloat(CommaToPoint(g.total));
    if price.Some? && total.Some? then
      Some(Item(Strip(g.lead), Strip(g.quantity), price.value, total.value))
    else
      None
  }

  /** One iteration of the loop: the item of a line, or None when the line is skipped. */
  function ParseLine(line: string): (r: Option<Item>)
    ensures r.Some? <==> Search(line).Some?
    ensures r.Some? ==> Trimmed(r.value.name) && r.value.quantity == Search(line).value.quantity
  {
    match Search(line)
    case None => None
    case Some(g) =>
      ItemOfMatch(g);
      ItemOf(g)
  }

  /**
   * Groups of the pattern's shapes always convert: the quantity is kept
   * verbatim and the amounts get their exact, non-negative values.
   */
  lemma ItemOfMatch(g: Groups)
    requires Token(g.quantity) && IsAmount(g.price) && IsAmount(g.total)
    ensures ItemOf(g) == Some(Item(Strip(g.lead), g.quantity, AmountValue(g.price), AmountValue(g.total)))
  {
    AmountAlwaysParses(g.price);
    AmountAlwaysParses(g.total);
    assert g.quantity == [] + g.quantity + [];
    StripPadded([], g.quantity, []);
  }

  /**
   * Every line the pattern matches yields an item: the `except` branch cannot
   * be reached. The quantity is group 2 verbatim, and the amounts are the exact
   * values of groups 3 and 4, never negative.
   */
  lemma MatchAlwaysYieldsItem(line: string)
    ensures ParseLine(line).Some? <==> Search(line).Some?
    ensures Search(line).Some? ==>
      var g := Search(line).value;
      && ParseLine(line) == Some(Item(Strip(g.lead), g.quantity, AmountValue(g.price), AmountValue(g.total)))
      && ParseLine(line).value.unitPrice >= 0.0
      && ParseLine(line).value.total >= 0.0
  {
    if Search(line).Some? {
      ItemOfMatch(Search(line).value);
    }
  }

  /**
   * A line yields an item whenever it is some text, a whitespace run, a
   * quantity token, a whitespace run, an amount, a whitespace run and an amount
   * ending the line, with at least two characters before the quantity. The item
   * is the stripped text, the token verbatim and the two amounts' values.
   */
  lemma MatchShape(line: string, pre: string, w1: string, q: string, w2: string, p: string, w3: string, t: string)
    requires line == pre + w1 + q + w2 + p + w3 + t
    requires Gap(w1) && Gap(w2) && Gap(w3) && Token(q) && IsAmount(p) && IsAmount(t)
    requires |pre| + |w1| >= 2
    ensures ParseLine(line) == Some(Item(Strip(pre), q, AmountValue(p), AmountValue(t)))
  {
    SearchOfPadded(line, pre, w1, q, w2, p, w3, t);
    MatchAlwaysYieldsItem(line);
  }

  /**
   * Conversely, a line that yields an item has that shape, cut at its last
   * three whitespace-separated runs, and the item is read off that cut.
   */
  lemma MatchLayout(line: string)
    requires ParseLine(line).Some?
    ensures var l := LayoutOf(line);
      && line == l.head + l.gap1 + l.quantity + l.gap2 + l.price + l.gap3 + l.total
      && Gap(l.gap1) && Gap(l.gap2) && Gap(l.gap3)
      && Token(l.quantity) && IsAmount(l.price) && IsAmount(l.total)
      && |l.head| + |l.gap1| >= 2
      && ParseLine(line) == Some(Item(Strip(l.head), l.quantity, AmountValue(l.price), AmountValue(l.total)))
  {
    var l := LayoutOf(line);
    MatchAlwaysYieldsItem(line);
    assert Token(l.quantity) && Gap(l.gap1) && Gap(l.gap2) && Gap(l.gap3);
    MatchShape(line, l.head, l.gap1, l.quantity, l.gap2, l.price, l.gap3, l.total);
  }

  /**
   * A line that yields an item ends in a digit, '.' or ','; so an empty line,
   * or one ending in whitespace or in any other character, yields nothing.
   */
  lemma LineMustEndInAmount(line: string)
    ensures ParseLine(line).Some? ==>
      |line| > 0 && (IsDigit(line[|line| - 1]) || line[|line| - 1] == '.' || line[|line| - 1] == ',')
  {
    if ParseLine(line).Some? {
      MatchLayout(line);
      var l := LayoutOf(line);
      AmountIsToken(l.total);
      assert line[|line| - 1] == l.total[|l.total| - 1];
    }
  }

  /** What `parse_ticket(text)` returns, as a sequence of rows. */
  function TicketItems(text: string): (items: seq<Item>)
    ensures |items| <= |SplitLines(text)|
    ensures forall x :: x in items ==>
      exists j :: 0 <= j < |SplitLines(text)| && ParseLine(SplitLines(text)[j]) == Some(x)
  {
    var lines := SplitLines(text);
    assert ParseText(ParseLine, text) == FilterMap(ParseLine, lines);
    ParseText(ParseLine, text)
  }

  /** `parse_ticket`: split the text into lines, then run the loop that appends one row per matching line. */
  method ParseTicket(text: string) returns (data: seq<Item>)
    ensures data == TicketItems(text)
    ensures |data| <= |SplitLines(text)|
    ensures var lines := SplitLines(text); var idx := KeptIndices(ParseLine, lines);
      && |idx| == |data|
      && (forall i, j :: 0 <= i < j < |idx| ==> idx[i] < idx[j])
      && (forall j :: 0 <= j < |lines| ==> (j in idx <==> Search(lines[j]).Some?))
      && (forall i :: 0 <= i < |idx| ==> ParseLine(lines[idx[i]]) == Some(data[i]))
  {
    var lines := SplitLines(text);
    data := CollectResults(ParseLine, lines);
    TicketRowsInOrder(text);
  }

  /**
   * The rows of a ticket are those of its matching lines, one per line, in
   * line order: the i-th row comes from the i-th matching line.
   */
  lemma TicketRowsInOrder(text: string)
    ensures var lines := SplitLines(text); var idx, data := KeptIndices(ParseLine, lines), TicketItems(text);
      && |idx| == |data|
      && (forall i, j :: 0 <= i < j < |idx| ==> idx[i] < idx[j])
      && (forall j :: 0 <= j < |lines| ==> (j in idx <==> Search(lines[j]).Some?))
      && (forall i :: 0 <= i < |idx| ==> ParseLine(lines[idx[i]]) == Some(data[i]))
  {
    var lines := SplitLines(text);
    assert TicketItems(text) == FilterMap(ParseLine, lines);
    RowsOfLinesInOrder(lines);
  }

  /** The rows of a list of lines come from its matching lines, one each, in order. */
  lemma RowsOfLinesInOrder(lines: seq<string>)
    ensures var idx, data := KeptIndices(ParseLine, lines), FilterMap(ParseLine, lines);
      && |idx| == |data|
      && (forall i, j :: 0 <= i < j < |idx| ==> idx[i] < idx[j])
      && (forall j :: 0 <= j < |lines| ==> (j in idx <==> Search(lines[j]).Some?))
      && (forall i :: 0 <= i < |idx| ==> ParseLine(lines[idx[i]]) == Some(data[i]))
  {
    FilterMapInOrder(ParseLine, lines);
  }

  /** The ticket of `a + "\n" + b` has the rows of `a` followed by the rows of `b`. */
  lemma TicketItemsDistribute(a: string, b: string)
    ensures TicketItems(a + "\n" + b) == TicketItems(a) + TicketItems(b)
  {
    ParseTextDistributes(ParseLine, a, b);
  }

  /** The empty line yields nothing, so neither does the empty text. */
  lemma EmptyLineYieldsNothing()
    ensures ParseLine("") == None
    ensures TicketItems("") == []
  {
    LineMustEndInAmount("");
    ParseEmptyText(ParseLine);
  }

  /**
   * The result is empty exactly when no line of the text matches the pattern
   * (the "no products found" warning).
   */
  lemma NoProductsFound(text: string, lines: seq<string>)
    requires lines == SplitLines(text)
    ensures TicketItems(text) == [] <==> forall j :: 0 <= j < |lines| ==> Search(lines[j]).None?
  {
    assert TicketItems(text) == FilterMap(ParseLine, lines);
    NoItemsFromLines(lines);
  }

  lemma NoItemsFromLines(lines: seq<string>)
    ensures FilterMap(ParseLine, lines) == [] <==> forall j :: 0 <= j < |lines| ==> Search(lines[j]).None?
  {
    FilterMapEmpty(ParseLine, lines);
  }

  /**
   * The receipt text the upload handler builds from the page texts parses to
   * the items of every page, page after page.
   */
  lemma PagesGiveTheirItems(pages: seq<string>)
    ensures TicketItems(AllText(pages)) == ParsePages(ParseLine, pages)
  {
    EmptyLineYieldsNothing();
    PagesParseIndependently(ParseLine, pages);
  }

}
