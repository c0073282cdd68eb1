/**
 * Concrete receipt lines and what `parse_ticket` makes of them. Two of them
 * are sample item lines; the others sit at the edge of the pattern, where the
 * lazy name group may or may not be empty. Each example is stated on the
 * literal line and proved from a lemma that names the line's pieces.
 */
module TicketExamples {
  import opened Wrappers
  import opened Chars
  import opened Amounts
  import opened LinePattern
  import opened Ticket

  /** The two-digit amount `w,ff` (or `w.ff`) has the value w + ff/100. */
  lemma Cents(s: string, w: char, sep: char, f1: char, f2: char)
    requires s == [w, sep, f1, f2]
    requires IsDigit(w) && IsDigit(f1) && IsDigit(f2)
    requires sep == '.' || sep == ','
    ensures IsAmount(s)
    ensures AmountValue(s)
      == (w as int - '0' as int) as real
         + ((f1 as int - '0' as int) * 10 + (f2 as int - '0' as int)) as real / 100.0
  {
    var whole, frac := [w], [f1, f2];
    assert s == whole + [sep] + frac;
    assert frac[..1] == [f1];
    assert [f1][..0] == [];
    assert whole[..0] == [];
    AmountOfDecimal(s, whole, [sep], frac);
  }

  /** A name that starts and ends with a non-space character is left alone by `strip()`. */
  lemma StripKeeps(name: string)
    requires Trimmed(name)
    ensures Strip(name) == name
  {
    assert [] + name + [] == name;
    StripPadded([], name, []);
  }

  /** A line whose name needs no stripping yields that name, the token and the two amounts' values. */
  lemma PlainItem(line: string, pre: string, w1: string, q: string, w2: string, p: string, w3: string, t: string,
                  price: real, total: real)
    requires line == pre + w1 + q + w2 + p + w3 + t
    requires Gap(w1) && Gap(w2) && Gap(w3) && Token(q)
    requires |pre| > 0 && Trimmed(pre)
    requires IsAmount(p) && AmountValue(p) == price
    requires IsAmount(t) && AmountValue(t) == total
    ensures ParseLine(line) == Some(Item(pre, q, price, total))
  {
    StripKeeps(pre);
    MatchShape(line, pre, w1, q, w2, p, w3, t);
  }

  /**
   * The weighed line: the lazy name group stops before the last
   * whitespace run ahead of the last three tokens, so the weight stays in
   * the name and the quantity is the unit alone.
   */
  lemma WeighedLine()
    ensures ParseLine("Bananen bio         0.65 kg   1,98   1,29")
      == Some(Item("Bananen bio         0.65", "kg", 1.98, 1.29))
  {
    WeighedLineRuns();
    Cents("1,98", '1', ',', '9', '8');
    Cents("1,29", '1', ',', '2', '9');
    PlainItem("Bananen bio         0.65 kg   1,98   1,29",
              "Bananen bio         0.65", " ", "kg", "   ", "1,98", "   ", "1,29", 1.98, 1.29);
  }

  /** The pieces of the weighed line and their shapes. */
  lemma WeighedLineRuns()
    ensures |"Bananen bio         0.65"| > 0 && Trimmed("Bananen bio         0.65")
    ensures Token("kg") && Gap(" ") && Gap("   ")
    ensures "Bananen bio         0.65 kg   1,98   1,29"
      == "Bananen bio         0.65" + " " + "kg" + "   " + "1,98" + "   " + "1,29"
  {
    assert Token("kg");
  }

  /** The counted line: the count stays in the name and the quantity is the unit `st`. */
  lemma CountedLine()
    ensures ParseLine("Melk halfvol 1L            2 st   1,10   2,20")
      == Some(Item("Melk halfvol 1L            2", "st", 1.10, 2.20))
  {
    CountedLineRuns();
    Cents("1,10", '1', ',', '1', '0');
    Cents("2,20", '2', ',', '2', '0');
    PlainItem("Melk halfvol 1L            2 st   1,10   2,20",
              "Melk halfvol 1L            2", " ", "st", "   ", "1,10", "   ", "2,20", 1.10, 2.20);
  }

  /** The pieces of the counted line and their shapes. */
  lemma CountedLineRuns()
    ensures |"Melk halfvol 1L            2"| > 0 && Trimmed("Melk halfvol 1L            2")
    ensures Token("st") && Gap(" ") && Gap("   ")
    ensures "Melk halfvol 1L            2 st   1,10   2,20"
      == "Melk halfvol 1L            2" + " " + "st" + "   " + "1,10" + "   " + "2,20"
  {
    assert Token("st");
  }

  /** A line whose quantity is preceded by whitespace alone, at least two characters of it, yields an empty name. */
  lemma BlankName(line: string, pre: string, w1: string, q: string, w2: string, p: string, w3: string, t: string,
                  price: real, total: real)
    requires line == pre + w1 + q + w2 + p + w3 + t
    requires Blank(pre) && |pre| + |w1| >= 2
    requires Gap(w1) && Gap(w2) && Gap(w3) && Token(q)
    requires IsAmount(p) && AmountValue(p) == price
    requires IsAmount(t) && AmountValue(t) == total
    ensures ParseLine(line) == Some(Item("", q, price, total))
  {
    StripBlank(pre);
    MatchShape(line, pre, w1, q, w2, p, w3, t);
  }

  /**
   * Two leading spaces are enough for a match: the name group takes the
   * first space, the separating run the second, and the stripped name is empty.
   */
  lemma EmptyName()
    ensures ParseLine("  2 1,10 2,20") == Some(Item("", "2", 1.10, 2.20))
  {
    ShortLineRuns();
    Cents("1,10", '1', ',', '1', '0');
    Cents("2,20", '2', ',', '2', '0');
    BlankName("  2 1,10 2,20", "", "  ", "2", " ", "1,10", " ", "2,20", 1.10, 2.20);
  }

  /** With one leading space the name group has no character left, and the line is skipped. */
  lemma OneSpaceTooFew()
    ensures ParseLine(" 2 1,10 2,20") == None
  {
    ShortLineRuns();
    Cents("1,10", '1', ',', '1', '0');
    Cents("2,20", '2', ',', '2', '0');
    SearchOfPaddedTooShort(" 2 1,10 2,20", "", " ", "2", " ", "1,10", " ", "2,20");
  }

  /** The pieces of the two short lines and their shapes. */
  lemma ShortLineRuns()
    ensures Token("2") && Gap(" ") && Gap("  ")
    ensures "  2 1,10 2,20" == "" + "  " + "2" + " " + "1,10" + " " + "2,20"
    ensures " 2 1,10 2,20" == "" + " " + "2" + " " + "1,10" + " " + "2,20"
  {
    assert Token("2");
  }

  /** A line that ends in a word, such as a receipt's heading, is skipped. */
  lemma HeadingSkipped()
    ensures ParseLine("Colruyt Laagste Prijzen") == None
  {
    LineMustEndInAmount("Colruyt Laagste Prijzen");
  }
}
