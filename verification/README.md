# Colruyt receipt parser — a Dafny model of `parse_ticket`

The Colruyt receipt tool turns the text of a Colruyt cash-register receipt
(`kasticket`) into a table of purchased items. Its one piece of real logic is
`parse_ticket(text)` in `app.py`:

1. it splits the text at line feeds;
2. it matches every line against the end-anchored pattern
   `(.+?)\s+(\S+)\s+(\d+[.,]?\d*)\s+(\d+[.,]?\d*)$`;
3. for each match it builds one row from the groups:
   - the name (`Benaming`): group 1, stripped;
   - the quantity (`Hoeveelheid`): group 2, stripped;
   - the unit price (`Eenheidsprijs`) and the total (`Totaalprijs`):
     groups 3 and 4, with the decimal comma turned into a point and then read
     by `float()`. A `ValueError` here would skip the line.

This project models that function. Amounts are exact decimals (`real`), not
IEEE floats. The pattern is modelled as an explicit cut of the line into runs,
not as a regular-expression engine, and it is proved equal to the
regular-expression match.

Modules, one per file:

- `Wrappers` (`wrappers.dfy`): `Option`.
- `Chars` (`chars.dfy`):
  - the character classes `\s`, `\S` and `\d`;
  - the split of a string at its last whitespace or non-whitespace run;
  - `str.strip()`.
- `Amounts` (`amounts.dfy`):
  - the amount syntax `\d+[.,]?\d*` and its exact value;
  - `replace(",", ".")`;
  - `float()` on the strings that can reach it.
- `LinePattern` (`line_pattern.dfy`):
  - `Search`, the model of `pattern.search(line)`;
  - `MatchAt`, the regular-expression match as a language;
  - the proof that `Search` reports the leftmost match and, among the matches there, the one with the shortest group 1.
- `Sequences` (`sequences.dfy`): `FilterMap`, the shape of the loop, and `CollectResults`, the loop itself. Both apply a partial step to every line and keep what it yields, in order.
- `TextLines` (`text_lines.dfy`):
  - `text.split('\n')` and its inverse `'\n'.join`;
  - line-wise parsing of any text;
  - the upload handler's joining of page texts.
- `Ticket` (`ticket.dfy`):
  - `ParseLine`, one iteration of the loop;
  - `ParseTicket`, the whole function: split the text, then run the loop;
  - the properties of the rows they produce.
- `TicketExamples` (`ticket_examples.dfy`): concrete receipt lines and what they yield.

How the pattern behaves. A line never holds a line feed after the split, so
`$` is the end of the line, and the match found by `search` always starts at
position 0. Groups 2, 3 and 4 are the line's last three whitespace-separated
runs. The lazy group 1 takes everything before the whitespace run that
precedes the quantity, except when that text is empty. In that case it takes
one whitespace character, so it still holds at least one character. A line
therefore matches exactly when:

- it ends in `gap quantity gap price gap total`;
- price and total have the shape `\d+[.,]?\d*`;
- at least two characters precede the quantity.

The item name is the text before the quantity's whitespace run, stripped.

In `Bananen bio         0.65 kg   1,98   1,29` the quantity is `kg`, not
`0.65 kg`: `(\S+)` cannot span the space, so `0.65` stays at the end of the
name. `TicketExamples.WeighedLine` proves this.

## Model

| member | source | states |
|---|---|---|
| Chars.Strip | app.py:22-23 | the stripped string has no whitespace at either end, and it is a slice of the input with only whitespace cut off before and after it |
| Chars.StripPadded | app.py:22-23 | stripping a trimmed string padded with whitespace on both sides gives back exactly that string |
| Chars.StripIgnoresTrailingSpace | app.py:22 | whitespace appended to a string does not change what it strips to |
| Chars.SplitRunUnique | app.py:18 | the cut of a string into a prefix and its last whitespace (or non-whitespace) run is the only cut with the run's properties |
| Amounts.ScanAmountIsRegex | app.py:18 | the amount scanner accepts a string exactly when it is in the language of `\d+[.,]?\d*` |
| Amounts.ScanAmount | app.py:18 | an accepted amount is a non-empty digit run, optionally followed by one point or comma and a (possibly empty) digit run, and the decimal read off it is those two digit runs |
| Amounts.AmountOfDecimal | app.py:24-28 | an amount written `w,f` or `w.f` is accepted, and its value is w + f / 10^(number of digits of f) |
| Amounts.AmountOfWhole | app.py:24-28 | an amount written without a separator is accepted, and its value is the integer its digits spell |
| Amounts.AmountValue | app.py:24-28 | an accepted amount's value is never negative, since the pattern admits no sign |
| Amounts.CommaToPoint | app.py:24-25 | every comma becomes a point, every other character stays, and no comma is left |
| Amounts.ParseFloat | app.py:27-28 | the modelled `float()` succeeds only on a string holding a digit, and its value is not negative unless the string starts with '-' |
| Amounts.FloatOfWrittenDecimal | app.py:27-28 | reading a decimal written with a point, or a whole number without one, gives back its exact value |
| Amounts.AmountAlwaysParses | app.py:24-36 | for every price or total the pattern accepts, `float()` after the comma rewrite succeeds and yields the amount's exact value, so the `except` branch cannot be taken |
| LinePattern.LayoutOf | app.py:18 | a line is cut into head, gap, quantity, gap, price, gap and total: these join back to the line, the gaps are whitespace, the three tokens have no whitespace, and the head does not end in whitespace |
| LinePattern.Search | app.py:18-20 | a match's group 1 holds at least one character, group 2 holds no whitespace, and groups 3 and 4 have the shape `\d+[.,]?\d*` |
| LinePattern.SearchIsLeftmostLazyMatch | app.py:18-20 | on a line without line feeds, `Search` finds a match exactly when the pattern matches somewhere; the match starts at 0, group 1 is the line's prefix, no match's group 1 ends before Search's (so it is the shortest among the matches at 0), and every match has the same groups 2-4 |
| LinePattern.SearchOfPadded | app.py:18-22 | a line made of a prefix, a gap, a token, a gap, an amount, a gap and an amount, with at least two characters before the token, is matched; groups 2-4 are those three runs, and group 1 strips to the stripped prefix |
| LinePattern.SearchOfPaddedTooShort | app.py:18-20 | the same layout with only one character before the token is not matched: `.+?` needs a character that the `\s+` before the token does not take |
| LinePattern.AmountIsToken | app.py:18 | an amount holds no whitespace, and it ends in a digit, a point or a comma |
| Ticket.ItemOfMatch | app.py:22-36 | the groups of a match always give a row: the stripped name, the quantity verbatim and the two amounts' exact values |
| Ticket.ParseLine | app.py:20-36 | a line yields a row exactly when the pattern matches it; the row's name has no whitespace at either end, and its quantity is group 2 unchanged |
| Ticket.ItemOf | app.py:22-36 | a row built from the groups has a name and a quantity with no whitespace at either end, as `strip()` leaves them |
| Ticket.MatchAlwaysYieldsItem | app.py:20-36 | a matched line yields the row built from its groups, with a non-negative unit price and total |
| Ticket.MatchShape | app.py:18-25 | any line of the form prefix, gap, token, gap, amount, gap, amount, with at least two characters before the token, yields the stripped prefix, the token verbatim and the two amounts' values |
| Ticket.MatchLayout | app.py:18-25 | conversely, a line that yields a row has that form at its last three runs, and the row is read off that cut |
| Ticket.LineMustEndInAmount | app.py:18-21 | a line that yields a row is not empty and ends in a digit, a point or a comma; a line ending in whitespace or a letter yields nothing |
| Ticket.TicketItems | app.py:13-38 | the result has at most one row per line of the text, and every row is the row of some line |
| Ticket.ParseTicket | app.py:13-38 | the loop over the split text returns one row per matching line: the line numbers of the rows are strictly increasing, a line number is among them exactly when the pattern matches that line, and the i-th row is the row of the i-th matching line |
| Ticket.TicketRowsInOrder | app.py:14-34 | the rows of a text and the lines that yield them correspond one to one, in line order, and exactly the matching lines yield |
| Ticket.RowsOfLinesInOrder | app.py:19-34 | for any list of lines, the rows and the lines that yield them correspond one to one, in line order, and a line yields exactly when the pattern matches it |
| Ticket.TicketItemsDistribute | app.py:14-34 | the rows of `a + "\n" + b` are the rows of `a` followed by the rows of `b` |
| Ticket.EmptyLineYieldsNothing | app.py:14-21 | the empty line yields no row, so the empty text yields an empty result |
| Ticket.NoProductsFound | app.py:14-21 | the result is empty exactly when the pattern matches no line of the text (the case the page reports as "no products found") |
| Ticket.NoItemsFromLines | app.py:19-34 | a list of lines yields no rows exactly when the pattern matches none of them |
| Ticket.PagesGiveTheirItems | app.py:43-49 | parsing the text built from the PDF's page texts gives each page's rows, page after page |
| Sequences.CollectResults | app.py:15-34 | the loop that starts from an empty list and appends each present result computes exactly FilterMap: the results of the yielding lines, in line order |
| Sequences.FilterMap | app.py:19-34 | the loop keeps at most one result per line, and every kept result is what some line yielded |
| Sequences.FilterMapAppend | app.py:19-34 | running the loop over two lists of lines one after the other gives the results of each list, concatenated |
| Sequences.FilterMapInOrder | app.py:19-34 | the i-th result comes from the i-th yielding line, those lines appear in increasing order, and a line is among them exactly when it yields |
| Sequences.FilterMapEmpty | app.py:19-34 | the loop keeps nothing exactly when no line yields |
| TextLines.SplitLines | app.py:14 | `split('\n')` gives at least one piece, no piece holds a line feed, and joining the pieces with line feeds gives back the text |
| TextLines.SplitOfJoin | app.py:14 | splitting undoes joining, for pieces without line feeds |
| TextLines.SplitLinesDistributes | app.py:14 | splitting `a + "\n" + b` gives the pieces of `a` followed by the pieces of `b` |
| TextLines.ParseTextDistributes | app.py:14-34 | parsing `a + "\n" + b` gives the rows of `a` followed by the rows of `b` |
| TextLines.AppendAfterLineBreak | app.py:14-34 | text that ends in a line feed parses independently of any text appended after it |
| TextLines.DropTrailingLineBreak | app.py:14-34 | a line feed at the end of the text adds no row |
| TextLines.AllText | app.py:43-47 | the joined page text is empty or ends in a line feed |
| TextLines.AppendPage | app.py:46-49 | appending one more page text and its line feed to text that ends at a line break adds exactly that page's results, when the empty line yields nothing |
| TextLines.PagesParseIndependently | app.py:43-49 | for any per-line step that yields nothing on an empty line, parsing the joined pages gives the pages' results one page after another |
| TicketExamples.WeighedLine | app.py:18-34 | `Bananen bio         0.65 kg   1,98   1,29` yields name `Bananen bio         0.65`, quantity `kg`, 1.98 and 1.29 |
| TicketExamples.CountedLine | app.py:18-34 | `Melk halfvol 1L            2 st   1,10   2,20` yields name `Melk halfvol 1L            2`, quantity `st`, 1.10 and 2.20 |
| TicketExamples.BlankName | app.py:18-34 | a line with only whitespace before the quantity, at least two characters of it, yields a row with the empty name |
| TicketExamples.EmptyName | app.py:18-34 | a line with two leading spaces before `2 1,10 2,20` matches, and the name is empty |
| TicketExamples.OneSpaceTooFew | app.py:18-21 | with a single leading space the lazy group 1 has no character to take, and the line yields nothing |
| TicketExamples.HeadingSkipped | app.py:18-21 | a heading line ending in a word yields nothing |

## Left out

- Streamlit page, file upload, messages and download button (app.py:1-10, 51-65): user interface. The "no products found" condition they show is stated by `Ticket.NoProductsFound`.
- PDF text extraction with pdfplumber (app.py:42-45): a foreign library. A page text is a parameter, and a page with no text (`None`) is the empty string, which `if text:` skips in the same way.
- The pandas DataFrame and the Excel export (app.py:38, 55-57): the result is a sequence of `Item` rows, in the same order as the DataFrame's rows.
- IEEE double rounding in `float()` (app.py:27-28): values are exact decimals. Two amounts that differ only beyond double precision would compare equal in Python but not here. An amount of more than about 308 integer digits becomes `inf` in Python, while the model keeps its exact value.
- Amounts.ParseFloat: covers optional sign, digits, a point and digits. It leaves out the other strings `float()` accepts (exponents, `inf`, `nan`, underscores, surrounding whitespace), because after the pattern and the comma rewrite only `digits`, `digits.` and `digits.digits` can reach it.
- Unicode `\s` and `\d`: whitespace is the ASCII set Python's `\s` and `str.strip()` agree on (tab, line feed, vertical tab, form feed, carriage return, the separators 0x1C-0x1F, and space), and digits are `0`-`9`. Non-ASCII spaces and digits are not modelled.
- `$` before a final line feed: after `split('\n')` no line contains a line feed, so this case cannot arise and is not modelled.
- Unit normalisation, date extraction, exclusion vocabulary, inventory-code stripping, minimum name length and aggregation: `app.py` does none of these.
