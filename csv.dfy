/**
 * CSV export and import of memories. Cells are quoted as in RFC 4180 section 2 (items 6
 * and 7): a cell holding a double quote, comma, CR or LF is enclosed in double quotes and
 * each inner double quote is doubled.
 */
module Csv {
  import opened Wrappers
  import opened Seqs
  import opened Text
  import opened Model

  /** The column names, in column order. */
  const Headers: seq<string> := ["id", "lat", "lng", "title", "date", "notes", "hasImage",
                                 "createdAt", "groupId", "hidden", "order", "customLabel"]

  predicate IsSpecial(c: char) {
    c == '"' || c == ',' || c == '\n' || c == '\r'
  }

  /** The test `/[",\n\r]/` of `escapeCsvCell`. */
  predicate NeedsQuoting(s: string) {
    exists i :: 0 <= i < |s| && IsSpecial(s[i])
  }

  /** Every `"` doubled. */
  function DoubleQuotes(s: string): string {
    ReplaceChar(s, '"', "\"\"")
  }

  /** `escapeCsvCell`. */
  function EscapeCell(s: string): (r: string)
    ensures !NeedsQuoting(s) ==> r == s
    ensures NeedsQuoting(s) ==> |r| >= 2 && r[0] == '"' && r[|r| - 1] == '"'
  {
    if NeedsQuoting(s) then "\"" + DoubleQuotes(s) + "\"" else s
  }

  // ---------------------------------------------------------------------------------------
  // Parsing one row

  /**
   * What `parseCsvRow` computes, read as a scan of the rest `s` of the line with the cell being
   * built, the quote state and the cells finished so far.
   */
  function Scan(s: string, cell: string, inQuotes: bool, out: seq<string>): seq<string>
    decreases |s|
  {
    if s == [] then out + [cell]
    else if s[0] == '"' then
      if inQuotes && |s| > 1 && s[1] == '"' then Scan(s[2..], cell + ['"'], inQuotes, out)
      else Scan(s[1..], cell, !inQuotes, out)
    else if inQuotes then Scan(s[1..], cell + [s[0]], inQuotes, out)
    else if s[0] == ',' then Scan(s[1..], "", inQuotes, out + [cell])
    else Scan(s[1..], cell + [s[0]], inQuotes, out)
  }

  /** The cells of one line. */
  function ParseRow(line: string): seq<string> {
    Scan(line, "", false, [])
  }

  /** `parseCsvRow`: one pass over the characters of the line. */
  method ParseCsvRow(line: string) returns (out: seq<string>)
    ensures out == ParseRow(line)
    ensures |out| >= 1
  {
    out := [];
    var cell := "";
    var inQuotes := false;
    var i := 0;
    while i < |line|
      invariant 0 <= i <= |line|
      invariant Scan(line[i..], cell, inQuotes, out) == ParseRow(line)
    {
      var c := line[i];
      if c == '"' {
        if inQuotes && i + 1 < |line| && line[i + 1] == '"' {
          assert line[i..][2..] == line[i + 2..];
          cell := cell + ['"'];
          i := i + 1;
        } else {
          inQuotes := !inQuotes;
        }
      } else if inQuotes {
        cell := cell + [c];
      } else if c == ',' {
        out := out + [cell];
        cell := "";
      } else {
        cell := cell + [c];
      }
      assert line[i..][1..] == line[i + 1..];
      i := i + 1;
    }
    out := out + [cell];
    ScanLength(line, "", false, []);
  }

  lemma {:induction false} ScanLength(s: string, cell: string, inQuotes: bool, out: seq<string>)
    ensures |Scan(s, cell, inQuotes, out)| > |out|
    decreases |s|
  {
    if s != [] {
      if s[0] == '"' {
        if inQuotes && |s| > 1 && s[1] == '"' {
          ScanLength(s[2..], cell + ['"'], inQuotes, out);
        } else {
          ScanLength(s[1..], cell, !inQuotes, out);
        }
      } else if inQuotes {
        ScanLength(s[1..], cell + [s[0]], inQuotes, out);
      } else if s[0] == ',' {
        ScanLength(s[1..], "", inQuotes, out + [cell]);
      } else {
        ScanLength(s[1..], cell + [s[0]], inQuotes, out);
      }
    }
  }

  // ---------------------------------------------------------------------------------------
  // Escaping then parsing gives the cells back

  /** A cell written as it is is read back character by character. */
  lemma {:induction false} ScanPlain(c: string, rest: string, cell: string, out: seq<string>)
    requires !NeedsQuoting(c)
    ensures Scan(c + rest, cell, false, out) == Scan(rest, cell + c, false, out)
    decreases |c|
  {
    if c == [] {
      assert c + rest == rest;
      assert cell + c == cell;
    } else {
      assert !IsSpecial(c[0]);
      assert (c + rest)[1..] == c[1..] + rest;
      assert !NeedsQuoting(c[1..]) by {
        forall i | 0 <= i < |c[1..]| ensures !IsSpecial(c[1..][i]) {
          assert c[1..][i] == c[i + 1];
        }
      }
      ScanPlain(c[1..], rest, cell + [c[0]], out);
      assert cell + [c[0]] + c[1..] == cell + c;
    }
  }

  /** Inside quotes, a doubled quote is one quote and the closing quote ends the quoting. */
  lemma {:induction false} ScanQuoted(c: string, rest: string, cell: string, out: seq<string>)
    requires rest == [] || rest[0] != '"'
    ensures Scan(DoubleQuotes(c) + "\"" + rest, cell, true, out) == Scan(rest, cell + c, false, out)
    decreases |c|
  {
    if c == [] {
      assert DoubleQuotes(c) + "\"" + rest == ['"'] + rest;
      assert cell + c == cell;
    } else {
      var tail := DoubleQuotes(c[1..]) + "\"" + rest;
      ScanQuoted(c[1..], rest, cell + [c[0]], out);
      if c[0] == '"' {
        assert DoubleQuotes(c) + "\"" + rest == ['"', '"'] + tail;
        assert (['"', '"'] + tail)[2..] == tail;
      } else {
        assert DoubleQuotes(c) + "\"" + rest == [c[0]] + tail;
        assert ([c[0]] + tail)[1..] == tail;
      }
      assert cell + [c[0]] + c[1..] == cell + c;
    }
  }

  /** An opening quote at the start of a cell only switches to quoted mode. */
  lemma ScanOpeningQuote(t: string, out: seq<string>)
    ensures Scan("\"" + t, "", false, out) == Scan(t, "", true, out)
  {
    assert ("\"" + t)[1..] == t;
  }

  /** An escaped cell followed by the end of the line or a comma is read back as the cell. */
  lemma ScanEscaped(c: string, rest: string, out: seq<string>)
    requires rest == [] || rest[0] == ','
    ensures Scan(EscapeCell(c) + rest, "", false, out) == Scan(rest, c, false, out)
  {
    if NeedsQuoting(c) {
      ScanOpeningQuote(DoubleQuotes(c) + "\"" + rest, out);
      assert EscapeCell(c) + rest == "\"" + (DoubleQuotes(c) + "\"" + rest);
      ScanQuoted(c, rest, "", out);
      assert "" + c == c;
    } else {
      ScanPlain(c, rest, "", out);
      assert "" + c == c;
    }
  }

  /** Each cell escaped (`cells.map(escapeCsvCell)`). */
  function EscapeAll(cells: seq<string>): (r: seq<string>)
    ensures |r| == |cells|
    ensures forall i :: 0 <= i < |cells| ==> r[i] == EscapeCell(cells[i])
  {
    seq(|cells|, i requires 0 <= i < |cells| => EscapeCell(cells[i]))
  }

  /** The text of a row: the escaped cells joined with commas. */
  function RowText(cells: seq<string>): string {
    Join(EscapeAll(cells), ",")
  }

  lemma RowTextCons(cells: seq<string>)
    requires |cells| >= 2
    ensures RowText(cells) == EscapeCell(cells[0]) + ("," + RowText(cells[1..]))
  {
    var escaped := EscapeAll(cells);
    assert EscapeAll(cells[1..]) == escaped[1..];
    assert escaped[0] == EscapeCell(cells[0]);
  }

  lemma {:induction false} ScanRowText(cells: seq<string>, out: seq<string>)
    requires |cells| >= 1
    ensures Scan(RowText(cells), "", false, out) == out + cells
    decreases |cells|
  {
    if |cells| == 1 {
      assert RowText(cells) == EscapeCell(cells[0]) + [];
      ScanEscaped(cells[0], [], out);
      assert Scan([], cells[0], false, out) == out + [cells[0]];
      assert out + [cells[0]] == out + cells;
    } else {
      var rest := RowText(cells[1..]);
      RowTextCons(cells);
      ScanEscaped(cells[0], "," + rest, out);
      ScanComma(rest, cells[0], out);
      ScanRowText(cells[1..], out + [cells[0]]);
      assert out + [cells[0]] + cells[1..] == out + cells;
    }
  }

  lemma ScanComma(rest: string, cell: string, out: seq<string>)
    ensures Scan("," + rest, cell, false, out) == Scan(rest, "", false, out + [cell])
  {
    assert ("," + rest)[1..] == rest;
  }

  /** Round trip: parsing the comma-join of escaped cells gives the original cells. */
  lemma ParseRowText(cells: seq<string>)
    requires |cells| >= 1
    ensures ParseRow(RowText(cells)) == cells
  {
    ScanRowText(cells, []);
  }

  // ---------------------------------------------------------------------------------------
  // Export

  /** A string `escapeCsvCell` would leave as it is. */
  type PlainText = s: string | !NeedsQuoting(s) witness ""

  /** One element of the array `exportToCsv` joins: a string it escapes, or a number or flag it writes as it is. */
  datatype Cell = Escaped(value: string) | Plain(plain: PlainText)

  /** The value a cell holds, before escaping. */
  function CellText(c: Cell): string {
    match c
    case Escaped(s) => s
    case Plain(s) => s
  }

  /** The text `join` writes for a cell. */
  function Written(c: Cell): string {
    match c
    case Escaped(s) => EscapeCell(s)
    case Plain(s) => s
  }

  /** A number as `join` writes it; it never needs quoting. */
  function NumberCell(i: int): (r: PlainText)
  {
    var r := IntToString(i);
    IntToStringChars(i);
    r
  }

  /** `cond ? '1' : '0'`. */
  function FlagCell(b: bool): (r: PlainText)
    ensures r == "1" <==> b
  {
    if b then "1" else "0"
  }

  /** `m.order ?? ''` written by `join`. */
  function OrderCell(order: Option<int>): (r: PlainText)
    ensures r == "" <==> order.None?
  {
    if order.Some? then NumberCell(order.value) else ""
  }

  /** The array `exportToCsv` joins for a memory, in column order. */
  function LineCells(m: Memory): (r: seq<Cell>)
    ensures |r| == |Headers|
  {
    [Escaped(m.id), Plain(NumberCell(m.lat)), Plain(NumberCell(m.lng)), Escaped(m.title),
     Escaped(m.date), Escaped(m.notes),
     Plain(FlagCell(m.imageDataUrl.Some? && m.imageDataUrl.value != "")),
     Escaped(m.createdAt), Escaped(m.groupId.GetOr("")),
     Plain(FlagCell(Flag(m.hidden))), Plain(OrderCell(m.order)),
     Escaped(m.customLabel.GetOr(""))]
  }

  /** The twelve values of a memory, in column order, before escaping. */
  function FieldCells(m: Memory): (r: seq<string>)
    ensures |r| == |Headers|
  {
    var cells := LineCells(m);
    seq(|cells|, i requires 0 <= i < |cells| => CellText(cells[i]))
  }

  /** What `join` writes for each cell. */
  function WrittenCells(cells: seq<Cell>): (r: seq<string>)
    ensures |r| == |cells|
    ensures forall i :: 0 <= i < |cells| ==> r[i] == Written(cells[i])
  {
    seq(|cells|, i requires 0 <= i < |cells| => Written(cells[i]))
  }

  /** One exported line: the numbers and flags are written as they are, the strings escaped. */
  function CsvLine(m: Memory): string {
    Join(WrittenCells(LineCells(m)), ",")
  }

  /** A cell that needs no quoting is written as it is. */
  lemma EscapePlain(c: string)
    requires !NeedsQuoting(c)
    ensures EscapeCell(c) == c
  {
  }

  /** Writing numbers and flags as they are is escaping them: they need no quoting. */
  lemma WrittenIsEscaped(c: Cell)
    ensures Written(c) == EscapeCell(CellText(c))
  {
    if c.Plain? {
      EscapePlain(c.plain);
    }
  }

  /** The exported line is the row text of the twelve field values. */
  lemma CsvLineIsRowText(m: Memory)
    ensures CsvLine(m) == RowText(FieldCells(m))
  {
    var cells := LineCells(m);
    forall i | 0 <= i < |cells|
      ensures WrittenCells(cells)[i] == EscapeAll(FieldCells(m))[i]
    {
      WrittenIsEscaped(cells[i]);
    }
    assert WrittenCells(cells) == EscapeAll(FieldCells(m));
  }

  /** Each exported line parses back into the memory's twelve values, in header order. */
  lemma ParseCsvLine(m: Memory)
    ensures ParseRow(CsvLine(m)) == FieldCells(m)
    ensures |ParseRow(CsvLine(m))| == |Headers|
  {
    CsvLineIsRowText(m);
    ParseRowText(FieldCells(m));
  }

  /** The header line. */
  const HeaderLine: string := Join(Headers, ",")

  lemma HeadersNeedNoQuoting()
    ensures forall k :: 0 <= k < |Headers| ==> !NeedsQuoting(Headers[k])
  {
    forall k | 0 <= k < |Headers| ensures !NeedsQuoting(Headers[k]) {
      var h := Headers[k];
      forall j | 0 <= j < |h| ensures !IsSpecial(h[j]) {
        assert 'a' <= h[j] <= 'z' || 'A' <= h[j] <= 'Z';
      }
    }
  }

  lemma HeadersEscapeToThemselves()
    ensures EscapeAll(Headers) == Headers
  {
    HeadersNeedNoQuoting();
  }

  lemma HeaderLineIsRowText()
    ensures HeaderLine == RowText(Headers)
  {
    HeadersEscapeToThemselves();
  }

  lemma HeaderLineParses()
    ensures ParseRow(HeaderLine) == Headers
  {
    HeaderLineIsRowText();
    ParseRowText(Headers);
  }

  /** The exported text: the header line and one line per memory, joined with CRLF. */
  function CsvText(ms: seq<Memory>): string {
    Join([HeaderLine] + Map(ms, CsvLine), "\r\n")
  }

  /** The loop of `exportToCsv`: one line pushed per memory. */
  method BuildLines(ms: seq<Memory>, line: Memory -> string) returns (rows: seq<string>)
    ensures rows == Map(ms, line)
  {
    rows := [];
    for i := 0 to |ms|
      invariant rows == Map(ms[..i], line)
    {
      assert Map(ms[..i + 1], line) == Map(ms[..i], line) + [line(ms[i])];
      rows := rows + [line(ms[i])];
    }
    assert ms[..|ms|] == ms;
  }

  /** `exportToCsv` without the download: the header line, then the memories' lines. */
  method ExportToCsv(ms: seq<Memory>) returns (text: string)
    ensures text == CsvText(ms)
  {
    var rows := BuildLines(ms, CsvLine);
    text := Join([HeaderLine] + rows, "\r\n");
  }

  // ---------------------------------------------------------------------------------------
  // Import

  /** Drops one `\r` right before a line break. */
  function StripCr(s: string): string {
    if |s| > 0 && s[|s| - 1] == '\r' then s[..|s| - 1] else s
  }

  /** `s.split(/\r?\n/)`. */
  function SplitLines(s: string): (r: seq<string>)
    ensures |r| >= 1
    decreases |s|
  {
    match IndexOf(s, "\n")
    case None => [s]
    case Some(k) => [StripCr(s[..k])] + SplitLines(s[k + 1..])
  }

  /** `s.split('\n')`: the text between line feeds, carriage returns kept. */
  function SplitAtNewlines(s: string): (r: seq<string>)
    ensures |r| >= 1
    decreases |s|
  {
    match IndexOf(s, "\n")
    case None => [s]
    case Some(k) => [s[..k]] + SplitAtNewlines(s[k + 1..])
  }

  /** A line feed occurs at `j` exactly when `s[j]` is one. */
  lemma NewlineAt(s: string, j: nat)
    ensures OccursAt(s, "\n", j) <==> j < |s| && s[j] == '\n'
  {
    if j < |s| { assert s[j..j + 1] == [s[j]]; }
  }

  lemma NoNewlineIndex(s: string)
    requires '\n' !in s
    ensures IndexOf(s, "\n").None?
  {
    forall j: nat ensures !OccursAt(s, "\n", j) { NewlineAt(s, j); }
  }

  /** The first line feed of `a + "\r\n" + b`, when `a` has none, is the one after `a`'s CR. */
  lemma CrlfIndex(a: string, b: string)
    requires '\n' !in a
    ensures IndexOf(a + "\r\n" + b, "\n") == Some(|a| + 1)
  {
    var s := a + "\r\n" + b;
    NewlineAt(s, |a| + 1);
    forall j: nat | j < |a| + 1 ensures !OccursAt(s, "\n", j) {
      NewlineAt(s, j);
      if j < |a| { assert s[j] == a[j]; }
    }
  }

  /** The pieces hold no line feed, and joined with line feeds they give back the text. */
  lemma {:induction false} SplitAtNewlinesJoin(s: string)
    ensures Join(SplitAtNewlines(s), "\n") == s
    ensures forall i :: 0 <= i < |SplitAtNewlines(s)| ==> '\n' !in SplitAtNewlines(s)[i]
    decreases |s|
  {
    match IndexOf(s, "\n")
    case None =>
      forall j | 0 <= j < |s| ensures s[j] != '\n' { NewlineAt(s, j); }
    case Some(k) =>
      var rest := SplitAtNewlines(s[k + 1..]);
      SplitAtNewlinesJoin(s[k + 1..]);
      NewlineAt(s, k);
      forall j | 0 <= j < k ensures s[..k][j] != '\n' { NewlineAt(s, j); }
      assert SplitAtNewlines(s) == [s[..k]] + rest;
      assert ([s[..k]] + rest)[1..] == rest;
      assert s == s[..k] + "\n" + s[k + 1..];
  }

  /**
   * `split(/\r?\n/)` is the split at line feeds with one carriage return dropped from the end
   * of every piece but the last.
   */
  lemma {:induction false} SplitLinesStripsCr(s: string)
    ensures |SplitLines(s)| == |SplitAtNewlines(s)|
    ensures forall i :: 0 <= i < |SplitLines(s)| - 1 ==> SplitLines(s)[i] == StripCr(SplitAtNewlines(s)[i])
    ensures SplitLines(s)[|SplitLines(s)| - 1] == SplitAtNewlines(s)[|SplitAtNewlines(s)| - 1]
    decreases |s|
  {
    match IndexOf(s, "\n")
    case None =>
    case Some(k) =>
      var r', raw' := SplitLines(s[k + 1..]), SplitAtNewlines(s[k + 1..]);
      SplitLinesStripsCr(s[k + 1..]);
      var r, raw := SplitLines(s), SplitAtNewlines(s);
      assert r == [StripCr(s[..k])] + r';
      assert raw == [s[..k]] + raw';
      forall i | 1 <= i < |r| - 1 ensures r[i] == StripCr(raw[i]) {
        assert r[i] == r'[i - 1] && raw[i] == raw'[i - 1];
      }
  }

  /** No line holds a line feed. */
  lemma SplitLinesNoBreak(s: string)
    ensures forall i :: 0 <= i < |SplitLines(s)| ==> '\n' !in SplitLines(s)[i]
  {
    SplitAtNewlinesJoin(s);
    SplitLinesStripsCr(s);
    var r, raw := SplitLines(s), SplitAtNewlines(s);
    forall i | 0 <= i < |r| ensures '\n' !in r[i] {
      assert '\n' !in raw[i];
      if i < |r| - 1 {
        assert r[i] == StripCr(raw[i]);
        assert StripCr(raw[i]) <= raw[i];
      }
    }
  }

  /** Parts and separator without line feeds join into a text without one. */
  lemma {:induction false} JoinNoNewline(parts: seq<string>, sep: string)
    requires '\n' !in sep
    requires forall i :: 0 <= i < |parts| ==> '\n' !in parts[i]
    ensures '\n' !in Join(parts, sep)
    decreases |parts|
  {
    if |parts| > 1 {
      JoinNoNewline(parts[1..], sep);
      assert Join(parts, sep) == parts[0] + sep + Join(parts[1..], sep);
    }
  }

  /** Lines without line feeds joined by CRLF, as the export writes them, split back into those lines. */
  lemma {:induction false} SplitCrlfJoin(ls: seq<string>)
    requires ls != []
    requires forall i :: 0 <= i < |ls| ==> '\n' !in ls[i]
    ensures SplitLines(Join(ls, "\r\n")) == ls
    decreases |ls|
  {
    if |ls| == 1 {
      NoNewlineIndex(ls[0]);
    } else {
      var rest := Join(ls[1..], "\r\n");
      var s := ls[0] + "\r\n" + rest;
      assert Join(ls, "\r\n") == s;
      CrlfIndex(ls[0], rest);
      assert s[..|ls[0]| + 1] == ls[0] + "\r";
      assert s[|ls[0]| + 2..] == rest;
      SplitCrlfJoin(ls[1..]);
      assert ls == [ls[0]] + ls[1..];
    }
  }

  lemma HeaderLineNoBreak()
    ensures '\n' !in HeaderLine
  {
    HeadersNeedNoQuoting();
    assert forall k :: 0 <= k < |Headers| ==> '\n' !in Headers[k];
    JoinNoNewline(Headers, ",");
  }

  /** An export whose lines hold no line feed splits back into its header and one line per memory. */
  lemma CsvTextLines(ms: seq<Memory>)
    requires forall i :: 0 <= i < |ms| ==> '\n' !in CsvLine(ms[i])
    ensures SplitLines(CsvText(ms)) == [HeaderLine] + Map(ms, CsvLine)
  {
    var rows := Map(ms, CsvLine);
    assert forall i :: 0 <= i < |rows| ==> '\n' !in rows[i];
    HeaderLineNoBreak();
    SplitHeaderAndRows(HeaderLine, rows);
  }

  lemma SplitHeaderAndRows(header: string, rows: seq<string>)
    requires '\n' !in header
    requires forall i :: 0 <= i < |rows| ==> '\n' !in rows[i]
    ensures SplitLines(Join([header] + rows, "\r\n")) == [header] + rows
  {
    var ls := [header] + rows;
    forall i | 0 <= i < |ls| ensures '\n' !in ls[i] {
      if i > 0 { assert ls[i] == rows[i - 1]; }
    }
    SplitCrlfJoin(ls);
  }

  function NonEmpty(s: string): bool {
    s != ""
  }

  /** `text.trim().split(/\r?\n/).filter(Boolean)`. */
  function CsvLines(text: string): seq<string> {
    Filter(SplitLines(Trim(text)), NonEmpty)
  }

  /** `header.indexOf(name)`. */
  function FirstIndex(xs: seq<string>, x: string): (r: Option<nat>)
    ensures r.Some? ==> r.value < |xs| && xs[r.value] == x
    ensures r.Some? ==> forall j :: 0 <= j < r.value ==> xs[j] != x
    ensures r.None? ==> forall j :: 0 <= j < |xs| ==> xs[j] != x
  {
    if xs == [] then None
    else if xs[0] == x then Some(0)
    else match FirstIndex(xs[1..], x)
      case None => None
      case Some(k) => Some(k + 1)
  }

  /** `replace(/^"|"$/g, '')`: one leading and one trailing double quote removed. */
  function StripQuotes(s: string): string {
    var a := if |s| > 0 && s[0] == '"' then s[1..] else s;
    if |a| > 0 && a[|a| - 1] == '"' then a[..|a| - 1] else a
  }

  /** `replace(/""/g, '"')`, scanning left to right. */
  function CollapseQuotes(s: string): string {
    if |s| >= 2 && s[0] == '"' && s[1] == '"' then "\"" + CollapseQuotes(s[2..])
    else if s == [] then []
    else [s[0]] + CollapseQuotes(s[1..])
  }

  /** The header cells lower-cased and trimmed. */
  function NormalizeHeader(cells: seq<string>): (r: seq<string>)
    ensures |r| == |cells|
    ensures forall i :: 0 <= i < |cells| ==> r[i] == Trim(Lower(cells[i]))
  {
    Map(cells, (h: string) => Trim(Lower(h)))
  }

  /** `get(row, key)`: the row's cell in the key's column, unquoted once more; '' if none. */
  function Get(header: seq<string>, row: seq<string>, key: string): string {
    match FirstIndex(header, key)
    case None => ""
    case Some(i) => if i < |row| then CollapseQuotes(StripQuotes(row[i])) else ""
  }

  /** `getNum(row, key)`: the cell as a number, 0 when it is not one. */
  function GetNum(header: seq<string>, row: seq<string>, key: string): int {
    NumberOf(Get(header, row, key)).GetOr(0)
  }

  /** `a || b` on strings. */
  function OrElse(a: string, b: string): string {
    if a != "" then a else b
  }

  /** The memory `parseCsvToMemories` builds from one data row. */
  function RowToMemory(header: seq<string>, row: seq<string>, freshId: string,
                       today: string, now: string): Memory
  {
    var order := GetNum(header, row, "order");
    var groupId := Get(header, row, "groupid");
    var customLabel := Get(header, row, "customlabel");
    Memory(
      id := OrElse(Get(header, row, "id"), freshId),
      lat := GetNum(header, row, "lat"),
      lng := GetNum(header, row, "lng"),
      title := OrElse(Get(header, row, "title"), "Untitled"),
      date := OrElse(Get(header, row, "date"), today),
      notes := Get(header, row, "notes"),
      imageDataUrl := None,
      imageDataUrls := None,
      createdAt := OrElse(Get(header, row, "createdat"), now),
      groupId := if groupId == "" then None else Some(groupId),
      hidden := Some(Get(header, row, "hidden") == "1"),
      order := if order == 0 then None else Some(order),
      customLabel := if customLabel == "" then None else Some(customLabel),
      tags := None,
      starred := None,
      links := None)
  }

  /** The memory built from a data row and the index of its line. */
  function RowBuilder(header: seq<string>, freshId: nat -> string, today: string, now: string)
    : (seq<string>, nat) -> Memory
  {
    (row: seq<string>, k: nat) => RowToMemory(header, row, freshId(k), today, now)
  }

  /** The memories built from `lines[1..n]`, one per line, in order. */
  function BuildRows(lines: seq<string>, n: nat, build: (seq<string>, nat) -> Memory)
    : (r: seq<Memory>)
    requires 1 <= n <= |lines|
    ensures |r| == n - 1
    decreases n
  {
    if n == 1 then [] else BuildRows(lines, n - 1, build) + [build(ParseRow(lines[n - 1]), n - 1)]
  }

  /** The memory at index `k` comes from the data line at index `k + 1`. */
  lemma {:induction false} BuildRowsAt(lines: seq<string>, n: nat,
                                       build: (seq<string>, nat) -> Memory, k: nat)
    requires 1 <= n <= |lines| && k < n - 1
    ensures BuildRows(lines, n, build)[k] == build(ParseRow(lines[k + 1]), k + 1)
    decreases n
  {
    if k < n - 2 {
      BuildRowsAt(lines, n - 1, build, k);
    }
  }

  /**
   * What `parseCsvToMemories` returns. `freshId(i)` is the id generated for the data line at
   * index `i`; `today` and `now` stand for the current date and time.
   */
  function CsvToMemories(text: string, freshId: nat -> string, today: string, now: string)
    : seq<Memory>
  {
    var lines := CsvLines(text);
    if |lines| < 2 then []
    else BuildRows(lines, |lines|, RowBuilder(NormalizeHeader(ParseRow(lines[0])), freshId, today, now))
  }

  /** Each imported memory is built from its own line under the first line's header. */
  lemma CsvToMemoriesAt(text: string, freshId: nat -> string, today: string, now: string, k: nat)
    requires k < |CsvToMemories(text, freshId, today, now)|
    ensures |CsvLines(text)| >= 2
    ensures CsvToMemories(text, freshId, today, now)[k]
         == RowToMemory(NormalizeHeader(ParseRow(CsvLines(text)[0])), ParseRow(CsvLines(text)[k + 1]),
                        freshId(k + 1), today, now)
  {
    var lines := CsvLines(text);
    BuildRowsAt(lines, |lines|, RowBuilder(NormalizeHeader(ParseRow(lines[0])), freshId, today, now), k);
  }

  /** The loop of `parseCsvToMemories`: parses each data line and pushes the memory built from it. */
  method BuildMemories(lines: seq<string>, build: (seq<string>, nat) -> Memory)
    returns (memories: seq<Memory>)
    requires |lines| >= 1
    ensures memories == BuildRows(lines, |lines|, build)
  {
    memories := [];
    var i := 1;
    while i < |lines|
      invariant 1 <= i <= |lines|
      invariant memories == BuildRows(lines, i, build)
    {
      var row := ParseCsvRow(lines[i]);
      memories := memories + [build(row, i)];
      i := i + 1;
    }
  }

  /** `parseCsvToMemories`. */
  method ParseCsvToMemories(text: string, freshId: nat -> string, today: string, now: string)
    returns (memories: seq<Memory>)
    ensures memories == CsvToMemories(text, freshId, today, now)
  {
    var lines := CsvLines(text);
    if |lines| < 2 {
      return [];
    }
    var headerCells := ParseCsvRow(lines[0]);
    memories := BuildMemories(lines, RowBuilder(NormalizeHeader(headerCells), freshId, today, now));
  }

  /** Fewer than two non-empty lines give no memories; otherwise one per data line. */
  lemma CsvToMemoriesCount(text: string, freshId: nat -> string, today: string, now: string)
    ensures |CsvLines(text)| < 2 ==> CsvToMemories(text, freshId, today, now) == []
    ensures |CsvLines(text)| >= 2 ==>
      |CsvToMemories(text, freshId, today, now)| == |CsvLines(text)| - 1
  {
  }

  /** The defaults `parseCsvToMemories` fills in. */
  lemma RowToMemoryDefaults(header: seq<string>, row: seq<string>, freshId: string,
                            today: string, now: string)
    requires freshId != "" && today != "" && now != ""
    ensures var m := RowToMemory(header, row, freshId, today, now);
      && m.id != "" && m.title != "" && m.date != "" && m.createdAt != ""
      && (Get(header, row, "title") == "" ==> m.title == "Untitled")
      && (m.hidden == Some(true) <==> Get(header, row, "hidden") == "1")
      && m.hidden.Some?
      && m.order != Some(0)
      && (Get(header, row, "order") == "" ==> m.order.None?)
      && m.customLabel != Some("") && m.groupId != Some("")
      && m.imageDataUrl.None? && m.imageDataUrls.None?
  {
    assert NumberOf("") == Some(0);
  }

  /** A missing or non-numeric coordinate reads as 0. */
  lemma MissingCoordinateIsZero(header: seq<string>, row: seq<string>, key: string)
    requires FirstIndex(header, key).None? || NumberOf(Get(header, row, key)).None?
    ensures GetNum(header, row, key) == 0
  {
    assert NumberOf("") == Some(0);
  }

  /** Without a `customlabel` column every imported memory has no custom label. */
  lemma NoCustomLabelColumn(header: seq<string>, row: seq<string>, freshId: string,
                            today: string, now: string)
    requires forall j :: 0 <= j < |header| ==> header[j] != "customlabel"
    ensures RowToMemory(header, row, freshId, today, now).customLabel.None?
  {
    FirstIndexAbsent(header, "customlabel");
  }

  /** `indexOf` gives -1 for a value the list does not hold. */
  lemma FirstIndexAbsent(xs: seq<string>, x: string)
    requires forall j :: 0 <= j < |xs| ==> xs[j] != x
    ensures FirstIndex(xs, x).None?
  {
  }

  /** A header cell matches a key whatever its case and surrounding white space. */
  lemma HeaderMatchesCaseInsensitively(cells: seq<string>, key: string, i: nat)
    requires i < |cells| && Trim(Lower(cells[i])) == key
    requires forall j :: 0 <= j < i ==> Trim(Lower(cells[j])) != key
    ensures FirstIndex(NormalizeHeader(cells), key) == Some(i)
  {
    var h := NormalizeHeader(cells);
    forall j | 0 <= j < i
      ensures h[j] != key
    {
      assert h[j] == Trim(Lower(cells[j]));
    }
    FirstIndexOf(h, key, i);
  }

  /** `indexOf` finds the first position holding the value. */
  lemma FirstIndexOf(xs: seq<string>, x: string, i: nat)
    requires i < |xs| && xs[i] == x
    requires forall j :: 0 <= j < i ==> xs[j] != x
    ensures FirstIndex(xs, x) == Some(i)
  {
  }

  /** `get` reads a cell without double quotes exactly as parsed. */
  lemma {:induction false} CollapseWithoutQuotes(s: string)
    requires forall i :: 0 <= i < |s| ==> s[i] != '"'
    ensures CollapseQuotes(s) == s
    decreases |s|
  {
    if s != [] {
      CollapseWithoutQuotes(s[1..]);
    }
  }

  lemma GetWithoutQuotes(s: string)
    requires forall i :: 0 <= i < |s| ==> s[i] != '"'
    ensures CollapseQuotes(StripQuotes(s)) == s
  {
    CollapseWithoutQuotes(s);
  }

  /**
   * `get` unquotes a second time, so a value that begins with a double quote loses it: the
   * title `"a` is exported as `"""a"`, parsed back to `"a`, and read as `a`.
   */
  lemma GetDropsLeadingQuote()
    ensures ParseRow(RowText(["\"a"])) == ["\"a"]
    ensures CollapseQuotes(StripQuotes("\"a")) == "a"
  {
    ParseRowText(["\"a"]);
  }

  /** `importFromCsv`: always succeeds, with the memories parsed and no groups. */
  function ImportFromCsv(text: string, freshId: nat -> string, today: string, now: string)
    : (r: ImportResult)
    ensures r.Imported? && r.groups == []
    ensures |r.memories| == if |CsvLines(text)| < 2 then 0 else |CsvLines(text)| - 1
  {
    Imported(CsvToMemories(text, freshId, today, now), [])
  }
}
