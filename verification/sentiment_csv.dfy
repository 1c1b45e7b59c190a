/**
 * CSV ingestion and export of the sentiment analysis page: the text of an uploaded
 * file becomes a sequence of review rows, and the rows on screen become CSV text.
 */
module SentimentCsv {
  import opened Wrappers
  import opened Seqs
  import JsText
  import JsNumber

  /** One review: its text, its star rating, category, product name and sentiment label. */
  datatype Row = Row(ulasan: string, rating: int, kategori: string, namaProduk: string, sentiment: string)

  const Positive: string := "Positive"
  const Negative: string := "Negative"

  /** Every string of `xs`, trimmed (`.map((x) => x.trim())`). */
  function TrimAll(xs: seq<string>): (r: seq<string>)
    ensures |r| == |xs|
    ensures forall i :: 0 <= i < |xs| ==> r[i] == JsText.Trim(xs[i])
  {
    seq(|xs|, i requires 0 <= i < |xs| => JsText.Trim(xs[i]))
  }

  predicate NonEmpty(line: string) {
    line != ""
  }

  /** The trimmed, non-empty lines of the file text. */
  function Lines(content: string): seq<string> {
    Filter(TrimAll(JsText.Split(content, '\n')), NonEmpty)
  }

  /** The trimmed comma-separated cells of one line (no quote handling). */
  function Cells(line: string): seq<string> {
    TrimAll(JsText.Split(line, ','))
  }

  /** The positions of the five columns the page reads. */
  datatype Columns = Columns(ulasanIndex: nat, ratingIndex: nat, kategoriIndex: nat, namaProdukIndex: nat, labelIndex: nat)

  /** The header cells hold every required name, matched exactly and case-sensitively. */
  predicate HasAllHeaders(headers: seq<string>) {
    && "Ulasan" in headers && "Rating" in headers && "Kategori" in headers
    && "Nama Produk" in headers && "label" in headers
  }

  /** Locates each required column by the first header cell equal to its name. */
  function FindColumns(headers: seq<string>): (r: Option<Columns>)
    ensures r.Some? <==> HasAllHeaders(headers)
    ensures r.Some? ==>
      && r.value.ulasanIndex == JsText.IndexOf(headers, "Ulasan")
      && r.value.ratingIndex == JsText.IndexOf(headers, "Rating")
      && r.value.kategoriIndex == JsText.IndexOf(headers, "Kategori")
      && r.value.namaProdukIndex == JsText.IndexOf(headers, "Nama Produk")
      && r.value.labelIndex == JsText.IndexOf(headers, "label")
  {
    var u := JsText.IndexOf(headers, "Ulasan");
    var ra := JsText.IndexOf(headers, "Rating");
    var k := JsText.IndexOf(headers, "Kategori");
    var n := JsText.IndexOf(headers, "Nama Produk");
    var l := JsText.IndexOf(headers, "label");
    if u == -1 || ra == -1 || k == -1 || n == -1 || l == -1 then None
    else Some(Columns(u, ra, k, n, l))
  }

  /** `cols[i] || ""`: a missing cell reads as the empty string. */
  function Cell(cells: seq<string>, i: nat): string {
    if i < |cells| then cells[i] else ""
  }

  /** `parseInt(cols[i]) || 0`: a missing or non-numeric cell reads as 0. */
  function RatingCell(cells: seq<string>, i: nat): int {
    if i < |cells| then JsNumber.IntOrZero(JsNumber.ParseInt(cells[i])) else 0
  }

  /** `cols[i] === "1" ? "Positive" : "Negative"`. */
  function LabelCell(cells: seq<string>, i: nat): string {
    if i < |cells| && cells[i] == "1" then Positive else Negative
  }

  /** The record built from one data line. */
  function RowOf(line: string, cols: Columns): Row {
    var cells := Cells(line);
    Row(Cell(cells, cols.ulasanIndex), RatingCell(cells, cols.ratingIndex), Cell(cells, cols.kategoriIndex),
        Cell(cells, cols.namaProdukIndex), LabelCell(cells, cols.labelIndex))
  }

  /** The records built from a sequence of data lines, in order. */
  function RowsOf(lines: seq<string>, cols: Columns): (r: seq<Row>)
    ensures |r| == |lines|
    ensures forall i :: 0 <= i < |lines| ==> r[i] == RowOf(lines[i], cols)
  {
    seq(|lines|, i requires 0 <= i < |lines| => RowOf(lines[i], cols))
  }

  /**
   * `parseCSV`: the first non-blank line is the header; every later non-blank line
   * becomes one row. The empty sequence signals that nothing usable was found.
   */
  function ParseCsv(content: string): seq<Row> {
    var lines := Lines(content);
    if |lines| < 1 then []
    else
      match FindColumns(Cells(lines[0]))
      case None => []
      case Some(cols) => RowsOf(lines[1..], cols)
  }

  /** Ingestion yields nothing when every line is blank or a required header is absent. */
  lemma ParseCsvEmptyCases(content: string)
    ensures (forall k :: 0 <= k < |JsText.Split(content, '\n')| ==> JsText.IsBlank(JsText.Split(content, '\n')[k]))
            ==> ParseCsv(content) == []
    ensures Lines(content) != [] && !HasAllHeaders(Cells(Lines(content)[0])) ==> ParseCsv(content) == []
  {
  }

  /**
   * With all five headers present, each non-blank line after the header gives exactly
   * one row, in order, and every row's fields are read from that line's cells.
   */
  lemma ParseCsvRows(content: string)
    requires Lines(content) != [] && HasAllHeaders(Cells(Lines(content)[0]))
    ensures var rows, lines := ParseCsv(content), Lines(content);
      var cols := FindColumns(Cells(lines[0])).value;
      && |rows| == |lines| - 1
      && forall i :: 0 <= i < |rows| ==>
        var cells := Cells(lines[i + 1]);
        && rows[i].ulasan == Cell(cells, cols.ulasanIndex)
        && rows[i].rating == RatingCell(cells, cols.ratingIndex)
        && rows[i].kategori == Cell(cells, cols.kategoriIndex)
        && rows[i].namaProduk == Cell(cells, cols.namaProdukIndex)
        && (rows[i].sentiment == Positive <==> cols.labelIndex < |cells| && cells[cols.labelIndex] == "1")
  {
    ParseCsvIsRowsOf(content);
    RowsAfterHeader(Lines(content), FindColumns(Cells(Lines(content)[0])).value);
  }

  lemma ParseCsvIsRowsOf(content: string)
    requires Lines(content) != [] && HasAllHeaders(Cells(Lines(content)[0]))
    ensures ParseCsv(content) == RowsOf(Lines(content)[1..], FindColumns(Cells(Lines(content)[0])).value)
  {
  }

  /** Row `i` of the data lines after the header is read from line `i + 1`'s cells. */
  lemma RowsAfterHeader(lines: seq<string>, cols: Columns)
    requires lines != []
    ensures forall i :: 0 <= i < |lines| - 1 ==>
      var cells := Cells(lines[i + 1]);
      && RowsOf(lines[1..], cols)[i].ulasan == Cell(cells, cols.ulasanIndex)
      && RowsOf(lines[1..], cols)[i].rating == RatingCell(cells, cols.ratingIndex)
      && RowsOf(lines[1..], cols)[i].kategori == Cell(cells, cols.kategoriIndex)
      && RowsOf(lines[1..], cols)[i].namaProduk == Cell(cells, cols.namaProdukIndex)
      && (RowsOf(lines[1..], cols)[i].sentiment == Positive <==> cols.labelIndex < |cells| && cells[cols.labelIndex] == "1")
  {
    forall i | 0 <= i < |lines| - 1 ensures RowsOf(lines[1..], cols)[i] == RowOf(lines[i + 1], cols) {
      assert lines[1..][i] == lines[i + 1];
    }
  }

  /** A parsed string field: trimmed, and free of the comma and newline that delimited it. */
  predicate CleanField(s: string) {
    && ',' !in s && '\n' !in s
    && (s != [] ==> !JsText.IsWhiteSpace(s[0]) && !JsText.IsWhiteSpace(s[|s| - 1]))
  }

  /** What every ingested row satisfies. */
  predicate WellFormedRow(r: Row) {
    && CleanField(r.ulasan) && CleanField(r.kategori) && CleanField(r.namaProduk)
    && (r.sentiment == Positive || r.sentiment == Negative)
  }

  /** A character absent from a line is absent from each of its cells. */
  lemma CellsLack(line: string, c: char)
    requires c !in line
    ensures forall k :: 0 <= k < |Cells(line)| ==> c !in Cells(line)[k]
  {
    var pieces := JsText.Split(line, ',');
    forall k | 0 <= k < |pieces| ensures c !in Cells(line)[k] {
      JsText.JoinSplit(line, ',');
      PieceOfJoinHasNo(pieces, ',', c, k);
      TrimmedHasNo(pieces[k], c);
    }
  }

  lemma CellsAreClean(line: string)
    requires '\n' !in line
    ensures forall k :: 0 <= k < |Cells(line)| ==> CleanField(Cells(line)[k])
  {
    CellsLack(line, '\n');
    var pieces := JsText.Split(line, ',');
    forall k | 0 <= k < |pieces| ensures ',' !in Cells(line)[k] {
      TrimmedHasNo(pieces[k], ',');
    }
  }

  /** A row read from a single line is well formed. */
  lemma RowOfWellFormed(line: string, cols: Columns)
    requires '\n' !in line
    ensures WellFormedRow(RowOf(line, cols))
  {
    CellsAreClean(line);
  }

  /** Trimming never adds a character. */
  lemma TrimmedHasNo(s: string, c: char)
    requires c !in s
    ensures c !in JsText.Trim(s)
  {
    var r := JsText.Trim(s);
    var a := JsText.SkipBlanks(s, 0);
    assert r == s[a..a + |r|];
  }

  /** A part of a joined string holds no character the whole string lacks. */
  lemma {:induction false} PieceOfJoinHasNo(parts: seq<string>, sep: char, c: char, k: nat)
    requires k < |parts| && c !in JsText.Join(parts, sep)
    ensures c !in parts[k]
    decreases |parts|
  {
    if |parts| > 1 {
      var rest := JsText.Join(parts[1..], sep);
      assert JsText.Join(parts, sep) == parts[0] + [sep] + rest;
      if k > 0 {
        PieceOfJoinHasNo(parts[1..], sep, c, k - 1);
      }
    }
  }

  /** Every non-blank line of the file is free of newlines. */
  lemma LinesHaveNoNewline(content: string)
    ensures forall k :: 0 <= k < |Lines(content)| ==> '\n' !in Lines(content)[k]
  {
    var raw := JsText.Split(content, '\n');
    forall k | 0 <= k < |Lines(content)| ensures '\n' !in Lines(content)[k] {
      var line := Lines(content)[k];
      var j :| 0 <= j < |raw| && TrimAll(raw)[j] == line;
      TrimmedHasNo(raw[j], '\n');
    }
  }

  /** Every ingested row is well formed: clean string fields and one of the two labels. */
  lemma ParsedRowsWellFormed(content: string)
    ensures forall i :: 0 <= i < |ParseCsv(content)| ==> WellFormedRow(ParseCsv(content)[i])
  {
    var lines := Lines(content);
    LinesHaveNoNewline(content);
    if lines != [] && FindColumns(Cells(lines[0])).Some? {
      var cols := FindColumns(Cells(lines[0])).value;
      assert ParseCsv(content) == RowsOf(lines[1..], cols);
      forall i | 0 <= i < |lines| - 1 ensures WellFormedRow(RowOf(lines[1..][i], cols)) {
        RowOfWellFormed(lines[1..][i], cols);
      }
    }
  }

  // ---------------------------------------------------------------- export

  const ExportHeader: string := "Ulasan,Rating,Kategori,Nama Produk,Sentiment"

  /** `s.replace(/"/g, '""')`: every double quote doubled. */
  function EscapeQuotes(s: string): (r: string)
    ensures '\n' !in s ==> '\n' !in r
    decreases |s|
  {
    if s == [] then ""
    else (if s[0] == '"' then "\"\"" else [s[0]]) + EscapeQuotes(s[1..])
  }

  /** Reads a doubled-quote string back: each `""` becomes one `"`. */
  function UnescapeQuotes(s: string): string
    decreases |s|
  {
    if s == [] then ""
    else if |s| >= 2 && s[0] == '"' && s[1] == '"' then "\"" + UnescapeQuotes(s[2..])
    else [s[0]] + UnescapeQuotes(s[1..])
  }

  /** Undoubling the quotes restores the review text. */
  lemma {:induction false} UnescapeEscape(s: string)
    ensures UnescapeQuotes(EscapeQuotes(s)) == s
    decreases |s|
  {
    if s != [] {
      UnescapeEscape(s[1..]);
      var e := EscapeQuotes(s[1..]);
      if s[0] == '"' {
        assert EscapeQuotes(s) == "\"\"" + e;
        assert (("\"\"" + e)[2..]) == e;
      } else {
        assert EscapeQuotes(s) == [s[0]] + e;
        assert ([s[0]] + e)[1..] == e;
      }
    }
  }

  /** The cells of one exported line: quoted review text, then the other four fields. */
  function ExportCells(row: Row): seq<string> {
    ["\"" + EscapeQuotes(row.ulasan) + "\"", JsNumber.IntToString(row.rating), row.kategori,
     row.namaProduk, row.sentiment]
  }

  /** One exported line, comma-joined. */
  function ExportLine(row: Row): string {
    JsText.Join(ExportCells(row), ',')
  }

  /** The exported lines for the rows on screen, in order. */
  function ExportLines(rows: seq<Row>): (r: seq<string>)
    ensures |r| == |rows|
    ensures forall i :: 0 <= i < |rows| ==> r[i] == ExportLine(rows[i])
  {
    seq(|rows|, i requires 0 <= i < |rows| => ExportLine(rows[i]))
  }

  /** `downloadCSV`'s text: the header line and one line per row, joined by newlines. */
  function ExportText(rows: seq<Row>): string {
    JsText.Join([ExportHeader] + ExportLines(rows), '\n')
  }

  /** No field of the row holds a newline. */
  predicate SingleLine(row: Row) {
    '\n' !in row.ulasan && '\n' !in row.kategori && '\n' !in row.namaProduk && '\n' !in row.sentiment
  }

  lemma JoinHasNo(parts: seq<string>, sep: char, c: char)
    requires c != sep
    requires forall k :: 0 <= k < |parts| ==> c !in parts[k]
    ensures c !in JsText.Join(parts, sep)
    decreases |parts|
  {
    if |parts| > 1 {
      JoinHasNo(parts[1..], sep, c);
    }
  }

  lemma ExportLineSingle(row: Row)
    requires SingleLine(row)
    ensures '\n' !in ExportLine(row)
  {
    JoinHasNo(ExportCells(row), ',', '\n');
  }

  /**
   * The exported text splits into exactly one header line and one line per row, in
   * order, as long as no field holds a newline (true of every ingested row).
   */
  lemma ExportLineCount(rows: seq<Row>)
    requires forall i :: 0 <= i < |rows| ==> SingleLine(rows[i])
    ensures JsText.Split(ExportText(rows), '\n') == [ExportHeader] + ExportLines(rows)
    ensures |JsText.Split(ExportText(rows), '\n')| == |rows| + 1
  {
    var lines := ExportLines(rows);
    forall k | 0 <= k < |lines| ensures '\n' !in lines[k] {
      ExportLineSingle(rows[k]);
    }
    HeaderSingleLine();
    PrependLacks(ExportHeader, lines, '\n');
    JsText.SplitJoin([ExportHeader] + lines, '\n');
  }

  lemma HeaderSingleLine()
    ensures '\n' !in ExportHeader
  {
  }

  lemma PrependLacks(h: string, lines: seq<string>, c: char)
    requires c !in h
    requires forall k :: 0 <= k < |lines| ==> c !in lines[k]
    ensures forall k :: 0 <= k < |[h] + lines| ==> c !in ([h] + lines)[k]
  {
    forall k | 0 <= k < |[h] + lines| ensures c !in ([h] + lines)[k] {
      if k > 0 {
        assert ([h] + lines)[k] == lines[k - 1];
      }
    }
  }

  /**
   * An exported line of a row whose plain fields hold no comma splits back into the
   * five cells, and its rating cell re-parses to the row's rating.
   */
  lemma ExportLineCells(row: Row)
    requires ',' !in row.ulasan && ',' !in row.kategori && ',' !in row.namaProduk && ',' !in row.sentiment
    ensures JsText.Split(ExportLine(row), ',') == ExportCells(row)
    ensures JsNumber.ParseInt(JsText.Split(ExportLine(row), ',')[1]) == Some(row.rating)
  {
    EscapeHasNo(row.ulasan, ',');
    JsText.SplitJoin(ExportCells(row), ',');
    JsNumber.ParseIntOfIntToString(row.rating);
  }
  /**
   * Every row the parser produced exports to one line that splits back into its
   * five cells, the rating cell reading back as the rating.
   */
  lemma WellFormedRowExports(row: Row)
    requires WellFormedRow(row)
    ensures SingleLine(row)
    ensures JsText.Split(ExportLine(row), ',') == ExportCells(row)
    ensures JsNumber.ParseInt(JsText.Split(ExportLine(row), ',')[1]) == Some(row.rating)
  {
    assert ',' !in row.sentiment && '\n' !in row.sentiment;
    ExportLineCells(row);
  }


  lemma {:induction false} EscapeHasNo(s: string, c: char)
    requires c != '"' && c !in s
    ensures c !in EscapeQuotes(s)
    decreases |s|
  {
    if s != [] {
      EscapeHasNo(s[1..], c);
    }
  }

  /**
   * The export cannot be loaded back: its header names a "Sentiment" column and no
   * "label" column, so ingestion of any exported text yields no rows.
   */
  lemma ExportNotReingestible(rows: seq<Row>)
    ensures ParseCsv(ExportText(rows)) == []
  {
    ExportFirstLine(rows);
    ExportHeaderLacksLabel();
  }

  /** No cell of the export header is "label" (the header has no letter b at all). */
  lemma ExportHeaderLacksLabel()
    ensures !HasAllHeaders(Cells(ExportHeader))
  {
    assert 'b' !in ExportHeader;
    CellsLack(ExportHeader, 'b');
    LacksLetterB(Cells(ExportHeader));
  }

  lemma LacksLetterB(headers: seq<string>)
    requires forall k :: 0 <= k < |headers| ==> 'b' !in headers[k]
    ensures "label" !in headers
  {
  }

  /** The first non-blank line of any exported text is the export header. */
  lemma ExportFirstLine(rows: seq<Row>)
    ensures Lines(ExportText(rows)) != [] && Lines(ExportText(rows))[0] == ExportHeader
  {
    var text := ExportText(rows);
    var parts := [ExportHeader] + ExportLines(rows);
    assert '\n' !in ExportHeader;
    if |parts| > 1 {
      assert text == ExportHeader + ['\n'] + JsText.Join(parts[1..], '\n');
      JsText.SplitFirst(ExportHeader, '\n', JsText.Join(parts[1..], '\n'));
    } else {
      assert text == ExportHeader;
    }
    var raw := JsText.Split(text, '\n');
    assert raw[0] == ExportHeader;
    HeaderIsTrimmed();
    var trimmed := TrimAll(raw);
    assert trimmed[0] == ExportHeader;
    assert Filter(trimmed, NonEmpty) == [trimmed[0]] + Filter(trimmed[1..], NonEmpty);
  }

  lemma HeaderIsTrimmed()
    ensures JsText.Trim(ExportHeader) == ExportHeader
  {
    assert !JsText.IsWhiteSpace(ExportHeader[0]);
    assert JsText.SkipBlanks(ExportHeader, 0) == 0;
    assert !JsText.IsWhiteSpace(ExportHeader[|ExportHeader| - 1]);
    assert JsText.SkipBlanksBack(ExportHeader, 0, |ExportHeader|) == |ExportHeader|;
  }
}
