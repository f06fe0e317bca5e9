/**
  The CSV pretty-printer (`CsvTable` in `hw-04` and, identically, in
  `hw-03`): a table whose column widths grow to the widest cell, rendered
  as right-aligned cells between `|` bars and framed by separator lines.
  Widths are measured like Rust's `str::len`, in UTF-8 bytes, while padding
  counts characters, as `{:>width$}` does.
*/
module CsvPretty {
  import opened Wrappers

  type Row = seq<string>

  function Max(a: nat, b: nat): nat
  {
    if a < b then b else a
  }

  /** The number of bytes UTF-8 uses for one character. */
  function Utf8Width(c: char): nat
  {
    if c as int < 0x80 then 1 else if c as int < 0x800 then 2 else if c as int < 0x1_0000 then 3 else 4
  }

  predicate IsAscii(s: string)
  {
    forall j :: 0 <= j < |s| ==> s[j] as int < 0x80
  }

  /** `str::len`: the length of the UTF-8 encoding, never less than the character count, equal to it exactly for ASCII. */
  function ByteLen(s: string): (n: nat)
    ensures n >= |s|
    ensures n == |s| <==> IsAscii(s)
  {
    if s == [] then 0 else Utf8Width(s[0]) + ByteLen(s[1..])
  }

  /** The byte length of each cell. */
  function Lens(row: Row): (r: seq<nat>)
    ensures |r| == |row|
    ensures forall i :: 0 <= i < |row| ==> r[i] == ByteLen(row[i])
  {
    seq(|row|, i requires 0 <= i < |row| => ByteLen(row[i]))
  }

  datatype CsvTable = CsvTable(headers: Row, records: seq<Row>, colLens: seq<nat>)

  /** One width per header, and every record as wide as the header row. */
  predicate Shaped(t: CsvTable)
  {
    && |t.colLens| == |t.headers|
    && forall k :: 0 <= k < |t.records| ==> |t.records[k]| == |t.colLens|
  }

  /** Every cell, header or record, fits in its column's width. */
  predicate Valid(t: CsvTable)
  {
    && Shaped(t)
    && (forall i :: 0 <= i < |t.colLens| ==> ByteLen(t.headers[i]) <= t.colLens[i])
    && (forall k, i :: 0 <= k < |t.records| && 0 <= i < |t.colLens| ==> ByteLen(t.records[k][i]) <= t.colLens[i])
  }

  /** Reference definition of a column's width: the widest of its header and its cells. */
  function ColumnWidth(header: string, rows: seq<Row>, i: nat): nat
    requires forall k :: 0 <= k < |rows| ==> i < |rows[k]|
  {
    if rows == [] then ByteLen(header)
    else Max(ColumnWidth(header, rows[..|rows| - 1], i), ByteLen(rows[|rows| - 1][i]))
  }

  /** A column's width is the byte length of its header or of one of its cells, and no cell is wider. */
  lemma {:induction false} ColumnWidthIsMax(header: string, rows: seq<Row>, i: nat)
    requires forall k :: 0 <= k < |rows| ==> i < |rows[k]|
    ensures ByteLen(header) <= ColumnWidth(header, rows, i)
    ensures forall k :: 0 <= k < |rows| ==> ByteLen(rows[k][i]) <= ColumnWidth(header, rows, i)
    ensures ColumnWidth(header, rows, i) == ByteLen(header)
            || exists k :: 0 <= k < |rows| && ColumnWidth(header, rows, i) == ByteLen(rows[k][i])
  {
    if rows != [] {
      var init := rows[..|rows| - 1];
      ColumnWidthIsMax(header, init, i);
      assert forall k :: 0 <= k < |init| ==> rows[k] == init[k];
    }
  }

  /** The widths of all columns, by the reference definition. */
  function Widest(headers: Row, rows: seq<Row>): seq<nat>
    requires forall k :: 0 <= k < |rows| ==> |rows[k]| == |headers|
  {
    seq(|headers|, i requires 0 <= i < |headers| => ColumnWidth(headers[i], rows, i))
  }

  /** The widths are exactly the widest cells: nothing wider than needed. */
  predicate Tight(t: CsvTable)
  {
    Shaped(t) && t.colLens == Widest(t.headers, t.records)
  }

  /** A table with tight widths keeps every cell within its column. */
  lemma TightIsValid(t: CsvTable)
    requires Tight(t)
    ensures Valid(t)
  {
    forall i | 0 <= i < |t.colLens|
      ensures ByteLen(t.headers[i]) <= t.colLens[i]
      ensures forall k :: 0 <= k < |t.records| ==> ByteLen(t.records[k][i]) <= t.colLens[i]
    {
      ColumnWidthIsMax(t.headers[i], t.records, i);
    }
  }

  /** `CsvTable::new`: no records yet, and each column exactly as wide as its header. */
  function New(headers: Row): (t: CsvTable)
    ensures t.headers == headers && t.records == []
    ensures Tight(t) && Valid(t)
  {
    var t := CsvTable(headers, [], Lens(headers));
    TightIsValid(t);
    t
  }

  datatype AppendError = SizeMismatch

  /**
    `CsvTable::append`: a record with the wrong number of fields is refused
    and the table is left as it was; otherwise the record goes last and each
    column widens to fit it.
  */
  function Append(t: CsvTable, record: Row): (r: (Result<(), AppendError>, CsvTable))
    ensures r.0.Err? <==> |record| != |t.colLens|
    ensures r.0.Err? ==> r.1 == t
    ensures r.0.Ok? ==> r.1.headers == t.headers && r.1.records == t.records + [record]
    ensures r.0.Ok? ==> |r.1.colLens| == |t.colLens|
                        && forall i :: 0 <= i < |t.colLens| ==> r.1.colLens[i] == Max(t.colLens[i], ByteLen(record[i]))
    ensures Valid(t) ==> Valid(r.1)
  {
    if |record| != |t.colLens| then (Err(SizeMismatch), t)
    else
      var lens := seq(|t.colLens|, i requires 0 <= i < |t.colLens| => Max(t.colLens[i], ByteLen(record[i])));
      (Ok(()), CsvTable(t.headers, t.records + [record], lens))
  }

  /** Appending keeps the widths tight: they stay the widest cells of the grown table. */
  lemma AppendKeepsTight(t: CsvTable, record: Row)
    requires Tight(t)
    ensures Tight(Append(t, record).1)
  {
    var u := Append(t, record).1;
    if |record| == |t.colLens| {
      assert u.records[..|u.records| - 1] == t.records;
      forall i | 0 <= i < |u.colLens|
        ensures u.colLens[i] == ColumnWidth(u.headers[i], u.records, i)
      {
      }
    }
  }

  /** `{:>width$}`: spaces on the left up to `width` characters; a longer cell is left whole. */
  function PadLeft(s: string, width: nat): (r: string)
    ensures |r| == Max(|s|, width)
    ensures r[|r| - |s|..] == s
    ensures forall j :: 0 <= j < |r| - |s| ==> r[j] == ' '
  {
    if |s| >= width then s else seq(width - |s|, _ => ' ') + s
  }

  /** `join`: the parts with `sep` between neighbours. */
  function Join(parts: seq<string>, sep: string): string
  {
    if |parts| == 0 then []
    else if |parts| == 1 then parts[0]
    else parts[0] + sep + Join(parts[1..], sep)
  }

  /** Joining two non-empty lists puts one separator where they meet. */
  lemma {:induction false} JoinAppend(a: seq<string>, b: seq<string>, sep: string)
    requires |a| > 0 && |b| > 0
    ensures Join(a + b, sep) == Join(a, sep) + sep + Join(b, sep)
  {
    if |a| > 1 {
      assert (a + b)[1..] == a[1..] + b;
      JoinAppend(a[1..], b, sep);
    } else {
      assert (a + b)[1..] == b;
    }
  }

  /** The width of joined cells of the given widths, with a three-character separator. */
  function JoinedWidth(widths: seq<nat>): nat
  {
    if |widths| == 0 then 0
    else if |widths| == 1 then widths[0]
    else widths[0] + 3 + JoinedWidth(widths[1..])
  }

  /** The length of a join depends only on the lengths of its parts. */
  lemma {:induction false} JoinLength(parts: seq<string>, widths: seq<nat>)
    requires |parts| == |widths|
    requires forall i :: 0 <= i < |parts| ==> |parts[i]| == widths[i]
    ensures |Join(parts, " | ")| == JoinedWidth(widths)
  {
    if |parts| > 1 {
      JoinLength(parts[1..], widths[1..]);
    }
  }

  /** Each cell of a row padded to its column's width. */
  function Cells(row: Row, widths: seq<nat>): (r: seq<string>)
    requires |row| <= |widths|
    ensures |r| == |row|
    ensures forall i :: 0 <= i < |row| ==> r[i] == PadLeft(row[i], widths[i])
  {
    seq(|row|, i requires 0 <= i < |row| => PadLeft(row[i], widths[i]))
  }

  /** `format_table_line`: the padded cells between `| `, ` | ` and ` |`. */
  function FormatLine(row: Row, widths: seq<nat>): string
    requires |row| <= |widths|
  {
    "| " + Join(Cells(row, widths), " | ") + " |"
  }

  /**
    A row whose cells fit their columns renders to a fixed width that
    depends only on the column widths: every cell takes exactly its
    column's width, because a cell's character count never exceeds its
    byte length.
  */
  lemma LineWidth(row: Row, widths: seq<nat>)
    requires |row| == |widths|
    requires forall i :: 0 <= i < |row| ==> ByteLen(row[i]) <= widths[i]
    ensures |FormatLine(row, widths)| == 4 + JoinedWidth(widths)
  {
    JoinLength(Cells(row, widths), widths);
  }

  /** The separator line: one `-` for every character of the header line. */
  function Separator(headerLine: string): (r: string)
    ensures |r| == |headerLine|
    ensures forall j :: 0 <= j < |r| ==> r[j] == '-'
  {
    seq(|headerLine|, _ => '-')
  }

  /** The separator as the source builds it, `"-".repeat(header.len())`: one `-` per byte. */
  function SeparatorAsWritten(headerLine: string): (r: string)
    ensures |r| == ByteLen(headerLine)
    ensures forall j :: 0 <= j < |r| ==> r[j] == '-'
  {
    seq(ByteLen(headerLine), _ => '-')
  }

  /** For an ASCII header line the two separators coincide. */
  lemma AsciiSeparatorsAgree(headerLine: string)
    ensures SeparatorAsWritten(headerLine) == Separator(headerLine) <==> IsAscii(headerLine)
  {
  }

  /**
    A single non-ASCII header: `é` is two bytes, so the column is two wide,
    the header line `|  é |` has six characters, and the separator built
    from its byte length has seven; the table printed as written is not
    the aligned one.
  */
  lemma NonAsciiHeaderSeparatorOverhangs()
    ensures var t := New(["\U{E9}"]);
            var header := FormatLine(t.headers, t.colLens);
            && |header| == 6 && |SeparatorAsWritten(header)| == 7 && |Separator(header)| == |header|
            && Render(t) != RenderAligned(t)
  {
    var e: string := "\U{E9}";
    assert ByteLen(e) == 2 by {
      assert e[1..] == [];
    }
    var t := New([e]);
    assert t.colLens == [2];
    var cell := PadLeft(e, 2);
    assert cell == [' '] + e;
    var cells := Cells(t.headers, t.colLens);
    assert cells == [cell];
    var header := FormatLine(t.headers, t.colLens);
    assert header == "| " + cell + " |";
    assert header == ['|', ' ', ' ', '\U{E9}', ' ', '|'];
    assert ByteLen(header) == 7 by {
      assert header[6..] == [];
      assert ByteLen(header[5..]) == 1 + ByteLen(header[6..]);
      assert header[5..][1..] == header[6..];
      assert ByteLen(header[4..]) == 1 + ByteLen(header[5..]) by { assert header[4..][1..] == header[5..]; }
      assert ByteLen(header[3..]) == 2 + ByteLen(header[4..]) by { assert header[3..][1..] == header[4..]; }
      assert ByteLen(header[2..]) == 1 + ByteLen(header[3..]) by { assert header[2..][1..] == header[3..]; }
      assert ByteLen(header[1..]) == 1 + ByteLen(header[2..]) by { assert header[1..][1..] == header[2..]; }
      assert ByteLen(header) == 1 + ByteLen(header[1..]);
    }
    RenderAgreesOnAscii(t);
  }

  /** One formatted line per record. */
  function BodyLines(t: CsvTable): (r: seq<string>)
    requires Shaped(t)
    ensures |r| == |t.records|
    ensures forall k :: 0 <= k < |t.records| ==> r[k] == FormatLine(t.records[k], t.colLens)
  {
    seq(|t.records|, k requires 0 <= k < |t.records| => FormatLine(t.records[k], t.colLens))
  }

  /** The header line, `format_table_line(&self.headers)`. */
  function HeaderLine(t: CsvTable): string
    requires Shaped(t)
  {
    FormatLine(t.headers, t.colLens)
  }

  /** The layout `Display::fmt` writes around a separator: separator, header, separator, the record lines, separator, each ending a line. */
  function Layout(t: CsvTable, sep: string): string
    requires Shaped(t)
  {
    sep + "\n" + HeaderLine(t) + "\n" + sep + "\n" + Join(BodyLines(t), "\n") + "\n" + sep + "\n"
  }

  /** `Display::fmt` as written: the separator has one `-` per byte of the header line. */
  function Render(t: CsvTable): string
    requires Shaped(t)
  {
    Layout(t, SeparatorAsWritten(HeaderLine(t)))
  }

  /** The corrected rendering: the separator has one `-` per character of the header line. */
  function RenderAligned(t: CsvTable): string
    requires Shaped(t)
  {
    Layout(t, Separator(HeaderLine(t)))
  }

  /** The lines of a rendered table around a separator; a table without records has one empty line for its body. */
  function TableLines(t: CsvTable, sep: string): seq<string>
    requires Shaped(t)
  {
    [sep, HeaderLine(t), sep] + (if t.records == [] then [""] else BodyLines(t)) + [sep]
  }

  /** A layout is its lines, each ended by a newline. */
  lemma LayoutIsLines(t: CsvTable, sep: string)
    requires Shaped(t)
    ensures Layout(t, sep) == Join(TableLines(t, sep), "\n") + "\n"
  {
    var header := HeaderLine(t);
    var body := if t.records == [] then [""] else BodyLines(t);
    var top := [sep, header, sep];
    assert Join(body, "\n") == Join(BodyLines(t), "\n");
    JoinAppend(top, body, "\n");
    JoinAppend(top + body, [sep], "\n");
    assert Join(top, "\n") == sep + "\n" + header + "\n" + sep by {
      assert top[1..] == [header, sep];
      assert top[1..][1..] == [sep];
    }
    assert TableLines(t, sep) == top + body + [sep];
  }

  /** Both renderings are their lines, each ended by a newline; they differ only in the separator line. */
  lemma RenderIsLines(t: CsvTable)
    requires Shaped(t)
    ensures Render(t) == Join(TableLines(t, SeparatorAsWritten(HeaderLine(t))), "\n") + "\n"
    ensures RenderAligned(t) == Join(TableLines(t, Separator(HeaderLine(t))), "\n") + "\n"
  {
    LayoutIsLines(t, SeparatorAsWritten(HeaderLine(t)));
    LayoutIsLines(t, Separator(HeaderLine(t)));
  }

  /** A layout starts with its separator and a newline, so separators of different lengths give different layouts. */
  lemma LayoutsDiffer(t: CsvTable, a: string, b: string)
    requires Shaped(t)
    requires (forall j :: 0 <= j < |a| ==> a[j] == '-') && (forall j :: 0 <= j < |b| ==> b[j] == '-')
    requires |a| < |b|
    ensures Layout(t, a) != Layout(t, b)
  {
    assert Layout(t, a)[|a|] == '\n';
    assert Layout(t, b)[|a|] == '-';
  }

  /** The code as written prints the corrected table exactly when the header line is ASCII. */
  lemma RenderAgreesOnAscii(t: CsvTable)
    requires Shaped(t)
    ensures Render(t) == RenderAligned(t) <==> IsAscii(HeaderLine(t))
  {
    var header := HeaderLine(t);
    AsciiSeparatorsAgree(header);
    if !IsAscii(header) {
      LayoutsDiffer(t, Separator(header), SeparatorAsWritten(header));
    }
  }

  /**
    In a valid table every record line is exactly as wide as the header
    line, and so as wide as the separator of the corrected rendering: the
    columns line up.
  */
  lemma LinesAligned(t: CsvTable)
    requires Valid(t)
    ensures forall k :: 0 <= k < |t.records| ==> |BodyLines(t)[k]| == |HeaderLine(t)|
    ensures forall k :: 0 <= k < |TableLines(t, Separator(HeaderLine(t)))| ==>
              TableLines(t, Separator(HeaderLine(t)))[k] == "" || |TableLines(t, Separator(HeaderLine(t)))[k]| == |HeaderLine(t)|
  {
    LineWidth(t.headers, t.colLens);
    forall k | 0 <= k < |t.records|
      ensures |BodyLines(t)[k]| == 4 + JoinedWidth(t.colLens)
    {
      LineWidth(t.records[k], t.colLens);
    }
  }

  /** `render_csv`'s failures: the reader reported an error, or a record had the wrong arity. */
  datatype CsvError = ReadFailed | RecordSizeMismatch

  /** Every record was read and has `n` fields. */
  predicate AllRead(records: seq<Option<Row>>, n: nat)
  {
    forall k :: 0 <= k < |records| ==> records[k].Some? && |records[k].value| == n
  }

  function Values(records: seq<Option<Row>>): (r: seq<Row>)
    requires forall k :: 0 <= k < |records| ==> records[k].Some?
    ensures |r| == |records|
    ensures forall k :: 0 <= k < |records| ==> r[k] == records[k].value
  {
    seq(|records|, k requires 0 <= k < |records| => records[k].value)
  }

  /**
    `render_csv`: the header row and the records come
    from the CSV reader (`None` where it failed). The table is built record
    by record; the first bad record decides the error, and a fully read
    input renders the table whose widths are the widest cells.
    `transform_csv` of `hw-03` builds the table the same way and prints the
    rendered text followed by one more newline.
  */
  method RenderCsv(headers: Option<Row>, records: seq<Option<Row>>) returns (r: Result<string, CsvError>)
    ensures headers.None? ==> r == Err(ReadFailed)
    ensures r.Ok? <==> headers.Some? && AllRead(records, |headers.value|)
    ensures r.Ok? ==> var rows := Values(records);
                      r.value == Render(CsvTable(headers.value, rows, Widest(headers.value, rows)))
    ensures headers.Some? && r.Err? ==>
              exists k :: 0 <= k < |records| && AllRead(records[..k], |headers.value|)
                          && !(records[k].Some? && |records[k].value| == |headers.value|)
                          && (r.error == ReadFailed <==> records[k].None?)
  {
    if headers.None? {
      return Err(ReadFailed);
    }
    var h := headers.value;
    var t := New(h);
    var i := 0;
    while i < |records|
      invariant 0 <= i <= |records|
      invariant AllRead(records[..i], |h|)
      invariant t == CsvTable(h, Values(records[..i]), Widest(h, Values(records[..i])))
      invariant Tight(t)
    {
      assert records[..i + 1] == records[..i] + [records[i]];
      match records[i]
      case None =>
        return Err(ReadFailed);
      case Some(row) =>
        var (res, next) := Append(t, row);
        if res.Err? {
          return Err(RecordSizeMismatch);
        }
        AppendKeepsTight(t, row);
        assert Values(records[..i + 1]) == Values(records[..i]) + [row];
        t := next;
        i := i + 1;
    }
    assert records[..i] == records;
    return Ok(Render(t));
  }
}
