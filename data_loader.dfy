/**
 * The semicolon-separated text parser of the data loader: the first line holds
 * the column names, every further non-blank line becomes one record. There is
 * no quoting or escaping: every ';' and every '\n' splits.
 */
module DataLoader {
  import opened Wrappers
  import opened Text
  import opened Records
  import opened Seqs

  /** `values[index] || ''`: the column's value, or '' past the end of a short row. */
  function ValueAt(values: seq<string>, index: nat): string {
    if index < |values| then values[index] else ""
  }

  /**
   * The record built for one line: each header in turn is assigned its column,
   * so a repeated header keeps its first position and the later column's value.
   */
  function Entry(headers: seq<string>, values: seq<string>): Record
    decreases |headers|
  {
    if |headers| == 0 then []
    else Put(Entry(headers[..|headers| - 1], values), headers[|headers| - 1], ValueAt(values, |headers| - 1))
  }

  /** The `forEach` over the headers that fills one record in place. */
  method BuildEntry(headers: seq<string>, values: seq<string>) returns (entry: Record)
    ensures entry == Entry(headers, values)
    ensures UniqueKeys(entry)
  {
    entry := [];
    var index := 0;
    while index < |headers|
      invariant 0 <= index <= |headers|
      invariant entry == Entry(headers[..index], values)
      invariant UniqueKeys(entry)
    {
      PutUnique(entry, headers[index], ValueAt(values, index));
      entry := Put(entry, headers[index], ValueAt(values, index));
      assert headers[..index + 1][..index] == headers[..index];
      index := index + 1;
    }
    assert headers[..index] == headers;
  }

  /** The lines after the header whose `trim()` is not empty, in input order. */
  function DataLines(lines: seq<string>): (kept: seq<string>)
    ensures forall k :: 0 <= k < |kept| ==> Trim(kept[k]) != ""
  {
    if |lines| == 0 then []
    else if Trim(lines[0]) != "" then [lines[0]] + DataLines(lines[1..])
    else DataLines(lines[1..])
  }

  /** One record per data line, each built against the header columns. */
  function Entries(headers: seq<string>, lines: seq<string>): (rs: seq<Record>)
    ensures |rs| == |lines|
  {
    if |lines| == 0 then [] else [Entry(headers, Split(lines[0], ';'))] + Entries(headers, lines[1..])
  }

  /** `parseCSV(csvText)` */
  function ParseCsv(text: string): seq<Record> {
    var lines := Split(text, '\n');
    var headers := Split(lines[0], ';');
    Entries(headers, DataLines(lines[1..]))
  }

  // ---------------------------------------------------------------------------
  // properties

  /** Every key of a record is a header, and every header is a key. */
  lemma {:induction false} EntryKeys(headers: seq<string>, values: seq<string>, k: string)
    ensures Lookup(Entry(headers, values), k).Some? <==> k in headers
    decreases |headers|
  {
    if |headers| > 0 {
      var n := |headers| - 1;
      EntryKeys(headers[..n], values, k);
      PutLookup(Entry(headers[..n], values), headers[n], ValueAt(values, n), k);
      assert headers == headers[..n] + [headers[n]];
    }
  }

  /**
   * A header reads the column of its LAST occurrence in the header line, or ''
   * when the row is shorter than that.
   */
  lemma {:induction false} EntryValue(headers: seq<string>, values: seq<string>, i: nat)
    requires i < |headers|
    requires forall j :: i < j < |headers| ==> headers[j] != headers[i]
    ensures Lookup(Entry(headers, values), headers[i]) == Some(ValueAt(values, i))
    decreases |headers|
  {
    var n := |headers| - 1;
    var front := headers[..n];
    var e := Entry(front, values);
    assert Entry(headers, values) == Put(e, headers[n], ValueAt(values, n));
    PutLookup(e, headers[n], ValueAt(values, n), headers[i]);
    if i < n {
      assert front[i] == headers[i] != headers[n];
      forall j | i < j < |front| ensures front[j] != front[i] {
        assert front[j] == headers[j];
      }
      EntryValue(front, values, i);
      assert Lookup(e, headers[i]) == Some(ValueAt(values, i));
      assert Lookup(Entry(headers, values), headers[i]) == Lookup(e, headers[i]);
    } else {
      assert Lookup(Entry(headers, values), headers[n]) == Some(ValueAt(values, n));
    }
  }

  /** Data lines are exactly the non-blank lines, in order. */
  lemma DataLinesKeepsNonBlank(lines: seq<string>)
    ensures IsSubsequence(DataLines(lines), lines)
    ensures (forall k :: 0 <= k < |lines| ==> Trim(lines[k]) != "") ==> DataLines(lines) == lines
    ensures forall l :: multiset(DataLines(lines))[l] == if Trim(l) != "" then multiset(lines)[l] else 0
  {
    DataLinesInOrder(lines);
    DataLinesCounts(lines);
  }

  lemma {:induction false} DataLinesInOrder(lines: seq<string>)
    ensures IsSubsequence(DataLines(lines), lines)
    ensures (forall k :: 0 <= k < |lines| ==> Trim(lines[k]) != "") ==> DataLines(lines) == lines
    decreases |lines|
  {
    if |lines| > 0 {
      DataLinesInOrder(lines[1..]);
      if Trim(lines[0]) != "" {
        assert ([lines[0]] + DataLines(lines[1..]))[1..] == DataLines(lines[1..]);
      } else {
        SubsequenceSkip(DataLines(lines[1..]), lines);
      }
    }
  }

  lemma {:induction false} DataLinesCounts(lines: seq<string>)
    ensures forall l :: multiset(DataLines(lines))[l] == if Trim(l) != "" then multiset(lines)[l] else 0
    decreases |lines|
  {
    if |lines| > 0 {
      assert lines == [lines[0]] + lines[1..];
      DataLinesCounts(lines[1..]);
    }
  }


  /** Empty text, or text with only a header line, gives no records. */
  lemma ParseCsvHeaderOnly(text: string)
    requires '\n' !in text
    ensures ParseCsv(text) == []
  {
    SplitFree(text, '\n');
  }

  /** The text a table of columns and rows renders to, one line per row. */
  function Render(headers: seq<string>, rows: seq<seq<string>>): string
    requires |headers| >= 1 && forall k :: 0 <= k < |rows| ==> |rows[k]| >= 1
  {
    Join([Join(headers, ';')] + RenderRows(rows), '\n')
  }

  function RenderRows(rows: seq<seq<string>>): (lines: seq<string>)
    requires forall k :: 0 <= k < |rows| ==> |rows[k]| >= 1
    ensures |lines| == |rows|
  {
    if |rows| == 0 then [] else [Join(rows[0], ';')] + RenderRows(rows[1..])
  }

  /** Cells free of both separators. */
  predicate PlainCells(cells: seq<string>) {
    forall k :: 0 <= k < |cells| ==> ';' !in cells[k] && '\n' !in cells[k]
  }

  /**
   * Parsing a rendered table gives one record per row, in order, each mapping
   * the columns to that row's cells, provided no cell holds a separator and no
   * row renders to a blank line.
   */
  lemma ParseCsvRender(headers: seq<string>, rows: seq<seq<string>>)
    requires |headers| >= 1 && PlainCells(headers)
    requires forall k :: 0 <= k < |rows| ==> |rows[k]| >= 1 && PlainCells(rows[k])
    requires forall k :: 0 <= k < |rows| ==> Trim(Join(rows[k], ';')) != ""
    ensures |ParseCsv(Render(headers, rows))| == |rows|
    ensures forall k :: 0 <= k < |rows| ==> ParseCsv(Render(headers, rows))[k] == Entry(headers, rows[k])
  {
    var lines := [Join(headers, ';')] + RenderRows(rows);
    RenderRowsShape(rows);
    JoinPlain(headers);
    SplitJoin(lines, '\n');
    assert Split(Render(headers, rows), '\n') == lines;
    SplitJoin(headers, ';');
    assert lines[1..] == RenderRows(rows);
    DataLinesKeepsNonBlank(RenderRows(rows));
    EntriesRendered(headers, rows);
  }

  /** A joined line of plain cells has no line break. */
  lemma {:induction false} JoinPlain(cells: seq<string>)
    requires |cells| >= 1 && PlainCells(cells)
    ensures '\n' !in Join(cells, ';')
    decreases |cells|
  {
    if |cells| > 1 {
      JoinPlain(cells[1..]);
    }
  }

  lemma {:induction false} RenderRowsShape(rows: seq<seq<string>>)
    requires forall k :: 0 <= k < |rows| ==> |rows[k]| >= 1 && PlainCells(rows[k])
    requires forall k :: 0 <= k < |rows| ==> Trim(Join(rows[k], ';')) != ""
    ensures forall k :: 0 <= k < |rows| ==> RenderRows(rows)[k] == Join(rows[k], ';')
    ensures forall k :: 0 <= k < |rows| ==> '\n' !in RenderRows(rows)[k]
    ensures forall k :: 0 <= k < |rows| ==> Trim(RenderRows(rows)[k]) != ""
    decreases |rows|
  {
    if |rows| > 0 {
      RenderRowsShape(rows[1..]);
      JoinPlain(rows[0]);
    }
  }

  lemma {:induction false} EntriesRendered(headers: seq<string>, rows: seq<seq<string>>)
    requires forall k :: 0 <= k < |rows| ==> |rows[k]| >= 1 && PlainCells(rows[k])
    requires forall k :: 0 <= k < |rows| ==> Trim(Join(rows[k], ';')) != ""
    ensures forall k :: 0 <= k < |rows| ==> Entries(headers, RenderRows(rows))[k] == Entry(headers, rows[k])
    decreases |rows|
  {
    if |rows| > 0 {
      EntriesRendered(headers, rows[1..]);
      SplitJoin(rows[0], ';');
    }
  }

  /**
   * Windows line ends are not stripped: with "a;b\r\n1;2\r\n" the second column
   * is named "b\r" and holds "2\r".
   */
  lemma CarriageReturnStays()
    ensures ParseCsv("a;b\r\n1;2\r\n") == [[("a", "1"), ("b\r", "2\r")]]
  {
    ParseTwoColumns("a", "b\r", "1", "2\r");
    assert ("a" + ";" + "b\r") + "\n" + ("1" + ";" + "2\r") + "\n" == "a;b\r\n1;2\r\n";
  }

  /**
   * A header line and one data line, each of two separator-free cells and each
   * ended by a line break, parse to the one record pairing the columns with the
   * cells; nothing is trimmed from a cell.
   */
  lemma ParseTwoColumns(h1: string, h2: string, v1: string, v2: string)
    requires PlainCells([h1, h2]) && PlainCells([v1, v2]) && h1 != h2
    ensures ParseCsv((h1 + ";" + h2) + "\n" + (v1 + ";" + v2) + "\n") == [[(h1, v1), (h2, v2)]]
  {
    var header := h1 + ";" + h2;
    var line := v1 + ";" + v2;
    TwoCells(h1, h2);
    TwoCells(v1, v2);
    TwoLines(header, line);
    KeptLine(v1, v2);
    ParseCsvParts(header + "\n" + line + "\n", header, [line, ""], [h1, h2], [line]);
    assert Entries([h1, h2], [line]) == [Entry([h1, h2], [v1, v2])];
    TwoColumnEntry(h1, h2, v1, v2);
  }

  lemma TwoCells(a: string, b: string)
    requires PlainCells([a, b])
    ensures Split(a + ";" + b, ';') == [a, b]
    ensures '\n' !in a + ";" + b
  {
    assert [a, b][1..] == [b];
    assert Join([a, b], ';') == a + ";" + b;
    SplitJoin([a, b], ';');
  }

  lemma TwoLines(header: string, line: string)
    requires '\n' !in header && '\n' !in line
    ensures Split(header + "\n" + line + "\n", '\n') == [header] + [line, ""]
  {
    assert [header, line, ""][1..] == [line, ""] && [line, ""][1..] == [""];
    assert Join([line, ""], '\n') == line + "\n" + Join([""], '\n');
    assert Join([header, line, ""], '\n') == header + "\n" + line + "\n";
    SplitJoin([header, line, ""], '\n');
  }

  /** A line holding the separator is not blank, so it is kept; the empty last line is not. */
  lemma KeptLine(v1: string, v2: string)
    ensures DataLines([v1 + ";" + v2, ""]) == [v1 + ";" + v2]
  {
    var line := v1 + ";" + v2;
    assert line[|v1|] == ';' && !IsJsSpace(';');
    TrimEmptyIffBlank(line);
    assert Trim("") == "";
    assert [line, ""][1..] == [""];
    assert DataLines([line, ""]) == [line] + DataLines([""]);
  }

  /** Parsing is splitting into lines, the first line into columns, and reading the data lines. */
  lemma ParseCsvParts(text: string, first: string, rest: seq<string>, headers: seq<string>, data: seq<string>)
    requires Split(text, '\n') == [first] + rest && headers == Split(first, ';')
    requires data == DataLines(rest)
    ensures ParseCsv(text) == Entries(headers, data)
  {
    assert ([first] + rest)[1..] == rest;
  }

  lemma TwoColumnEntry(h1: string, h2: string, v1: string, v2: string)
    requires h1 != h2
    ensures Entry([h1, h2], [v1, v2]) == [(h1, v1), (h2, v2)]
  {
    assert [h1, h2][..1] == [h1];
    assert [h1][..0] == [];
    assert Entry([h1], [v1, v2]) == [(h1, v1)];
    assert [(h1, v1)][1..] == [];
    assert Put([(h1, v1)], h2, v2) == [(h1, v1)] + Put([], h2, v2);
  }
}
