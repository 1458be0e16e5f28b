/** The trace table of the GUI: loading a file, saving the table, and polling a live trace. */
module TraceWindow {
  import opened PcieTypes
  import opened Text
  import opened CsvExport
  import opened CsvReader
  import opened QemuTrace
  import opened LiveTrace
  import opened Pattern

  function Untimed(row: Row): Row {
    row.(ts := "")
  }

  function UntimedAll(rows: seq<Row>): (r: seq<Row>)
    ensures |r| == |rows|
  {
    seq(|rows|, i requires 0 <= i < |rows| => Untimed(rows[i]))
  }

  // ---------------------------------------------------------------------------------------------
  // Loading and saving
  // ---------------------------------------------------------------------------------------------

  /** A line that marks the file as a CSV trace. */
  predicate MarksCsv(line: string) {
    var t := Trim(line);
    t != "" && ',' in t && Contains(ToLower(t), "timestamp")
  }

  predicate IsCsv(lines: seq<string>) {
    exists i :: 0 <= i < |lines| && MarksCsv(lines[i])
  }

  /** The row of a line of a file of either kind; a row of a raw trace has no time of its own. */
  function LineRow(csv: bool, line: string): Option<Row> {
    if csv then CsvRow(Trim(line)) else ParseRow(Trim(line))
  }

  /** How a line becomes a row: `clock` gives the time text for the row at an index. */
  function Reader(csv: bool, clock: nat -> string): (string, nat) -> Option<Row> {
    (line: string, k: nat) =>
      match LineRow(csv, line)
      case None => None
      case Some(row) => Some(if csv then row else row.(ts := clock(k)))
  }

  /** The rows of those lines that have one. */
  function Collect(lines: seq<string>, rowAt: (string, nat) -> Option<Row>): seq<Row> {
    if lines == [] then []
    else
      var front := Collect(lines[..|lines| - 1], rowAt);
      match rowAt(lines[|lines| - 1], |front|)
      case None => front
      case Some(row) => front + [row]
  }

  function LoadRows(text: string, clock: nat -> string): seq<Row> {
    var lines := Split(text, '\n');
    if Trim(lines[0]) == "" then [] else Collect(lines, Reader(IsCsv(lines), clock))
  }

  /** The text a table is saved as: a line for each row that has an address. */
  function SavedText(rows: seq<Row>): string {
    if rows == [] then ""
    else
      var n := |rows| - 1;
      SavedText(rows[..n]) + if rows[n].addr == "" then "" else SavedLine(rows[n])
  }

  /** The lines of the kept rows, one after another. */
  function LinesOfRows(rows: seq<Row>, kept: seq<nat>): string
    requires forall i :: 0 <= i < |kept| ==> kept[i] < |rows|
  {
    if kept == [] then ""
    else
      var n := |kept| - 1;
      LinesOfRows(rows, kept[..n]) + SavedLine(rows[kept[n]])
  }

  /** A saved table: the lines of exactly the rows that have an address, in the order of the table. */
  ghost predicate IsSaved(text: string, rows: seq<Row>) {
    exists kept :: Keeps(kept, rows) && text == LinesOfRows(rows, kept)
  }

  predicate Keeps(kept: seq<nat>, rows: seq<Row>) {
    && (forall i :: 0 <= i < |kept| ==> kept[i] < |rows| && rows[kept[i]].addr != "")
    && (forall i, j :: 0 <= i < j < |kept| ==> kept[i] < kept[j])
    && forall k :: 0 <= k < |rows| && rows[k].addr != "" ==> k in kept
  }

  lemma {:induction false} SavedTextIsSaved(rows: seq<Row>)
    ensures IsSaved(SavedText(rows), rows)
  {
    if rows == [] {
      assert Keeps([], rows) && SavedText(rows) == LinesOfRows(rows, []);
    } else {
      var n := |rows| - 1;
      SavedTextIsSaved(rows[..n]);
      var front :| Keeps(front, rows[..n]) && SavedText(rows[..n]) == LinesOfRows(rows[..n], front);
      var kept := KeptWithLast(front, rows);
    }
  }

  lemma {:induction false} KeptWithLast(front: seq<nat>, rows: seq<Row>) returns (kept: seq<nat>)
    requires rows != [] && Keeps(front, rows[..|rows| - 1])
    requires SavedText(rows[..|rows| - 1]) == LinesOfRows(rows[..|rows| - 1], front)
    ensures Keeps(kept, rows) && SavedText(rows) == LinesOfRows(rows, kept)
  {
    var n := |rows| - 1;
    SameLines(rows, n, front);
    if rows[n].addr == "" {
      kept := front;
      assert SavedText(rows[..n]) + "" == SavedText(rows[..n]);
    } else {
      kept := front + [n];
      KeepsOneMore(front, rows);
      OneMoreRow(rows, front, n);
    }
  }

  lemma {:induction false} OneMoreRow(rows: seq<Row>, kept: seq<nat>, n: nat)
    requires n < |rows| && forall i :: 0 <= i < |kept| ==> kept[i] < |rows|
    ensures LinesOfRows(rows, kept + [n]) == LinesOfRows(rows, kept) + SavedLine(rows[n])
  {
    assert (kept + [n])[..|kept|] == kept;
  }

  lemma {:induction false} KeepsOneMore(front: seq<nat>, rows: seq<Row>)
    requires rows != [] && Keeps(front, rows[..|rows| - 1]) && rows[|rows| - 1].addr != ""
    ensures Keeps(front + [|rows| - 1], rows)
  {
    var n := |rows| - 1;
    var kept := front + [n];
    forall k | 0 <= k < |rows| && rows[k].addr != "" ensures k in kept {
      if k < n {
        assert rows[..n][k] == rows[k] && k in front;
        var i :| 0 <= i < |front| && front[i] == k;
        assert kept[i] == k;
      } else {
        assert kept[|front|] == n;
      }
    }
  }

  lemma {:induction false} SameLines(rows: seq<Row>, n: nat, kept: seq<nat>)
    requires n <= |rows| && forall i :: 0 <= i < |kept| ==> kept[i] < n
    ensures LinesOfRows(rows[..n], kept) == LinesOfRows(rows, kept)
    decreases |kept|
  {
    if kept != [] {
      SameLines(rows, n, kept[..|kept| - 1]);
    }
  }

  /** For instance, a row without an address between two others is left out. */
  lemma MiddleIsLeftOut(a: Row, b: Row, c: Row)
    requires a.addr != "" && b.addr == "" && c.addr != ""
    ensures SavedText([a, b, c]) == SavedLine(a) + SavedLine(c)
  {
    assert [a, b, c][..2] == [a, b] && [a, b][..1] == [a] && [a][..0] == [];
    assert SavedText([a]) == "" + SavedLine(a) == SavedLine(a);
    assert SavedText([a, b]) == SavedLine(a) + "" == SavedLine(a);
  }

  // ---------------------------------------------------------------------------------------------
  // The live trace
  // ---------------------------------------------------------------------------------------------

  predicate Readable(line: string) {
    ParseRow(line).Some?
  }

  function LiveRow(line: string): Row {
    match ParseRow(line)
    case None => Row("", "", "", "", "", "", "", "", "")
    case Some(row) => row
  }

  function LiveRows(lines: seq<string>): (rows: seq<Row>)
    ensures |rows| == |lines|
  {
    seq(|lines|, i requires 0 <= i < |lines| => LiveRow(lines[i]))
  }

  lemma UntimedAppend(rows: seq<Row>, row: Row, now: string)
    ensures UntimedAll(rows + [row.(ts := now)]) == UntimedAll(rows) + [Untimed(row)]
  {
  }

  /** What a poll looks at and changes: the rows, time aside, and the lines seen. */
  datatype Polled = Polled(rows: seq<Row>, seen: set<string>)

  /** A line is added unless it is blank, was seen before, or cannot be read. */
  predicate Adds(v: Polled, line: string) {
    line != "" && line !in v.seen && Readable(line)
  }

  function PollLine(v: Polled, line: string): Polled {
    if Adds(v, line) then Polled(v.rows + [LiveRow(line)], v.seen + {line}) else v
  }

  function PollLines(v: Polled, lines: seq<string>): Polled {
    if lines == [] then v else PollLine(PollLines(v, lines[..|lines| - 1]), Trim(lines[|lines| - 1]))
  }

  /** Line by line, a poll adds the fresh lines. */
  lemma {:induction false} PollLinesAddsFresh(v: Polled, lines: seq<string>)
    ensures var fresh' := Fresh(Readable, v.seen, lines);
            PollLines(v, lines) == Polled(v.rows + LiveRows(fresh'), v.seen + SetOf(fresh'))
  {
    if lines == [] {
      assert v.rows + LiveRows([]) == v.rows && v.seen + SetOf([]) == v.seen;
    } else {
      var front, line := lines[..|lines| - 1], Trim(lines[|lines| - 1]);
      var found := Fresh(Readable, v.seen, front);
      PollLinesAddsFresh(v, front);
      PollLineAdds(v, found, line);
    }
  }

  lemma PollLineAdds(v: Polled, found: seq<string>, line: string)
    ensures var now := Polled(v.rows + LiveRows(found), v.seen + SetOf(found));
            PollLine(now, line) ==
            if line == "" || line in v.seen || line in found || !Readable(line) then now
            else Polled(v.rows + LiveRows(found + [line]), v.seen + SetOf(found + [line]))
  {
    assert LiveRows(found + [line]) == LiveRows(found) + [LiveRow(line)];
    assert v.rows + LiveRows(found) + [LiveRow(line)] == v.rows + (LiveRows(found) + [LiveRow(line)]);
    assert v.seen + SetOf(found) + {line} == v.seen + SetOf(found + [line]);
  }

  class Table {
    var rows: seq<Row>
    var seen: set<string>

    constructor ()
      ensures rows == [] && seen == {}
    {
      rows, seen := [], {};
    }

    method LoadCsv(text: string, clock: nat -> string)
      modifies this`rows
      ensures rows == LoadRows(text, clock)
    {
      rows := [];
      var lines := Split(text, '\n');
      if Trim(lines[0]) == "" {
        return;
      }
      var isCsv := IsCsv(lines);
      for i := 0 to |lines|
        invariant rows == Collect(lines[..i], Reader(isCsv, clock))
      {
        assert lines[..i + 1][..i] == lines[..i];
        var row := ReadLine(isCsv, Trim(lines[i]), clock(|rows|));
        if row.Some? {
          rows := rows + [row.value];
        }
      }
      assert lines[..|lines|] == lines;
    }

    /** None when there is nothing to save. */
    method SaveTrace() returns (text: Option<string>)
      ensures text == if rows == [] then None else Some(SavedText(rows))
      ensures text.Some? ==> IsSaved(text.value, rows)
    {
      if |rows| == 0 {
        return None;
      }
      SavedTextIsSaved(rows);
      var out := WriteRows();
      return Some(out);
    }

    method WriteRows() returns (out: string)
      ensures out == SavedText(rows)
    {
      out := "";
      for i := 0 to |rows|
        invariant out == SavedText(rows[..i])
      {
        assert rows[..i + 1][..i] == rows[..i];
        out := out + if rows[i].addr == "" then "" else SavedLine(rows[i]);
      }
      assert rows[..|rows|] == rows;
    }

    ghost function View(): Polled
      reads this
    {
      Polled(UntimedAll(rows), seen)
    }

    /** One line of a poll. */
    method AddLine(line: string, now: string) returns (ok: bool)
      modifies this
      ensures ok == Adds(old(View()), line) && View() == PollLine(old(View()), line)
    {
      if line == "" || line in seen {
        return false;
      }
      var row := ParseRow(line);
      if row.None? {
        return false;
      }
      seen := seen + {line};
      RowHasAddress(line);
      UntimedAppend(rows, row.value, now);
      rows := rows + [row.value.(ts := now)];
      return true;
    }

    method PollLiveTrace(content: string, clock: nat -> string) returns (added: nat)
      modifies this
      ensures var fresh' := Fresh(Readable, old(seen), Split(content, '\n'));
              && UntimedAll(rows) == UntimedAll(old(rows)) + LiveRows(fresh')
              && seen == old(seen) + SetOf(fresh')
              && added == |fresh'|
    {
      var lines := Split(content, '\n');
      ghost var before := View();
      added := 0;
      for i := 0 to |lines|
        invariant View() == PollLines(before, lines[..i])
        invariant |View().rows| == |before.rows| + added
      {
        assert lines[..i + 1][..i] == lines[..i];
        var ok := AddLine(Trim(lines[i]), clock(|rows|));
        if ok {
          added := added + 1;
        }
      }
      assert lines[..|lines|] == lines;
      PollLinesAddsFresh(before, lines);
    }
  }

  method ReadLine(isCsv: bool, line: string, now: string) returns (row: Option<Row>)
    ensures row == if isCsv then CsvRow(line)
                   else match ParseRow(line) case None => None case Some(r) => Some(r.(ts := now))
  {
    if isCsv {
      row := ReadCsvLine(line);
    } else {
      row := ParseRow(line);
      if row.Some? {
        row := Some(row.value.(ts := now));
      }
    }
  }

  method ReadCsvLine(line: string) returns (row: Option<Row>)
    ensures row == CsvRow(line)
  {
    if line == "" {
      return None;
    }
    if IsHeaderLine(line) {
      return None;
    }
    var f := SplitCsvLine(line);
    if |f| < 9 {
      return None;
    }
    return Some(Row(Trim(f[0]), NormalizeDirection(f[1]), DecodeTypeName(f[2]), Trim(f[3]), Trim(f[4]), Trim(f[5]),
                    Trim(f[6]), Trim(f[7]), Trim(f[8])));
  }

  // ---------------------------------------------------------------------------------------------
  // CSV: what was exported is what is loaded
  // ---------------------------------------------------------------------------------------------

  function RowsOf(records: seq<Record>): (rows: seq<Row>)
    ensures |rows| == |records|
  {
    seq(|records|, i requires 0 <= i < |records| => RowOf(records[i]))
  }

  lemma HeaderText()
    ensures Trimmed(Header()) && '\n' !in Header()
    ensures "timestamp" <= ToLower(Header()) && |Header()| > 12 && Header()[12] == ','
  {
    ColumnsAreTokens();
    HeaderEnds();
    JoinedHeader(COLUMNS);
  }

  lemma JoinedHeader(columns: seq<string>)
    requires |columns| > 1 && columns[0] == "timestamp_ns"
    requires forall i :: 0 <= i < |columns| ==> Token(columns[i])
    requires !IsSpace(Join(columns)[|Join(columns)| - 1])
    ensures var h := Join(columns);
            && Trimmed(h) && '\n' !in h
            && "timestamp" <= ToLower(h) && |h| > 12 && h[12] == ','
  {
    var h, first := Join(columns), columns[0];
    assert h == first + ([','] + Join(columns[1..]));
    JoinOfTokens(columns);
    assert forall c :: c in h ==> c == ',' || TokenChar(c);
    assert first[..9] == "timestamp";
    assert ToLower(first)[..9] == ToLower(first[..9]) == "timestamp";
    assert ToLower(h)[..9] == ToLower(first)[..9];
  }

  lemma HeaderFacts(h: string)
    requires Trimmed(h) && "timestamp" <= ToLower(h) && |h| > 12 && h[12] == ','
    ensures MarksCsv(h) && LineRow(true, h) == None
  {
    TrimOfTrimmed(h);
  }

  lemma HeaderEnds()
    ensures Header()[|Header()| - 1] == 'd'
  {
    JoinSnoc(COLUMNS[..8], COLUMNS[8]);
    assert COLUMNS == COLUMNS[..8] + [COLUMNS[8]];
    assert COLUMNS[8] == "payload" && "payload"[6] == 'd';
  }

  lemma CollectAppend(lines: seq<string>, line: string, rowAt: (string, nat) -> Option<Row>)
    ensures Collect(lines + [line], rowAt) ==
            var front := Collect(lines, rowAt);
            match rowAt(line, |front|)
            case None => front
            case Some(row) => front + [row]
  {
    assert (lines + [line])[..|lines|] == lines;
  }

  lemma LineRowOfExport(r: Record)
    ensures LineRow(true, Line(r)) == Some(RowOf(r))
  {
    CsvRowOfLine(r);
    TrimOfTrimmed(Line(r));
  }

  /** When each line has a row, the rows are collected in order. */
  lemma {:induction false} CollectInOrder(lines: seq<string>, rows: seq<Row>, rowAt: (string, nat) -> Option<Row>)
    requires |lines| == |rows|
    requires forall i :: 0 <= i < |lines| ==> rowAt(lines[i], i) == Some(rows[i])
    ensures Collect(lines, rowAt) == rows
  {
    if lines != [] {
      var n := |lines| - 1;
      CollectInOrder(lines[..n], rows[..n], rowAt);
      assert rows == rows[..n] + [rows[n]];
    }
  }

  /** A line that has no row may stand anywhere. */
  lemma {:induction false} CollectSkips(line: string, lines: seq<string>, rowAt: (string, nat) -> Option<Row>)
    requires forall k :: rowAt(line, k) == None
    ensures Collect([line] + lines, rowAt) == Collect(lines, rowAt) == Collect(lines + [line], rowAt)
  {
    CollectAppend(lines, line, rowAt);
    if lines == [] {
      CollectAppend([], line, rowAt);
      assert [line] + lines == [] + [line];
    } else {
      var n := |lines| - 1;
      CollectSkips(line, lines[..n], rowAt);
      CollectAppend([line] + lines[..n], lines[n], rowAt);
      assert [line] + lines == [line] + lines[..n] + [lines[n]];
    }
  }

  /** Loading an exported trace gives one row per record, in order; RowRestoresRecord says what each row holds. */
  lemma CsvRoundTrip(records: seq<Record>, clock: nat -> string)
    ensures LoadRows(CsvText(records), clock) == RowsOf(records)
  {
    HeaderText();
    HeaderFacts(Header());
    LoadExported(Header(), records, clock);
  }

  lemma LoadExported(header: string, records: seq<Record>, clock: nat -> string)
    requires Trimmed(header) && '\n' !in header && MarksCsv(header) && LineRow(true, header) == None
    ensures LoadRows(header + ['\n'] + Unlines(Lines(records)), clock) == RowsOf(records)
  {
    var text := header + ['\n'] + Unlines(Lines(records));
    var lines := [header] + (Lines(records) + [""]);
    var rowAt := Reader(true, clock);
    forall i | 0 <= i < |records|
      ensures '\n' !in Lines(records)[i] && rowAt(Lines(records)[i], i) == Some(RowsOf(records)[i])
    {
      CsvRowOfLine(records[i]);
      LineRowOfExport(records[i]);
    }
    SplitFirst(header, '\n', Unlines(Lines(records)));
    SplitFile(Lines(records));
    assert Split(text, '\n') == lines && MarksCsv(lines[0]);
    assert LineRow(true, "") == None;
    CollectInOrder(Lines(records), RowsOf(records), rowAt);
    CollectSkips("", Lines(records), rowAt);
    CollectSkips(header, Lines(records) + [""], rowAt);
  }

  // ---------------------------------------------------------------------------------------------
  // Raw traces: what was saved is what is loaded
  // ---------------------------------------------------------------------------------------------

  /** A saved line and the row it is read as, time aside. */
  predicate ReadsAs(line: string, row: Row) {
    CleanLine(line) && ParseRow(line) == Some(Untimed(row))
  }

  predicate AllPrintable(rows: seq<Row>) {
    forall i :: 0 <= i < |rows| ==> Printable(rows[i])
  }

  /** The line a row stands for is read as that row exactly if the row is printable. */
  lemma PrintableIff(row: Row)
    ensures ReadsAs(PrintRow(row), row) <==> Printable(row)
  {
    ReadsBackIff(row);
  }

  lemma TimeIsNotPrinted(row: Row, now: string)
    ensures SavedLine(row.(ts := now)) == SavedLine(row)
  {
  }

  lemma RowHasAddress(line: string)
    requires ParseRow(line).Some?
    ensures ParseRow(line).value.addr != "" && ParseRow(line).value.ts == ""
  {
    var p := ParseLine(line).value;
    ParseLineIsTheExpression(line, p);
    assert PATTERN[14].Fits(p[14]);
  }

  /** Every row read from a line of a raw trace is printable, whatever its time. */
  lemma ReadRowIsPrintable(line: string, now: string)
    requires ParseRow(line).Some?
    ensures Printable(ParseRow(line).value.(ts := now))
  {
    var p := ParseLine(line).value;
    ParseLineIsTheExpression(line, p);
    MatchedIsPrintable(p);
  }

  lemma {:induction false} RawRowsArePrintable(lines: seq<string>, clock: nat -> string)
    ensures AllPrintable(Collect(lines, Reader(false, clock)))
  {
    if lines != [] {
      var n := |lines| - 1;
      var k := |Collect(lines[..n], Reader(false, clock))|;
      RawRowsArePrintable(lines[..n], clock);
      if LineRow(false, lines[n]).Some? {
        ReadRowIsPrintable(Trim(lines[n]), clock(k));
      }
    }
  }

  function PrintedLines(rows: seq<Row>): (lines: seq<string>)
    ensures |lines| == |rows|
  {
    seq(|rows|, i requires 0 <= i < |rows| => PrintRow(rows[i]))
  }

  /** A row that is saved as the line it stands for. */
  predicate SavesItsLine(row: Row) {
    row.addr != "" && SavedLine(row) == PrintRow(row) + ['\n']
  }

  predicate AllSaveTheirLines(rows: seq<Row>) {
    forall i :: 0 <= i < |rows| ==> SavesItsLine(rows[i])
  }

  lemma {:induction false} SavedTextIs(rows: seq<Row>)
    requires AllSaveTheirLines(rows)
    ensures SavedText(rows) == Unlines(PrintedLines(rows))
  {
    if rows != [] {
      var n := |rows| - 1;
      SavedTextIs(rows[..n]);
      PrintedLinesLast(rows);
      assert SavesItsLine(rows[n]);
      SavedTextLast(rows, PrintRow(rows[n]));
      UnlinesAppend(PrintedLines(rows[..n]), PrintRow(rows[n]));
    }
  }

  lemma {:induction false} PrintedLinesLast(rows: seq<Row>)
    requires rows != []
    ensures PrintedLines(rows) == PrintedLines(rows[..|rows| - 1]) + [PrintRow(rows[|rows| - 1])]
  {
  }

  lemma {:induction false} SavedTextLast(rows: seq<Row>, line: string)
    requires rows != [] && rows[|rows| - 1].addr != "" && SavedLine(rows[|rows| - 1]) == line + ['\n']
    ensures SavedText(rows) == SavedText(rows[..|rows| - 1]) + line + ['\n']
  {
    var front := SavedText(rows[..|rows| - 1]);
    assert front + (line + ['\n']) == front + line + ['\n'];
  }

  lemma {:induction false} SavedTextOfPrintable(rows: seq<Row>)
    requires AllPrintable(rows)
    ensures SavedText(rows) == Unlines(PrintedLines(rows))
  {
    forall i | 0 <= i < |rows| ensures SavesItsLine(rows[i]) {
      assert Printable(rows[i]);
      PrintableSavesItsLine(rows[i]);
    }
    SavedTextIs(rows);
  }

  /** Row i of a reloaded table: the saved row with a new time. */
  function Restamped(rows: seq<Row>, clock: nat -> string): (r: seq<Row>)
    ensures |r| == |rows|
  {
    seq(|rows|, i requires 0 <= i < |rows| => rows[i].(ts := clock(i)))
  }

  lemma LineRowOfSaved(line: string, row: Row, now: string)
    requires ReadsAs(line, row)
    ensures Trim(line) == line && !MarksCsv(line)
    ensures LineRow(false, line) == Some(Untimed(row)) && Untimed(row).(ts := now) == row.(ts := now)
  {
    TrimOfTrimmed(line);
  }

  /** A file whose first line is blank gives no rows, whatever follows. */
  lemma BlankFirstLineLoadsNothing(blank: string, rest: string, clock: nat -> string)
    requires Blank(blank) && '\n' !in blank
    ensures LoadRows(blank + ['\n'] + rest, clock) == []
  {
    SplitFirst(blank, '\n', rest);
    TrimPadded(blank, "", "");
    assert blank + "" + "" == blank;
  }

  /** A file of lines that are read as rows is loaded as those rows. */
  lemma LoadReadable(lines: seq<string>, rows: seq<Row>, clock: nat -> string)
    requires |lines| == |rows| > 0 && forall i :: 0 <= i < |rows| ==> ReadsAs(lines[i], rows[i])
    ensures LoadRows(Unlines(lines), clock) == Restamped(rows, clock)
  {
    forall i | 0 <= i < |rows|
      ensures Trim(lines[i]) == lines[i] != "" && !MarksCsv(lines[i]) && '\n' !in lines[i]
    {
      LineRowOfSaved(lines[i], rows[i], clock(i));
    }
    SplitFile(lines);
    assert (lines + [""])[0] == lines[0];
    assert !IsCsv(lines + [""]);
    CollectReadable(lines, rows, clock);
  }

  lemma CollectReadable(lines: seq<string>, rows: seq<Row>, clock: nat -> string)
    requires |lines| == |rows| && forall i :: 0 <= i < |rows| ==> ReadsAs(lines[i], rows[i])
    ensures Collect(lines + [""], Reader(false, clock)) == Restamped(rows, clock)
  {
    forall i | 0 <= i < |rows| ensures Reader(false, clock)(lines[i], i) == Some(Restamped(rows, clock)[i]) {
      LineRowOfSaved(lines[i], rows[i], clock(i));
    }
    CollectInOrder(lines, Restamped(rows, clock), Reader(false, clock));
    BlankHasNoRow();
    CollectSkips("", lines, Reader(false, clock));
  }

  lemma BlankHasNoRow()
    ensures LineRow(false, "") == None
  {
    assert Trim("") == "";
  }

  /** Saving a non-empty table of printable rows and loading the file gives the table back, with new times. */
  lemma {:induction false} SaveThenLoad(rows: seq<Row>, clock: nat -> string)
    requires rows != [] && AllPrintable(rows)
    ensures LoadRows(SavedText(rows), clock) == Restamped(rows, clock)
  {
    forall i | 0 <= i < |rows| ensures ReadsAs(PrintedLines(rows)[i], rows[i]) {
      assert Printable(rows[i]);
      PrintableIff(rows[i]);
    }
    SavedTextOfPrintable(rows);
    LoadReadable(PrintedLines(rows), rows, clock);
  }

  lemma {:induction false} CsvIgnoresClock(lines: seq<string>, clock: nat -> string, clock': nat -> string)
    ensures Collect(lines, Reader(true, clock)) == Collect(lines, Reader(true, clock'))
  {
    if lines != [] {
      CsvIgnoresClock(lines[..|lines| - 1], clock, clock');
    }
  }

  /** A text that restamps a table at two times is a raw trace, since the rows of a CSV file have times of their own. */
  lemma {:induction false} RestampedIsRaw(text: string, rows: seq<Row>, clock: nat -> string, clock': nat -> string)
    requires rows != [] && clock(0) != clock'(0)
    ensures LoadRows(text, clock) == Restamped(rows, clock) && LoadRows(text, clock') == Restamped(rows, clock') ==>
              !IsCsv(Split(text, '\n')) && LoadRows(text, clock) == Collect(Split(text, '\n'), Reader(false, clock))
  {
    CsvIgnoresClock(Split(text, '\n'), clock, clock');
    assert Restamped(rows, clock)[0].ts != Restamped(rows, clock')[0].ts;
  }

  lemma {:induction false} RestampedArePrintable(rows: seq<Row>, clock: nat -> string)
    requires AllPrintable(Restamped(rows, clock))
    ensures AllPrintable(rows)
  {
    forall i | 0 <= i < |rows| ensures Printable(rows[i]) {
      assert Printable(Restamped(rows, clock)[i]);
    }
  }

  predicate Survives(rows: seq<Row>, clock: nat -> string) {
    LoadRows(SavedText(rows), clock) == Restamped(rows, clock)
  }

  /** A table survives being saved and loaded, at any time, exactly if all its rows are printable. */
  lemma {:induction false} SaveThenLoadIff(rows: seq<Row>)
    requires rows != []
    ensures (forall clock: nat -> string :: Survives(rows, clock)) <==> AllPrintable(rows)
  {
    if AllPrintable(rows) {
      forall clock: nat -> string ensures Survives(rows, clock) {
        SaveThenLoad(rows, clock);
      }
    }
    if forall clock: nat -> string :: Survives(rows, clock) {
      SurvivorsArePrintable(rows, _ => "", _ => "1");
    }
  }

  lemma {:induction false} SurvivorsArePrintable(rows: seq<Row>, clock: nat -> string, clock': nat -> string)
    requires rows != [] && clock(0) != clock'(0)
    ensures Survives(rows, clock) && Survives(rows, clock') ==> AllPrintable(rows)
  {
    RestampedIsRaw(SavedText(rows), rows, clock, clock');
    RawRowsArePrintable(Split(SavedText(rows), '\n'), clock);
    if Survives(rows, clock) && Survives(rows, clock') {
      RestampedArePrintable(rows, clock);
    }
  }

  /** Load, save and load again: the second table is the first with new times, so the second file is the first. */
  lemma LoadSaveIdempotent(text: string, clock: nat -> string, clock': nat -> string)
    requires !IsCsv(Split(text, '\n')) && LoadRows(text, clock) != []
    ensures var rows := LoadRows(text, clock);
            && LoadRows(SavedText(rows), clock') == Restamped(rows, clock')
            && SavedText(Restamped(rows, clock')) == SavedText(rows)
  {
    var rows := LoadRows(text, clock);
    RawRowsArePrintable(Split(text, '\n'), clock);
    SaveThenLoad(rows, clock');
    TimesAreNotSaved(rows, clock');
  }

  lemma {:induction false} TimesAreNotSaved(rows: seq<Row>, clock: nat -> string)
    ensures SavedText(Restamped(rows, clock)) == SavedText(rows)
  {
    if rows != [] {
      var n := |rows| - 1;
      TimesAreNotSaved(rows[..n], clock);
      assert Restamped(rows, clock)[..n] == Restamped(rows[..n], clock);
      TimeIsNotPrinted(rows[n], clock(n));
    }
  }

  // ---------------------------------------------------------------------------------------------
  // Saving a loaded CSV trace
  // ---------------------------------------------------------------------------------------------

  lemma NumeralKeepsOut(s: string, base: Base, c: char)
    requires AllDigits(s, base) && DigitOf(c) == 16
    ensures c !in s
  {
  }

  /** A line that can be neither a trace line nor a line of a CSV file. */
  predicate Unmarked(line: string) {
    ':' !in line && ',' !in line && '\n' !in line
  }

  /** The saved line of an exported record has no colon, so it is no trace line; nor does it look like CSV. */
  lemma SavedRecordLine(r: Record)
    ensures Unmarked(PrintRow(RowOf(r))) && ParseRow(PrintRow(RowOf(r))) == None
  {
    SavedRecordKeepsOut(r, ':');
    SavedRecordKeepsOut(r, ',');
    SavedRecordKeepsOut(r, '\n');
    NoColonNoRow(PrintRow(RowOf(r)));
  }

  lemma SavedRecordKeepsOut(r: Record, c: char)
    requires c in {':', ',', '\n'}
    ensures c !in PrintRow(RowOf(r))
  {
    NumeralDigits(r.requesterId, Decimal);
    NumeralDigits(r.completerId, Decimal);
    NumeralDigits(r.addr, Hex);
    HexIsToken(Visible(r.payload));
    NumeralKeepsOut(Dec(r.requesterId), Decimal, c);
    NumeralKeepsOut(Dec(r.completerId), Decimal, c);
    NumeralKeepsOut(Numeral(r.addr, Hex), Hex, c);
    NumeralKeepsOut(HexOf(Visible(r.payload)), Hex, c);
    PrintKeepsOut(RowOf(r), c);
  }

  lemma PrintKeepsOut(row: Row, c: char)
    requires c in {':', ',', '\n'}
    requires c !in row.requester && c !in row.completer && c !in row.addr && c !in row.payload
    ensures c !in PrintRow(row)
  {
    HeadKeepsOut(OpOf(row), row.requester, c);
    TailKeepsOut(row.addr, ArrowOf(OpOf(row)), row.payload, c);
  }

  lemma HeadKeepsOut(op: string, requester: string, c: char)
    requires c in {':', ',', '\n'} && op in {"read", "write"} && c !in requester
    ensures c !in PrintHead(op, requester)
  {
    assert c !in "pci_cfg_" && c !in op;
  }

  lemma TailKeepsOut(addr: string, arrow: string, payload: string, c: char)
    requires c in {':', ',', '\n'} && arrow in {"<-", "->"} && c !in addr && c !in payload
    ensures c !in PrintTail(addr, arrow, payload)
  {
    assert c !in arrow;
  }

  /** No row of an exported trace is printable. */
  lemma ExportedIsNotPrintable(r: Record)
    ensures !Printable(RowOf(r))
  {
    SavedRecordLine(r);
    ReadsBackIff(RowOf(r));
  }

  lemma RecordSavesItsLine(r: Record)
    ensures SavesItsLine(RowOf(r))
  {
    NumeralDigits(r.requesterId, Decimal);
    NumeralDigits(r.completerId, Decimal);
    NumeralDigits(r.addr, Hex);
    NumeralKeepsOut(Dec(r.requesterId), Decimal, '%');
    NumeralKeepsOut(Dec(r.completerId), Decimal, '%');
    NumeralKeepsOut(Numeral(r.addr, Hex), Hex, '%');
    SavedLineIsPrinted(RowOf(r));
  }

  predicate AllUnmarked(lines: seq<string>) {
    forall i :: 0 <= i < |lines| ==> Unmarked(lines[i])
  }

  lemma {:induction false} CollectUnreadable(lines: seq<string>, clock: nat -> string)
    requires AllUnmarked(lines)
    ensures Collect(lines, Reader(false, clock)) == []
  {
    if lines != [] {
      CollectUnreadable(lines[..|lines| - 1], clock);
      UnreadableLine(lines[|lines| - 1]);
    }
  }

  lemma LoadUnreadable(lines: seq<string>, clock: nat -> string)
    requires AllUnmarked(lines)
    ensures LoadRows(Unlines(lines), clock) == []
  {
    var all := lines + [""];
    SplitFile(lines);
    CollectUnreadable(all, clock);
    UnreadableIsRaw(all);
    LoadsNothing(Unlines(lines), all, false, clock);
  }

  lemma UnreadableIsRaw(lines: seq<string>)
    requires AllUnmarked(lines)
    ensures !IsCsv(lines)
  {
    forall i | 0 <= i < |lines| ensures !MarksCsv(lines[i]) {
      UnreadableLine(lines[i]);
    }
  }

  lemma LoadsNothing(text: string, lines: seq<string>, csv: bool, clock: nat -> string)
    requires Split(text, '\n') == lines && IsCsv(lines) == csv && Collect(lines, Reader(csv, clock)) == []
    ensures LoadRows(text, clock) == []
  {
  }

  lemma UnreadableLine(line: string)
    requires Unmarked(line)
    ensures !MarksCsv(line) && LineRow(false, line) == None
  {
    TrimKeepsOut(line, ',');
    TrimKeepsOut(line, ':');
    NoColonNoRow(Trim(line));
  }

  /** A loaded CSV trace does not survive being saved: loading the saved file gives an empty table. */
  lemma SavedCsvIsLost(records: seq<Record>, clock: nat -> string)
    ensures LoadRows(SavedText(RowsOf(records)), clock) == []
  {
    var rows := RowsOf(records);
    forall i | 0 <= i < |rows| ensures Unmarked(PrintedLines(rows)[i]) && SavesItsLine(rows[i]) {
      SavedRecordLine(records[i]);
      RecordSavesItsLine(records[i]);
    }
    SavedTextIs(rows);
    LoadUnreadable(PrintedLines(rows), clock);
  }

  // ---------------------------------------------------------------------------------------------
  // One row can spoil a table
  // ---------------------------------------------------------------------------------------------

  /** A saved line with fewer than nine fields, as a CSV file is read. */
  predicate IsShort(line: string) {
    Trimmed(line) && '\n' !in line && |Scan(line, "", false)| < 9
  }

  predicate AllShort(lines: seq<string>) {
    forall i :: 0 <= i < |lines| ==> IsShort(lines[i])
  }

  lemma ShortHasNoRow(line: string)
    requires IsShort(line)
    ensures LineRow(true, line) == None
  {
    TrimOfTrimmed(line);
  }

  lemma {:induction false} CollectShort(lines: seq<string>, clock: nat -> string)
    requires AllShort(lines)
    ensures Collect(lines, Reader(true, clock)) == []
  {
    if lines != [] {
      CollectShort(lines[..|lines| - 1], clock);
      ShortHasNoRow(lines[|lines| - 1]);
    }
  }

  /** If one line of a file looks like CSV, all are read as CSV, and short ones give no rows. */
  lemma LoadShort(lines: seq<string>, k: nat, clock: nat -> string)
    requires k < |lines| && MarksCsv(lines[k]) && AllShort(lines)
    ensures LoadRows(Unlines(lines), clock) == []
  {
    var all := lines + [""];
    assert forall i :: 0 <= i < |lines| ==> IsShort(lines[i]);
    SplitFile(lines);
    assert all[k] == lines[k];
    CollectShort(all, clock);
    LoadsNothing(Unlines(lines), all, true, clock);
  }

  lemma {:induction false} ShortTableIsLost(rows: seq<Row>, k: nat, clock: nat -> string)
    requires k < |rows| && MarksCsv(PrintRow(rows[k]))
    requires AllSaveTheirLines(rows) && forall i :: 0 <= i < |rows| ==> IsShort(PrintRow(rows[i]))
    ensures LoadRows(SavedText(rows), clock) == []
  {
    SavedTextIs(rows);
    LoadShort(PrintedLines(rows), k, clock);
  }

  /** A table of a printable row and one that looks like CSV when it is saved: saving and loading loses both. */
  lemma MixedTableIsLost(p: Row, q: Row, clock: nat -> string)
    requires p == Row("1", "RX", "CfgRd", "d", "00:00.0", "0", "4", "0x0", "0x1")
    requires q == Row("1", "TX", "CfgWr", "timestamp,x", "b", "0", "4", "0x0", "0x1")
    ensures Printable(p) && LoadRows(SavedText([p, q]), clock) == []
  {
    ReadIsPrintable(p);
    PrintableIsShort(p);
    SavedLineIsPrinted(q);
    SpoilingLine(q);
    TwoShortRows(p, q, clock);
  }

  lemma ReadIsPrintable(p: Row)
    requires p == Row("1", "RX", "CfgRd", "d", "00:00.0", "0", "4", "0x0", "0x1")
    ensures Printable(p)
  {
    assert "0x0"[..2] == "0x" && "0x1"[..2] == "0x";
  }

  lemma PrintableIsShort(p: Row)
    requires Printable(p)
    ensures SavesItsLine(p) && IsShort(PrintRow(p))
  {
    PrintableSavesItsLine(p);
    ReadsBackIff(p);
    NoCommaIsShort(PrintRow(p));
  }

  lemma TwoShortRows(p: Row, q: Row, clock: nat -> string)
    requires SavesItsLine(p) && SavesItsLine(q) && IsShort(PrintRow(p)) && IsShort(PrintRow(q)) && MarksCsv(PrintRow(q))
    ensures LoadRows(SavedText([p, q]), clock) == []
  {
    ShortTableIsLost([p, q], 1, clock);
  }

  lemma SpoilingLine(q: Row)
    requires q.kind == "CfgWr" && q.requester == "timestamp,x" && q.completer == "b"
    requires q.addr == "0x0" && q.payload == "0x1"
    ensures IsShort(PrintRow(q)) && MarksCsv(PrintRow(q))
  {
    var left, right := "pci_cfg_write timestamp", "x b @0x0 <- 0x1";
    SpoilingText();
    CommaInRequester(q, "timestamp", "x");
    SpoilingHalves(left, right);
    OneCommaIsShort(left, right);
    CommaAndTimestamp(left, right, 14);
  }

  lemma SpoilingText()
    ensures "timestamp,x" == "timestamp" + [','] + "x"
    ensures "pci_cfg_" + "write" + " " + "timestamp" == "pci_cfg_write timestamp"
    ensures "x" + " " + "b" + PrintTail("0x0", "<-", "0x1") == "x b @0x0 <- 0x1"
  {
    assert PrintTail("0x0", "<-", "0x1") == " @0x0 <- 0x1";
  }

  lemma CommaInRequester(q: Row, a: string, b: string)
    requires q.requester == a + [','] + b
    ensures PrintRow(q) == ("pci_cfg_" + OpOf(q) + " " + a) +
                           ([','] + (b + " " + q.completer + PrintTail(q.addr, ArrowOf(OpOf(q)), q.payload)))
  {
  }

  lemma SpoilingHalves(left: string, right: string)
    requires left == "pci_cfg_write timestamp" && right == "x b @0x0 <- 0x1"
    ensures Plain(left) && Plain(right) && '\n' !in left && '\n' !in right
    ensures !IsSpace(left[0]) && !IsSpace(right[|right| - 1]) && |left| == 23 && ToLower(left)[14..] == "timestamp"
  {
  }

  lemma NoCommaIsShort(line: string)
    requires CleanLine(line)
    ensures IsShort(line)
  {
    NoCommaOneField(line, "", false);
  }

  lemma {:induction false} NoCommaOneField(s: string, current: string, inQuotes: bool)
    requires ',' !in s
    ensures |Scan(s, current, inQuotes)| == 1
    decreases |s|
  {
    if s != "" {
      if s[0] == '"' && inQuotes && |s| > 1 && s[1] == '"' {
        NoCommaOneField(s[2..], current + ['"'], inQuotes);
      } else if s[0] == '"' {
        NoCommaOneField(s[1..], current, !inQuotes);
      } else {
        NoCommaOneField(s[1..], current + [s[0]], inQuotes);
      }
    }
  }

  lemma OneCommaIsShort(left: string, right: string)
    requires Plain(left) && Plain(right) && left != "" && right != ""
    requires !IsSpace(left[0]) && !IsSpace(right[|right| - 1]) && '\n' !in left && '\n' !in right
    ensures IsShort(left + ([','] + right))
  {
    SplitInvertsJoin([left, right]);
    assert Join([left, right]) == left + [','] + Join([right]) == left + ([','] + right);
  }
  lemma CommaAndTimestamp(left: string, right: string, k: nat)
    requires Trimmed(left + ([','] + right)) && k <= |left| && ToLower(left)[k..] == "timestamp"
    ensures MarksCsv(left + ([','] + right))
  {
    var line := left + ([','] + right);
    TrimOfTrimmed(line);
    assert line[|left|] == ',';
    assert "timestamp" <= ToLower(line)[k..] by {
      assert ToLower(line)[k..][..9] == ToLower(left)[k..];
    }
    ContainsAt(ToLower(line), "timestamp", k);
  }

  /** Such a row comes from an ordinary line of a CSV file, with a quoted field. */
  lemma {:induction false} SpoilingRowIsLoaded(fields: seq<Written>, q: Row)
    requires fields == [Bare("1"), Bare("TX"), Bare("5"), Quoted("timestamp,x"), Bare("b"), Bare("0"), Bare("4"),
                        Bare("0x0"), Bare("0x1")]
    requires q == Row("1", "TX", "CfgWr", "timestamp,x", "b", "0", "4", "0x0", "0x1")
    ensures CsvRow(Join(Forms(fields))) == Some(q)
  {
    SpoilingFields(fields);
    SplitInvertsQuoting(fields);
    JoinStarts(Forms(fields));
    StartsWithOne(Join(Forms(fields)));
    CsvRowIs(Join(Forms(fields)), Texts(fields));
    SpoilingTexts(Texts(fields));
  }

  lemma SpoilingFields(fields: seq<Written>)
    requires fields == [Bare("1"), Bare("TX"), Bare("5"), Quoted("timestamp,x"), Bare("b"), Bare("0"), Bare("4"),
                        Bare("0x0"), Bare("0x1")]
    ensures forall i :: 0 <= i < |fields| ==> fields[i].Valid()
    ensures Forms(fields)[0] == "1"
    ensures Texts(fields) == ["1", "TX", "5", "timestamp,x", "b", "0", "4", "0x0", "0x1"]
  {
  }

  lemma SpoilingTexts(f: seq<string>)
    requires f == ["1", "TX", "5", "timestamp,x", "b", "0", "4", "0x0", "0x1"]
    ensures forall i :: 0 <= i < 9 ==> Trim(f[i]) == f[i]
    ensures NormalizeDirection(f[1]) == "TX" && DecodeTypeName(f[2]) == "CfgWr"
  {
    forall i | 0 <= i < 9 ensures Trim(f[i]) == f[i] {
      TrimOfTrimmed(f[i]);
    }
    assert ToUpper("TX") == "TX";
  }

  /** The columns of a CSV line with any quoting, from the first to the ninth; more of them are ignored. */
  lemma {:induction false} ColumnsAreRead(fields: seq<Written>)
    requires |fields| >= 9 && forall i :: 0 <= i < |fields| ==> fields[i].Valid()
    requires !IsHeaderLine(Join(Forms(fields))) && Join(Forms(fields)) != ""
    ensures CsvRow(Join(Forms(fields))) ==
            Some(Row(Trim(fields[0].text), NormalizeDirection(fields[1].text), DecodeTypeName(fields[2].text),
                     Trim(fields[3].text), Trim(fields[4].text), Trim(fields[5].text), Trim(fields[6].text),
                     Trim(fields[7].text), Trim(fields[8].text)))
  {
    SplitInvertsQuoting(fields);
    var t := Texts(fields);
    assert t[0] == fields[0].text && t[1] == fields[1].text && t[2] == fields[2].text && t[3] == fields[3].text;
    assert t[4] == fields[4].text && t[5] == fields[5].text && t[6] == fields[6].text && t[7] == fields[7].text;
  }

  lemma JoinStarts(fields: seq<string>)
    requires fields != [] && fields[0] != ""
    ensures Join(fields) != "" && Join(fields)[0] == fields[0][0]
  {
  }

  lemma StartsWithOne(line: string)
    requires line != "" && line[0] == '1'
    ensures !IsHeaderLine(line)
  {
    assert ToLower(line)[0] == '1' != "timestamp"[0];
  }

  lemma CsvRowIs(line: string, f: seq<string>)
    requires line != "" && !IsHeaderLine(line) && Scan(line, "", false) == f && |f| == 9
    ensures CsvRow(line) ==
            Some(Row(Trim(f[0]), NormalizeDirection(f[1]), DecodeTypeName(f[2]), Trim(f[3]), Trim(f[4]), Trim(f[5]),
                     Trim(f[6]), Trim(f[7]), Trim(f[8])))
  {
  }

  // ---------------------------------------------------------------------------------------------
  // The live trace over many polls
  // ---------------------------------------------------------------------------------------------

  lemma LiveRowsAppend(a: seq<string>, b: seq<string>)
    ensures LiveRows(a + b) == LiveRows(a) + LiveRows(b) && SetOf(a + b) == SetOf(a) + SetOf(b)
  {
  }

  /** A new table that polls a file once for each of its contents over time. */
  method Watch(contents: seq<string>, clock: nat -> string) returns (table: Table)
    ensures fresh(table)
    ensures UntimedAll(table.rows) == LiveRows(PollAll(Readable, {}, contents))
    ensures table.seen == SetOf(PollAll(Readable, {}, contents))
  {
    table := new Table();
    for i := 0 to |contents|
      invariant UntimedAll(table.rows) == LiveRows(PollAll(Readable, {}, contents[..i]))
      invariant table.seen == SetOf(PollAll(Readable, {}, contents[..i]))
    {
      ghost var front := PollAll(Readable, {}, contents[..i]);
      ghost var more := Fresh(Readable, SetOf(front), Split(contents[i], '\n'));
      PollAllAppend(Readable, {}, contents[..i], contents[i]);
      assert contents[..i + 1] == contents[..i] + [contents[i]];
      assert {} + SetOf(front) == SetOf(front);
      LiveRowsAppend(front, more);
      var added := table.PollLiveTrace(contents[i], clock);
    }
    assert contents[..|contents|] == contents;
  }

  /** Polling a file while it grows by whole lines, and polling it once in the end, differ in times only. */
  method WatchGrowing(files: seq<seq<string>>, clock: nat -> string) returns (polled: Table, once: Table)
    requires files != [] && GrowsByLines(files)
    ensures UntimedAll(polled.rows) == UntimedAll(once.rows) == LiveRows(Fresh(Readable, {}, files[|files| - 1]))
    ensures polled.seen == once.seen
  {
    polled := Watch(Contents(files), clock);
    once := Watch([Unlines(files[|files| - 1])], clock);
    PollsEqualOnePoll(Readable, files);
  }

  /** A line that is cut inside its value is a line of its own: polled before it is complete, it leaves a row. */
  lemma CutValueAddsRow(row: Row, more: string)
    requires Printable(row) && more != "" && AllIn(HexDigit, more)
    ensures var line, longer := PrintRow(row), PrintRow(row.(payload := row.payload + more));
            && line < longer && CanPoll(Readable, line) && CanPoll(Readable, longer)
            && PollAll(Readable, {}, [line, longer]) == [line, longer]
            && PollAll(Readable, {}, [longer]) == [longer]
  {
    var full := row.(payload := row.payload + more);
    LongerPayload(row, more);
    PrintableCanPoll(row);
    PrintableCanPoll(full);
    PartialLineAddsRow(Readable, PrintRow(row), PrintRow(full));
  }

  lemma LongerPayload(row: Row, more: string)
    requires Printable(row) && AllIn(HexDigit, more)
    ensures Printable(row.(payload := row.payload + more))
    ensures PrintRow(row.(payload := row.payload + more)) == PrintRow(row) + more
  {
    var longer := row.payload + more;
    assert longer[..2] == row.payload[..2] && longer[2..] == row.payload[2..] + more;
  }

  lemma PrintableCanPoll(row: Row)
    requires Printable(row)
    ensures CanPoll(Readable, PrintRow(row))
  {
    ReadsBackIff(row);
  }

  /** There are such rows: a read that returns 0x1, or 0x12 once the line is complete. */
  lemma CutValueExample(row: Row)
    requires row == Row("", "RX", "CfgRd", "d", "00:00.0", "0", "4", "0x0", "0x1")
    ensures Printable(row) && CanPoll(Readable, PrintRow(row)) && CanPoll(Readable, PrintRow(row.(payload := "0x12")))
    ensures PrintRow(row) < PrintRow(row.(payload := "0x12"))
  {
    assert row.payload + "2" == "0x12";
    CutValueAddsRow(row, "2");
  }
}
