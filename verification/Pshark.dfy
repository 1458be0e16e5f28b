/** The command-line summary: a strtok reader over the lines of an exported trace. */
module Pshark {
  import opened PcieTypes
  import opened Text
  import opened CsvExport
  import opened CsvReader

  const MAX_LINE := 4096

  /** fgets: characters up to and with the first line end, at most one less than the buffer. */
  function Chunk(text: string): (line: string)
    requires text != ""
    ensures line != "" && line <= text
  {
    var n := LineEnd(text);
    text[..Min(n, MAX_LINE - 1)]
  }

  /** The length of the first line, its line end included. */
  function LineEnd(text: string): (n: nat)
    ensures n <= |text| && (text != "" ==> n > 0)
  {
    if text == "" then 0 else if text[0] == '\n' then 1 else 1 + LineEnd(text[1..])
  }

  /** A chunk goes up to the first line end, but has at most 4095 characters. */
  lemma {:induction false} ChunkIs(text: string, n: nat)
    requires 0 < n <= |text| && n <= 4095 && '\n' !in text[..n - 1]
    requires n == 4095 || n == |text| || text[n - 1] == '\n'
    ensures Chunk(text) == text[..n]
  {
    LineEndFrom(text, n);
  }

  lemma {:induction false} LineEndFrom(text: string, n: nat)
    requires 0 < n <= |text| && '\n' !in text[..n - 1]
    ensures LineEnd(text) >= n
    ensures text[n - 1] == '\n' || n == |text| ==> LineEnd(text) == n
  {
    if n > 1 {
      assert text[0] in text[..n - 1];
      assert text[1..][..n - 2] == text[..n - 1][1..];
      LineEndFrom(text[1..], n - 1);
    }
  }

  /** Where strtok stands: the token it returned, if any, and what is left. */
  datatype Taken = Taken(text: Option<string>, rest: string)

  /** strtok_r with one delimiter: skips delimiters, then takes everything up to the next one. */
  function Strtok(s: string, delimiter: char): Taken {
    if s == "" then Taken(None, "")
    else if s[0] == delimiter then Strtok(s[1..], delimiter)
    else
      var n := TokenEnd(s, delimiter);
      Taken(Some(s[..n]), if n < |s| then s[n + 1..] else "")
  }

  function TokenEnd(s: string, delimiter: char): (n: nat)
    ensures n <= |s|
  {
    if s == "" || s[0] == delimiter then 0 else 1 + TokenEnd(s[1..], delimiter)
  }

  /** The counters of the summary. */
  datatype Summary = Summary(total: nat, tx: nat, rx: nat, cfgRead: nat, cfgWrite: nat, memRead: nat, memWrite: nat,
                             cpl: nat)
  {
    /** One more line, with the direction and type it names. */
    function Count(direction: string, kind: string): Summary {
      var s := this.(total := total + 1);
      var s := if direction == "TX" then s.(tx := tx + 1) else if direction == "RX" then s.(rx := rx + 1) else s;
      if kind == "5" then s.(cfgWrite := cfgWrite + 1)
      else if kind == "4" then s.(cfgRead := cfgRead + 1)
      else if kind == "1" then s.(memWrite := memWrite + 1)
      else if kind == "0" then s.(memRead := memRead + 1)
      else if kind == "10" then s.(cpl := cpl + 1)
      else s
    }
  }

  const NOTHING := Summary(0, 0, 0, 0, 0, 0, 0, 0)

  /** The direction and the type of a line: its second and third token. */
  datatype Named = Named(direction: Option<string>, kind: Option<string>)

  function NamesOf(line: string): Named {
    var timestamp := Strtok(line, ',');
    var direction := Strtok(timestamp.rest, ',');
    var kind := Strtok(direction.rest, ',');
    Named(direction.text, kind.text)
  }

  /** The counters after one more line, which a NUL ends for strtok; a line with fewer than three tokens is skipped. */
  function CountLine(acc: Summary, line: string): Summary {
    var n := NamesOf(CString(line));
    if n.direction.None? || n.kind.None? then acc else acc.Count(n.direction.value, n.kind.value)
  }

  function Summarize(acc: Summary, text: string): Summary
    decreases |text|
  {
    if text == "" then acc
    else
      var line := Chunk(text);
      Summarize(CountLine(acc, line), text[|line|..])
  }

  method PrintSummary(file: string) returns (s: Summary)
    ensures s == Summarize(NOTHING, file)
  {
    s := NOTHING;
    ghost var total := Summarize(NOTHING, file);
    var at := 0;
    while at < |file|
      invariant 0 <= at <= |file|
      invariant Summarize(s, file[at..]) == total
    {
      var n;
      s, n := ReadNext(s, file[at..]);
      assert file[at..][n..] == file[at + n..];
      at := at + n;
    }
  }

  /** One turn of the loop: reads a line, of n characters, and counts it. */
  method ReadNext(acc: Summary, text: string) returns (s: Summary, n: nat)
    requires text != ""
    ensures 0 < n <= |text| && Summarize(s, text[n..]) == Summarize(acc, text)
  {
    var line := Chunk(text);
    s := ReadLine(acc, line);
    n := |line|;
  }

  method ReadLine(acc: Summary, line: string) returns (s: Summary)
    ensures s == CountLine(acc, line)
  {
    var timestamp := Strtok(CString(line), ',');
    var direction := Strtok(timestamp.rest, ',');
    var kind := Strtok(direction.rest, ',');
    if direction.text.None? || kind.text.None? {
      return acc;
    }
    return acc.Count(direction.text.value, kind.text.value);
  }

  // ---------------------------------------------------------------------------------------------
  // strtok on a joined line
  // ---------------------------------------------------------------------------------------------

  lemma {:induction false} TokenEndOf(a: string, delimiter: char, rest: string)
    requires delimiter !in a
    ensures TokenEnd(a + [delimiter] + rest, delimiter) == |a|
  {
    if a != "" {
      assert (a + [delimiter] + rest)[1..] == a[1..] + [delimiter] + rest;
      TokenEndOf(a[1..], delimiter, rest);
    }
  }

  lemma StrtokOf(a: string, delimiter: char, rest: string)
    requires a != "" && delimiter !in a
    ensures Strtok(a + [delimiter] + rest, delimiter) == Taken(Some(a), rest)
  {
    var s := a + [delimiter] + rest;
    TokenEndOf(a, delimiter, rest);
    assert s[0] == a[0] && s[..|a|] == a && s[|a| + 1..] == rest;
  }

  /** The first token of a joined line with its line end is its first field, if that is not empty. */
  lemma StrtokJoined(f: seq<string>, i: nat, end: string)
    requires i + 1 < |f| && f[i] != "" && ',' !in f[i]
    ensures Strtok(Join(f[i..]) + end, ',') == Taken(Some(f[i]), Join(f[i + 1..]) + end)
  {
    assert f[i..][1..] == f[i + 1..];
    assert Join(f[i..]) + end == f[i] + [','] + (Join(f[i + 1..]) + end);
    StrtokOf(f[i], ',', Join(f[i + 1..]) + end);
  }

  /** On a line of at least four fields whose first three are not empty, strtok finds the second and third field. */
  lemma NamesOfJoined(f: seq<string>)
    requires |f| > 3 && forall i :: 0 <= i < 3 ==> f[i] != "" && ',' !in f[i]
    ensures NamesOf(Join(f) + ['\n']) == Named(Some(f[1]), Some(f[2]))
  {
    var end := ['\n'];
    assert f[0..] == f;
    StrtokJoined(f, 0, end);
    StrtokJoined(f, 1, end);
    StrtokJoined(f, 2, end);
    ThreeTokens(Join(f) + end, f[0], Join(f[1..]) + end, f[1], Join(f[2..]) + end, f[2], Join(f[3..]) + end);
  }

  lemma {:induction false} LineEndOf(line: string, rest: string)
    requires '\n' !in line
    ensures LineEnd(line + ['\n'] + rest) == |line| + 1
  {
    if line != "" {
      assert (line + ['\n'] + rest)[1..] == line[1..] + ['\n'] + rest;
      LineEndOf(line[1..], rest);
    }
  }

  lemma SummarizeLine(acc: Summary, line: string, rest: string)
    requires '\n' !in line && |line| + 1 < MAX_LINE
    ensures Summarize(acc, line + ['\n'] + rest) == Summarize(CountLine(acc, line + ['\n']), rest)
  {
    var text := line + ['\n'] + rest;
    LineEndOf(line, rest);
    assert text[..|line| + 1] == line + ['\n'] && text[|line| + 1..] == rest;
  }

  /** A line without a NUL is counted under the names in it. */
  lemma CountNames(acc: Summary, line: string, direction: string, kind: string)
    requires '\0' !in line && NamesOf(line + ['\n']) == Named(Some(direction), Some(kind))
    ensures CountLine(acc, line + ['\n']) == acc.Count(direction, kind)
  {
    assert '\0' !in line + ['\n'];
    CStringOfText(line + ['\n']);
  }

  lemma JoinedIsLine(f: seq<string>)
    requires f != [] && forall i :: 0 <= i < |f| ==> Token(f[i])
    ensures '\n' !in Join(f) && '\0' !in Join(f)
  {
    JoinOfTokens(f);
  }

  // ---------------------------------------------------------------------------------------------
  // Lines that are skipped
  // ---------------------------------------------------------------------------------------------

  /** The number of maximal stretches of a text without a comma; `inside` says that one has begun before. */
  function Stretches(s: string, inside: bool): nat {
    if s == "" then 0
    else if s[0] == ',' then Stretches(s[1..], false)
    else (if inside then 0 else 1) + Stretches(s[1..], true)
  }

  lemma {:induction false} StretchEnds(s: string)
    ensures var n := TokenEnd(s, ','); Stretches(s, true) == if n < |s| then Stretches(s[n + 1..], false) else 0
  {
    if s != "" && s[0] != ',' {
      StretchEnds(s[1..]);
      var n := TokenEnd(s[1..], ',');
      assert n < |s[1..]| ==> s[1..][n + 1..] == s[n + 2..];
    }
  }

  /** Every token strtok takes is one stretch. */
  lemma {:induction false} StrtokTakesOne(s: string)
    ensures var t := Strtok(s, ',');
            && (t.text.Some? <==> Stretches(s, false) > 0)
            && Stretches(t.rest, false) == if t.text.Some? then Stretches(s, false) - 1 else 0
  {
    if s != "" {
      if s[0] == ',' {
        StrtokTakesOne(s[1..]);
      } else {
        StretchEnds(s);
      }
    }
  }

  /** A line is counted once if it has three tokens before its first NUL, and else it is skipped. */
  lemma CountedIff(acc: Summary, line: string)
    ensures var n := Stretches(CString(line), false);
            && (n < 3 ==> CountLine(acc, line) == acc)
            && (n >= 3 ==> CountLine(acc, line).total == acc.total + 1)
  {
    NamedIff(CString(line));
  }

  lemma NamedIff(text: string)
    ensures NamesOf(text).direction.Some? && NamesOf(text).kind.Some? <==> Stretches(text, false) >= 3
  {
    var first := Strtok(text, ',');
    StrtokTakesOne(text);
    StrtokTakesOne(first.rest);
    StrtokTakesOne(Strtok(first.rest, ',').rest);
  }

  // ---------------------------------------------------------------------------------------------
  // The summary of an exported trace
  // ---------------------------------------------------------------------------------------------

  /** What strtok takes for direction and type: without a direction name, the type and the requester. */
  function DirectionShown(r: Record): string {
    if Directed(r) then DirectionName(r.direction) else Dec(r.kind)
  }

  function TypeCounted(r: Record): nat {
    if Directed(r) then r.kind else r.requesterId
  }

  /** The counters of records, by what is shown of them. */
  function Tally(acc: Summary, records: seq<Record>): Summary
    decreases |records|
  {
    if records == [] then acc
    else Tally(acc.Count(DirectionShown(records[0]), Dec(TypeCounted(records[0]))), records[1..])
  }

  lemma NamesOfRecord(r: Record)
    ensures NamesOf(Line(r) + ['\n']) == Named(Some(DirectionShown(r)), Some(Dec(TypeCounted(r))))
  {
    var f := Fields(r);
    FieldsAreTokens(r);
    forall i, j | 0 <= i < 9 && 0 <= j < |f[i]| ensures f[i][j] != ',' {
      assert TokenChar(f[i][j]);
    }
    if Directed(r) {
      NamesOfJoined(f);
    } else {
      NamesOfGap(f);
    }
  }

  lemma SummarizeJoined(acc: Summary, f: seq<string>, rest: string)
    requires |f| > 3 && |Join(f)| + 1 < MAX_LINE
    requires forall i :: 0 <= i < |f| ==> Token(f[i])
    requires f[0] != "" && f[1] != "" && f[2] != ""
    ensures Summarize(acc, Join(f) + ['\n'] + rest) == Summarize(acc.Count(f[1], f[2]), rest)
  {
    forall i, j | 0 <= i < 3 && 0 <= j < |f[i]| ensures f[i][j] != ',' {
      assert TokenChar(f[i][j]);
    }
    JoinedIsLine(f);
    NamesOfJoined(f);
    SummarizeLine(acc, Join(f), rest);
    CountNames(acc, Join(f), f[1], f[2]);
  }

  lemma SummarizeRecord(acc: Summary, r: Record, rest: string)
    ensures Summarize(acc, Line(r) + ['\n'] + rest) ==
            Summarize(acc.Count(DirectionShown(r), Dec(TypeCounted(r))), rest)
  {
    LineLength(r);
    FieldsAreTokens(r);
    JoinedIsLine(Fields(r));
    NamesOfRecord(r);
    SummarizeLine(acc, Line(r), rest);
    CountNames(acc, Line(r), DirectionShown(r), Dec(TypeCounted(r)));
  }

  lemma {:induction false} SummarizeRecords(acc: Summary, records: seq<Record>)
    ensures Summarize(acc, Unlines(Lines(records))) == Tally(acc, records)
    decreases |records|
  {
    if records != [] {
      var rest := Unlines(Lines(records[1..]));
      assert Lines(records)[1..] == Lines(records[1..]);
      assert Unlines(Lines(records)) == Line(records[0]) + ['\n'] + rest;
      SummarizeRecord(acc, records[0], rest);
      SummarizeRecords(acc.Count(DirectionShown(records[0]), Dec(TypeCounted(records[0]))), records[1..]);
    }
  }

  /** How many records have a direction. */
  function WithDirection(records: seq<Record>, direction: uint32): nat {
    if records == [] then 0
    else (if records[0].direction == direction then 1 else 0) + WithDirection(records[1..], direction)
  }

  /** How many records have a type. */
  function WithKind(records: seq<Record>, kind: uint8): nat {
    if records == [] then 0 else (if records[0].kind == kind then 1 else 0) + WithKind(records[1..], kind)
  }

  /** How many records are counted under a type: those that show it in the place of their type. */
  function Under(records: seq<Record>, kind: uint8): nat {
    if records == [] then 0 else (if TypeCounted(records[0]) == kind then 1 else 0) + Under(records[1..], kind)
  }

  lemma {:induction false} UnderTheirKind(records: seq<Record>, kind: uint8)
    requires forall i :: 0 <= i < |records| ==> Directed(records[i])
    ensures Under(records, kind) == WithKind(records, kind)
  {
    if records != [] {
      UnderTheirKind(records[1..], kind);
    }
  }

  /** Counting one record, by its numbers. */
  lemma CountRecord(acc: Summary, r: Record)
    ensures var s, t := acc.Count(DirectionShown(r), Dec(TypeCounted(r))), TypeCounted(r);
            s == Summary(acc.total + 1, acc.tx + (if r.direction == TRACE_TX then 1 else 0),
                         acc.rx + (if r.direction == TRACE_RX then 1 else 0), acc.cfgRead + (if t == 4 then 1 else 0),
                         acc.cfgWrite + (if t == 5 then 1 else 0), acc.memRead + (if t == 0 then 1 else 0),
                         acc.memWrite + (if t == 1 then 1 else 0), acc.cpl + (if t == 10 then 1 else 0))
  {
    NamedNumerals(TypeCounted(r));
    NumeralDigits(r.kind, Decimal);
    assert DigitOf(Dec(r.kind)[0]) < 10;
  }

  lemma {:induction false} TallyCounts(acc: Summary, records: seq<Record>)
    ensures Tally(acc, records) ==
            Summary(acc.total + |records|,
                    acc.tx + WithDirection(records, TRACE_TX), acc.rx + WithDirection(records, TRACE_RX),
                    acc.cfgRead + Under(records, 4), acc.cfgWrite + Under(records, 5),
                    acc.memRead + Under(records, 0), acc.memWrite + Under(records, 1), acc.cpl + Under(records, 10))
    decreases |records|
  {
    if records != [] {
      CountRecord(acc, records[0]);
      TallyCounts(acc.Count(DirectionShown(records[0]), Dec(TypeCounted(records[0]))), records[1..]);
    }
  }

  /** The header line is counted, as a line of no direction and no type. */
  lemma CountHeader()
    ensures NOTHING.Count(COLUMNS[1], COLUMNS[2]) == NOTHING.(total := 1)
  {
    assert COLUMNS[1] == "direction" && COLUMNS[2] == "type";
  }

  lemma HeaderColumns()
    ensures forall i :: 0 <= i < 9 ==> Token(COLUMNS[i]) && COLUMNS[i] != ""
    ensures |Join(COLUMNS)| < 1000
  {
    ColumnsAreTokens();
    JoinBound(COLUMNS, 13);
  }

  /**
   On every exported trace the direction counters are right and the total is one too high: it counts the header
   line. The type counters count each record under what it shows: its type, or its requester if it is
   neither TX nor RX.
   */
  lemma SummaryOfExport(records: seq<Record>)
    ensures Summarize(NOTHING, CsvText(records)) ==
            Summary(|records| + 1, WithDirection(records, TRACE_TX), WithDirection(records, TRACE_RX),
                    Under(records, 4), Under(records, 5), Under(records, 0), Under(records, 1), Under(records, 10))
  {
    HeaderColumns();
    SummarizeJoined(NOTHING, COLUMNS, Unlines(Lines(records)));
    CountHeader();
    SummarizeRecords(NOTHING.(total := 1), records);
    TallyCounts(NOTHING.(total := 1), records);
  }

  /** On a trace of TX and RX records every counter but the total is the number of such records. */
  lemma SummaryOfDirected(records: seq<Record>)
    requires forall i :: 0 <= i < |records| ==> Directed(records[i])
    ensures Summarize(NOTHING, CsvText(records)) ==
            Summary(|records| + 1, WithDirection(records, TRACE_TX), WithDirection(records, TRACE_RX),
                    WithKind(records, 4), WithKind(records, 5), WithKind(records, 0), WithKind(records, 1),
                    WithKind(records, 10))
  {
    SummaryOfExport(records);
    UnderTheirKind(records, 4);
    UnderTheirKind(records, 5);
    UnderTheirKind(records, 0);
    UnderTheirKind(records, 1);
    UnderTheirKind(records, 10);
  }

  /** On the line of a record strtok and the quote-aware splitter name the same direction and type. */
  lemma ReadersAgree(r: Record)
    requires Directed(r)
    ensures var f := Scan(Line(r), "", false);
            |f| == 9 && NamesOf(Line(r) + ['\n']) == Named(Some(f[1]), Some(f[2]))
  {
    FieldsAreTokens(r);
    forall i, j | 0 <= i < 9 && 0 <= j < |Fields(r)[i]| ensures TokenChar(Fields(r)[i][j]) {
    }
    SplitInvertsJoin(Fields(r));
    NamesOfJoined(Fields(r));
  }

  /** strtok closes the gap of an empty second field, and takes the third and fourth instead. */
  lemma NamesOfGap(f: seq<string>)
    requires |f| > 4 && f[1] == ""
    requires f[0] != "" && f[2] != "" && f[3] != ""
    requires ',' !in f[0] && ',' !in f[2] && ',' !in f[3]
    ensures NamesOf(Join(f) + ['\n']) == Named(Some(f[2]), Some(f[3]))
  {
    var end := ['\n'];
    assert f[0..] == f;
    StrtokJoined(f, 0, end);
    SkipEmpty(f, 1, end);
    StrtokJoined(f, 2, end);
    StrtokJoined(f, 3, end);
    ThreeTokens(Join(f) + end, f[0], Join(f[1..]) + end, f[2], Join(f[3..]) + end, f[3], Join(f[4..]) + end);
  }

  lemma ThreeTokens(line: string, a: string, s: string, b: string, t: string, c: string, u: string)
    requires Strtok(line, ',') == Taken(Some(a), s)
    requires Strtok(s, ',') == Taken(Some(b), t) && Strtok(t, ',') == Taken(Some(c), u)
    ensures NamesOf(line) == Named(Some(b), Some(c))
  {
  }

  lemma SkipEmpty(f: seq<string>, i: nat, end: string)
    requires i + 1 < |f| && f[i] == ""
    ensures Strtok(Join(f[i..]) + end, ',') == Strtok(Join(f[i + 1..]) + end, ',')
  {
    var rest := Join(f[i + 1..]) + end;
    assert f[i..][1..] == f[i + 1..];
    assert Join(f[i..]) + end == [','] + rest;
    assert ([','] + rest)[1..] == rest;
  }

  /** The two readers part on a record of another direction: strtok takes its type for the direction. */
  lemma ReadersPart(r: Record)
    requires !Directed(r)
    ensures var f := Scan(Line(r), "", false);
            && |f| == 9 && f[1] == ""
            && NamesOf(Line(r) + ['\n']) == Named(Some(f[2]), Some(f[3]))
  {
    FieldsAreTokens(r);
    forall i, j | 0 <= i < 9 && 0 <= j < |Fields(r)[i]| ensures TokenChar(Fields(r)[i][j]) {
    }
    SplitInvertsJoin(Fields(r));
    NamesOfGap(Fields(r));
  }
}
