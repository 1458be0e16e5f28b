/** The quote-aware line splitter of the GUI, and the table row it makes of a CSV line. */
module CsvReader {
  import opened PcieTypes
  import opened Text
  import opened CsvExport
  import PcieContext

  // ---------------------------------------------------------------------------------------------
  // The splitter
  // ---------------------------------------------------------------------------------------------

  /** The fields of the rest of a line, for a reader that holds `current` and is inside quotes or not. */
  function Scan(s: string, current: string, inQuotes: bool): (fields: seq<string>)
    ensures fields != []
  {
    if s == "" then [current]
    else if s[0] == '"' then
      if inQuotes && |s| > 1 && s[1] == '"' then Scan(s[2..], current + ['"'], inQuotes)
      else Scan(s[1..], current, !inQuotes)
    else if s[0] == ',' && !inQuotes then [current] + Scan(s[1..], "", inQuotes)
    else Scan(s[1..], current + [s[0]], inQuotes)
  }

  method SplitCsvLine(line: string) returns (result: seq<string>)
    ensures result == Scan(line, "", false)
  {
    result := [];
    var current := "";
    var inQuotes := false;
    var i := 0;
    while i < |line|
      invariant 0 <= i <= |line|
      invariant result + Scan(line[i..], current, inQuotes) == Scan(line, "", false)
    {
      var ch := line[i];
      if ch == '"' {
        if inQuotes && i + 1 < |line| && line[i + 1] == '"' {
          current := current + ['"'];
          i := i + 1;
        } else {
          inQuotes := !inQuotes;
        }
      } else if ch == ',' && !inQuotes {
        result := result + [current];
        current := "";
      } else {
        current := current + [ch];
      }
      i := i + 1;
    }
    result := result + [current];
  }

  // ---------------------------------------------------------------------------------------------
  // Quoting, as section 2 of RFC 4180 describes it
  // ---------------------------------------------------------------------------------------------

  function Escape(s: string): string {
    if s == "" then "" else (if s[0] == '"' then ['"', '"'] else [s[0]]) + Escape(s[1..])
  }

  function Quote(s: string): string {
    ['"'] + Escape(s) + ['"']
  }

  /** Quotes around a text, and every quote in it twice. */
  lemma {:induction false} QuotesAreDoubled(a: string, b: string)
    requires '"' !in a
    ensures Escape(a) == a && Escape(a + ['"'] + b) == a + ['"', '"'] + Escape(b)
    ensures Quote(a) == ['"'] + a + ['"']
  {
    var s := a + ['"'] + b;
    if a == "" {
      assert s == ['"'] + b && s[1..] == b;
    } else {
      assert s[0] == a[0] && s[1..] == a[1..] + ['"'] + b;
      QuotesAreDoubled(a[1..], b);
    }
  }

  /** A field that may stand without quotes. */
  predicate Plain(s: string) {
    forall i :: 0 <= i < |s| ==> s[i] != ',' && s[i] != '"'
  }

  /** A field to be written, with quotes or without. */
  datatype Written = Quoted(text: string) | Bare(text: string) {
    predicate Valid() {
      Bare? ==> Plain(text)
    }

    function Form(): string {
      if Quoted? then Quote(text) else text
    }
  }

  function Forms(fields: seq<Written>): (r: seq<string>)
    ensures |r| == |fields|
  {
    seq(|fields|, i requires 0 <= i < |fields| => fields[i].Form())
  }

  function Texts(fields: seq<Written>): (r: seq<string>)
    ensures |r| == |fields|
  {
    seq(|fields|, i requires 0 <= i < |fields| => fields[i].text)
  }

  /** A closing quote ends a quoted field only if no quote follows it. */
  lemma {:induction false} ScanEscaped(s: string, rest: string, current: string)
    requires rest == "" || rest[0] != '"'
    ensures Scan(Escape(s) + (['"'] + rest), current, true) == Scan(rest, current + s, false)
    decreases |s|
  {
    var tail := ['"'] + rest;
    if s == "" {
      assert Escape(s) + tail == tail && current + s == current;
      ScanClosingQuote(rest, current);
    } else {
      ScanEscapedChar(s[0], Escape(s[1..]), tail, current);
      ScanEscaped(s[1..], rest, current + [s[0]]);
      assert (current + [s[0]]) + s[1..] == current + s;
    }
  }

  lemma ScanClosingQuote(rest: string, current: string)
    requires rest == "" || rest[0] != '"'
    ensures Scan(['"'] + rest, current, true) == Scan(rest, current, false)
  {
    var line := ['"'] + rest;
    assert line[1..] == rest && (|line| > 1 ==> line[1] == rest[0]);
  }

  lemma ScanEscapedChar(c: char, more: string, tail: string, current: string)
    ensures Scan((if c == '"' then ['"', '"'] else [c]) + more + tail, current, true)
         == Scan(more + tail, current + [c], true)
  {
    if c == '"' {
      var line := ['"', '"'] + more + tail;
      assert line[0] == line[1] == '"' && line[2..] == more + tail;
    } else {
      var line := [c] + more + tail;
      assert line[0] == c && line[1..] == more + tail;
    }
  }

  lemma {:induction false} ScanPlain(s: string, rest: string, current: string)
    requires Plain(s)
    ensures Scan(s + rest, current, false) == Scan(rest, current + s, false)
    decreases |s|
  {
    if s == "" {
      assert s + rest == rest && current + s == current;
    } else {
      var line := s + rest;
      assert line[0] == s[0] && line[1..] == s[1..] + rest;
      assert (current + [s[0]]) + s[1..] == current + s;
      ScanPlain(s[1..], rest, current + [s[0]]);
    }
  }

  lemma ScanOpeningQuote(inside: string, rest: string)
    ensures Scan(['"'] + inside + ['"'] + rest, "", false) == Scan(inside + (['"'] + rest), "", true)
  {
    var line := ['"'] + inside + ['"'] + rest;
    assert line[0] == '"' && line[1..] == inside + (['"'] + rest);
  }

  lemma ScanField(f: Written, rest: string)
    requires f.Valid() && (rest == "" || rest[0] == ',')
    ensures Scan(f.Form() + rest, "", false) == Scan(rest, f.text, false)
  {
    if f.Quoted? {
      ScanOpeningQuote(Escape(f.text), rest);
      ScanEscaped(f.text, rest, "");
    } else {
      ScanPlain(f.text, rest, "");
    }
    assert "" + f.text == f.text;
  }

  lemma ScanFieldThenMore(f: Written, more: string)
    requires f.Valid()
    ensures Scan(f.Form() + [','] + more, "", false) == [f.text] + Scan(more, "", false)
  {
    var rest := [','] + more;
    assert f.Form() + [','] + more == f.Form() + rest;
    ScanField(f, rest);
    assert rest[0] == ',' && rest[1..] == more;
  }

  /**
   The splitter is a left inverse of quoting: for every list of texts, with commas and quotes in them,
   and however each field that needs no quotes is written.
   */
  lemma {:induction false} SplitInvertsQuoting(fields: seq<Written>)
    requires fields != [] && forall i :: 0 <= i < |fields| ==> fields[i].Valid()
    ensures Scan(Join(Forms(fields)), "", false) == Texts(fields)
  {
    var f := fields[0];
    if |fields| == 1 {
      ScanField(f, "");
      assert Join(Forms(fields)) == f.Form() + "";
      assert Texts(fields) == [f.text];
    } else {
      var more := fields[1..];
      assert Forms(fields)[1..] == Forms(more);
      ScanFieldThenMore(f, Join(Forms(more)));
      SplitInvertsQuoting(more);
      assert Texts(fields) == [f.text] + Texts(more);
    }
  }

  /** In particular, a joined line of plain fields splits into those fields. */
  lemma SplitInvertsJoin(fields: seq<string>)
    requires fields != [] && forall i :: 0 <= i < |fields| ==> Plain(fields[i])
    ensures Scan(Join(fields), "", false) == fields
  {
    var written := seq(|fields|, i requires 0 <= i < |fields| => Bare(fields[i]));
    SplitInvertsQuoting(written);
    assert Forms(written) == fields && Texts(written) == fields;
  }

  // ---------------------------------------------------------------------------------------------
  // The row of a CSV line
  // ---------------------------------------------------------------------------------------------

  function NormalizeDirection(value: string): string {
    var v := ToUpper(Trim(value));
    if v == "TX" || v == "1" then "TX" else if v == "RX" || v == "2" then "RX" else v
  }

  function DecodeTypeName(value: string): string {
    var v := Trim(value);
    if v == "0" then "MemRd"
    else if v == "1" then "MemWr"
    else if v == "4" then "CfgRd"
    else if v == "5" then "CfgWr"
    else if v == "10" then "Cpl"
    else if v == "" then "Unknown"
    else v
  }

  /** How directions are read: TX and RX in either case, or as numbers, with white space around. */
  lemma DirectionsAreRead(value: string)
    ensures Trim(value) in {"TX", "tx", "Tx", "tX", "1"} ==> NormalizeDirection(value) == "TX"
    ensures Trim(value) in {"RX", "rx", "Rx", "rX", "2"} ==> NormalizeDirection(value) == "RX"
    ensures Trim(value) == "" ==> NormalizeDirection(value) == ""
  {
    assert ToUpper("TX") == "TX" && ToUpper("tx") == "TX" && ToUpper("Tx") == "TX" && ToUpper("tX") == "TX";
    assert ToUpper("RX") == "RX" && ToUpper("rx") == "RX" && ToUpper("Rx") == "RX" && ToUpper("rX") == "RX";
    assert ToUpper("1") == "1" && ToUpper("2") == "2" && ToUpper("") == "";
  }

  /** How types are read: five numbers have names, an empty field is unknown, all else is kept. */
  lemma TypesAreRead(value: string)
    ensures DecodeTypeName(value) ==
            match Trim(value)
            case "0" => "MemRd"
            case "1" => "MemWr"
            case "4" => "CfgRd"
            case "5" => "CfgWr"
            case "10" => "Cpl"
            case "" => "Unknown"
            case v => v
  {
  }

  predicate IsHeaderLine(line: string) {
    "timestamp" <= ToLower(line)
  }

  /** The row of a trimmed line of a CSV trace; header lines and lines with fewer than 9 fields have none. */
  function CsvRow(line: string): Option<Row> {
    if line == "" || IsHeaderLine(line) then None
    else
      var f := Scan(line, "", false);
      if |f| < 9 then None
      else Some(Row(Trim(f[0]), NormalizeDirection(f[1]), DecodeTypeName(f[2]), Trim(f[3]), Trim(f[4]), Trim(f[5]),
                    Trim(f[6]), Trim(f[7]), Trim(f[8])))
  }

  /** The row an exported record turns into. */
  function RowOf(r: Record): Row {
    Row(Dec(r.timestampNs), DirectionName(r.direction), DecodeTypeName(Dec(r.kind)), Dec(r.requesterId),
        Dec(r.completerId), Dec(r.tag), Dec(r.length), "0x" + Numeral(r.addr, Hex), HexOf(Visible(r.payload)))
  }

  predicate Directed(r: Record) {
    r.direction == TRACE_TX || r.direction == TRACE_RX
  }

  lemma TrimOfToken(s: string)
    requires Token(s)
    ensures Trim(s) == s
  {
    assert s != "" ==> TokenChar(s[0]) && TokenChar(s[|s| - 1]);
  }

  lemma DirectionRoundTrip(r: Record)
    ensures NormalizeDirection(DirectionName(r.direction)) == DirectionName(r.direction)
  {
    var d := DirectionName(r.direction);
    TrimOfToken(d);
    assert ToUpper(d) == d;
  }

  lemma CsvRowOfLine(r: Record)
    ensures Trimmed(Line(r)) && '\n' !in Line(r)
    ensures CsvRow(Line(r)) == Some(RowOf(r))
  {
    var f := Fields(r);
    FieldsAreTokens(r);
    JoinOfTokens(f);
    LineStarts(r);
    assert forall i :: 0 <= i < 9 ==> Plain(f[i]) by {
      forall i, j | 0 <= i < 9 && 0 <= j < |f[i]| ensures TokenChar(f[i][j]) {}
    }
    SplitInvertsJoin(f);
    assert forall c :: c in Line(r) ==> c == ',' || TokenChar(c);
    forall i | 0 <= i < 9 ensures Trim(f[i]) == f[i] {
      TrimOfToken(f[i]);
    }
    DirectionRoundTrip(r);
  }

  /** A line starts with a digit, so it is not taken for a header. */
  lemma LineStarts(r: Record)
    ensures Line(r) != "" && DigitOf(Line(r)[0]) < 10 && !IsHeaderLine(Line(r))
  {
    NumeralDigits(r.timestampNs, Decimal);
    assert Line(r)[0] == Dec(r.timestampNs)[0];
    assert ToLower(Line(r))[0] == Line(r)[0] != "timestamp"[0];
  }

  // ---------------------------------------------------------------------------------------------
  // What a row says about its record
  // ---------------------------------------------------------------------------------------------

  /** The numbers behind a row; a row without a direction name has no direction. */
  datatype Entry = Entry(ts: nat, direction: Option<nat>, kind: nat, requesterId: nat, completerId: nat, tag: nat,
                         length: nat, addr: nat, payload: seq<uint8>)

  function KindOfName(name: string): nat {
    if name == "MemRd" then 0
    else if name == "MemWr" then 1
    else if name == "CfgRd" then 4
    else if name == "CfgWr" then 5
    else if name == "Cpl" then 10
    else NumeralValue(name, Decimal)
  }

  function EntryOf(row: Row): Entry {
    Entry(NumeralValue(row.ts, Decimal),
          if row.direction == "TX" then Some(TRACE_TX) else if row.direction == "RX" then Some(TRACE_RX) else None,
          KindOfName(row.kind),
          NumeralValue(row.requester, Decimal), NumeralValue(row.completer, Decimal), NumeralValue(row.tag, Decimal),
          NumeralValue(row.length, Decimal), NumeralValue(if |row.addr| < 2 then "" else row.addr[2..], Hex),
          UnHex(row.payload))
  }

  /** The five codes with a name are the five numerals with a name. */
  lemma NamedNumerals(kind: nat)
    ensures Dec(kind) == "0" <==> kind == 0
    ensures Dec(kind) == "1" <==> kind == 1
    ensures Dec(kind) == "4" <==> kind == 4
    ensures Dec(kind) == "5" <==> kind == 5
    ensures Dec(kind) == "10" <==> kind == 10
  {
    NumeralRoundTrip(kind, Decimal);
    NumeralRoundTrip(10, Decimal);
    assert Numeral(10, Decimal) == "10";
    assert NumeralValue("0", Decimal) == 0 && NumeralValue("1", Decimal) == 1;
    assert NumeralValue("4", Decimal) == 4 && NumeralValue("5", Decimal) == 5;
  }

  lemma NotAName(s: string)
    requires s != "" && DigitOf(s[0]) < 10
    ensures s !in {"MemRd", "MemWr", "CfgRd", "CfgWr", "Cpl"}
  {
  }

  lemma KindRoundTrip(kind: uint8)
    ensures KindOfName(DecodeTypeName(Dec(kind))) == kind
  {
    NumeralRoundTrip(kind, Decimal);
    NumeralDigits(kind, Decimal);
    NumeralIsToken(kind, Decimal);
    TrimOfToken(Dec(kind));
    NamedNumerals(kind);
    NotAName(Dec(kind));
  }

  /**
   A row gives back every field of its record: the direction if it is TX or RX, and the payload up to its
   first zero byte.
   */
  lemma RowRestoresRecord(r: Record)
    ensures EntryOf(RowOf(r)) ==
            Entry(r.timestampNs, if Directed(r) then Some(r.direction) else None, r.kind, r.requesterId, r.completerId,
                  r.tag, r.length, r.addr, Visible(r.payload))
  {
    NumeralRoundTrip(r.timestampNs, Decimal);
    NumeralRoundTrip(r.requesterId, Decimal);
    NumeralRoundTrip(r.completerId, Decimal);
    NumeralRoundTrip(r.tag, Decimal);
    NumeralRoundTrip(r.length, Decimal);
    NumeralRoundTrip(r.addr, Hex);
    KindRoundTrip(r.kind);
    UnHexOfHex(Visible(r.payload));
    assert ("0x" + Numeral(r.addr, Hex))[2..] == Numeral(r.addr, Hex);
  }

  /** The whole payload comes back exactly when it has no zero byte. */
  lemma PayloadSurvivesIff(r: Record)
    ensures EntryOf(RowOf(r)).payload == r.payload <==> 0 !in r.payload
  {
    RowRestoresRecord(r);
  }

  /** The row tells the direction from every other exactly if it is TX or RX. */
  lemma DirectionSurvivesIff(r: Record)
    ensures (forall d: uint32 :: RowOf(r.(direction := d)) == RowOf(r) ==> d == r.direction) <==> Directed(r)
  {
    if Directed(r) {
      forall d: uint32 | RowOf(r.(direction := d)) == RowOf(r) ensures d == r.direction {
        SameName(d, r);
      }
    } else {
      var other: uint32 := if r.direction == 0 then 3 else 0;
      assert RowOf(r.(direction := other)) == RowOf(r);
    }
  }

  lemma SameName(d: uint32, r: Record)
    requires RowOf(r.(direction := d)) == RowOf(r) && Directed(r)
    ensures d == r.direction
  {
    assert RowOf(r).direction == DirectionName(r.direction) && RowOf(r.(direction := d)).direction == DirectionName(d);
  }

  /** The payload a packet carries into a trace: its bytes, cut at 256. */
  function Carried(t: Tlp): seq<uint8>
    requires t.Valid()
  {
    if t.data.Bytes? then t.data.bytes[..Min(t.length, PAYLOAD_SIZE)] else []
  }

  lemma {:induction false} VisibleBeforeZeros(a: seq<uint8>, zeros: seq<uint8>)
    requires forall i :: 0 <= i < |zeros| ==> zeros[i] == 0
    ensures Visible(a + zeros) == Visible(a)
  {
    if a == [] {
      assert a + zeros == zeros;
    } else {
      assert (a + zeros)[0] == a[0] && (a + zeros)[1..] == a[1..] + zeros;
      VisibleBeforeZeros(a[1..], zeros);
    }
  }

  /** What a packet carries comes back, with its length, exactly if it has no zero byte. */
  lemma CarriedSurvivesIff(t: Tlp, direction: uint32, now: uint64)
    requires t.Valid()
    ensures EntryOf(RowOf(PcieContext.RecordOf(t, direction, now))).payload == Carried(t) <==> 0 !in Carried(t)
  {
    var r := PcieContext.RecordOf(t, direction, now);
    var zeros := seq(PAYLOAD_SIZE - |Carried(t)|, _ => 0);
    assert r.payload == Carried(t) + zeros;
    RowRestoresRecord(r);
    VisibleBeforeZeros(Carried(t), zeros);
  }
}
