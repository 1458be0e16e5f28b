/** The CSV export of a trace. */
module CsvExport {
  import opened PcieTypes
  import opened Text

  const COLUMNS: seq<string> :=
    ["timestamp_ns", "direction", "type", "requester_id", "completer_id", "tag", "length", "addr", "payload"]
  const HEX_BUFFER := PAYLOAD_SIZE * 3 + 1

  /** The payload up to its first zero byte. */
  function Visible(payload: seq<uint8>): (v: seq<uint8>)
    ensures v <= payload && 0 !in v
    ensures v == payload || payload[|v|] == 0
  {
    if payload == [] || payload[0] == 0 then [] else [payload[0]] + Visible(payload[1..])
  }

  function Hex2(b: uint8): (s: string)
    ensures |s| == 2
  {
    [DigitChar(b / 16), DigitChar(b % 16)]
  }

  function HexOf(bytes: seq<uint8>): (s: string)
    ensures |s| == 2 * |bytes|
  {
    if bytes == [] then "" else HexOf(bytes[..|bytes| - 1]) + Hex2(bytes[|bytes| - 1])
  }

  lemma HexAppend(bytes: seq<uint8>, b: uint8)
    ensures HexOf(bytes + [b]) == HexOf(bytes) + Hex2(b)
  {
    assert (bytes + [b])[..|bytes|] == bytes;
  }

  /** What snprintf stores of `s` in a buffer of `size` characters: one is kept for the terminator. */
  function Snprintf(size: nat, s: string): string {
    if |s| < size then s else if size == 0 then "" else s[..size - 1]
  }

  /** The hexadecimal text of a payload; the buffer is never too small for it. */
  method PayloadHex(payload: seq<uint8>) returns (hex: string)
    requires |payload| == PAYLOAD_SIZE
    ensures hex == HexOf(Visible(payload)) && |hex| < 769
  {
    hex := "";
    ghost var visible := Visible(payload);
    var len := 0;
    var j := 0;
    while j < PAYLOAD_SIZE && payload[j] != 0
      invariant 0 <= j <= |visible| && len == |hex| == 2 * j
      invariant hex == HexOf(visible[..j])
      decreases PAYLOAD_SIZE - j
    {
      assert visible[..j + 1] == visible[..j] + [payload[j]];
      HexAppend(visible[..j], payload[j]);
      var text := Hex2(payload[j]);
      hex := hex + Snprintf(HEX_BUFFER - len, text);
      len := len + |text|;
      j := j + 1;
    }
    assert forall k :: 0 <= k < |visible| ==> visible[k] == payload[k] && visible[k] in visible;
    assert visible[..|visible|] == visible;
  }

  /** Any direction other than TX and RX is written as nothing. */
  function DirectionName(direction: uint32): string {
    if direction == TRACE_TX then "TX" else if direction == TRACE_RX then "RX" else ""
  }

  function Dec(n: nat): (s: string)
    ensures s != ""
  {
    Numeral(n, Decimal)
  }

  function Fields(r: Record): (f: seq<string>)
    ensures |f| == 9
  {
    [Dec(r.timestampNs), DirectionName(r.direction), Dec(r.kind), Dec(r.requesterId), Dec(r.completerId),
     Dec(r.tag), Dec(r.length), "0x" + Numeral(r.addr, Hex), HexOf(Visible(r.payload))]
  }

  function Join(fields: seq<string>): string
    requires fields != []
  {
    if |fields| == 1 then fields[0] else fields[0] + [','] + Join(fields[1..])
  }

  /** The first line of the file. */
  function Header(): string {
    Join(COLUMNS)
  }

  /** One line of the file, without its line end. */
  function Line(r: Record): string {
    Join(Fields(r))
  }

  /** Lines, each with its line end. */
  function Unlines(lines: seq<string>): string {
    if lines == [] then "" else lines[0] + ['\n'] + Unlines(lines[1..])
  }

  function Lines(records: seq<Record>): (lines: seq<string>)
    ensures |lines| == |records|
  {
    seq(|records|, i requires 0 <= i < |records| => Line(records[i]))
  }

  function CsvText(records: seq<Record>): string {
    Header() + ['\n'] + Unlines(Lines(records))
  }

  lemma {:induction false} UnlinesAppend(lines: seq<string>, line: string)
    ensures Unlines(lines + [line]) == Unlines(lines) + line + ['\n']
  {
    if lines == [] {
      assert [line][1..] == [];
    } else {
      UnlinesAppend(lines[1..], line);
      var all := lines + [line];
      assert all[0] == lines[0] && all[1..] == lines[1..] + [line];
    }
  }

  lemma UnlinesTake(lines: seq<string>, i: nat)
    requires i < |lines|
    ensures Unlines(lines[..i + 1]) == Unlines(lines[..i]) + lines[i] + ['\n']
  {
    UnlinesAppend(lines[..i], lines[i]);
    assert lines[..i + 1] == lines[..i] + [lines[i]];
  }

  /** A byte in two digits. */
  lemma HexOfByte(bytes: seq<uint8>, b: uint8)
    ensures var s := HexOf(bytes + [b]);
            && s[..2 * |bytes|] == HexOf(bytes)
            && ShowsDigit(s[2 * |bytes|], b / 16) && ShowsDigit(s[2 * |bytes| + 1], b % 16)
  {
    HexAppend(bytes, b);
  }

  /** A line written out, column by column. */
  lemma LineSpelled(r: Record)
    ensures Line(r) ==
            Numeral(r.timestampNs, Decimal) + [',']
            + ((if r.direction == 1 then "TX" else if r.direction == 2 then "RX" else "") + [',']
            + (Numeral(r.kind, Decimal) + [',']
            + (Numeral(r.requesterId, Decimal) + [',']
            + (Numeral(r.completerId, Decimal) + [',']
            + (Numeral(r.tag, Decimal) + [',']
            + (Numeral(r.length, Decimal) + [',']
            + ("0x" + Numeral(r.addr, Hex) + [',']
            + HexOf(Visible(r.payload)))))))))
  {
    var f := Fields(r);
    JoinNine(f);
  }

  lemma JoinNine(f: seq<string>)
    requires |f| == 9
    ensures Join(f) == f[0] + [','] + (f[1] + [','] + (f[2] + [','] + (f[3] + [','] + (f[4] + [','] + (f[5] + [',']
                       + (f[6] + [','] + (f[7] + [','] + f[8])))))))
  {
    assert f[1..][1..] == f[2..] && f[2..][1..] == f[3..] && f[3..][1..] == f[4..] && f[4..][1..] == f[5..];
    assert f[5..][1..] == f[6..] && f[6..][1..] == f[7..] && f[7..][1..] == f[8..] && f[8..] == [f[8]];
    assert Join(f[7..]) == f[7] + [','] + Join(f[8..]);
    assert Join(f[6..]) == f[6] + [','] + Join(f[7..]);
    assert Join(f[5..]) == f[5] + [','] + Join(f[6..]);
    assert Join(f[4..]) == f[4] + [','] + Join(f[5..]);
    assert Join(f[3..]) == f[3] + [','] + Join(f[4..]);
    assert Join(f[2..]) == f[2] + [','] + Join(f[3..]);
    assert Join(f[1..]) == f[1] + [','] + Join(f[2..]);
  }

  /** The text of a trace: the names of the columns, and one more line for one more record. */
  lemma CsvTextSpelled(records: seq<Record>, r: Record)
    ensures CsvText(records + [r]) == CsvText(records) + Line(r) + ['\n']
  {
    assert Lines(records + [r]) == Lines(records) + [Line(r)];
    OneMoreLine(Header() + ['\n'], Lines(records), Line(r));
  }

  lemma OneMoreLine(front: string, lines: seq<string>, line: string)
    ensures front + Unlines(lines + [line]) == front + Unlines(lines) + line + ['\n']
  {
    UnlinesAppend(lines, line);
    var text := Unlines(lines);
    assert front + (text + line + ['\n']) == front + text + line + ['\n'];
  }

  /** Without records, it is the names of the columns. */
  lemma HeaderSpelled()
    ensures CsvText([]) ==
            "timestamp_ns" + [','] + ("direction" + [','] + ("type" + [','] + ("requester_id" + [',']
            + ("completer_id" + [','] + ("tag" + [','] + ("length" + [','] + ("addr" + [','] + "payload"))))))) + ['\n']
  {
    var columns := COLUMNS;
    JoinNine(columns);
    assert Header() + ['\n'] + "" == Header() + ['\n'];
  }

  method FormatLine(r: Record) returns (line: string)
    ensures line == Line(r)
  {
    var payload := PayloadHex(r.payload);
    var fields := [Dec(r.timestampNs), DirectionName(r.direction), Dec(r.kind), Dec(r.requesterId),
                   Dec(r.completerId), Dec(r.tag), Dec(r.length), "0x" + Numeral(r.addr, Hex), payload];
    assert fields == Fields(r);
    line := Join(fields);
  }

  /** `canOpen` is the outcome of opening the file. */
  method WriteCsv(records: seq<Record>, canOpen: bool) returns (rc: int, text: string)
    ensures rc == if canOpen then 0 else -1
    ensures text == if canOpen then CsvText(records) else ""
  {
    if !canOpen {
      return -1, "";
    }
    var lines := WriteLines(records);
    return 0, Header() + ['\n'] + lines;
  }

  method WriteLines(records: seq<Record>) returns (text: string)
    ensures text == Unlines(Lines(records))
  {
    text := "";
    ghost var lines := Lines(records);
    for i := 0 to |records|
      invariant text == Unlines(lines[..i])
    {
      var line := FormatLine(records[i]);
      UnlinesTake(lines, i);
      text := text + line + ['\n'];
    }
    assert lines[..|records|] == lines;
  }

  // ---------------------------------------------------------------------------------------------
  // The shape of the text
  // ---------------------------------------------------------------------------------------------

  /** Text with no separator, quote, white space or NUL in it. */
  predicate Token(s: string) {
    forall i :: 0 <= i < |s| ==> TokenChar(s[i])
  }

  predicate TokenChar(c: char) {
    c != ',' && c != '"' && c != '\0' && !IsSpace(c)
  }

  lemma NumeralIsToken(n: nat, base: Base)
    ensures Token(Numeral(n, base))
  {
    NumeralDigits(n, base);
  }

  lemma {:induction false} HexIsToken(bytes: seq<uint8>)
    ensures Token(HexOf(bytes)) && AllDigits(HexOf(bytes), Hex)
  {
    if bytes != [] {
      HexIsToken(bytes[..|bytes| - 1]);
    }
  }

  lemma FieldsAreTokens(r: Record)
    ensures forall i :: 0 <= i < 9 ==> Token(Fields(r)[i])
  {
    NumeralIsToken(r.timestampNs, Decimal);
    NumeralIsToken(r.kind, Decimal);
    NumeralIsToken(r.requesterId, Decimal);
    NumeralIsToken(r.completerId, Decimal);
    NumeralIsToken(r.tag, Decimal);
    NumeralIsToken(r.length, Decimal);
    NumeralIsToken(r.addr, Hex);
    HexIsToken(Visible(r.payload));
  }

  lemma ColumnsAreTokens()
    ensures forall i :: 0 <= i < 9 ==> Token(COLUMNS[i])
  {
    assert Token("timestamp_ns") && Token("direction") && Token("type");
    assert Token("requester_id") && Token("completer_id") && Token("tag");
    assert Token("length") && Token("addr") && Token("payload");
  }

  /** Every field but the payload stays within 22 characters, so a line within 700. */
  lemma LineLength(r: Record)
    ensures |Line(r)| <= 700
  {
    NumeralOfWord(r.timestampNs, Decimal);
    NumeralOfWord(r.kind, Decimal);
    NumeralOfWord(r.requesterId, Decimal);
    NumeralOfWord(r.completerId, Decimal);
    NumeralOfWord(r.tag, Decimal);
    NumeralOfWord(r.length, Decimal);
    NumeralOfWord(r.addr, Hex);
    var front := Fields(r)[..8];
    assert front == [Dec(r.timestampNs), DirectionName(r.direction), Dec(r.kind), Dec(r.requesterId),
                     Dec(r.completerId), Dec(r.tag), Dec(r.length), "0x" + Numeral(r.addr, Hex)];
    JoinBound(front, 22);
    JoinSnoc(Fields(r)[..8], Fields(r)[8]);
    assert Fields(r) == Fields(r)[..8] + [Fields(r)[8]];
  }

  lemma {:induction false} JoinBound(fields: seq<string>, k: nat)
    requires fields != [] && forall i :: 0 <= i < |fields| ==> |fields[i]| <= k
    ensures |Join(fields)| <= (k + 1) * |fields|
  {
    if |fields| > 1 {
      JoinBound(fields[1..], k);
      assert (k + 1) * |fields| == (k + 1) * (|fields| - 1) + (k + 1);
    }
  }

  lemma {:induction false} JoinSnoc(fields: seq<string>, last: string)
    requires fields != []
    ensures Join(fields + [last]) == Join(fields) + [','] + last
  {
    var all := fields + [last];
    if |fields| > 1 {
      JoinSnoc(fields[1..], last);
      assert all[0] == fields[0] && all[1..] == fields[1..] + [last];
    } else {
      assert all[0] == fields[0] && all[1..] == [last];
    }
  }

  /** A joined line of tokens keeps out line ends and quotes. */
  lemma {:induction false} JoinOfTokens(fields: seq<string>)
    requires fields != [] && forall i :: 0 <= i < |fields| ==> Token(fields[i])
    ensures forall i :: 0 <= i < |Join(fields)| ==> Join(fields)[i] == ',' || TokenChar(Join(fields)[i])
  {
    if |fields| > 1 {
      JoinOfTokens(fields[1..]);
    }
  }

  // ---------------------------------------------------------------------------------------------
  // Reading hexadecimal text
  // ---------------------------------------------------------------------------------------------

  function UnHex(s: string): (b: seq<uint8>) {
    if |s| < 2 then []
    else UnHex(s[..|s| - 2]) + [ByteOf(s[|s| - 2], s[|s| - 1])]
  }

  function ByteOf(high: char, low: char): uint8 {
    (DigitOf(high) * 16 + DigitOf(low)) % 0x100
  }

  lemma UnHexAppend(s: string, high: char, low: char)
    ensures UnHex(s + [high, low]) == UnHex(s) + [ByteOf(high, low)]
  {
    assert (s + [high, low])[..|s|] == s;
  }

  lemma Hex2Value(b: uint8)
    ensures ByteOf(Hex2(b)[0], Hex2(b)[1]) == b
  {
  }

  lemma UnHexStep(s: string, b: uint8)
    ensures UnHex(s + Hex2(b)) == UnHex(s) + [b]
  {
    var t := Hex2(b);
    Hex2Value(b);
    UnHexAppend(s, t[0], t[1]);
    assert t == [t[0], t[1]];
  }

  lemma {:induction false} UnHexOfHex(bytes: seq<uint8>)
    ensures UnHex(HexOf(bytes)) == bytes
  {
    if bytes != [] {
      var n := |bytes| - 1;
      UnHexOfHex(bytes[..n]);
      UnHexStep(HexOf(bytes[..n]), bytes[n]);
      assert bytes == bytes[..n] + [bytes[n]];
    }
  }
}
