/** The QEMU trace lines of the GUI: reading one, and printing a row. */
module QemuTrace {
  import opened PcieTypes
  import opened Text
  import opened Pattern
  import opened QtText

  /**
   The regular expression of a line:
   pci_cfg_(read|write) SPACE+ DEVICE+ SPACE+ HH:HH.H SPACE+ @0xH+ SPACE* (->|<-) SPACE* 0xH+ SPACE*
   */
  const PATTERN: seq<Item> :=
    [OneOf(["pci_cfg_"]), OneOf(["read", "write"]), Run(Space, 1), Run(Device, 1), Run(Space, 1)] + BDF + TAIL

  const BDF: seq<Item> :=
    [One(HexDigit), One(HexDigit), OneOf([":"]), One(HexDigit), One(HexDigit), OneOf(["."]), One(HexDigit)]

  const TAIL: seq<Item> :=
    [Run(Space, 1), OneOf(["@"]), OneOf(["0x"]), Run(HexDigit, 1), Run(Space, 0), OneOf(["->", "<-"]), Run(Space, 0),
     OneOf(["0x"]), Run(HexDigit, 1), Run(Space, 0)]

  lemma {:induction false} DeterministicStep(items: seq<Item>, k: nat)
    requires k < |items| && Decided(items[k..]) && Deterministic(items[k + 1..])
    ensures Deterministic(items[k..])
  {
    assert items[k..][1..] == items[k + 1..];
  }

  lemma PatternDecided(k: nat)
    requires k < |PATTERN|
    ensures Decided(PATTERN[k..])
  {
    if k < 12 {
      HeadDecided(k);
    } else {
      TailDecided(k);
    }
  }

  lemma HeadDecided(k: nat)
    requires k < 12
    ensures Decided(PATTERN[k..])
  {
    var p := PATTERN;
    assert |p| == 22 && p[k..][1..][0] == p[k + 1];
    if k == 1 {
      assert "read"[0] == 'r' && "write"[0] == 'w';
    }
  }

  /** Optional spaces may be empty, so the item after them decides the run before them, too. */
  lemma TailDecided(k: nat)
    requires 12 <= k < |PATTERN|
    ensures Decided(PATTERN[k..])
  {
    var p := PATTERN;
    assert |p| == 22 && p[k] == TAIL[k - 12];
    Neighbours(p, k);
    if k < 21 {
      assert p[k + 1] == TAIL[k - 11];
      Neighbours(p, k + 1);
    }
    if k < 20 {
      assert p[k + 2] == TAIL[k - 10];
    }
    assert "->"[0] == '-' && "<-"[0] == '<' && "@"[0] == '@' && "0x"[0] == '0';
  }

  lemma Neighbours(items: seq<Item>, k: nat)
    requires k < |items|
    ensures items[k..][0] == items[k] && items[k..][1..] == items[k + 1..]
    ensures k + 1 < |items| ==> items[k + 1..][0] == items[k + 1]
  {
  }

  lemma {:induction false} PatternDeterministic(k: nat)
    requires k <= |PATTERN|
    ensures Deterministic(PATTERN[k..])
    decreases |PATTERN| - k
  {
    if k < |PATTERN| {
      PatternDeterministic(k + 1);
      PatternDecided(k);
      DeterministicStep(PATTERN, k);
    }
  }

  // ---------------------------------------------------------------------------------------------
  // The row of a line
  // ---------------------------------------------------------------------------------------------

  /** The parts of a line, or None for a line the expression does not match. */
  function ParseLine(line: string): (parts: Option<seq<string>>)
    ensures parts.Some? ==> |parts.value| == |PATTERN| == 22
  {
    ScanSize(PATTERN, Trim(line));
    ScanItems(PATTERN, Trim(line))
  }

  lemma ScanSize(items: seq<Item>, s: string)
    ensures ScanItems(items, s).Some? ==> |ScanItems(items, s).value| == |items|
  {
    if ScanItems(items, s).Some? {
      ScanIsSound(items, s);
    }
  }

  /** The scan accepts a line exactly when some reading of it matches the expression, and finds that reading. */
  lemma ParseLineIsTheExpression(line: string, parts: seq<string>)
    ensures ParseLine(line) == Some(parts) <==> Matches(PATTERN, parts) && Flat(parts) == Trim(line)
  {
    if ParseLine(line) == Some(parts) {
      ScanIsSound(PATTERN, Trim(line));
    }
    if Matches(PATTERN, parts) && Flat(parts) == Trim(line) {
      PatternDeterministic(0);
      assert PATTERN[0..] == PATTERN;
      ScanIsComplete(PATTERN, parts);
    }
  }

  /** The table row for the parts of a line, without its time. */
  function RowOfParts(p: seq<string>): Row
    requires |p| == 22
  {
    Row("", if p[1] == "write" then "TX" else "RX", if p[1] == "write" then "CfgWr" else "CfgRd", p[3], Flat(p[5..12]),
        "0", "4", p[14] + p[15], p[19] + p[20])
  }

  function ParseRow(line: string): Option<Row> {
    match ParseLine(line)
    case None => None
    case Some(p) => Some(RowOfParts(p))
  }

  function OpOf(row: Row): string {
    if row.kind == "CfgWr" || row.direction == "TX" then "write" else "read"
  }

  function ArrowOf(op: string): string {
    if op == "write" then "<-" else "->"
  }

  const TEMPLATE := "pci_cfg_%1 %2 %3 @%4 %5 %6\n"

  /** The line a row is saved as: the template, filled field by field. */
  function SavedLine(row: Row): string {
    Args(TEMPLATE, [OpOf(row), row.requester, row.completer] + [row.addr, ArrowOf(OpOf(row)), row.payload])
  }

  lemma FilledIs(template: string, op: string, requester: string, completer: string, addr: string, arrow: string,
                 payload: string)
    ensures Args(template, [op, requester, completer] + [addr, arrow, payload]) ==
            Arg(Arg(Arg(Arg(Arg(Arg(template, op), requester), completer), addr), arrow), payload)
  {
    ArgsThree(template, [], op, requester, completer);
    assert [] + [op, requester, completer] == [op, requester, completer];
    ArgsThree(template, [op, requester, completer], addr, arrow, payload);
  }

  /** The line it stands for, without its line end. */
  function PrintRow(row: Row): string {
    PrintHead(OpOf(row), row.requester) + row.completer + PrintTail(row.addr, ArrowOf(OpOf(row)), row.payload)
  }

  function PrintHead(op: string, requester: string): string {
    "pci_cfg_" + op + " " + requester + " "
  }

  function PrintTail(addr: string, arrow: string, payload: string): string {
    " " + "@" + addr + " " + arrow + " " + payload
  }

  /** The parts of the saved line: single spaces, and the arrow of the operation. */
  function Canonical(p: seq<string>): (r: seq<string>)
    requires |p| == 22
    ensures |r| == 22
  {
    CanonicalHeadOf(p) + p[5..12] + CanonicalTailOf(p)
  }

  function CanonicalHeadOf(p: seq<string>): seq<string>
    requires |p| == 22
  {
    ["pci_cfg_", p[1], " ", p[3], " "]
  }

  function CanonicalTailOf(p: seq<string>): seq<string>
    requires |p| == 22
  {
    [" ", "@", "0x", p[15], " ", if p[1] == "write" then "<-" else "->", " ", "0x", p[20], ""]
  }

  lemma {:induction false} FlatAppend(a: seq<string>, b: seq<string>)
    ensures Flat(a + b) == Flat(a) + Flat(b)
  {
    if a == [] {
      assert a + b == b;
    } else {
      assert (a + b)[1..] == a[1..] + b;
      FlatAppend(a[1..], b);
    }
  }

  lemma CanonicalMatches(p: seq<string>)
    requires Matches(PATTERN, p)
    ensures Matches(PATTERN, Canonical(p))
  {
    var c := Canonical(p);
    forall i | 0 <= i < 22 ensures PATTERN[i].Fits(c[i]) {
      assert PATTERN[i].Fits(p[i]);
      if i < 5 {
        assert c[i] == CanonicalHeadOf(p)[i];
      } else if i < 12 {
        assert c[i] == p[i];
      } else {
        assert c[i] == CanonicalTailOf(p)[i - 12] && PATTERN[i] == TAIL[i - 12];
      }
    }
  }

  lemma CanonicalHead(op: string, dev: string)
    ensures Flat(["pci_cfg_", op, " ", dev, " "]) == PrintHead(op, dev)
  {
    Flat5(["pci_cfg_", op, " ", dev, " "]);
  }

  lemma CanonicalTail(a: string, arrow: string, v: string)
    ensures Flat([" ", "@", "0x", a, " ", arrow, " ", "0x", v, ""]) == PrintTail("0x" + a, arrow, "0x" + v)
  {
    var left, right := [" ", "@", "0x", a, " "], [arrow, " ", "0x", v, ""];
    Flat5(left);
    Flat5(right);
    FlatAppend(left, right);
    assert [" ", "@", "0x", a, " ", arrow, " ", "0x", v, ""] == left + right;
    assert right[0] + right[1] + right[2] + right[3] + right[4] == arrow + " " + ("0x" + v);
    assert left[0] + left[1] + left[2] + left[3] + left[4] == " " + "@" + ("0x" + a) + " ";
  }

  lemma CanonicalIsPrinted(p: seq<string>)
    requires Matches(PATTERN, p)
    ensures Flat(Canonical(p)) == PrintRow(RowOfParts(p))
  {
    var arrow := if p[1] == "write" then "<-" else "->";
    assert PATTERN[1].Fits(p[1]) && PATTERN[14].Fits(p[14]) && PATTERN[19].Fits(p[19]);
    FlatThree(CanonicalHeadOf(p), p[5..12], CanonicalTailOf(p));
    CanonicalHead(p[1], p[3]);
    CanonicalTail(p[15], arrow, p[20]);
  }

  lemma FlatThree(a: seq<string>, b: seq<string>, c: seq<string>)
    ensures Flat(a + b + c) == Flat(a) + Flat(b) + Flat(c)
  {
    FlatAppend(a + b, c);
    FlatAppend(a, b);
  }

  lemma CanonicalRow(p: seq<string>)
    requires Matches(PATTERN, p)
    ensures RowOfParts(Canonical(p)) == RowOfParts(p)
  {
    assert PATTERN[14].Fits(p[14]) && PATTERN[19].Fits(p[19]);
    assert Canonical(p)[5..12] == p[5..12];
  }

  lemma Flat5(p: seq<string>)
    requires |p| == 5
    ensures Flat(p) == p[0] + p[1] + p[2] + p[3] + p[4]
  {
    assert Flat(p[1..]) == p[1] + Flat(p[1..][1..]);
    assert p[1..][1..] == p[2..] && p[2..][1..] == p[3..] && p[3..][1..] == p[4..] && p[4..][1..] == [];
    assert Flat(p[2..]) == p[2] + Flat(p[3..]);
    assert Flat(p[3..]) == p[3] + Flat(p[4..]);
    assert Flat(p[4..]) == p[4] + "";
  }

  /** Printing the row of an accepted line gives a line that is read as the same row. */
  lemma PrintedRowReadsBack(line: string)
    requires ParseRow(line).Some?
    ensures ParseRow(PrintRow(ParseRow(line).value)) == ParseRow(line)
    ensures CleanLine(PrintRow(ParseRow(line).value))
  {
    var p := ParseLine(line).value;
    ParseLineIsTheExpression(line, p);
    PrintedPartsReadBack(p);
  }

  lemma PrintedPartsReadBack(p: seq<string>)
    requires Matches(PATTERN, p)
    ensures ParseRow(PrintRow(RowOfParts(p))) == Some(RowOfParts(p)) && CleanLine(PrintRow(RowOfParts(p)))
  {
    var c, text := Canonical(p), PrintRow(RowOfParts(p));
    CanonicalMatches(p);
    CanonicalIsPrinted(p);
    CanonicalRow(p);
    PrintedIsClean(p);
    TrimOfTrimmed(text);
    ParseLineIsTheExpression(text, c);
  }

  /** A non-blank trimmed line without a line end and without a comma. */
  predicate CleanLine(s: string) {
    s != "" && Trimmed(s) && '\n' !in s && ',' !in s
  }

  lemma PrintedIsClean(p: seq<string>)
    requires Matches(PATTERN, p)
    ensures CleanLine(PrintRow(RowOfParts(p)))
  {
    var c, text := Canonical(p), PrintRow(RowOfParts(p));
    CanonicalMatches(p);
    CanonicalIsPrinted(p);
    forall i | 0 <= i < 22 ensures '\n' !in c[i] && ',' !in c[i] {
      PartKeepsOut(c, i);
    }
    FlatKeepsOut(c, '\n');
    FlatKeepsOut(c, ',');
    PrintedEnds(p);
  }

  lemma PrintedEnds(p: seq<string>)
    requires Matches(PATTERN, p)
    ensures var text := PrintRow(RowOfParts(p)); text != "" && Trimmed(text)
  {
    var text, v := PrintRow(RowOfParts(p)), p[20];
    assert PATTERN[20].Fits(v);
    assert text[|text| - 1] == v[|v| - 1];
    assert text[0] == "pci_cfg_"[0];
  }

  lemma PartKeepsOut(c: seq<string>, i: nat)
    requires Matches(PATTERN, c) && i < 22
    requires i in {2, 4, 12, 16, 18, 21} ==> c[i] == " " || c[i] == ""
    ensures '\n' !in c[i] && ',' !in c[i]
  {
    assert PATTERN[i].Fits(c[i]);
  }

  lemma {:induction false} FlatKeepsOut(parts: seq<string>, c: char)
    requires forall i :: 0 <= i < |parts| ==> c !in parts[i]
    ensures c !in Flat(parts)
  {
    if parts != [] {
      FlatKeepsOut(parts[1..], c);
    }
  }

  // ---------------------------------------------------------------------------------------------
  // Filling the template
  // ---------------------------------------------------------------------------------------------

  /** The text between marker k and the next one. */
  function Gap(k: nat): string {
    if k == 3 then " @" else " "
  }

  /** r[k] is the template behind marker k. */
  predicate IsTemplate(r: seq<string>) {
    |r| == 7 && r[6] == "\n" && forall k :: 1 <= k < 6 ==> Continues(r, k)
  }

  predicate Continues(r: seq<string>, k: nat)
    requires |r| == 7 && k < 6
  {
    r[k] == Gap(k) + (Marker(k + 1) + r[k + 1])
  }

  lemma TemplateParts() returns (r: seq<string>)
    ensures IsTemplate(r) && TEMPLATE == "pci_cfg_" + (Marker(1) + r[1])
  {
    r := [TEMPLATE, " %2 %3 @%4 %5 %6\n", " %3 @%4 %5 %6\n", " @%4 %5 %6\n", " %5 %6\n", " %6\n", "\n"];
    Markers();
    assert TEMPLATE == "pci_cfg_" + ("%1" + " %2 %3 @%4 %5 %6\n");
    assert " %2 %3 @%4 %5 %6\n" == " " + ("%2" + " %3 @%4 %5 %6\n");
    assert " %3 @%4 %5 %6\n" == " " + ("%3" + " @%4 %5 %6\n");
    assert " @%4 %5 %6\n" == " @" + ("%4" + " %5 %6\n");
    assert " %5 %6\n" == " " + ("%5" + " %6\n");
    assert " %6\n" == " " + ("%6" + "\n");
  }

  lemma Markers()
    ensures Marker(1) == "%1" && Marker(2) == "%2" && Marker(3) == "%3"
    ensures Marker(4) == "%4" && Marker(5) == "%5" && Marker(6) == "%6"
  {
  }

  lemma {:induction false} RestAbove(r: seq<string>, k: nat)
    requires IsTemplate(r) && 0 < k <= 6
    ensures Above(Pieces(r[k]), k) && r[k] != "" && !IsDigit(r[k][0])
    decreases 6 - k
  {
    if k == 6 {
      PiecesOfPlain(r[6], "");
      assert r[6] + "" == r[6];
    } else {
      RestAbove(r, k + 1);
      assert Continues(r, k);
      StaysAbove(Gap(k), k + 1, r[k + 1], k);
    }
  }

  /** Filling marker k behind what is filled already; `next` is what is filled then. */
  lemma FillOne(r: seq<string>, done: string, k: nat, a: string, next: string)
    requires IsTemplate(r) && 0 < k < 6 && '%' !in done && next == done + a + Gap(k)
    ensures Arg(done + (Marker(k) + r[k]), a) == next + (Marker(k + 1) + r[k + 1])
    ensures '%' !in a ==> '%' !in next
  {
    RestAbove(r, k);
    ArgAt(done, k, r[k], a);
    assert Continues(r, k);
    Regroup(done + a, Gap(k), Marker(k + 1) + r[k + 1]);
  }

  lemma FillLast(r: seq<string>, done: string, a: string)
    requires IsTemplate(r) && '%' !in done
    ensures Arg(done + (Marker(6) + r[6]), a) == done + a + "\n"
  {
    RestAbove(r, 6);
    ArgAt(done, 6, r[6], a);
  }

  /** The last three fields. */
  lemma FillTail(r: seq<string>, d4: string, addr: string, arrow: string, payload: string)
    requires IsTemplate(r) && '%' !in d4 && '%' !in addr && '%' !in arrow
    ensures Arg(Arg(Arg(d4 + (Marker(4) + r[4]), addr), arrow), payload) ==
            d4 + addr + " " + arrow + " " + payload + "\n"
  {
    var d5 := d4 + addr + Gap(4);
    var d6 := d5 + arrow + Gap(5);
    FillOne(r, d4, 4, addr, d5);
    FillOne(r, d5, 5, arrow, d6);
    FillLast(r, d6, payload);
  }

  /** As long as no field but the last has a percent sign, the saved line is the one the row stands for. */
  lemma SavedLineIsPrinted(row: Row)
    requires '%' !in row.requester && '%' !in row.completer && '%' !in row.addr
    ensures SavedLine(row) == PrintRow(row) + ['\n']
  {
    var r := TemplateParts();
    FillFields(r, "pci_cfg_", OpOf(row), row.requester, row.completer);
    var d4 := "pci_cfg_" + OpOf(row) + " " + row.requester + " " + row.completer + " @";
    FillTail(r, d4, row.addr, ArrowOf(OpOf(row)), row.payload);
    FilledIs(TEMPLATE, OpOf(row), row.requester, row.completer, row.addr, ArrowOf(OpOf(row)), row.payload);
    LineParts(OpOf(row), row.requester, row.completer, row.addr, ArrowOf(OpOf(row)), row.payload);
  }

  /** The line written out: a write if the type says so or the direction is TX, else a read, with the arrow to match. */
  lemma SavedLineSpelled(row: Row)
    requires '%' !in row.requester && '%' !in row.completer && '%' !in row.addr
    ensures row.kind == "CfgWr" || row.direction == "TX" ==>
              SavedLine(row) == "pci_cfg_write " + row.requester + " " + row.completer + " @" + row.addr
                                + " <- " + row.payload + "\n"
    ensures row.kind != "CfgWr" && row.direction != "TX" ==>
              SavedLine(row) == "pci_cfg_read " + row.requester + " " + row.completer + " @" + row.addr
                                + " -> " + row.payload + "\n"
  {
    SavedLineIsPrinted(row);
    PrintSpelled(OpOf(row), ArrowOf(OpOf(row)), row);
    assert "pci_cfg_" + "write" + " " == "pci_cfg_write " && "pci_cfg_" + "read" + " " == "pci_cfg_read ";
    assert " " + "<-" + " " == " <- " && " " + "->" + " " == " -> ";
  }

  lemma PrintSpelled(op: string, arrow: string, row: Row)
    ensures PrintHead(op, row.requester) + row.completer + PrintTail(row.addr, arrow, row.payload) + ['\n'] ==
            ("pci_cfg_" + op + " ") + row.requester + " " + row.completer + " @" + row.addr + (" " + arrow + " ")
            + row.payload + "\n"
  {
    assert " " + "@" == " @";
  }

  /** The first three fields. */
  lemma FillFields(r: seq<string>, head: string, op: string, requester: string, completer: string)
    requires IsTemplate(r) && '%' !in head && '%' !in op && '%' !in requester && '%' !in completer
    ensures var d4 := head + op + " " + requester + " " + completer + " @";
            '%' !in d4 && Arg(Arg(Arg(head + (Marker(1) + r[1]), op), requester), completer) == d4 + (Marker(4) + r[4])
  {
    var d2 := head + op + Gap(1);
    var d3 := d2 + requester + Gap(2);
    var d4 := d3 + completer + Gap(3);
    FillOne(r, head, 1, op, d2);
    FillOne(r, d2, 2, requester, d3);
    FillOne(r, d3, 3, completer, d4);
  }

  lemma LineParts(op: string, requester: string, completer: string, addr: string, arrow: string, payload: string)
    ensures "pci_cfg_" + op + " " + requester + " " + completer + " @" + addr + " " + arrow + " " + payload + "\n"
         == PrintHead(op, requester) + completer + PrintTail(addr, arrow, payload) + ['\n']
  {
    assert " " + "@" == " @";
    assert PrintTail(addr, arrow, payload) == " @" + addr + " " + arrow + " " + payload;
  }

  /** A percent sign can be read as a marker: a requester %3 is replaced by the completer. */
  lemma PercentIsReplaced(row: Row)
    requires row.requester == "%3" && '%' !in row.completer && '%' !in row.addr
    ensures SavedLine(row) == PrintRow(row.(requester := row.completer)) + ['\n']
  {
    var c := row.completer;
    var r := TemplateParts();
    MarkedFields(r, "pci_cfg_", OpOf(row), row.requester, c);
    NoPercent("pci_cfg_", OpOf(row), c);
    FillTail(r, "pci_cfg_" + OpOf(row) + " " + c + " " + c + " @", row.addr, ArrowOf(OpOf(row)), row.payload);
    FilledIs(TEMPLATE, OpOf(row), row.requester, c, row.addr, ArrowOf(OpOf(row)), row.payload);
    LineParts(OpOf(row), c, c, row.addr, ArrowOf(OpOf(row)), row.payload);
  }

  lemma MarkedFields(r: seq<string>, head: string, op: string, requester: string, completer: string)
    requires IsTemplate(r) && '%' !in head && '%' !in op && requester == "%3" && '%' !in completer
    ensures Arg(Arg(Arg(head + (Marker(1) + r[1]), op), requester), completer) ==
            head + op + " " + completer + " " + completer + " @" + (Marker(4) + r[4])
  {
    FillOne(r, head, 1, op, head + op + " ");
    MarkerInField(r, head + op + " ", completer);
  }

  lemma NoPercent(head: string, op: string, completer: string)
    requires '%' !in head && '%' !in op && '%' !in completer
    ensures '%' !in head + op + " " + completer + " " + completer + " @"
  {
  }

  lemma MarkerInField(r: seq<string>, done: string, completer: string)
    requires IsTemplate(r) && '%' !in done && '%' !in completer
    ensures Arg(Arg(done + (Marker(2) + r[2]), "%3"), completer) ==
            done + completer + " " + completer + " @" + (Marker(4) + r[4])
  {
    RestAbove(r, 2);
    RestAbove(r, 3);
    ArgAt(done, 2, r[2], "%3");
    Markers();
    assert Continues(r, 2) && Continues(r, 3);
    Regroup(done, Marker(3), r[2]);
    ArgTwice(done, 3, " ", r[3], completer);
    Regroup(done + completer + " " + completer, " @", Marker(4) + r[4]);
  }

  // ---------------------------------------------------------------------------------------------
  // Which rows can be saved and read back
  // ---------------------------------------------------------------------------------------------

  predicate IsHexWord(s: string) {
    |s| > 2 && s[..2] == "0x" && AllIn(HexDigit, s[2..])
  }

  /** Bus, device and function: HH:HH.H. */
  predicate IsBdf(s: string) {
    |s| == 7 && s[2] == ':' && s[5] == '.' && forall i :: 0 <= i < 7 && i != 2 && i != 5 ==> HexDigit.Has(s[i])
  }

  /** A row that a trace line can stand for, whatever its time. */
  predicate Printable(row: Row) {
    && row.requester != "" && AllIn(Device, row.requester)
    && IsBdf(row.completer)
    && IsHexWord(row.addr) && IsHexWord(row.payload)
    && ((row.direction == "TX" && row.kind == "CfgWr") || (row.direction == "RX" && row.kind == "CfgRd"))
    && row.tag == "0" && row.length == "4"
  }

  /** The characters of a text, each as a text of its own. */
  function Singles(s: string): (parts: seq<string>)
    ensures |parts| == |s|
  {
    seq(|s|, i requires 0 <= i < |s| => [s[i]])
  }

  lemma {:induction false} FlatOfSingles(parts: seq<string>)
    requires forall i :: 0 <= i < |parts| ==> |parts[i]| == 1
    ensures |Flat(parts)| == |parts| && forall i :: 0 <= i < |parts| ==> Flat(parts)[i] == parts[i][0]
  {
    if parts != [] {
      FlatOfSingles(parts[1..]);
      assert forall i :: 0 < i < |parts| ==> Flat(parts)[i] == Flat(parts[1..])[i - 1] == parts[i][0];
    }
  }

  function HeadOf(row: Row): seq<string> {
    ["pci_cfg_", if row.direction == "TX" then "write" else "read", " ", row.requester, " "]
  }

  function TailOf(row: Row): seq<string>
    requires |row.addr| >= 2 && |row.payload| >= 2
  {
    [" ", "@", "0x", row.addr[2..], " ", "->", " ", "0x", row.payload[2..], ""]
  }

  /** The parts of a line for a printable row. */
  function PartsOf(row: Row): (p: seq<string>)
    requires Printable(row)
    ensures |p| == 22
  {
    HeadOf(row) + Singles(row.completer) + TailOf(row)
  }

  lemma PartsMatch(row: Row)
    requires Printable(row)
    ensures Matches(PATTERN, PartsOf(row))
  {
    var p, h, b, t := PartsOf(row), HeadOf(row), Singles(row.completer), TailOf(row);
    forall i | 0 <= i < 22 ensures PATTERN[i].Fits(p[i]) {
      if i < 5 {
        assert p[i] == h[i];
      } else if i < 12 {
        assert p[i] == b[i - 5] == [row.completer[i - 5]] && PATTERN[i] == BDF[i - 5];
      } else {
        assert p[i] == t[i - 12] && PATTERN[i] == TAIL[i - 12];
      }
    }
  }

  lemma PartsRow(row: Row)
    requires Printable(row)
    ensures RowOfParts(PartsOf(row)) == row.(ts := "")
  {
    var p, h, b, t := PartsOf(row), HeadOf(row), Singles(row.completer), TailOf(row);
    assert p[1] == h[1] && p[3] == h[3] && p[14] == t[2] && p[15] == t[3] && p[19] == t[7] && p[20] == t[8];
    assert p[5..12] == b;
    FlatOfSingles(b);
    assert Flat(b) == row.completer;
    assert row.addr == row.addr[..2] + row.addr[2..] && row.payload == row.payload[..2] + row.payload[2..];
  }

  /** A row read from a line is printable. */
  lemma MatchedIsPrintable(p: seq<string>)
    requires Matches(PATTERN, p)
    ensures Printable(RowOfParts(p))
  {
    assert PATTERN[1].Fits(p[1]) && PATTERN[3].Fits(p[3]) && PATTERN[14].Fits(p[14]) && PATTERN[15].Fits(p[15]);
    assert PATTERN[19].Fits(p[19]) && PATTERN[20].Fits(p[20]);
    assert (p[14] + p[15])[2..] == p[15] && (p[19] + p[20])[2..] == p[20];
    var b := p[5..12];
    forall i | 0 <= i < 7 ensures BDF[i].Fits(b[i]) {
      assert PATTERN[i + 5].Fits(p[i + 5]) && PATTERN[i + 5] == BDF[i];
    }
    MatchedBdf(b);
  }

  lemma MatchedBdf(b: seq<string>)
    requires Matches(BDF, b)
    ensures IsBdf(Flat(b))
  {
    forall i | 0 <= i < 7 ensures |b[i]| == 1 {
      assert BDF[i].Fits(b[i]);
    }
    FlatOfSingles(b);
    forall i | 0 <= i < 7
      ensures if i == 2 then b[i][0] == ':' else if i == 5 then b[i][0] == '.' else HexDigit.Has(b[i][0])
    {
      assert BDF[i].Fits(b[i]);
    }
  }

  /** The saved line of a row is read as that row, its time aside, exactly if the row is printable. */
  lemma SavedReadsBackIff(row: Row)
    ensures ParseRow(SavedLine(row)) == Some(row.(ts := "")) <==> Printable(row)
  {
    if Printable(row) {
      PrintableSavesItsLine(row);
      ReadsBackIff(row);
      TrimLineEnd(PrintRow(row));
      TrimOfTrimmed(PrintRow(row));
    }
    if ParseRow(SavedLine(row)) == Some(row.(ts := "")) {
      var p := ParseLine(SavedLine(row)).value;
      ParseLineIsTheExpression(SavedLine(row), p);
      MatchedIsPrintable(p);
    }
  }

  lemma PrintableSavesItsLine(row: Row)
    requires Printable(row)
    ensures SavedLine(row) == PrintRow(row) + ['\n']
  {
    assert forall i :: 0 <= i < 7 ==> row.completer[i] != '%';
    assert row.addr == row.addr[..2] + row.addr[2..];
    SavedLineIsPrinted(row);
  }

  /** So is the line without its line end. */
  lemma ReadsBackIff(row: Row)
    ensures ParseRow(PrintRow(row)) == Some(row.(ts := "")) <==> Printable(row)
    ensures Printable(row) ==> CleanLine(PrintRow(row))
  {
    if Printable(row) {
      PartsMatch(row);
      PartsRow(row);
      PrintedPartsReadBack(PartsOf(row));
      assert PrintRow(row.(ts := "")) == PrintRow(row);
    }
    if ParseRow(PrintRow(row)) == Some(row.(ts := "")) {
      var p := ParseLine(PrintRow(row)).value;
      ParseLineIsTheExpression(PrintRow(row), p);
      MatchedIsPrintable(p);
    }
  }

  lemma {:induction false} FlatHas(parts: seq<string>, k: nat, c: char)
    requires k < |parts| && c in parts[k]
    ensures c in Flat(parts)
  {
    if k > 0 {
      FlatHas(parts[1..], k - 1, c);
    }
  }

  /** A line without a colon is not a trace line. */
  lemma NoColonNoRow(line: string)
    requires ':' !in line
    ensures ParseRow(line) == None
  {
    if ParseRow(line).Some? {
      var p := ParseLine(line).value;
      ParseLineIsTheExpression(line, p);
      assert PATTERN[7].Fits(p[7]);
      FlatHas(p, 7, ':');
      TrimKeepsOut(line, ':');
    }
  }

  // ---------------------------------------------------------------------------------------------
  // The accepted lines, written out
  // ---------------------------------------------------------------------------------------------

  /** The parts of a trace line that may differ, with the white space between them. */
  datatype TraceLine = TraceLine(op: string, s1: string, device: string, s2: string, bdf: string, s3: string,
                                 offset: string, s4: string, arrow: string, s5: string, value: string)
  {
    predicate Valid() {
      && (op == "read" || op == "write")
      && Blank(s1) && s1 != "" && Blank(s2) && s2 != "" && Blank(s3) && s3 != "" && Blank(s4) && Blank(s5)
      && device != "" && (forall i :: 0 <= i < |device| ==> DeviceChar(device[i]))
      && |bdf| == 7 && bdf[2] == ':' && bdf[5] == '.'
      && HexChar(bdf[0]) && HexChar(bdf[1]) && HexChar(bdf[3]) && HexChar(bdf[4]) && HexChar(bdf[6])
      && HexText(offset) && HexText(value)
      && (arrow == "->" || arrow == "<-")
    }

    function Text(): string {
      ("pci_cfg_" + op + s1 + device + s2) + bdf + (s3 + "@" + offset + s4 + (arrow + s5 + value))
    }

    /** The row of the line: the operation decides direction and type, whatever the arrow. */
    function RowOf(): Row {
      if op == "write" then Row("", "TX", "CfgWr", device, bdf, "0", "4", offset, value)
      else Row("", "RX", "CfgRd", device, bdf, "0", "4", offset, value)
    }
  }

  predicate HexChar(c: char) {
    '0' <= c <= '9' || 'a' <= c <= 'f' || 'A' <= c <= 'F'
  }

  predicate DeviceChar(c: char) {
    'a' <= c <= 'z' || 'A' <= c <= 'Z' || '0' <= c <= '9' || c == '_' || c == '.' || c == '-'
  }

  predicate HexText(s: string) {
    |s| > 2 && s[0] == '0' && s[1] == 'x' && forall i :: 2 <= i < |s| ==> HexChar(s[i])
  }

  function LineHead(l: TraceLine): seq<string> {
    ["pci_cfg_", l.op, l.s1, l.device, l.s2]
  }

  function LineMiddle(l: TraceLine): seq<string>
    requires |l.offset| >= 2
  {
    [l.s3, "@", "0x", l.offset[2..], l.s4]
  }

  function LineEnd(l: TraceLine): seq<string>
    requires |l.value| >= 2
  {
    [l.arrow, l.s5, "0x", l.value[2..], ""]
  }

  function PartsOfLine(l: TraceLine): (p: seq<string>)
    requires l.Valid()
    ensures |p| == 22
  {
    LineHead(l) + Singles(l.bdf) + (LineMiddle(l) + LineEnd(l))
  }

  lemma PartsOfLineMatch(l: TraceLine)
    requires l.Valid()
    ensures Matches(PATTERN, PartsOfLine(l))
  {
    var p, b := PartsOfLine(l), Singles(l.bdf);
    forall i | 0 <= i < 22 ensures PATTERN[i].Fits(p[i]) {
      if i < 5 {
        assert p[i] == LineHead(l)[i];
      } else if i < 12 {
        assert p[i] == b[i - 5] == [l.bdf[i - 5]] && PATTERN[i] == BDF[i - 5];
      } else if i < 17 {
        assert p[i] == LineMiddle(l)[i - 12] && PATTERN[i] == TAIL[i - 12];
      } else {
        assert p[i] == LineEnd(l)[i - 17] && PATTERN[i] == TAIL[i - 12];
      }
    }
  }

  lemma HexJoined(s: string)
    requires |s| >= 2 && s[0] == '0' && s[1] == 'x'
    ensures "0x" + s[2..] == s
  {
  }

  lemma FlatOfLine(l: TraceLine)
    requires l.Valid()
    ensures Flat(PartsOfLine(l)) == l.Text()
  {
    FlatThree(LineHead(l), Singles(l.bdf), LineMiddle(l) + LineEnd(l));
    FlatAppend(LineMiddle(l), LineEnd(l));
    Flat5(LineHead(l));
    FlatOfSingles(Singles(l.bdf));
    assert Flat(Singles(l.bdf)) == l.bdf;
    FlatMiddle(l);
    FlatEnd(l);
  }

  lemma FlatMiddle(l: TraceLine)
    requires |l.offset| >= 2 && l.offset[0] == '0' && l.offset[1] == 'x'
    ensures Flat(LineMiddle(l)) == l.s3 + "@" + l.offset + l.s4
  {
    Flat5(LineMiddle(l));
    HexJoined(l.offset);
    Regroup(l.s3 + "@", "0x", l.offset[2..]);
  }

  lemma FlatEnd(l: TraceLine)
    requires |l.value| >= 2 && l.value[0] == '0' && l.value[1] == 'x'
    ensures Flat(LineEnd(l)) == l.arrow + l.s5 + l.value
  {
    Flat5(LineEnd(l));
    HexJoined(l.value);
    Regroup(l.arrow + l.s5, "0x", l.value[2..]);
  }

  lemma RowOfLine(l: TraceLine)
    requires l.Valid()
    ensures RowOfParts(PartsOfLine(l)) == l.RowOf()
  {
    var p, b := PartsOfLine(l), Singles(l.bdf);
    assert p[1] == l.op && p[3] == l.device && p[14] == "0x" && p[15] == l.offset[2..];
    assert p[19] == "0x" && p[20] == l.value[2..];
    assert p[5..12] == b;
    FlatOfSingles(b);
    assert Flat(b) == l.bdf;
    HexJoined(l.offset);
    HexJoined(l.value);
  }

  lemma LineIsTrimmed(l: TraceLine)
    requires l.Valid()
    ensures Trimmed(l.Text())
  {
    var t := l.Text();
    assert t[0] == "pci_cfg_"[0];
    assert t[|t| - 1] == l.value[|l.value| - 1];
  }

  /** Every such line, with any white space around it, is read as its row. */
  lemma TraceLineIsRead(l: TraceLine, lead: string, trail: string)
    requires l.Valid() && Blank(lead) && Blank(trail)
    ensures ParseRow(lead + l.Text() + trail) == Some(l.RowOf())
  {
    LineIsTrimmed(l);
    TrimPadded(lead, l.Text(), trail);
    PartsOfLineMatch(l);
    FlatOfLine(l);
    ParseLineIsTheExpression(lead + l.Text() + trail, PartsOfLine(l));
    RowOfLine(l);
  }

  /** No other line is read. */
  lemma ReadLineIsTraceLine(line: string) returns (l: TraceLine)
    requires ParseRow(line).Some?
    ensures l.Valid() && Trim(line) == l.Text() && ParseRow(line) == Some(l.RowOf())
  {
    var p := ParseLine(line).value;
    ParseLineIsTheExpression(line, p);
    TrimIsTrimmed(line);
    l := LineOf(p, Trim(line));
    SameWhenTrimmed(line, l);
  }

  lemma SameWhenTrimmed(line: string, l: TraceLine)
    requires l.Valid() && Trim(line) == l.Text()
    ensures ParseRow(line) == Some(l.RowOf())
  {
    LineIsTrimmed(l);
    TrimOfTrimmed(l.Text());
    TraceLineIsRead(l, "", "");
    assert "" + l.Text() + "" == l.Text();
  }

  function PartsLine(p: seq<string>): TraceLine
    requires |p| == 22
  {
    TraceLine(p[1], p[2], p[3], p[4], Flat(p[5..12]), p[12], "0x" + p[15], p[16], p[17], p[18], "0x" + p[20])
  }

  lemma LineOf(p: seq<string>, text: string) returns (l: TraceLine)
    requires Matches(PATTERN, p) && Flat(p) == text && Trimmed(text)
    ensures l.Valid() && text == l.Text()
  {
    l := PartsLine(p);
    LineOfParts(p, l);
    NothingTrails(p, text);
    FlatOfParts(p, l);
  }

  lemma LineOfParts(p: seq<string>, l: TraceLine)
    requires Matches(PATTERN, p)
    requires l == PartsLine(p)
    ensures l.Valid()
  {
    assert forall i :: 0 <= i < 22 ==> PATTERN[i].Fits(p[i]);
    assert PATTERN[1].Fits(p[1]) && PATTERN[2].Fits(p[2]) && PATTERN[3].Fits(p[3]) && PATTERN[4].Fits(p[4]);
    assert PATTERN[12].Fits(p[12]) && PATTERN[15].Fits(p[15]) && PATTERN[16].Fits(p[16]) && PATTERN[17].Fits(p[17]);
    assert PATTERN[18].Fits(p[18]) && PATTERN[20].Fits(p[20]);
    var b := p[5..12];
    forall i | 0 <= i < 7 ensures BDF[i].Fits(b[i]) {
      assert PATTERN[i + 5].Fits(p[i + 5]) && PATTERN[i + 5] == BDF[i];
    }
    MatchedBdf(b);
  }

  lemma NothingTrails(p: seq<string>, text: string)
    requires Matches(PATTERN, p) && Flat(p) == text && Trimmed(text)
    ensures p[21] == ""
  {
    assert p == p[..21] + [p[21]] && PATTERN[21].Fits(p[21]);
    FlatAppend(p[..21], [p[21]]);
    assert Flat([p[21]]) == p[21] + "" == p[21];
    if p[21] != "" {
      EndsWith(Flat(p[..21]), p[21]);
    }
  }

  lemma EndsWith(front: string, last: string)
    requires last != "" && Blank(last)
    ensures !Trimmed(front + last)
  {
    assert (front + last)[|front + last| - 1] == last[|last| - 1];
  }

  lemma FlatOfParts(p: seq<string>, l: TraceLine)
    requires Matches(PATTERN, p) && p[21] == "" && l.Valid()
    requires l == PartsLine(p)
    ensures Flat(p) == l.Text()
  {
    assert PATTERN[0].Fits(p[0]) && PATTERN[13].Fits(p[13]) && PATTERN[14].Fits(p[14]) && PATTERN[19].Fits(p[19]);
    assert p[..5] == LineHead(l) && p[12..17] == LineMiddle(l) && p[17..] == LineEnd(l);
    assert p == p[..5] + p[5..12] + (p[12..17] + p[17..]);
    FlatThree(p[..5], p[5..12], p[12..17] + p[17..]);
    FlatAppend(p[12..17], p[17..]);
    Flat5(p[..5]);
    FlatMiddle(l);
    FlatEnd(l);
  }
}
