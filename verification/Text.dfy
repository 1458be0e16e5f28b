/** Numerals, white space, and splitting of ASCII text. */
module Text {
  import opened PcieTypes

  // ---------------------------------------------------------------------------------------------
  // Numerals
  // ---------------------------------------------------------------------------------------------

  datatype Base = Octal | Decimal | Hex {
    function Size(): (n: nat)
      ensures 8 <= n <= 16
    {
      match this
      case Octal => 8
      case Decimal => 10
      case Hex => 16
    }

    function Quotient(n: nat): (q: nat)
      ensures n >= Size() ==> q < n
    {
      match this
      case Octal => n / 8
      case Decimal => n / 10
      case Hex => n / 16
    }

    function Remainder(n: nat): (r: nat)
      ensures r < Size() && n == Shifted(Quotient(n), r)
    {
      match this
      case Octal => n % 8
      case Decimal => n % 10
      case Hex => n % 16
    }

    /** The number q with one more digit d. */
    function Shifted(q: nat, d: nat): nat {
      match this
      case Octal => 8 * q + d
      case Decimal => 10 * q + d
      case Hex => 16 * q + d
    }
  }

  function DigitChar(d: nat): (c: char)
    requires d < 16
    ensures DigitOf(c) == d && (c == '0' <==> d == 0)
  {
    if d < 10 then ('0' as int + d) as char else ('a' as int + d - 10) as char
  }

  /** The value of a digit in either case, or 16 for any other character. */
  function DigitOf(c: char): (d: nat)
    ensures d <= 16
  {
    if '0' <= c <= '9' then c as int - '0' as int
    else if 'a' <= c <= 'f' then c as int - 'a' as int + 10
    else if 'A' <= c <= 'F' then c as int - 'A' as int + 10
    else 16
  }

  function Numeral(n: nat, base: Base): (s: string)
    ensures s != ""
    decreases n
  {
    if n < base.Size() then [DigitChar(n)] else Numeral(base.Quotient(n), base) + [DigitChar(base.Remainder(n))]
  }

  /** The digit for a number below 16: a figure, or a lower-case letter. */
  predicate ShowsDigit(c: char, d: nat) {
    c as int == if d < 10 then 48 + d else 87 + d
  }

  /** Numerals digit by digit: the last one is the remainder, those before it the numeral of the quotient. */
  lemma NumeralInDecimal(n: nat)
    ensures var s := Numeral(n, Decimal); ShowsDigit(s[|s| - 1], n % 10)
    ensures var s := Numeral(n, Decimal); s[..|s| - 1] == if n < 10 then "" else Numeral(n / 10, Decimal)
  {
  }

  lemma NumeralInHex(n: nat)
    ensures var s := Numeral(n, Hex); ShowsDigit(s[|s| - 1], n % 16)
    ensures var s := Numeral(n, Hex); s[..|s| - 1] == if n < 16 then "" else Numeral(n / 16, Hex)
  {
  }

  function NumeralValue(s: string, base: Base): nat {
    if s == "" then 0 else base.Shifted(NumeralValue(s[..|s| - 1], base), DigitOf(s[|s| - 1]))
  }

  predicate AllDigits(s: string, base: Base) {
    forall i :: 0 <= i < |s| ==> DigitOf(s[i]) < base.Size()
  }

  lemma ValueOfAppend(s: string, c: char, base: Base)
    ensures NumeralValue(s + [c], base) == base.Shifted(NumeralValue(s, base), DigitOf(c))
  {
    assert (s + [c])[..|s|] == s;
  }

  lemma {:induction false} NumeralDigits(n: nat, base: Base)
    ensures AllDigits(Numeral(n, base), base)
    decreases n
  {
    if n >= base.Size() {
      NumeralDigits(base.Quotient(n), base);
    }
  }

  lemma {:induction false} NumeralRoundTrip(n: nat, base: Base)
    ensures NumeralValue(Numeral(n, base), base) == n
    decreases n
  {
    if n < base.Size() {
      ValueOfAppend("", DigitChar(n), base);
      assert "" + [DigitChar(n)] == [DigitChar(n)];
    } else {
      NumeralRoundTrip(base.Quotient(n), base);
      ValueOfAppend(Numeral(base.Quotient(n), base), DigitChar(base.Remainder(n)), base);
    }
  }

  /** Only zero starts with the digit zero. */
  lemma {:induction false} NumeralLeads(n: nat, base: Base)
    ensures Numeral(n, base)[0] == '0' <==> n == 0
    ensures n == 0 ==> Numeral(n, base) == "0"
    decreases n
  {
    if n >= base.Size() {
      NumeralLeads(base.Quotient(n), base);
    }
  }

  function Pow10(k: nat): nat {
    if k == 0 then 1 else 10 * Pow10(k - 1)
  }

  lemma {:induction false} NumeralLength(n: nat, base: Base, k: nat)
    requires base != Octal && 0 < k && n < Pow10(k)
    ensures |Numeral(n, base)| <= k
    decreases k
  {
    if n >= base.Size() {
      assert Pow10(1) == 10;
      NumeralLength(base.Quotient(n), base, k - 1);
    }
  }

  lemma NumeralOfWord(n: uint64, base: Base)
    requires base != Octal
    ensures |Numeral(n, base)| <= 20
  {
    assert Pow10(5) == 100_000;
    assert Pow10(10) == 100_000 * Pow10(5);
    assert Pow10(15) == 100_000 * Pow10(10);
    assert Pow10(20) == 100_000 * Pow10(15);
    NumeralLength(n, base, 20);
  }

  // ---------------------------------------------------------------------------------------------
  // White space and case
  // ---------------------------------------------------------------------------------------------

  /** isspace in the C locale. */
  predicate IsSpace(c: char) {
    c == ' ' || 9 <= c as int <= 13
  }

  function TrimLeft(s: string): (r: string)
    ensures |r| <= |s|
  {
    if s != "" && IsSpace(s[0]) then TrimLeft(s[1..]) else s
  }

  function TrimRight(s: string): (r: string)
    ensures |r| <= |s|
  {
    if s != "" && IsSpace(s[|s| - 1]) then TrimRight(s[..|s| - 1]) else s
  }

  function Trim(s: string): string {
    TrimRight(TrimLeft(s))
  }

  /** Text that neither starts nor ends with white space. */
  predicate Trimmed(s: string) {
    s == "" || (!IsSpace(s[0]) && !IsSpace(s[|s| - 1]))
  }

  lemma TrimOfTrimmed(s: string)
    requires Trimmed(s)
    ensures Trim(s) == s
  {
  }

  lemma {:induction false} TrimRightKeepsFront(s: string)
    requires s != "" && !IsSpace(s[0])
    ensures TrimRight(s) != "" && TrimRight(s)[0] == s[0] && !IsSpace(TrimRight(s)[|TrimRight(s)| - 1])
    decreases |s|
  {
    if IsSpace(s[|s| - 1]) {
      TrimRightKeepsFront(s[..|s| - 1]);
    }
  }

  lemma {:induction false} TrimLeftStops(s: string)
    ensures TrimLeft(s) == "" || !IsSpace(TrimLeft(s)[0])
  {
    if s != "" && IsSpace(s[0]) {
      TrimLeftStops(s[1..]);
    }
  }

  lemma {:induction false} TrimLeftKeepsOut(s: string, c: char)
    requires c !in s
    ensures c !in TrimLeft(s)
  {
    if s != "" && IsSpace(s[0]) {
      TrimLeftKeepsOut(s[1..], c);
    }
  }

  lemma {:induction false} TrimRightKeepsOut(s: string, c: char)
    requires c !in s
    ensures c !in TrimRight(s)
    decreases |s|
  {
    if s != "" && IsSpace(s[|s| - 1]) {
      TrimRightKeepsOut(s[..|s| - 1], c);
    }
  }

  lemma TrimKeepsOut(s: string, c: char)
    requires c !in s
    ensures c !in Trim(s)
  {
    TrimLeftKeepsOut(s, c);
    TrimRightKeepsOut(TrimLeft(s), c);
  }

  predicate Blank(s: string) {
    forall i :: 0 <= i < |s| ==> s[i] == ' ' || 9 <= s[i] as int <= 13
  }

  lemma {:induction false} TrimLeftIs(s: string, start: nat)
    requires start <= |s| && (forall i :: 0 <= i < start ==> IsSpace(s[i])) && (start == |s| || !IsSpace(s[start]))
    ensures TrimLeft(s) == s[start..]
  {
    if start > 0 {
      TrimLeftIs(s[1..], start - 1);
    }
  }

  lemma {:induction false} TrimRightIs(s: string, end: nat)
    requires end <= |s| && (forall i :: end <= i < |s| ==> IsSpace(s[i])) && (end == 0 || !IsSpace(s[end - 1]))
    ensures TrimRight(s) == s[..end]
    decreases |s|
  {
    if end < |s| {
      TrimRightIs(s[..|s| - 1], end);
    }
  }

  /** White space around a text is trimmed. */
  lemma TrimPadded(a: string, t: string, d: string)
    requires Blank(a) && Blank(d) && Trimmed(t)
    ensures Trim(a + t + d) == t
  {
    var s := a + t + d;
    if t == "" {
      TrimLeftIs(s, |s|);
    } else {
      assert s[|a|] == t[0];
      TrimLeftIs(s, |a|);
      var rest := t + d;
      assert s[|a|..] == rest && rest[|t| - 1] == t[|t| - 1];
      TrimRightIs(rest, |t|);
      assert rest[..|t|] == t;
    }
  }

  /** A line end at the end is trimmed. */
  lemma TrimLineEnd(s: string)
    requires s != "" && !IsSpace(s[0])
    ensures Trim(s + ['\n']) == Trim(s)
  {
    assert (s + ['\n'])[0] == s[0] && (s + ['\n'])[..|s|] == s;
  }

  lemma TrimIsTrimmed(s: string)
    ensures Trimmed(Trim(s))
  {
    TrimLeftStops(s);
    if TrimLeft(s) != "" {
      TrimRightKeepsFront(TrimLeft(s));
    }
  }

  function Upper(c: char): char {
    if 'a' <= c <= 'z' then (c as int - 32) as char else c
  }

  function Lower(c: char): char {
    if 'A' <= c <= 'Z' then (c as int + 32) as char else c
  }

  function ToUpper(s: string): (r: string)
    ensures |r| == |s|
  {
    seq(|s|, i requires 0 <= i < |s| => Upper(s[i]))
  }

  function ToLower(s: string): (r: string)
    ensures |r| == |s|
  {
    seq(|s|, i requires 0 <= i < |s| => Lower(s[i]))
  }

  predicate Contains(s: string, part: string) {
    part <= s || (s != "" && Contains(s[1..], part))
  }

  lemma {:induction false} ContainsAt(s: string, part: string, k: nat)
    requires k <= |s| && part <= s[k..]
    ensures Contains(s, part)
  {
    if k > 0 {
      ContainsAt(s[1..], part, k - 1);
    } else {
      assert s[0..] == s;
    }
  }

  // ---------------------------------------------------------------------------------------------
  // C strings
  // ---------------------------------------------------------------------------------------------

  /** The C string at the front of a buffer. */
  function CString(b: seq<char>): string {
    if b == [] || b[0] == '\0' then "" else [b[0]] + CString(b[1..])
  }

  lemma {:induction false} CStringOfText(s: string)
    requires '\0' !in s
    ensures CString(s) == s
  {
    if s != "" {
      CStringOfText(s[1..]);
    }
  }

  // ---------------------------------------------------------------------------------------------
  // Splitting
  // ---------------------------------------------------------------------------------------------

  /** The pieces between occurrences of `sep`, empty ones included. */
  function Split(s: string, sep: char): (parts: seq<string>)
    ensures |parts| > 0
  {
    if s == "" then [""]
    else
      var rest := Split(s[1..], sep);
      if s[0] == sep then [""] + rest else [[s[0]] + rest[0]] + rest[1..]
  }

  lemma {:induction false} SplitFirst(a: string, sep: char, b: string)
    requires sep !in a
    ensures Split(a + [sep] + b, sep) == [a] + Split(b, sep)
  {
    var s := a + [sep] + b;
    if a == "" {
      assert s[1..] == b;
    } else {
      assert s[0] == a[0] && s[1..] == a[1..] + [sep] + b && a == [a[0]] + a[1..];
      SplitFirst(a[1..], sep, b);
    }
  }

  lemma {:induction false} SplitPieces(s: string, sep: char)
    ensures forall i :: 0 <= i < |Split(s, sep)| ==> sep !in Split(s, sep)[i]
  {
    if s != "" {
      SplitPieces(s[1..], sep);
    }
  }
}
