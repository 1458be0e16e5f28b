/** The C library's number readers, on 64-bit unsigned long. */
module CNumbers {
  import opened PcieTypes
  import opened Text

  const ULONG_MAX := 0xFFFF_FFFF_FFFF_FFFF

  /** The number read, and the text after it; without a digit nothing is consumed. */
  datatype Read = Read(ok: bool, value: uint64, rest: string)

  /** The leading digits of a text. */
  function DigitRun(s: string, base: Base): (n: nat)
    ensures n <= |s| && AllDigits(s[..n], base)
  {
    if s == "" || DigitOf(s[0]) >= base.Size() then 0 else 1 + DigitRun(s[1..], base)
  }

  /**
   The digits at the front of `s` as a number: too large a number is the largest one, a minus sign counts down
   from 2^64.
   */
  function ReadDigits(s: string, base: Base, negative: bool): Read {
    var n := DigitRun(s, base);
    var v := NumeralValue(s[..n], base);
    Read(n > 0,
         if v > ULONG_MAX then ULONG_MAX else if negative && v > 0 then ULONG_MAX + 1 - v else v,
         s[n..])
  }

  /** strtoul: base 10, or with `anyBase` the base the prefix announces. */
  function Strtoul(s: string, anyBase: bool): Read {
    var t := TrimLeft(s);
    var signed := t != "" && (t[0] == '+' || t[0] == '-');
    var negative := t != "" && t[0] == '-';
    var u := if signed then t[1..] else t;
    var r :=
      if anyBase && |u| > 2 && u[0] == '0' && Lower(u[1]) == 'x' && DigitOf(u[2]) < 16 then
        ReadDigits(u[2..], Hex, negative)
      else if anyBase && u != "" && u[0] == '0' then ReadDigits(u, Octal, negative)
      else ReadDigits(u, Decimal, negative);
    if r.ok then r else Read(false, 0, s)
  }

  lemma {:induction false} DigitRunOf(digits: string, base: Base, rest: string)
    requires AllDigits(digits, base) && (rest == "" || DigitOf(rest[0]) >= base.Size())
    ensures DigitRun(digits + rest, base) == |digits|
  {
    if digits == "" {
      assert "" + rest == rest;
    } else {
      assert (digits + rest)[1..] == digits[1..] + rest;
      DigitRunOf(digits[1..], base, rest);
    }
  }

  lemma ReadDigitsOf(digits: string, base: Base, rest: string)
    requires digits != "" && AllDigits(digits, base) && NumeralValue(digits, base) <= ULONG_MAX
    requires rest == "" || DigitOf(rest[0]) >= base.Size()
    ensures ReadDigits(digits + rest, base, false) == Read(true, NumeralValue(digits, base), rest)
  {
    DigitRunOf(digits, base, rest);
    assert (digits + rest)[..|digits|] == digits && (digits + rest)[|digits|..] == rest;
  }

  /** A decimal numeral is read back, in either mode, whatever stands after it. */
  lemma StrtoulOfNumeral(n: uint64, anyBase: bool, rest: string)
    requires rest == "" || (DigitOf(rest[0]) >= 10 && rest[0] != 'x' && rest[0] != 'X')
    ensures Strtoul(Numeral(n, Decimal) + rest, anyBase) == Read(true, n, rest)
  {
    var d := Numeral(n, Decimal);
    NumeralDigits(n, Decimal);
    NumeralLeads(n, Decimal);
    assert DigitOf(d[0]) < 10 && (d + rest)[0] == d[0];
    if anyBase && n == 0 {
      ZeroIsOctal();
      ReadDigitsOf("0", Octal, rest);
      assert |d + rest| > 1 ==> (d + rest)[1] == rest[0];
      ZeroFirst(d + rest);
    } else {
      NumeralRoundTrip(n, Decimal);
      ReadDigitsOf(d, Decimal, rest);
      DigitFirst(d + rest, anyBase);
    }
  }

  lemma ZeroFirst(s: string)
    requires s != "" && s[0] == '0' && (|s| > 1 ==> s[1] != 'x' && s[1] != 'X') && ReadDigits(s, Octal, false).ok
    ensures Strtoul(s, true) == ReadDigits(s, Octal, false)
  {
    assert |s| > 1 ==> Lower(s[1]) != 'x';
  }

  lemma DigitFirst(s: string, anyBase: bool)
    requires s != "" && DigitOf(s[0]) < 10 && (anyBase ==> s[0] != '0') && ReadDigits(s, Decimal, false).ok
    ensures Strtoul(s, anyBase) == ReadDigits(s, Decimal, false)
  {
  }

  lemma ZeroIsOctal()
    ensures AllDigits("0", Octal) && NumeralValue("0", Octal) == 0
  {
    assert Numeral(0, Octal) == "0";
    NumeralDigits(0, Octal);
    NumeralRoundTrip(0, Octal);
  }

  /** With any base allowed, 0x announces hexadecimal digits. */
  lemma StrtoulOfHex(n: uint64)
    ensures Strtoul("0x" + Numeral(n, Hex), true) == Read(true, n, "")
  {
    var d := Numeral(n, Hex);
    var s := "0x" + d;
    NumeralDigits(n, Hex);
    NumeralRoundTrip(n, Hex);
    assert s[0] == '0' && s[1] == 'x' && s[2] == d[0] && s[2..] == d && d + "" == d;
    ReadDigitsOf(d, Hex, "");
  }

  /** And a zero announces octal ones. */
  lemma StrtoulOfOctal(n: uint64)
    requires n > 0
    ensures Strtoul("0" + Numeral(n, Octal), true) == Read(true, n, "")
  {
    var d := Numeral(n, Octal);
    var s := "0" + d;
    NumeralDigits(n, Octal);
    NumeralRoundTrip(n, Octal);
    assert s[0] == '0' && s[1] == d[0] && DigitOf(d[0]) < 8;
    LeadingZero(d, Octal);
    assert s + "" == s;
    ReadDigitsOf(s, Octal, "");
    ZeroFirst(s);
  }

  lemma {:induction false} LeadingZero(d: string, base: Base)
    requires AllDigits(d, base)
    ensures AllDigits("0" + d, base) && NumeralValue("0" + d, base) == NumeralValue(d, base)
    decreases |d|
  {
    if d == "" {
      NumeralDigits(0, base);
      NumeralRoundTrip(0, base);
      NumeralLeads(0, base);
      assert "0" + "" == "0";
    } else {
      var front, last := d[..|d| - 1], d[|d| - 1];
      LeadingZero(front, base);
      assert "0" + d == ("0" + front) + [last] && d == front + [last];
      ValueOfAppend("0" + front, last, base);
      ValueOfAppend(front, last, base);
    }
  }

  /** With base ten, zeros in front change nothing. */
  lemma StrtoulOfPadded(n: uint64, rest: string)
    requires rest == "" || DigitOf(rest[0]) >= 10
    ensures Strtoul("0" + Numeral(n, Decimal) + rest, false) == Read(true, n, rest)
  {
    var d := Numeral(n, Decimal);
    NumeralDigits(n, Decimal);
    NumeralRoundTrip(n, Decimal);
    LeadingZero(d, Decimal);
    ReadDigitsOf("0" + d, Decimal, rest);
    assert ("0" + d + rest)[0] == '0';
    DigitFirst("0" + d + rest, false);
  }

  /** A negative number counts down from 2^64. */
  lemma StrtoulOfNegative(n: uint64, rest: string)
    requires n > 0 && (rest == "" || DigitOf(rest[0]) >= 10)
    ensures Strtoul("-" + Numeral(n, Decimal) + rest, false) == Read(true, 0x1_0000_0000_0000_0000 - n, rest)
  {
    var d := Numeral(n, Decimal);
    NumeralDigits(n, Decimal);
    NumeralRoundTrip(n, Decimal);
    NegativeDigits(d, rest);
    assert "-" + d + rest == "-" + (d + rest);
    MinusSign(d + rest);
  }

  lemma NegativeDigits(d: string, rest: string)
    requires d != "" && AllDigits(d, Decimal) && 0 < NumeralValue(d, Decimal) <= ULONG_MAX
    requires rest == "" || DigitOf(rest[0]) >= 10
    ensures ReadDigits(d + rest, Decimal, true) == Read(true, ULONG_MAX + 1 - NumeralValue(d, Decimal), rest)
  {
    DigitRunOf(d, Decimal, rest);
    assert (d + rest)[..|d|] == d && (d + rest)[|d|..] == rest;
  }

  lemma MinusSign(s: string)
    requires ReadDigits(s, Decimal, true).ok
    ensures Strtoul("-" + s, false) == ReadDigits(s, Decimal, true)
  {
    assert ("-" + s)[0] == '-' && ("-" + s)[1..] == s;
  }

  /** A number of more than 64 bits is the largest one. */
  lemma StrtoulOfHuge(n: nat, rest: string)
    requires n >= 0x1_0000_0000_0000_0000 && (rest == "" || DigitOf(rest[0]) >= 10)
    ensures Strtoul(Numeral(n, Decimal) + rest, false) == Read(true, 0xFFFF_FFFF_FFFF_FFFF, rest)
  {
    var d := Numeral(n, Decimal);
    NumeralDigits(n, Decimal);
    NumeralRoundTrip(n, Decimal);
    assert (d + rest)[0] == d[0] && DigitOf(d[0]) < 10;
    DigitRunOf(d, Decimal, rest);
    assert (d + rest)[..|d|] == d && (d + rest)[|d|..] == rest;
  }
}
