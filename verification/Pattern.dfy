/**
 Regular expressions that a greedy left-to-right scan decides: a run of a character class, one character
 of a class, or one of some fixed texts, one item after another.
 */
module Pattern {
  import opened PcieTypes
  import opened Text

  datatype Class = Space | Device | HexDigit {
    predicate Has(c: char) {
      match this
      case Space => IsSpace(c)
      case Device => 'A' <= c <= 'Z' || 'a' <= c <= 'z' || '0' <= c <= '9' || c == '_' || c == '.' || c == '-'
      case HexDigit => DigitOf(c) < 16
    }
  }

  datatype Item = Run(cls: Class, atLeast: nat) | One(cls: Class) | OneOf(texts: seq<string>) {
    /** The texts this item stands for. */
    predicate Fits(s: string) {
      match this
      case Run(cls, atLeast) => |s| >= atLeast && AllIn(cls, s)
      case One(cls) => |s| == 1 && AllIn(cls, s)
      case OneOf(texts) => s in texts
    }
  }

  predicate AllIn(cls: Class, s: string) {
    forall i :: 0 <= i < |s| ==> cls.Has(s[i])
  }

  function Flat(parts: seq<string>): string {
    if parts == [] then "" else parts[0] + Flat(parts[1..])
  }

  /** `parts` is a way to read a text against the pattern. */
  predicate Matches(items: seq<Item>, parts: seq<string>) {
    |items| == |parts| && forall i :: 0 <= i < |items| ==> items[i].Fits(parts[i])
  }

  // ---------------------------------------------------------------------------------------------
  // The scan
  // ---------------------------------------------------------------------------------------------

  function Span(cls: Class, s: string): (n: nat)
    ensures n <= |s| && AllIn(cls, s[..n])
    ensures n == |s| || !cls.Has(s[n])
  {
    if s == "" || !cls.Has(s[0]) then 0 else 1 + Span(cls, s[1..])
  }

  /** The first of the texts that `s` starts with. */
  function FirstPrefix(texts: seq<string>, s: string): (t: Option<string>)
    ensures t.Some? ==> t.value in texts && t.value <= s
    ensures t.None? ==> forall i :: 0 <= i < |texts| ==> !(texts[i] <= s)
  {
    if texts == [] then None else if texts[0] <= s then Some(texts[0]) else FirstPrefix(texts[1..], s)
  }

  function ScanItem(item: Item, s: string): (part: Option<string>)
    ensures part.Some? ==> item.Fits(part.value) && part.value <= s
  {
    match item
    case Run(cls, atLeast) =>
      var n := Span(cls, s);
      if n < atLeast then None else Some(s[..n])
    case One(cls) => if s != "" && cls.Has(s[0]) then Some(s[..1]) else None
    case OneOf(texts) => FirstPrefix(texts, s)
  }

  /** Reads each item as far as it goes and never goes back. */
  function ScanItems(items: seq<Item>, s: string): Option<seq<string>> {
    if items == [] then if s == "" then Some([]) else None
    else
      match ScanItem(items[0], s)
      case None => None
      case Some(part) =>
        match ScanItems(items[1..], s[|part|..])
        case None => None
        case Some(rest) => Some([part] + rest)
  }

  lemma {:induction false} ScanIsSound(items: seq<Item>, s: string)
    requires ScanItems(items, s).Some?
    ensures Matches(items, ScanItems(items, s).value) && Flat(ScanItems(items, s).value) == s
    decreases |items|
  {
    if items != [] {
      var part := ScanItem(items[0], s).value;
      ScanIsSound(items[1..], s[|part|..]);
      var rest := ScanItems(items[1..], s[|part|..]).value;
      assert ([part] + rest)[1..] == rest;
      assert s == part + s[|part|..];
    }
  }

  // ---------------------------------------------------------------------------------------------
  // When greedy reading is complete
  // ---------------------------------------------------------------------------------------------

  /** No text read against `items` starts with a character of the class. */
  ghost predicate Stops(cls: Class, items: seq<Item>) {
    items == [] ||
    match items[0]
    case Run(c, atLeast) => Disjoint(cls, c) && (atLeast > 0 || Stops(cls, items[1..]))
    case One(c) => Disjoint(cls, c)
    case OneOf(texts) => forall i :: 0 <= i < |texts| ==> texts[i] != "" && !cls.Has(texts[i][0])
  }

  ghost predicate Disjoint(a: Class, b: Class) {
    forall c :: !(a.Has(c) && b.Has(c))
  }

  /** After a run nothing can continue the run, and no fixed text is a prefix of another. */
  ghost predicate Deterministic(items: seq<Item>) {
    items == [] || (Decided(items) && Deterministic(items[1..]))
  }

  ghost predicate Decided(items: seq<Item>)
    requires items != []
  {
    match items[0]
    case Run(cls, _) => Stops(cls, items[1..])
    case One(_) => true
    case OneOf(texts) => forall i, j :: 0 <= i < |texts| && 0 <= j < |texts| && texts[i] <= texts[j] ==> i == j
  }

  lemma {:induction false} StopsIsRight(cls: Class, items: seq<Item>, parts: seq<string>)
    requires Stops(cls, items) && Matches(items, parts)
    ensures Flat(parts) == "" || !cls.Has(Flat(parts)[0])
    decreases |items|
  {
    if items != [] {
      assert items[0].Fits(parts[0]);
      if parts[0] == "" {
        assert Flat(parts) == Flat(parts[1..]);
        StopsIsRight(cls, items[1..], parts[1..]);
      } else {
        assert Flat(parts)[0] == parts[0][0];
      }
    }
  }

  lemma {:induction false} SpanOf(cls: Class, a: string, rest: string)
    requires AllIn(cls, a) && (rest == "" || !cls.Has(rest[0]))
    ensures Span(cls, a + rest) == |a|
  {
    if a != "" {
      assert (a + rest)[1..] == a[1..] + rest;
      SpanOf(cls, a[1..], rest);
    } else {
      assert a + rest == rest;
    }
  }

  lemma ScanItemOf(items: seq<Item>, parts: seq<string>)
    requires items != [] && Matches(items, parts) && Decided(items)
    ensures ScanItem(items[0], Flat(parts)) == Some(parts[0])
  {
    var s, rest := Flat(parts), Flat(parts[1..]);
    assert s == parts[0] + rest && items[0].Fits(parts[0]);
    match items[0]
    case Run(cls, _) =>
      StopsIsRight(cls, items[1..], parts[1..]);
      SpanOf(cls, parts[0], rest);
    case One(cls) =>
    case OneOf(texts) =>
      var j :| 0 <= j < |texts| && texts[j] == parts[0];
      FirstPrefixIsOnly(texts, s, j);
  }

  lemma {:induction false} FirstPrefixIsOnly(texts: seq<string>, s: string, j: nat)
    requires j < |texts| && texts[j] <= s
    requires forall a, b :: 0 <= a < |texts| && 0 <= b < |texts| && texts[a] <= texts[b] ==> a == b
    ensures FirstPrefix(texts, s) == Some(texts[j])
  {
    var t := FirstPrefix(texts, s).value;
    var i :| 0 <= i < |texts| && texts[i] == t;
    var shorter, longer := if |t| <= |texts[j]| then t else texts[j], if |t| <= |texts[j]| then texts[j] else t;
    assert shorter <= longer;
  }

  /** The scan finds any reading of a text, so a text has at most one. */
  lemma {:induction false} ScanIsComplete(items: seq<Item>, parts: seq<string>)
    requires Deterministic(items) && Matches(items, parts)
    ensures ScanItems(items, Flat(parts)) == Some(parts)
    decreases |items|
  {
    if items != [] {
      ScanItemOf(items, parts);
      var s := Flat(parts);
      assert s[|parts[0]|..] == Flat(parts[1..]);
      ScanIsComplete(items[1..], parts[1..]);
      assert parts == [parts[0]] + parts[1..];
    }
  }
}
