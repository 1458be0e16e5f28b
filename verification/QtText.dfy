/** QString::arg: how the GUI fills the place markers of a text. */
module QtText {
  import opened PcieTypes
  import opened Text

  /** A text is read as characters and place markers: a percent sign, perhaps an L, and one or two digits. */
  datatype Piece = Plain(c: char) | Mark(number: nat, raw: string)

  predicate IsDigit(c: char) {
    DigitOf(c) < 10
  }

  function Pieces(s: string): seq<Piece> {
    if s == "" then []
    else
      var n := MarkLength(s);
      if n == 0 then [Plain(s[0])] + Pieces(s[1..])
      else [Mark(MarkNumber(s, n), s[..n])] + Pieces(s[n..])
  }

  /** The length of the marker at the front, or 0. */
  function MarkLength(s: string): (n: nat)
    ensures n <= |s| && (n > 0 ==> n >= 2 && IsDigit(s[n - 1]))
  {
    if s == "" || s[0] != '%' then 0
    else
      var i := if |s| > 1 && s[1] == 'L' then 2 else 1;
      if i >= |s| || !IsDigit(s[i]) then 0
      else if i + 1 < |s| && IsDigit(s[i + 1]) then i + 2
      else i + 1
  }

  function MarkNumber(s: string, n: nat): nat
    requires 2 <= n <= |s|
  {
    DigitOf(s[n - 1]) + if IsDigit(s[n - 2]) then 10 * DigitOf(s[n - 2]) else 0
  }

  /** No marker has a number up to k. */
  predicate Above(ps: seq<Piece>, k: nat) {
    forall i :: 0 <= i < |ps| && ps[i].Mark? ==> ps[i].number > k
  }

  predicate HasMark(ps: seq<Piece>, k: nat) {
    exists i :: 0 <= i < |ps| && ps[i].Mark? && ps[i].number == k
  }

  /** The pieces as text, with `a` for the markers of number k. */
  function Fill(ps: seq<Piece>, k: nat, a: string): string {
    if ps == [] then ""
    else
      (match ps[0] case Plain(c) => [c] case Mark(n, raw) => if n == k then a else raw) + Fill(ps[1..], k, a)
  }

  /** The lowest number of a marker. */
  function Lowest(ps: seq<Piece>): Option<nat> {
    if ps == [] then None
    else
      match (ps[0], Lowest(ps[1..]))
      case (Plain(_), rest) => rest
      case (Mark(n, _), None) => Some(n)
      case (Mark(n, _), Some(m)) => Some(Min(n, m))
  }

  /** All markers of the lowest number are replaced; a text without markers stays as it is. */
  function Arg(s: string, a: string): string {
    match Lowest(Pieces(s))
    case None => s
    case Some(k) => Fill(Pieces(s), k, a)
  }

  /** One argument after another. */
  function Args(s: string, values: seq<string>): string {
    if values == [] then s else Arg(Args(s, values[..|values| - 1]), values[|values| - 1])
  }

  lemma ArgsAppend(s: string, values: seq<string>, a: string)
    ensures Args(s, values + [a]) == Arg(Args(s, values), a)
  {
    assert (values + [a])[..|values|] == values;
  }

  lemma ArgsThree(s: string, before: seq<string>, a: string, b: string, c: string)
    ensures Args(s, before + [a, b, c]) == Arg(Arg(Arg(Args(s, before), a), b), c)
  {
    var first := before + [a];
    var second := first + [b];
    ArgsAppend(s, before, a);
    ArgsAppend(s, first, b);
    ArgsAppend(s, second, c);
    ThreeMore(before, a, b, c);
  }

  lemma ThreeMore(s: seq<string>, a: string, b: string, c: string)
    ensures s + [a] + [b] + [c] == s + [a, b, c]
  {
  }

  // ---------------------------------------------------------------------------------------------
  // Filling one marker
  // ---------------------------------------------------------------------------------------------

  function Plains(s: string): (ps: seq<Piece>)
    ensures |ps| == |s|
  {
    seq(|s|, i requires 0 <= i < |s| => Plain(s[i]))
  }

  lemma {:induction false} PiecesOfPlain(t: string, rest: string)
    requires '%' !in t
    ensures Pieces(t + rest) == Plains(t) + Pieces(rest)
  {
    if t == "" {
      assert "" + rest == rest;
    } else {
      var s := t + rest;
      assert s[0] == t[0] && s[1..] == t[1..] + rest;
      FirstPlain(s);
      PiecesOfPlain(t[1..], rest);
      PlainsFirst(t, Pieces(rest));
    }
  }

  lemma FirstPlain(s: string)
    requires s != "" && s[0] != '%'
    ensures Pieces(s) == [Plain(s[0])] + Pieces(s[1..])
  {
  }

  lemma PlainsFirst(t: string, ps: seq<Piece>)
    requires t != ""
    ensures Plains(t) + ps == [Plain(t[0])] + (Plains(t[1..]) + ps)
  {
  }

  /** A marker of one digit. */
  function Marker(k: nat): string
    requires k < 10
  {
    ['%', DigitChar(k)]
  }

  lemma PiecesOfMarker(k: nat, rest: string)
    requires k < 10 && (rest == "" || !IsDigit(rest[0]))
    ensures Pieces(Marker(k) + rest) == [Mark(k, Marker(k))] + Pieces(rest)
  {
    var s := Marker(k) + rest;
    assert s[0] == '%' && s[1] == DigitChar(k) && DigitOf(s[1]) == k;
    assert |s| > 2 ==> s[2] == rest[0];
    assert s[..2] == Marker(k) && s[2..] == rest;
  }

  /** Two digits make one marker. */
  lemma TwoDigits(s: string)
    requires |s| >= 3 && s[0] == '%' && IsDigit(s[1]) && IsDigit(s[2])
    ensures Pieces(s) == [Mark(10 * DigitOf(s[1]) + DigitOf(s[2]), s[..3])] + Pieces(s[3..])
  {
    assert MarkLength(s) == 3;
    FirstMark(s, 3);
  }

  /** An L may stand before the digits. */
  lemma DigitAfterL(s: string)
    requires |s| >= 3 && s[0] == '%' && s[1] == 'L' && IsDigit(s[2]) && (|s| == 3 || !IsDigit(s[3]))
    ensures Pieces(s) == [Mark(DigitOf(s[2]), s[..3])] + Pieces(s[3..])
  {
    assert MarkLength(s) == 3;
    FirstMark(s, 3);
  }

  lemma FirstMark(s: string, n: nat)
    requires n > 0 && MarkLength(s) == n
    ensures Pieces(s) == [Mark(MarkNumber(s, n), s[..n])] + Pieces(s[n..])
  {
  }

  lemma {:induction false} FillAppend(a: seq<Piece>, b: seq<Piece>, k: nat, text: string)
    ensures Fill(a + b, k, text) == Fill(a, k, text) + Fill(b, k, text)
  {
    if a == [] {
      assert a + b == b;
    } else {
      assert (a + b)[1..] == a[1..] + b;
      FillAppend(a[1..], b, k, text);
    }
  }

  lemma {:induction false} FillPlains(s: string, k: nat, text: string)
    ensures Fill(Plains(s), k, text) == s
  {
    if s != "" {
      assert Plains(s)[1..] == Plains(s[1..]);
      FillPlains(s[1..], k, text);
    }
  }

  /** Markers of higher numbers stay as they are. */
  lemma {:induction false} FillAbove(s: string, k: nat, text: string)
    requires Above(Pieces(s), k)
    ensures Fill(Pieces(s), k, text) == s
    decreases |s|
  {
    if s != "" {
      var n, ps := MarkLength(s), Pieces(s);
      var rest := if n == 0 then s[1..] else s[n..];
      assert ps[1..] == Pieces(rest);
      assert Above(Pieces(rest), k) by {
        forall i | 0 <= i < |Pieces(rest)| && Pieces(rest)[i].Mark? ensures Pieces(rest)[i].number > k {
          assert ps[i + 1] == Pieces(rest)[i];
        }
      }
      FillAbove(rest, k, text);
      assert ps[0].Mark? ==> ps[0].number > k;
    }
  }

  lemma {:induction false} LowestIs(ps: seq<Piece>, k: nat)
    requires forall i :: 0 <= i < |ps| && ps[i].Mark? ==> ps[i].number >= k
    ensures Lowest(ps) == Some(k) <==> HasMark(ps, k)
    ensures Lowest(ps).Some? ==> Lowest(ps).value >= k
  {
    if ps != [] {
      LowestIs(ps[1..], k);
      assert HasMark(ps[1..], k) ==> HasMark(ps, k) by {
        if i :| 0 <= i < |ps[1..]| && ps[1..][i].Mark? && ps[1..][i].number == k { assert ps[i + 1] == ps[1..][i]; }
      }
      if HasMark(ps, k) && !(ps[0].Mark? && ps[0].number == k) {
        var i :| 0 <= i < |ps| && ps[i].Mark? && ps[i].number == k;
        assert ps[1..][i - 1] == ps[i];
      }
    }
  }

  lemma FillAt(pre: string, k: nat, raw: string, rest: seq<Piece>, a: string)
    ensures Fill(Plains(pre) + ([Mark(k, raw)] + rest), k, a) == pre + a + Fill(rest, k, a)
  {
    var mark := [Mark(k, raw)];
    FillAppend(Plains(pre), mark + rest, k, a);
    FillAppend(mark, rest, k, a);
    FillPlains(pre, k, a);
    assert Fill(mark, k, a) == a + Fill([], k, a) == a;
    Regroup(pre, a, Fill(rest, k, a));
  }

  lemma Regroup(a: string, b: string, c: string)
    ensures a + (b + c) == a + b + c
  {
  }

  lemma PiecesAt(pre: string, k: nat, post: string)
    requires k < 10 && '%' !in pre && (post == "" || !IsDigit(post[0]))
    ensures Pieces(pre + (Marker(k) + post)) == Plains(pre) + ([Mark(k, Marker(k))] + Pieces(post))
  {
    PiecesOfPlain(pre, Marker(k) + post);
    PiecesOfMarker(k, post);
  }

  lemma ArgIs(s: string, ps: seq<Piece>, k: nat, a: string)
    requires Pieces(s) == ps && Lowest(ps) == Some(k)
    ensures Arg(s, a) == Fill(ps, k, a)
  {
  }

  /** Behind text without percent signs, the lowest marker is replaced and the others are kept. */
  lemma ArgAt(pre: string, k: nat, post: string, a: string)
    requires k < 10 && '%' !in pre && (post == "" || !IsDigit(post[0])) && Above(Pieces(post), k)
    ensures Arg(pre + (Marker(k) + post), a) == pre + a + post
  {
    var ps := Plains(pre) + ([Mark(k, Marker(k))] + Pieces(post));
    PiecesAt(pre, k, post);
    FirstIsLowest(Plains(pre), Mark(k, Marker(k)), Pieces(post), k);
    ArgIs(pre + (Marker(k) + post), ps, k, a);
    FillAt(pre, k, Marker(k), Pieces(post), a);
    FillAbove(post, k, a);
  }

  /** Text, a higher marker and more text with higher markers only has higher markers only. */
  lemma StaysAbove(t: string, n: nat, rest: string, k: nat)
    requires '%' !in t && k < n < 10 && (rest == "" || !IsDigit(rest[0])) && Above(Pieces(rest), k)
    ensures Above(Pieces(t + (Marker(n) + rest)), k)
  {
    PiecesOfPlain(t, Marker(n) + rest);
    PiecesOfMarker(n, rest);
  }

  /** A marker in a field that was filled in before is replaced with the one that was meant. */
  lemma ArgTwice(pre: string, k: nat, mid: string, post: string, a: string)
    requires k < 10 && '%' !in pre && '%' !in mid && mid != "" && !IsDigit(mid[0])
    requires (post == "" || !IsDigit(post[0])) && Above(Pieces(post), k)
    ensures Arg(pre + (Marker(k) + (mid + (Marker(k) + post))), a) == pre + a + mid + a + post
  {
    var m, more := Mark(k, Marker(k)), Plains(mid) + ([Mark(k, Marker(k))] + Pieces(post));
    var ps := Plains(pre) + ([m] + more);
    PiecesAt(mid, k, post);
    PiecesAt(pre, k, mid + (Marker(k) + post));
    FirstIsLowest(Plains(pre), m, more, k);
    ArgIs(pre + (Marker(k) + (mid + (Marker(k) + post))), ps, k, a);
    FillAt(pre, k, Marker(k), more, a);
    FillAt(mid, k, Marker(k), Pieces(post), a);
    FillAbove(post, k, a);
    Regroup(pre + a, mid + a, post);
    Regroup(pre + a, mid, a);
  }

  lemma FirstIsLowest(a: seq<Piece>, m: Piece, b: seq<Piece>, k: nat)
    requires (forall i :: 0 <= i < |a| ==> a[i].Plain?) && m.Mark? && m.number == k
    requires forall i :: 0 <= i < |b| && b[i].Mark? ==> b[i].number >= k
    ensures Lowest(a + ([m] + b)) == Some(k)
  {
    var ps := a + ([m] + b);
    assert ps[|a|] == m;
    forall i | 0 <= i < |ps| && ps[i].Mark? ensures ps[i].number >= k {
      assert i > |a| ==> ps[i] == b[i - |a| - 1];
    }
    LowestIs(ps, k);
  }
}
