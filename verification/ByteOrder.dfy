/** Fixed-width numbers in either byte order, and packed runs of them. */
module ByteOrder {
  import opened PcieTypes

  datatype Order = LittleEndian | BigEndian

  function Pow256(k: nat): nat {
    if k == 0 then 1 else 0x100 * Pow256(k - 1)
  }

  lemma Widths()
    ensures Pow256(1) == 0x100 && Pow256(2) == 0x1_0000
    ensures Pow256(4) == 0x1_0000_0000 && Pow256(8) == 0x1_0000_0000_0000_0000
  {
    assert Pow256(4) == 0x100 * Pow256(3);
    assert Pow256(8) == 0x100 * 0x100 * 0x100 * 0x100 * Pow256(4);
  }

  /** The k low bytes of n. */
  function Encode(o: Order, n: nat, k: nat): (s: seq<uint8>)
    ensures |s| == k
    decreases k
  {
    if k == 0 then []
    else if o == LittleEndian then [n % 0x100] + Encode(o, n / 0x100, k - 1)
    else Encode(o, n / 0x100, k - 1) + [n % 0x100]
  }

  function Value(o: Order, s: seq<uint8>): nat
    decreases |s|
  {
    if s == [] then 0
    else if o == LittleEndian then s[0] + 0x100 * Value(o, s[1..])
    else 0x100 * Value(o, s[..|s| - 1]) + s[|s| - 1]
  }

  lemma {:induction false} ValueOfEncode(o: Order, n: nat, k: nat)
    requires n < Pow256(k)
    ensures Value(o, Encode(o, n, k)) == n
    decreases k
  {
    if k > 0 {
      ValueOfEncode(o, n / 0x100, k - 1);
      assert Encode(o, n, k)[1..] == Encode(o, n / 0x100, k - 1) || o == BigEndian;
      assert Encode(o, n, k)[..k - 1] == Encode(o, n / 0x100, k - 1) || o == LittleEndian;
    }
  }

  lemma ByteDigit(v: nat, b: uint8, p: nat)
    requires v < p
    ensures (b + 0x100 * v) % 0x100 == b && (b + 0x100 * v) / 0x100 == v && b + 0x100 * v < 0x100 * p
  {
  }

  lemma EncodeStep(o: Order, v: nat, b: uint8, k: nat)
    ensures Encode(o, b + 0x100 * v, k + 1) ==
            if o == LittleEndian then [b] + Encode(o, v, k) else Encode(o, v, k) + [b]
  {
    ByteDigit(v, b, v + 1);
  }

  lemma StepLittle(b: uint8, rest: seq<uint8>)
    ensures Value(LittleEndian, [b] + rest) == b + 0x100 * Value(LittleEndian, rest)
  {
    assert ([b] + rest)[1..] == rest;
  }

  lemma StepBig(rest: seq<uint8>, b: uint8)
    ensures Value(BigEndian, rest + [b]) == b + 0x100 * Value(BigEndian, rest)
  {
    assert (rest + [b])[..|rest|] == rest;
  }

  lemma {:induction false} EncodeOfValue(o: Order, s: seq<uint8>)
    ensures Value(o, s) < Pow256(|s|) && Encode(o, Value(o, s), |s|) == s
    decreases |s|
  {
    if s != [] {
      var n := |s| - 1;
      var b, rest := if o == LittleEndian then s[0] else s[n], if o == LittleEndian then s[1..] else s[..n];
      EncodeOfValue(o, rest);
      if o == LittleEndian {
        assert s == [b] + rest;
        StepLittle(b, rest);
      } else {
        assert s == rest + [b];
        StepBig(rest, b);
      }
      ByteDigit(Value(o, rest), b, Pow256(n));
      EncodeStep(o, Value(o, rest), b, n);
    }
  }

  /** The number that two or four bytes stand for, given with the high byte first. */
  function Big2(a: nat, b: nat): nat {
    0x100 * a + b
  }

  function Big4(a: nat, b: nat, c: nat, d: nat): nat {
    0x100_0000 * a + 0x1_0000 * b + 0x100 * c + d
  }

  lemma BigTwo(s: seq<uint8>)
    requires |s| == 2
    ensures Value(BigEndian, s) == Big2(s[0], s[1])
  {
    OneByte(BigEndian, s[..1]);
  }

  lemma BigFour(s: seq<uint8>)
    requires |s| == 4
    ensures Value(BigEndian, s) == Big4(s[0], s[1], s[2], s[3])
  {
    BigTwo(s[..2]);
    assert s[..3][..2] == s[..2];
    assert Value(BigEndian, s[..3]) == 0x100 * Value(BigEndian, s[..2]) + s[2];
  }

  lemma LittleTwo(s: seq<uint8>)
    requires |s| == 2
    ensures Value(LittleEndian, s) == Big2(s[1], s[0])
  {
    OneByte(LittleEndian, s[1..]);
  }

  lemma LittleFour(s: seq<uint8>)
    requires |s| == 4
    ensures Value(LittleEndian, s) == Big4(s[3], s[2], s[1], s[0])
  {
    LittleTwo(s[2..]);
    assert s[1..][1..] == s[2..];
    assert Value(LittleEndian, s[1..]) == s[1] + 0x100 * Value(LittleEndian, s[2..]);
  }

  lemma LittleEight(s: seq<uint8>)
    requires |s| == 8
    ensures Value(LittleEndian, s) == 0x1_0000_0000 * Value(LittleEndian, s[4..]) + Value(LittleEndian, s[..4])
  {
    assert s[1..][1..] == s[2..] && s[2..][1..] == s[3..] && s[3..][1..] == s[4..];
    assert Value(LittleEndian, s[1..]) == s[1] + 0x100 * Value(LittleEndian, s[2..]);
    assert Value(LittleEndian, s[2..]) == s[2] + 0x100 * Value(LittleEndian, s[3..]);
    assert Value(LittleEndian, s[3..]) == s[3] + 0x100 * Value(LittleEndian, s[4..]);
    LittleFour(s[..4]);
  }

  lemma OneByte(o: Order, s: seq<uint8>)
    requires |s| == 1
    ensures Value(o, s) == s[0]
  {
    assert s[1..] == [] && s[..0] == [];
  }

  // ---------------------------------------------------------------------------------------------
  // Packed fields
  // ---------------------------------------------------------------------------------------------

  /** A field: its value and its width in bytes. */
  datatype Field = Field(value: nat, width: nat) {
    predicate Fits() {
      value < Pow256(width)
    }
  }

  function Size(widths: seq<nat>): nat {
    if widths == [] then 0 else Size(widths[..|widths| - 1]) + widths[|widths| - 1]
  }

  function WidthsOf(fields: seq<Field>): (ws: seq<nat>)
    ensures |ws| == |fields|
  {
    seq(|fields|, i requires 0 <= i < |fields| => fields[i].width)
  }

  function Pack(o: Order, fields: seq<Field>): (s: seq<uint8>)
    ensures |s| == Size(WidthsOf(fields))
    decreases |fields|
  {
    if fields == [] then []
    else
      var front, last := fields[..|fields| - 1], fields[|fields| - 1];
      assert WidthsOf(fields)[..|fields| - 1] == WidthsOf(front);
      Pack(o, front) + Encode(o, last.value, last.width)
  }

  /** Reads fields of the given widths from the front of `s`. */
  function Unpack(o: Order, widths: seq<nat>, s: seq<uint8>): (fields: seq<Field>)
    requires Size(widths) <= |s|
    ensures |fields| == |widths|
    decreases |widths|
  {
    if widths == [] then []
    else
      var front := widths[..|widths| - 1];
      Unpack(o, front, s) + [Field(Value(o, s[Size(front)..Size(widths)]), widths[|widths| - 1])]
  }

  lemma Behind(a: seq<uint8>, b: seq<uint8>, rest: seq<uint8>)
    ensures a + b + rest == a + (b + rest) && (a + b + rest)[|a|..|a| + |b|] == b
  {
  }

  lemma {:induction false} UnpackOfPack(o: Order, fields: seq<Field>, rest: seq<uint8>)
    requires forall i :: 0 <= i < |fields| ==> fields[i].Fits()
    ensures Unpack(o, WidthsOf(fields), Pack(o, fields) + rest) == fields
    decreases |fields|
  {
    if fields != [] {
      var front, last := fields[..|fields| - 1], fields[|fields| - 1];
      var bytes := Encode(o, last.value, last.width);
      assert WidthsOf(fields)[..|fields| - 1] == WidthsOf(front);
      UnpackOfPack(o, front, bytes + rest);
      Behind(Pack(o, front), bytes, rest);
      ValueOfEncode(o, last.value, last.width);
    }
  }

  lemma {:induction false} UnpackFits(o: Order, widths: seq<nat>, s: seq<uint8>)
    requires Size(widths) <= |s|
    ensures var fields := Unpack(o, widths, s);
            WidthsOf(fields) == widths && forall i :: 0 <= i < |fields| ==> fields[i].Fits()
    decreases |widths|
  {
    if widths != [] {
      var front := widths[..|widths| - 1];
      UnpackFits(o, front, s);
      var bytes := s[Size(front)..Size(widths)];
      EncodeOfValue(o, bytes);
      var f := Field(Value(o, bytes), widths[|widths| - 1]);
      assert f.Fits();
      assert Unpack(o, widths, s) == Unpack(o, front, s) + [f];
      assert widths == front + [f.width];
    }
  }

  lemma {:induction false} PackOfUnpack(o: Order, widths: seq<nat>, s: seq<uint8>)
    requires Size(widths) <= |s|
    ensures Pack(o, Unpack(o, widths, s)) == s[..Size(widths)]
    decreases |widths|
  {
    if widths != [] {
      var front := widths[..|widths| - 1];
      var bytes := s[Size(front)..Size(widths)];
      PackOfUnpack(o, front, s);
      EncodeOfValue(o, bytes);
      var f := Field(Value(o, bytes), |bytes|);
      PackAppend(o, Unpack(o, front, s), f);
      assert Unpack(o, widths, s) == Unpack(o, front, s) + [f];
      assert s[..Size(widths)] == s[..Size(front)] + bytes;
    }
  }

  lemma PackAppend(o: Order, fields: seq<Field>, f: Field)
    ensures Pack(o, fields + [f]) == Pack(o, fields) + Encode(o, f.value, f.width)
  {
    assert (fields + [f])[..|fields|] == fields;
  }

  lemma SizeStep(w: seq<nat>, k: nat)
    requires k < |w|
    ensures Size(w[..k + 1]) == Size(w[..k]) + w[k]
  {
    assert w[..k + 1][..k] == w[..k];
  }

  /** Field k is read from its own place in the bytes. */
  lemma {:induction false} UnpackAt(o: Order, widths: seq<nat>, s: seq<uint8>, k: nat)
    requires Size(widths) <= |s| && k < |widths|
    ensures Size(widths[..k]) + widths[k] == Size(widths[..k + 1]) <= Size(widths)
    ensures Unpack(o, widths, s)[k] == Field(Value(o, s[Size(widths[..k])..Size(widths[..k + 1])]), widths[k])
    decreases |widths|
  {
    var n := |widths| - 1;
    SizeStep(widths, k);
    if k < n {
      UnpackAt(o, widths[..n], s, k);
      assert widths[..n][..k] == widths[..k] && widths[..n][..k + 1] == widths[..k + 1];
    } else {
      assert widths[..k + 1] == widths;
    }
  }

  /** Field k of some bytes is the number in its place. */
  predicate Reads(o: Order, s: seq<uint8>, w: seq<nat>, v: seq<nat>, k: nat)
    requires k < |w| == |v|
  {
    Size(w[..k]) + w[k] <= |s| && Value(o, s[Size(w[..k])..Size(w[..k]) + w[k]]) == v[k]
  }

  predicate AllRead(o: Order, s: seq<uint8>, w: seq<nat>, v: seq<nat>) {
    |w| == |v| && forall k :: 0 <= k < |w| ==> Reads(o, s, w, v, k)
  }

  function ValuesOf(f: seq<Field>): (v: seq<nat>)
    ensures |v| == |f|
  {
    seq(|f|, i requires 0 <= i < |f| => f[i].value)
  }

  lemma FieldsAreRead(o: Order, f: seq<Field>, k: nat)
    requires k < |f| && forall i :: 0 <= i < |f| ==> f[i].Fits()
    ensures Reads(o, Pack(o, f), WidthsOf(f), ValuesOf(f), k)
  {
    var s, w := Pack(o, f), WidthsOf(f);
    UnpackOfPack(o, f, []);
    assert s + [] == s;
    UnpackAt(o, w, s, k);
  }

  lemma AllFieldsAreRead(o: Order, f: seq<Field>)
    requires forall i :: 0 <= i < |f| ==> f[i].Fits()
    ensures AllRead(o, Pack(o, f), WidthsOf(f), ValuesOf(f))
  {
    forall k | 0 <= k < |f| ensures Reads(o, Pack(o, f), WidthsOf(f), ValuesOf(f), k) {
      FieldsAreRead(o, f, k);
    }
  }

  /** Writes the next field into a buffer that already holds the packed fields before it. */
  method PutField(buf: array<uint8>, o: Order, ghost before: seq<Field>, at: nat, f: Field)
    requires at == |Pack(o, before)| && at + f.width <= buf.Length
    requires buf[..at] == Pack(o, before)
    modifies buf
    ensures buf[..at + f.width] == Pack(o, before + [f]) && |Pack(o, before + [f])| == at + f.width
  {
    var bytes := Encode(o, f.value, f.width);
    forall i | 0 <= i < f.width {
      buf[at + i] := bytes[i];
    }
    PackAppend(o, before, f);
    assert buf[..at + f.width] == buf[..at] + bytes;
  }
}
