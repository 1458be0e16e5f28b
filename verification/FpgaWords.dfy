/** The register words of the FPGA backend: a packed header and a payload in 4-byte words. */
module FpgaWords {
  import opened PcieTypes
  import opened ByteOrder

  const HEADER_WORDS := 4
  const PAYLOAD_LIMIT := 64
  const WINDOW_WORDS := HEADER_WORDS + PAYLOAD_LIMIT / 4

  // ---------------------------------------------------------------------------------------------
  // Word 0: type, length and requester share 32 bits
  // ---------------------------------------------------------------------------------------------

  function Pow2(n: nat): nat {
    if n == 0 then 1 else 2 * Pow2(n - 1)
  }

  /** Bitwise or. On natural numbers a left shift by n is a multiplication by Pow2(n), a right shift a division. */
  function Or(a: nat, b: nat): nat
    decreases a + b
  {
    if a == 0 && b == 0 then 0
    else 2 * Or(a / 2, b / 2) + (if a % 2 == 1 || b % 2 == 1 then 1 else 0)
  }

  /** The bits of a bitwise or are those set in either number. */
  lemma {:induction false} OrBits(a: nat, b: nat, i: nat)
    ensures Bit(Or(a, b), i) <==> Bit(a, i) || Bit(b, i)
  {
    if a == 0 && b == 0 {
      ZeroBits(i);
    } else if i > 0 {
      assert Or(a, b) / 2 == Or(a / 2, b / 2);
      OrBits(a / 2, b / 2, i - 1);
    }
  }

  lemma OrStep(a: nat, i: nat, b: nat, j: nat)
    requires i < 2 && j < 2
    ensures Or(2 * a + i, 2 * b + j) == 2 * Or(a, b) + (if i == 1 || j == 1 then 1 else 0)
  {
    assert (2 * a + i) / 2 == a && (2 * b + j) / 2 == b;
  }

  /** `a` shifted left by n bits, with the n low bits of `x` below it. */
  function Join(n: nat, a: nat, x: nat): nat {
    if n == 0 then a else 2 * Join(n - 1, a, x / 2) + x % 2
  }

  lemma Double(a: nat, p: nat)
    ensures a * (2 * p) == 2 * (a * p)
  {
  }

  lemma {:induction false} JoinIsSum(n: nat, a: nat, x: nat)
    requires x < Pow2(n)
    ensures Join(n, a, x) == a * Pow2(n) + x
  {
    if n > 0 {
      JoinIsSum(n - 1, a, x / 2);
      Double(a, Pow2(n - 1));
    }
  }

  lemma {:induction false} OrJoin(n: nat, a: nat, x: nat, b: nat, y: nat)
    ensures Or(Join(n, a, x), Join(n, b, y)) == Join(n, Or(a, b), Or(x, y))
  {
    if n > 0 {
      OrJoin(n - 1, a, x / 2, b, y / 2);
      OrStep(Join(n - 1, a, x / 2), x % 2, Join(n - 1, b, y / 2), y % 2);
      OrStep(x / 2, x % 2, y / 2, y % 2);
    }
  }

  lemma {:induction false} OrBound(n: nat, x: nat, y: nat)
    requires x < Pow2(n) && y < Pow2(n)
    ensures Or(x, y) < Pow2(n)
  {
    if n > 0 {
      OrBound(n - 1, x / 2, y / 2);
      OrStep(x / 2, x % 2, y / 2, y % 2);
    }
  }

  /** Bitwise or works on the n low bits and on the bits above them separately. */
  lemma OrLanes(n: nat, a: nat, x: nat, b: nat, y: nat)
    requires x < Pow2(n) && y < Pow2(n)
    ensures Or(a * Pow2(n) + x, b * Pow2(n) + y) == Or(a, b) * Pow2(n) + Or(x, y)
    ensures Or(x, y) < Pow2(n)
  {
    JoinIsSum(n, a, x);
    JoinIsSum(n, b, y);
    OrJoin(n, a, x, b, y);
    OrBound(n, x, y);
    JoinIsSum(n, Or(a, b), Or(x, y));
  }

  lemma {:induction false} OrZero(a: nat)
    ensures Or(a, 0) == a == Or(0, a)
  {
    if a > 0 { OrZero(a / 2); }
  }

  lemma Powers()
    ensures Pow2(8) == 0x100 && Pow2(16) == 0x1_0000 && Pow2(24) == 0x100_0000
  {
    assert Pow2(4) == 16 && Pow2(8) == 16 * Pow2(4);
    assert Pow2(12) == 16 * Pow2(8) && Pow2(16) == 16 * Pow2(12);
    assert Pow2(20) == 16 * Pow2(16) && Pow2(24) == 16 * Pow2(20);
  }

  /** (type << 24) | (length << 16) | requester, in 32 bits. */
  function PackWord0(kind: uint32, length: uint16, requester: uint16): uint32 {
    Or(Or(kind * 0x100_0000 % 0x1_0000_0000, length * 0x1_0000), requester) % 0x1_0000_0000
  }

  /** The low byte of the type, overlaid with the high byte of the length. */
  function Overlay(kind: uint32, length: uint16): uint8 {
    Or(kind % 0x100, length / 0x100) % 0x100
  }

  lemma OverlayOfShort(kind: uint8, length: uint8)
    ensures Overlay(kind, length) == kind
  {
    var high := length / 0x100;
    assert high == 0 && kind % 0x100 == kind;
    OrZero(kind);
  }

  lemma Lanes(k: uint8, h: uint8, m: uint8, r: uint16)
    ensures Or(k, h) < 0x100
    ensures Or(Or(k * 0x100_0000, h * 0x100_0000 + m * 0x1_0000), r) == Or(k, h) * 0x100_0000 + m * 0x1_0000 + r
  {
    TopLane(k, h, m * 0x1_0000);
    var top := Or(k, h) * 0x100 + m;
    BottomLane(top, r);
  }

  lemma TopLane(k: uint8, h: uint8, low: nat)
    requires low < 0x100_0000
    ensures Or(k, h) < 0x100 && Or(k * 0x100_0000, h * 0x100_0000 + low) == Or(k, h) * 0x100_0000 + low
  {
    Powers();
    OrLanes(24, k, 0, h, low);
    OrZero(low);
    OrBound(8, k, h);
  }

  lemma BottomLane(top: nat, r: uint16)
    ensures Or(top * 0x1_0000, r) == top * 0x1_0000 + r
  {
    Powers();
    OrLanes(16, top, 0, 0, r);
    OrZero(top);
    OrZero(r);
  }

  lemma ShiftedKind(kind: uint32)
    ensures kind * 0x100_0000 % 0x1_0000_0000 == kind % 0x100 * 0x100_0000
  {
  }

  lemma ShiftedLength(length: uint16)
    ensures length / 0x100 < 0x100
    ensures length * 0x1_0000 == length / 0x100 * 0x100_0000 + length % 0x100 * 0x1_0000
  {
  }

  lemma Word0Lanes(kind: uint32, length: uint16, requester: uint16)
    ensures PackWord0(kind, length, requester) ==
            Overlay(kind, length) * 0x100_0000 + (length % 0x100) * 0x1_0000 + requester
  {
    var k, h, m := kind % 0x100, length / 0x100, length % 0x100;
    ShiftedKind(kind);
    ShiftedLength(length);
    Lanes(k, h, m, requester);
  }

  lemma SplitLanes(top: uint8, mid: uint8, low: uint16)
    ensures var w := top * 0x100_0000 + mid * 0x1_0000 + low;
            w / 0x100_0000 == top && w / 0x1_0000 % 0x100 == mid && w % 0x1_0000 == low
  {
  }

  /** What comes back of the fields of word 0. */
  lemma Word0RoundTrip(kind: uint32, length: uint16, requester: uint16)
    ensures var w := PackWord0(kind, length, requester);
            && w / 0x100_0000 == Overlay(kind, length)
            && w / 0x1_0000 % 0x100 == length % 0x100
            && w % 0x1_0000 == requester
  {
    Word0Lanes(kind, length, requester);
    SplitLanes(Overlay(kind, length), length % 0x100, requester);
  }

  // ---------------------------------------------------------------------------------------------
  // The two backend operations, over a window of words
  // ---------------------------------------------------------------------------------------------

  /** Bytes i.. of the payload as the next data word: up to four of them, in little-endian memory order. */
  function DataWord(bytes: seq<uint8>, i: nat): (w: uint32)
    requires i < |bytes|
  {
    var chunk := bytes[i..Min(i + 4, |bytes|)];
    EncodeOfValue(LittleEndian, chunk);
    ChunkWidth(|chunk|);
    Value(LittleEndian, chunk)
  }

  lemma ChunkWidth(n: nat)
    requires n <= 4
    ensures Pow256(n) <= 0x1_0000_0000
  {
    Widths();
    assert Pow256(3) == 0x100 * Pow256(2);
  }

  /** The window after a send: four header words, the data words, and the rest as it was. */
  function Sent(window: seq<uint32>, t: Tlp): (r: seq<uint32>)
    requires |window| == WINDOW_WORDS && t.Valid()
    ensures |r| == WINDOW_WORDS
  {
    seq(WINDOW_WORDS, k requires 0 <= k < WINDOW_WORDS => SentWord(window, t, k))
  }

  function SentWord(window: seq<uint32>, t: Tlp, k: nat): uint32
    requires |window| == WINDOW_WORDS && t.Valid() && k < WINDOW_WORDS
  {
    if k == 0 then PackWord0(t.kind, t.length, t.requesterId)
    else if k == 1 then t.addr % 0x1_0000_0000
    else if k == 2 then t.addr / 0x1_0000_0000
    else if k == 3 then t.tag
    else if t.data.Bytes? && 4 * (k - HEADER_WORDS) < t.length then DataWord(t.data.bytes, 4 * (k - HEADER_WORDS))
    else window[k]
  }

  /** `ready` says whether the device became ready before the timeout. */
  method Send(window: array<uint32>, t: Tlp, ready: bool) returns (rc: int)
    requires window.Length == WINDOW_WORDS && t.Valid()
    modifies window
    ensures rc == if ready then 0 else -1
    ensures window[..] == if ready then Sent(old(window[..]), t) else old(window[..])
    ensures ready ==> HoldsTlp(window[..], old(window[..]), t)
  {
    SentHolds(window[..], t);
    if !ready {
      return -1;
    }
    window[0] := PackWord0(t.kind, t.length, t.requesterId);
    window[1] := t.addr % 0x1_0000_0000;
    window[2] := t.addr / 0x1_0000_0000;
    window[3] := t.tag;
    if t.length > 0 && t.data.Bytes? {
      var i := 0;
      while i < t.length && i < PAYLOAD_LIMIT
        invariant i % 4 == 0 && 0 <= i <= PAYLOAD_LIMIT
        invariant forall k :: 0 <= k < HEADER_WORDS + i / 4 ==> window[k] == Sent(old(window[..]), t)[k]
        invariant forall k :: HEADER_WORDS + i / 4 <= k < WINDOW_WORDS ==> window[k] == old(window[k])
        decreases PAYLOAD_LIMIT - i
      {
        assert SentWord(old(window[..]), t, HEADER_WORDS + i / 4) == DataWord(t.data.bytes, i);
        window[HEADER_WORDS + i / 4] := DataWord(t.data.bytes, i);
        i := i + 4;
      }
    }
    return 0;
  }

  /** Byte k of a word, the low byte first. */
  function WordByte(w: nat, k: nat): nat {
    if k == 0 then w % 0x100
    else if k == 1 then w / 0x100 % 0x100
    else if k == 2 then w / 0x1_0000 % 0x100
    else w / 0x100_0000 % 0x100
  }

  /** The words of a TLP: its requester, length and type in the first, then its address, tag and payload bytes. */
  predicate HoldsTlp(w: seq<uint32>, before: seq<uint32>, t: Tlp)
    requires |w| == |before| == 20 && t.Valid()
  {
    && w[0] % 0x1_0000 == t.requesterId && w[0] / 0x1_0000 % 0x100 == t.length % 0x100
    && TypeByte(w[0] / 0x100_0000, t)
    && w[1] == t.addr % 0x1_0000_0000 && w[2] == t.addr / 0x1_0000_0000 && w[3] == t.tag
    && forall j :: 0 <= j < 64 ==> HoldsByte(w, before, t, j)
  }

  /** The bits of the type, and of the high byte of the length over them. */
  predicate TypeByte(n: nat, t: Tlp) {
    n < 0x100 && forall i :: 0 <= i < 8 ==> (Bit(n, i) <==> Bit(t.kind % 0x100, i) || Bit(t.length / 0x100, i))
  }

  /** Payload byte j, a zero behind it in its word, or what was there before. */
  predicate HoldsByte(w: seq<uint32>, before: seq<uint32>, t: Tlp, j: nat)
    requires |w| == |before| == 20 && t.Valid() && j < 64
  {
    if t.data.Bytes? && j / 4 * 4 < t.length then
      WordByte(w[4 + j / 4], j % 4) == if j < t.length then t.data.bytes[j] else 0
    else w[4 + j / 4] == before[4 + j / 4]
  }

  lemma EncodeIs(w: nat, k: nat)
    requires k < 4
    ensures Encode(LittleEndian, w, 4)[k] == WordByte(w, k)
  {
    assert Encode(LittleEndian, w, 4) == [w % 0x100] + Encode(LittleEndian, w / 0x100, 3);
    assert Encode(LittleEndian, w / 0x100, 3) == [w / 0x100 % 0x100] + Encode(LittleEndian, w / 0x100 / 0x100, 2);
    var v := w / 0x100 / 0x100;
    assert Encode(LittleEndian, v, 2) == [v % 0x100] + Encode(LittleEndian, v / 0x100, 1);
    assert Encode(LittleEndian, v / 0x100, 1) == [v / 0x100 % 0x100] + Encode(LittleEndian, v / 0x100 / 0x100, 0);
    assert v == w / 0x1_0000 && v / 0x100 == w / 0x100_0000;
  }

  /** Behind a partial last chunk the word is zero. */
  lemma {:induction false} ZeroBehind(v: nat, n: nat, k: nat, total: nat)
    requires v < Pow256(n) && n <= k < total
    ensures Encode(LittleEndian, v, total)[k] == 0
    decreases total
  {
    if n > 0 {
      assert v / 0x100 < Pow256(n - 1);
      ZeroBehind(v / 0x100, n - 1, k - 1, total - 1);
    } else if k > 0 {
      ZeroBehind(0, 0, k - 1, total - 1);
    }
  }

  lemma SentByteHolds(window: seq<uint32>, t: Tlp, j: nat)
    requires |window| == 20 && t.Valid() && j < 64
    ensures HoldsByte(Sent(window, t), window, t, j)
  {
    var q, w := j / 4, Sent(window, t);
    if t.data.Bytes? && 4 * q < t.length {
      var chunk := t.data.bytes[4 * q..Min(4 * q + 4, t.length)];
      assert w[4 + q] == DataWord(t.data.bytes, 4 * q) == Value(LittleEndian, chunk);
      EncodeIs(w[4 + q], j % 4);
      EncodeOfValue(LittleEndian, chunk);
      if j < t.length {
        ChunkByte(chunk, j % 4, 4);
      } else {
        ZeroBehind(Value(LittleEndian, chunk), |chunk|, j % 4, 4);
      }
    }
  }

  lemma SentHolds(window: seq<uint32>, t: Tlp)
    requires |window| == 20 && t.Valid()
    ensures HoldsTlp(Sent(window, t), window, t)
  {
    Word0RoundTrip(t.kind, t.length, t.requesterId);
    OverlayIs(t);
    forall j | 0 <= j < 64 ensures HoldsByte(Sent(window, t), window, t, j) {
      SentByteHolds(window, t, j);
    }
  }

  lemma OverlayIs(t: Tlp)
    ensures TypeByte(Overlay(t.kind, t.length), t)
  {
    OverlayIsOr(t.kind, t.length);
    BitsOfOr(t.kind % 0x100, t.length / 0x100);
  }

  lemma OverlayIsOr(kind: uint32, length: uint16)
    ensures Overlay(kind, length) == Or(kind % 0x100, length / 0x100)
  {
    OrOfBytes(kind % 0x100, length / 0x100);
  }

  lemma OrOfBytes(a: uint8, b: uint8)
    ensures Or(a, b) % 0x100 == Or(a, b)
  {
    Powers();
    OrBound(8, a, b);
  }

  lemma BitsOfOr(a: nat, b: nat)
    ensures forall i :: 0 <= i < 8 ==> (Bit(Or(a, b), i) <==> Bit(a, i) || Bit(b, i))
  {
    forall i | 0 <= i < 8 ensures Bit(Or(a, b), i) <==> Bit(a, i) || Bit(b, i) {
      OrBits(a, b, i);
    }
  }

  /** The header fields a receiver reads; it leaves the completer it had, and the payload is separate. */
  function ReceivedHeader(window: seq<uint32>, before: Tlp): Tlp
    requires |window| == WINDOW_WORDS
  {
    var lo: int, hi: int := window[1], window[2];
    Tlp(window[0] / 0x100_0000 % 0x100, window[0] % 0x1_0000, before.completerId, window[3] % 0x100,
        window[0] / 0x1_0000 % 0x100, 0x1_0000_0000 * hi + lo, Missing)
  }

  /** Byte j of the payload words. */
  function ReceivedByte(window: seq<uint32>, j: nat): uint8
    requires |window| == WINDOW_WORDS && j < PAYLOAD_LIMIT
  {
    Encode(LittleEndian, window[HEADER_WORDS + j / 4], 4)[j % 4]
  }

  /**
   `available` is the status bit, `oom` says that the payload allocation fails. Bytes beyond the 64 the
   window holds are left as the allocation found them.
   */
  method Recv(window: array<uint32>, before: Tlp, available: bool, oom: bool)
    returns (rc: int, header: Tlp, payload: array?<uint8>)
    requires window.Length == WINDOW_WORDS
    ensures rc == if available then 0 else -1
    ensures rc == 0 ==> header == ReceivedHeader(window[..], before)
    ensures rc == 0 && header.length > 0 && !oom ==> payload != null && payload.Length == header.length
    ensures payload != null ==>
              forall j :: 0 <= j < payload.Length && j < PAYLOAD_LIMIT ==> payload[j] == ReceivedByte(window[..], j)
  {
    header, payload := before, null;
    if !available {
      return -1, header, payload;
    }
    header := ReceivedHeader(window[..], before);
    if header.length > 0 && !oom {
      payload := new uint8[header.length];
      ReadPayload(window, payload);
    }
    return 0, header, payload;
  }

  /** The payload loop: a word at a time, of the last one only as many bytes as remain. */
  method ReadPayload(window: array<uint32>, payload: array<uint8>)
    requires window.Length == WINDOW_WORDS
    modifies payload
    ensures payload[..] == ReceivedPayload(window[..], old(payload[..]))
  {
    ghost var words := window[..];
    var i := 0;
    while i < payload.Length && i < PAYLOAD_LIMIT
      invariant i % 4 == 0 && 0 <= i <= PAYLOAD_LIMIT && window[..] == words
      invariant forall j :: 0 <= j < i && j < payload.Length ==> payload[j] == ReceivedByte(words, j)
      invariant forall j :: i <= j < payload.Length ==> payload[j] == old(payload[j])
      decreases PAYLOAD_LIMIT - i
    {
      var word := Encode(LittleEndian, window[HEADER_WORDS + i / 4], 4);
      var bytesToCopy := if payload.Length - i >= 4 then 4 else payload.Length - i;
      WordBytes(words, i);
      forall j | i <= j < i + bytesToCopy {
        payload[j] := word[j - i];
      }
      i := i + 4;
    }
  }

  lemma WordBytes(window: seq<uint32>, i: nat)
    requires |window| == WINDOW_WORDS && i % 4 == 0 && i < PAYLOAD_LIMIT
    ensures forall j :: i <= j < i + 4 && j < PAYLOAD_LIMIT ==>
                          ReceivedByte(window, j) == Encode(LittleEndian, window[HEADER_WORDS + i / 4], 4)[j - i]
  {
    forall j | i <= j < i + 4 && j < PAYLOAD_LIMIT
      ensures ReceivedByte(window, j) == Encode(LittleEndian, window[HEADER_WORDS + i / 4], 4)[j - i]
    {
      assert j / 4 == i / 4 && j % 4 == j - i;
    }
  }

  // ---------------------------------------------------------------------------------------------
  // Loopback
  // ---------------------------------------------------------------------------------------------

  /** The low bytes of a longer number are the number encoded shorter. */
  lemma {:induction false} EncodePrefix(w: nat, n: nat, k: nat)
    requires n <= k
    ensures Encode(LittleEndian, w, k)[..n] == Encode(LittleEndian, w, n)
    decreases k
  {
    if n > 0 {
      EncodePrefix(w / 0x100, n - 1, k - 1);
      assert Encode(LittleEndian, w, k)[..n] == [w % 0x100] + Encode(LittleEndian, w / 0x100, k - 1)[..n - 1];
    }
  }

  /** A byte of a chunk survives in a number of at least as many bytes. */
  lemma ChunkByte(chunk: seq<uint8>, k: nat, total: nat)
    requires k < |chunk| <= total
    ensures Encode(LittleEndian, Value(LittleEndian, chunk), total)[k] == chunk[k]
  {
    var w := Value(LittleEndian, chunk);
    EncodeOfValue(LittleEndian, chunk);
    EncodePrefix(w, |chunk|, total);
    assert Encode(LittleEndian, w, total)[..|chunk|][k] == chunk[k];
  }

  /** Every payload byte that fits the window comes back, the 1 to 3 bytes of a partial last word included. */
  lemma PayloadRoundTrip(window: seq<uint32>, t: Tlp, j: nat)
    requires |window| == WINDOW_WORDS && t.Valid() && t.data.Bytes? && j < t.length && j < PAYLOAD_LIMIT
    ensures ReceivedByte(Sent(window, t), j) == t.data.bytes[j]
  {
    var q, k := j / 4, j % 4;
    var chunk := t.data.bytes[4 * q..Min(4 * q + 4, t.length)];
    assert Sent(window, t)[HEADER_WORDS + q] == DataWord(t.data.bytes, 4 * q) == Value(LittleEndian, chunk);
    ChunkByte(chunk, k, 4);
  }

  lemma Halves(n: uint64)
    ensures 0x1_0000_0000 * (n / 0x1_0000_0000) + n % 0x1_0000_0000 == n
  {
  }

  lemma HeaderOfWords(w: seq<uint32>, before: Tlp, kind: uint8, length: uint8, requester: uint16, tag: uint8,
                      addr: uint64)
    requires |w| == WINDOW_WORDS
    requires w[0] / 0x100_0000 == kind && w[0] / 0x1_0000 % 0x100 == length && w[0] % 0x1_0000 == requester
    requires w[1] == addr % 0x1_0000_0000 && w[2] == addr / 0x1_0000_0000 && w[3] == tag
    ensures ReceivedHeader(w, before) == Tlp(kind, requester, before.completerId, tag, length, addr, Missing)
  {
    Halves(addr);
  }

  lemma HeaderLoopback(window: seq<uint32>, t: Tlp, before: Tlp)
    requires |window| == WINDOW_WORDS && t.Valid()
    ensures ReceivedHeader(Sent(window, t), before) ==
            Tlp(Overlay(t.kind, t.length), t.requesterId, before.completerId, t.tag, t.length % 0x100, t.addr, Missing)
  {
    Word0RoundTrip(t.kind, t.length, t.requesterId);
    HeaderOfWords(Sent(window, t), before, Overlay(t.kind, t.length), t.length % 0x100, t.requesterId, t.tag, t.addr);
  }

  /**
   What a receiver gets when its window holds what was sent, for every length: the type overlaid with the
   high length byte, the length modulo 256, and everything else as it was.
   */
  lemma Loopback(window: seq<uint32>, t: Tlp, before: Tlp)
    requires |window| == WINDOW_WORDS && t.Valid()
    ensures ReceivedHeader(Sent(window, t), before) ==
            t.(kind := Overlay(t.kind, t.length), length := t.length % 0x100, completerId := before.completerId,
               data := Missing)
    ensures forall j: nat :: j < t.length % 0x100 && j < PAYLOAD_LIMIT && t.data.Bytes? ==>
                               ReceivedByte(Sent(window, t), j) == t.data.bytes[j]
  {
    HeaderLoopback(window, t, before);
    forall j: nat | j < t.length % 0x100 && j < PAYLOAD_LIMIT && t.data.Bytes?
      ensures ReceivedByte(Sent(window, t), j) == t.data.bytes[j]
    {
      PayloadRoundTrip(window, t, j);
    }
  }

  /** Type and length survive exactly when both fit a byte. */
  lemma LoopbackRestoresIff(window: seq<uint32>, t: Tlp, before: Tlp)
    requires |window| == WINDOW_WORDS && t.Valid()
    ensures var r := ReceivedHeader(Sent(window, t), before);
            r.kind == t.kind && r.length == t.length <==> t.kind < 0x100 && t.length < 0x100
  {
    Loopback(window, t, before);
    if t.kind < 0x100 && t.length < 0x100 {
      OverlayOfShort(t.kind, t.length);
    }
  }

  // ---------------------------------------------------------------------------------------------
  // When the payload survives
  // ---------------------------------------------------------------------------------------------

  /** What a receiver holds as payload, given what its allocation held. */
  function ReceivedPayload(window: seq<uint32>, stale: seq<uint8>): (p: seq<uint8>)
    requires |window| == WINDOW_WORDS
    ensures |p| == |stale|
  {
    seq(|stale|, j requires 0 <= j < |stale| =>
      if j < PAYLOAD_LIMIT then ReceivedByte(window, j) else stale[j])
  }

  /** The payload is the one sent, whatever the receiver's allocation held, exactly if it fits the window. */
  lemma PayloadSurvivesIff(window: seq<uint32>, t: Tlp)
    requires |window| == WINDOW_WORDS && t.Valid() && t.data.Bytes?
    ensures (forall stale: seq<uint8> | |stale| == t.length % 0x100 ::
               ReceivedPayload(Sent(window, t), stale) == t.data.bytes)
            <==> t.length <= PAYLOAD_LIMIT
  {
    var w := Sent(window, t);
    if t.length <= PAYLOAD_LIMIT {
      forall stale: seq<uint8> | |stale| == t.length % 0x100 ensures ReceivedPayload(w, stale) == t.data.bytes {
        ShortPayload(window, t, stale);
      }
    } else {
      var last := if t.length < 0x100 then t.data.bytes[t.length - 1] else 0;
      LongPayload(w, t, seq(t.length % 0x100, _ => if last == 0 then 1 else 0));
    }
  }

  lemma ShortPayload(window: seq<uint32>, t: Tlp, stale: seq<uint8>)
    requires |window| == WINDOW_WORDS && t.Valid() && t.data.Bytes?
    requires t.length <= PAYLOAD_LIMIT && |stale| == t.length
    ensures ReceivedPayload(Sent(window, t), stale) == t.data.bytes
  {
    forall j | 0 <= j < t.length ensures ReceivedByte(Sent(window, t), j) == t.data.bytes[j] {
      PayloadRoundTrip(window, t, j);
    }
  }

  lemma LongPayload(w: seq<uint32>, t: Tlp, stale: seq<uint8>)
    requires |w| == WINDOW_WORDS && t.Valid() && t.data.Bytes? && t.length > PAYLOAD_LIMIT
    requires |stale| == t.length % 0x100
    requires t.length < 0x100 ==> stale[t.length - 1] != t.data.bytes[t.length - 1]
    ensures ReceivedPayload(w, stale) != t.data.bytes
  {
    if t.length < 0x100 {
      assert ReceivedPayload(w, stale)[t.length - 1] == stale[t.length - 1];
    }
  }

  /** Without data to send, a receiver takes the payload words of the window as they were. */
  lemma MissingPayloadIsStale(window: seq<uint32>, t: Tlp, j: nat)
    requires |window| == WINDOW_WORDS && t.Valid() && t.data.Missing? && j < PAYLOAD_LIMIT
    ensures ReceivedByte(Sent(window, t), j) == ReceivedByte(window, j)
  {
    assert Sent(window, t)[HEADER_WORDS + j / 4] == window[HEADER_WORDS + j / 4];
  }
}
