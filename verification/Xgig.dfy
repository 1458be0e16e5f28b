/** The byte stream of the Xgig backend: a 16-byte big-endian header, then the payload. */
module Xgig {
  import opened PcieTypes
  import opened ByteOrder
  import opened Framing

  const HEADER_SIZE := 16

  /** The header fields in wire order; the low half of the address comes before the high half. */
  function HeaderFields(t: Tlp): seq<Field> {
    [Field(t.kind % 0x100, 1), Field(t.requesterId, 2), Field(t.completerId, 2), Field(t.tag, 1),
     Field(t.length, 2), Field(t.addr % 0x1_0000_0000, 4), Field(t.addr / 0x1_0000_0000, 4)]
  }

  const HEADER_WIDTHS: seq<nat> := [1, 2, 2, 1, 2, 4, 4]

  lemma HeaderLayout(t: Tlp)
    ensures WidthsOf(HeaderFields(t)) == HEADER_WIDTHS && Size(HEADER_WIDTHS) == HEADER_SIZE
    ensures forall i :: 0 <= i < 7 ==> HeaderFields(t)[i].Fits()
  {
    Widths();
    var ws := HEADER_WIDTHS;
    assert ws[..6] == [1, 2, 2, 1, 2, 4] && ws[..6][..5] == [1, 2, 2, 1, 2] && ws[..6][..5][..4] == [1, 2, 2, 1];
    assert [1, 2, 2, 1][..3] == [1, 2, 2] && [1, 2, 2][..2] == [1, 2] && [1, 2][..1] == [1];
    assert Size([1, 2, 2, 1]) == 6;
  }

  function HeaderOf(t: Tlp): (h: seq<uint8>)
    ensures |h| == HEADER_SIZE
  {
    HeaderLayout(t);
    Pack(BigEndian, HeaderFields(t))
  }

  /**
   The header byte by byte: the type, then requester, completer, tag, length, the low and the high half of the
   address, each with its high byte first.
   */
  predicate HeaderBytes(h: seq<uint8>, t: Tlp) {
    && |h| == 16
    && h[0] == t.kind % 0x100
    && Big2(h[1], h[2]) == t.requesterId
    && Big2(h[3], h[4]) == t.completerId
    && h[5] == t.tag
    && Big2(h[6], h[7]) == t.length
    && Big4(h[8], h[9], h[10], h[11]) == t.addr % 0x1_0000_0000
    && Big4(h[12], h[13], h[14], h[15]) == t.addr / 0x1_0000_0000
  }

  /** Where the fields lie. */
  predicate Places(w: seq<nat>) {
    && |w| == 7 && w[0] == 1 && w[1] == 2 && w[2] == 2 && w[3] == 1 && w[4] == 2 && w[5] == 4 && w[6] == 4
    && Size(w[..0]) == 0 && Size(w[..1]) == 1 && Size(w[..2]) == 3 && Size(w[..3]) == 5 && Size(w[..4]) == 6
    && Size(w[..5]) == 8 && Size(w[..6]) == 12
  }

  lemma HeaderPlaces(w: seq<nat>)
    requires |w| == 7 && w[0] == 1 && w[1] == 2 && w[2] == 2 && w[3] == 1 && w[4] == 2 && w[5] == 4 && w[6] == 4
    ensures Places(w)
  {
    assert w[..0] == [];
    SizeStep(w, 0);
    SizeStep(w, 1);
    SizeStep(w, 2);
    SizeStep(w, 3);
    SizeStep(w, 4);
    SizeStep(w, 5);
  }

  lemma HeaderIsLaid(t: Tlp)
    ensures HeaderBytes(HeaderOf(t), t)
  {
    var f := HeaderFields(t);
    HeaderLayout(t);
    AllFieldsAreRead(BigEndian, f);
    HeaderPlaces(WidthsOf(f));
    LaidOut(HeaderOf(t), WidthsOf(f), ValuesOf(f));
  }

  lemma LaidOut(h: seq<uint8>, w: seq<nat>, v: seq<nat>)
    requires |h| == 16 && Places(w) && AllRead(BigEndian, h, w, v)
    ensures h[0] == v[0] && Big2(h[1], h[2]) == v[1] && Big2(h[3], h[4]) == v[2] && h[5] == v[3]
    ensures Big2(h[6], h[7]) == v[4]
    ensures Big4(h[8], h[9], h[10], h[11]) == v[5] && Big4(h[12], h[13], h[14], h[15]) == v[6]
  {
    assert Reads(BigEndian, h, w, v, 0) && Reads(BigEndian, h, w, v, 1) && Reads(BigEndian, h, w, v, 2);
    assert Reads(BigEndian, h, w, v, 3) && Reads(BigEndian, h, w, v, 4) && Reads(BigEndian, h, w, v, 5);
    assert Reads(BigEndian, h, w, v, 6);
    OneByte(BigEndian, h[0..1]);
    BigTwo(h[1..3]);
    BigTwo(h[3..5]);
    OneByte(BigEndian, h[5..6]);
    BigTwo(h[6..8]);
    BigFour(h[8..12]);
    BigFour(h[12..16]);
  }

  /** What a TLP puts on the wire: its header, and its payload if it has one. */
  function Frame(t: Tlp): (f: seq<uint8>)
    ensures Sendable(t) ==> |f| == HEADER_SIZE + t.length
  {
    HeaderOf(t) + if t.length > 0 && t.data.Bytes? then t.data.bytes else []
  }

  /** A TLP with a payload if it has a length: all that `Send` asks of it. */
  predicate Complete(t: Tlp) {
    t.Valid() && (t.length > 0 ==> t.data.Bytes?)
  }

  predicate AllComplete(ts: seq<Tlp>) {
    All(Complete, ts)
  }

  /** A complete TLP whose every field has a place in the frame: a one-byte type. */
  predicate Sendable(t: Tlp) {
    t.kind < 0x100 && Complete(t)
  }

  /** A sendable TLP in the form a receiver builds: a null pointer exactly when there is no payload. */
  predicate WellFormed(t: Tlp) {
    Sendable(t) && (t.length == 0 ==> t.data.Missing?)
  }

  predicate AllWellFormed(ts: seq<Tlp>) {
    All(WellFormed, ts)
  }

  function Frames(ts: seq<Tlp>): seq<uint8> {
    Concat(Frame, ts)
  }

  /** A complete TLP as a receiver builds it, with the low byte of its type. */
  function Received(t: Tlp): Tlp {
    t.(kind := t.kind % 0x100, data := if t.length == 0 then Missing else t.data)
  }

  function AllReceived(ts: seq<Tlp>): (rs: seq<Tlp>)
    ensures |rs| == |ts|
  {
    seq(|ts|, i requires 0 <= i < |ts| => Received(ts[i]))
  }

  /** A clean stream is the frames of what was sent; one that is not holds more. */
  ghost predicate Carries(stream: seq<uint8>, sent: seq<Tlp>, clean: bool) {
    && AllComplete(sent)
    && if clean then stream == Frames(sent) else |stream| > |Frames(sent)|
  }

  lemma WholeFrame(stream: seq<uint8>, sent: seq<Tlp>, clean: bool, t: Tlp)
    requires Carries(stream, sent, clean) && Complete(t)
    ensures Carries(stream + Frame(t), sent + [t], clean)
  {
    ConcatAppend(Frame, sent, t);
  }

  lemma PartOfFrame(stream: seq<uint8>, sent: seq<Tlp>, clean: bool, part: seq<uint8>, whole: seq<uint8>)
    requires Carries(stream, sent, clean) && part <= whole
    ensures Carries(stream + part, sent, clean && part == [])
    ensures stream <= stream + part <= stream + whole
  {
  }

  /** Header and payload, sent one after the other, are parts of the frame. */
  lemma PartsOfFrame(stream: seq<uint8>, t: Tlp, k: nat)
    requires t.Valid() && t.data.Bytes? && t.length > 0 && k <= t.length
    ensures stream + HeaderOf(t) + t.data.bytes[..k] == stream + (HeaderOf(t) + t.data.bytes[..k])
    ensures HeaderOf(t) + t.data.bytes[..k] <= Frame(t)
    ensures k == t.length ==> HeaderOf(t) + t.data.bytes[..k] == Frame(t)
  {
    assert t.data.bytes[..t.length] == t.data.bytes;
  }

  /** A stream with one more packet, byte by byte. */
  predicate AddsFrame(before: seq<uint8>, stream: seq<uint8>, t: Tlp) {
    && |stream| == |before| + 16 + t.length
    && before <= stream
    && HeaderBytes(stream[|before|..|before| + 16], t)
    && (t.length > 0 ==> t.data.Bytes? && stream[|before| + 16..] == t.data.bytes)
  }

  lemma FrameIsAdded(start: seq<uint8>, t: Tlp)
    requires Complete(t)
    ensures AddsFrame(start, start + Frame(t), t)
  {
    var payload := if t.length > 0 then t.data.bytes else [];
    HeaderIsLaid(t);
    PartsAt(start, HeaderOf(t), payload);
    AddedFrame(start, HeaderOf(t), payload, t);
  }

  lemma PartsAt(start: seq<uint8>, h: seq<uint8>, payload: seq<uint8>)
    ensures var stream := start + (h + payload);
            && |stream| == |start| + |h| + |payload| && start <= stream
            && stream[|start|..|start| + |h|] == h && stream[|start| + |h|..] == payload
  {
  }

  lemma AddedFrame(start: seq<uint8>, h: seq<uint8>, payload: seq<uint8>, t: Tlp)
    requires HeaderBytes(h, t) && |payload| == t.length && (t.length > 0 ==> t.data == Bytes(payload))
    ensures AddsFrame(start, start + (h + payload), t)
  {
    PartsAt(start, h, payload);
  }

  class Connection {
    var stream: seq<uint8>

    /** The TLPs sent with success, and whether no send stopped inside a frame. */
    ghost var sent: seq<Tlp>
    ghost var clean: bool

    ghost predicate Valid()
      reads this
    {
      Carries(stream, sent, clean)
    }

    constructor ()
      ensures Valid() && clean && sent == [] && stream == []
    {
      stream, sent, clean := [], [], true;
    }

    /**
     `connected` is the outcome of the connection attempt, `sentHeader` and `sentPayload` what the two
     socket calls return. A stream that was clean stays so exactly when the whole frame or nothing went out.
     */
    method Send(t: Tlp, connected: bool, sentHeader: int, sentPayload: int) returns (rc: int)
      requires Valid() && t.Valid()
      requires sentHeader <= HEADER_SIZE && sentPayload <= t.length
      modifies this
      ensures Valid()
      ensures rc == if connected && sentHeader == HEADER_SIZE
                       && (t.length == 0 || (t.data.Bytes? && sentPayload == t.length)) then 0 else -1
      ensures rc == 0 ==> stream == old(stream) + Frame(t) && sent == old(sent) + [t]
      ensures rc == 0 ==> AddsFrame(old(stream), stream, t)
      ensures rc != 0 ==> sent == old(sent) && old(stream) <= stream <= old(stream) + Frame(t)
      ensures clean <==> old(clean) && (rc == 0 || stream == old(stream))
      ensures old(clean) && connected && sentHeader == HEADER_SIZE && sentPayload == t.length ==>
                (clean <==> t.length == 0 || t.data.Bytes?)
    {
      if !connected {
        return -1;
      }
      var header := FillHeader(t);
      ghost var start, head := stream, HeaderOf(t);
      stream := stream + header[..Max(sentHeader, 0)];
      assert header[..HEADER_SIZE] == head;
      if sentHeader != HEADER_SIZE {
        PartOfFrame(start, sent, clean, head[..Max(sentHeader, 0)], Frame(t));
        clean := clean && stream == start;
        return -1;
      }
      if t.length > 0 {
        if t.data.Missing? {
          PartOfFrame(start, sent, clean, head, Frame(t));
          clean := false;
          return -1;
        }
        PartsOfFrame(start, t, Max(sentPayload, 0));
        stream := stream + t.data.bytes[..Max(sentPayload, 0)];
        if sentPayload != t.length {
          PartOfFrame(start, sent, clean, head + t.data.bytes[..Max(sentPayload, 0)], Frame(t));
          clean := false;
          return -1;
        }
      }
      assert stream == start + Frame(t);
      FrameIsAdded(start, t);
      WholeFrame(start, sent, clean, t);
      sent := sent + [t];
      return 0;
    }

    /** A receiver recovers exactly what was sent, in every state in which the stream is clean and in no other. */
    lemma RecoveredIffClean()
      requires Valid()
      ensures Decode(stream) == Some(AllReceived(sent)) <==> clean
    {
      DecodedIff(stream, sent);
    }
  }

  method FillHeader(t: Tlp) returns (header: array<uint8>)
    ensures fresh(header) && header[..] == HeaderOf(t) && HeaderBytes(header[..], t)
  {
    HeaderIsLaid(t);
    header := new uint8[HEADER_SIZE];
    var f := HeaderFields(t);
    PutField(header, BigEndian, [], 0, f[0]);
    PutField(header, BigEndian, [f[0]], 1, f[1]);
    PutField(header, BigEndian, [f[0]] + [f[1]], 3, f[2]);
    PutField(header, BigEndian, [f[0]] + [f[1]] + [f[2]], 5, f[3]);
    PutField(header, BigEndian, [f[0]] + [f[1]] + [f[2]] + [f[3]], 6, f[4]);
    PutField(header, BigEndian, [f[0]] + [f[1]] + [f[2]] + [f[3]] + [f[4]], 8, f[5]);
    PutField(header, BigEndian, [f[0]] + [f[1]] + [f[2]] + [f[3]] + [f[4]] + [f[5]], 12, f[6]);
    assert [f[0]] + [f[1]] + [f[2]] + [f[3]] + [f[4]] + [f[5]] + [f[6]] == f;
    assert header[..] == header[..HEADER_SIZE];
  }

  // ---------------------------------------------------------------------------------------------
  // A receiver for the frames
  // ---------------------------------------------------------------------------------------------

  /** The TLP at the front of the stream, unless the stream ends inside it. */
  function DecodeOne(s: seq<uint8>): Option<Front<Tlp>> {
    if |s| < HEADER_SIZE then None
    else
      var f := ReadHeader(s);
      var n := HEADER_SIZE + f[4].value;
      if |s| < n then None
      else Some(Front(FromFields(f, if n == HEADER_SIZE then Missing else Bytes(s[HEADER_SIZE..n])), n))
  }

  function ReadHeader(s: seq<uint8>): (f: seq<Field>)
    requires HEADER_SIZE <= |s|
    ensures IsHeader(f) && Pack(BigEndian, f) == s[..HEADER_SIZE]
  {
    HeaderLayout(Tlp(0, 0, 0, 0, 0, 0, Missing));
    UnpackFits(BigEndian, HEADER_WIDTHS, s);
    PackOfUnpack(BigEndian, HEADER_WIDTHS, s);
    Unpack(BigEndian, HEADER_WIDTHS, s)
  }

  predicate IsHeader(f: seq<Field>) {
    WidthsOf(f) == HEADER_WIDTHS && forall i :: 0 <= i < |f| ==> f[i].Fits()
  }

  lemma HeaderRanges(f: seq<Field>)
    requires IsHeader(f)
    ensures |f| == 7 && f[0].value < 0x100 && f[1].value < 0x1_0000 && f[2].value < 0x1_0000 && f[3].value < 0x100
    ensures f[4].value < 0x1_0000 && f[5].value < 0x1_0000_0000 && f[6].value < 0x1_0000_0000
    ensures f == [Field(f[0].value, 1), Field(f[1].value, 2), Field(f[2].value, 2), Field(f[3].value, 1),
                  Field(f[4].value, 2), Field(f[5].value, 4), Field(f[6].value, 4)]
  {
    Widths();
    assert forall i :: 0 <= i < 7 ==> f[i].width == HEADER_WIDTHS[i];
  }

  function FromFields(f: seq<Field>, data: Payload): (t: Tlp)
    requires IsHeader(f)
    ensures HeaderFields(t) == f && t.data == data
  {
    HeaderRanges(f);
    Tlp(f[0].value, f[1].value, f[2].value, f[3].value, f[4].value, f[5].value + 0x1_0000_0000 * f[6].value, data)
  }

  function Decode(s: seq<uint8>): Option<seq<Tlp>> {
    ReadAll(DecodeOne, s)
  }

  lemma FieldsRoundTrip(t: Tlp)
    requires t.kind < 0x100
    ensures IsHeader(HeaderFields(t)) && FromFields(HeaderFields(t), t.data) == t
  {
    HeaderLayout(t);
  }

  lemma DecodeFront(t: Tlp, rest: seq<uint8>)
    requires WellFormed(t)
    ensures DecodeOne(Frame(t) + rest) == Some(Front(t, |Frame(t)|))
  {
    var payload := if t.length > 0 then t.data.bytes else [];
    HeaderIsRead(t, payload + rest);
    assert Frame(t) + rest == HeaderOf(t) + (payload + rest);
    PayloadIsRead(HeaderOf(t), payload, rest);
    FieldsRoundTrip(t);
  }

  lemma HeaderIsRead(t: Tlp, rest: seq<uint8>)
    ensures ReadHeader(HeaderOf(t) + rest) == HeaderFields(t)
  {
    HeaderLayout(t);
    UnpackOfPack(BigEndian, HeaderFields(t), rest);
  }

  lemma PayloadIsRead(h: seq<uint8>, payload: seq<uint8>, rest: seq<uint8>)
    ensures (h + (payload + rest))[|h|..|h| + |payload|] == payload
  {
  }

  lemma FrameOfDecoded(s: seq<uint8>)
    requires DecodeOne(s).Some?
    ensures FrontIsFrame(Frame, DecodeOne(s).value, WellFormed, s)
  {
    var f := ReadHeader(s);
    HeaderRanges(f);
    var t, n := DecodeOne(s).value.message, DecodeOne(s).value.size;
    assert HeaderOf(t) == Pack(BigEndian, f) == s[..HEADER_SIZE];
    assert s[..n] == s[..HEADER_SIZE] + s[HEADER_SIZE..n];
  }

  lemma DecoderFitsFrames()
    ensures ReadsBack(Frame, DecodeOne, WellFormed) && ReadsFrames(Frame, DecodeOne, WellFormed)
  {
    forall t, rest | WellFormed(t) ensures FrameReadsBack(Frame, DecodeOne, t, rest) {
      DecodeFront(t, rest);
    }
    forall s | DecodeOne(s).Some? ensures FrontIsFrame(Frame, DecodeOne(s).value, WellFormed, s) {
      FrameOfDecoded(s);
    }
  }

  /** Decoding inverts framing, for every list of well-formed TLPs. */
  lemma DecodeInvertsFrames(ts: seq<Tlp>)
    requires AllWellFormed(ts)
    ensures Decode(Frames(ts)) == Some(ts)
  {
    DecoderFitsFrames();
    ReadAllOfConcat(Frame, DecodeOne, WellFormed, ts);
  }

  /** Every stream that decodes is the framing of the well-formed TLPs it decodes to. */
  lemma FramesInvertDecode(s: seq<uint8>)
    requires Decode(s).Some?
    ensures Frames(Decode(s).value) == s && AllWellFormed(Decode(s).value)
  {
    DecoderFitsFrames();
    ConcatOfReadAll(Frame, DecodeOne, WellFormed, s);
  }

  /** Framing is uniquely decodable. */
  lemma FramesInjective(a: seq<Tlp>, b: seq<Tlp>)
    requires AllWellFormed(a) && AllWellFormed(b)
    ensures Frames(a) == Frames(b) <==> a == b
  {
    DecodeInvertsFrames(a);
    DecodeInvertsFrames(b);
  }

  lemma FrameOfReceived(t: Tlp)
    requires Complete(t)
    ensures WellFormed(Received(t)) && Frame(Received(t)) == Frame(t)
  {
    assert HeaderFields(Received(t)) == HeaderFields(t);
  }

  lemma {:induction false} FramesOfReceived(ts: seq<Tlp>)
    requires AllComplete(ts)
    ensures AllWellFormed(AllReceived(ts)) && Frames(AllReceived(ts)) == Frames(ts)
  {
    if ts != [] {
      FrameOfReceived(ts[0]);
      FramesOfReceived(ts[1..]);
      assert AllReceived(ts) == [Received(ts[0])] + AllReceived(ts[1..]);
    }
  }

  /** Complete TLPs are recovered from a stream, up to the high bytes of their types, exactly if it is their frames. */
  lemma DecodedIff(stream: seq<uint8>, sent: seq<Tlp>)
    requires AllComplete(sent)
    ensures Decode(stream) == Some(AllReceived(sent)) <==> stream == Frames(sent)
  {
    FramesOfReceived(sent);
    DecodeInvertsFrames(AllReceived(sent));
    if Decode(stream) == Some(AllReceived(sent)) {
      FramesInvertDecode(stream);
    }
  }

  /** A header without its payload takes the bytes that follow for the payload. */
  lemma HeaderTakesPayload(t: Tlp, rest: seq<uint8>)
    requires t.Valid() && t.data.Missing? && t.length > 0
    ensures DecodeOne(Frame(t) + rest) ==
            if |rest| < t.length then None
            else Some(Front(t.(kind := t.kind % 0x100, data := Bytes(rest[..t.length])), HEADER_SIZE + t.length))
  {
    if |rest| < t.length {
      HeaderIsRead(t, rest);
      assert Frame(t) == HeaderOf(t) + [] == HeaderOf(t);
    } else {
      var joined := t.(kind := t.kind % 0x100, data := Bytes(rest[..t.length]));
      assert HeaderFields(t) == HeaderFields(joined);
      DecodeFront(joined, rest[t.length..]);
      assert Frame(t) + rest == Frame(joined) + rest[t.length..];
    }
  }

  /**
   Behind the frames of other TLPs, a header sent without its payload swallows `length` bytes of whatever
   follows; the stream cannot be decoded until there are as many.
   */
  lemma MissingPayloadSwallows(ts: seq<Tlp>, t: Tlp, rest: seq<uint8>)
    requires AllWellFormed(ts) && t.Valid() && t.data.Missing? && t.length > 0
    ensures Decode(Frames(ts) + (Frame(t) + rest)) ==
            if |rest| < t.length then None
            else Before(ts + [t.(kind := t.kind % 0x100, data := Bytes(rest[..t.length]))], Decode(rest[t.length..]))
  {
    DecoderFitsFrames();
    ReadAllBehind(Frame, DecodeOne, WellFormed, ts, Frame(t) + rest);
    HeaderTakesPayload(t, rest);
    if |rest| >= t.length {
      var joined := t.(kind := t.kind % 0x100, data := Bytes(rest[..t.length]));
      assert (Frame(t) + rest)[HEADER_SIZE + t.length..] == rest[t.length..];
      BeforeAppend(ts, joined, Decode(rest[t.length..]));
    }
  }

  /** A next frame of just that length is taken whole. */
  lemma MissingPayloadSwallowsFrame(t: Tlp, next: Tlp)
    requires t.kind < 0x100 && t.data.Missing? && WellFormed(next)
    requires t.length == HEADER_SIZE + next.length
    ensures Decode(Frame(t) + Frame(next)) == Some([t.(data := Bytes(Frame(next)))])
  {
    SwallowsAll(t, Frame(next));
  }

  lemma SwallowsAll(t: Tlp, rest: seq<uint8>)
    requires t.kind < 0x100 && t.Valid() && t.data.Missing? && |rest| == t.length > 0
    ensures Decode(Frame(t) + rest) == Some([t.(data := Bytes(rest))])
  {
    var all := Frame(t) + rest;
    MissingPayloadSwallows([], t, rest);
    assert Frames([]) + all == all;
    assert rest[..t.length] == rest && rest[t.length..] == [];
    OneJoined(t.(data := Bytes(rest)), t.kind);
  }

  lemma OneJoined(joined: Tlp, kind: uint32)
    requires joined.kind == kind < 0x100
    ensures Before([] + [joined.(kind := kind % 0x100)], Decode([])) == Some([joined])
  {
    BeforeEnd(joined);
  }

  /** A condition on the TLP alone: sent whole behind other frames, it keeps the stream decodable iff it is complete. */
  lemma DecodableIff(ts: seq<Tlp>, t: Tlp)
    requires AllWellFormed(ts) && t.Valid()
    ensures Decode(Frames(ts) + Frame(t)).Some? <==> t.length == 0 || t.data.Bytes?
  {
    if t.length == 0 || t.data.Bytes? {
      FrameOfReceived(t);
      ConcatAppend(Frame, ts, Received(t));
      DecodeInvertsFrames(ts + [Received(t)]);
    } else {
      MissingPayloadSwallows(ts, t, []);
      assert Frame(t) + [] == Frame(t);
    }
  }
}
