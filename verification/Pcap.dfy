/** The binary trace export, with the field widths the writer uses. */
module Pcap {
  import opened PcieTypes
  import opened ByteOrder
  import opened Framing

  const FILE_HEADER_SIZE := 28
  const PACKET_HEADER_SIZE := 16
  const FIXED_BODY_SIZE := 20
  const RECORD_SIZE := PACKET_HEADER_SIZE + FIXED_BODY_SIZE + PAYLOAD_SIZE

  /** What the writer stores as incl_len: its sum counts the 4-byte direction as one byte. */
  const INCL_LEN := 2 * 1 + 3 * 2 + 8 + PAYLOAD_SIZE
  const BODY_SIZE := FIXED_BODY_SIZE + PAYLOAD_SIZE

  const FILE_HEADER: seq<Field> :=
    [Field(0xa1b2c3d4, 4), Field(2, 4), Field(4, 4), Field(0, 4), Field(0, 4), Field(65535, 4), Field(1, 4)]

  /** Seconds, microseconds, incl_len, orig_len; direction, type, requester, completer, tag, length, address. */
  const RECORD_WIDTHS: seq<nat> := [4, 4, 4, 4, 4, 1, 2, 2, 1, 2, 8]

  function Seconds(r: Record): uint32 {
    r.timestampNs / NS_PER_SECOND % 0x1_0000_0000
  }

  function Microseconds(r: Record): (us: uint32)
    ensures us < 1_000_000
  {
    r.timestampNs % NS_PER_SECOND / 1000
  }

  /** What the writer stores of a record: eleven numbers and the payload buffer. */
  datatype Packet = Packet(fields: seq<Field>, payload: seq<uint8>)

  predicate Storable(p: Packet) {
    && WidthsOf(p.fields) == RECORD_WIDTHS
    && |p.payload| == PAYLOAD_SIZE
    && forall i :: 0 <= i < |p.fields| ==> p.fields[i].Fits()
  }

  function PacketOf(r: Record): (p: Packet)
    ensures Storable(p)
  {
    Widths();
    Packet(
      [Field(Seconds(r), 4), Field(Microseconds(r), 4), Field(INCL_LEN, 4), Field(INCL_LEN, 4),
       Field(r.direction, 4), Field(r.kind, 1), Field(r.requesterId, 2), Field(r.completerId, 2),
       Field(r.tag, 1), Field(r.length, 2), Field(r.addr, 8)],
      r.payload)
  }

  function PacketsOf(records: seq<Record>): (ps: seq<Packet>)
    ensures |ps| == |records| && All(Storable, ps)
  {
    seq(|records|, i requires 0 <= i < |records| => PacketOf(records[i]))
  }

  lemma SizeOf11(w: seq<nat>)
    requires |w| == 11
    ensures Size(w[..1]) == w[0] && Size(w[..2]) == w[0] + w[1] && Size(w[..3]) == w[0] + w[1] + w[2]
    ensures Size(w) == w[0] + w[1] + w[2] + w[3] + w[4] + w[5] + w[6] + w[7] + w[8] + w[9] + w[10]
  {
    assert w[..0] == [] && w[..11] == w;
    SizeStep(w, 0);
    SizeStep(w, 1);
    SizeStep(w, 2);
    SizeOfFour(w, 3);
    SizeOfFour(w, 7);
  }

  lemma SizeOfFour(w: seq<nat>, k: nat)
    requires k + 4 <= |w|
    ensures Size(w[..k + 4]) == Size(w[..k]) + w[k] + w[k + 1] + w[k + 2] + w[k + 3]
  {
    SizeStep(w, k);
    SizeStep(w, k + 1);
    SizeStep(w, k + 2);
    SizeStep(w, k + 3);
  }

  lemma SizeOf7(w: seq<nat>)
    requires |w| == 7
    ensures Size(w) == w[0] + w[1] + w[2] + w[3] + w[4] + w[5] + w[6]
  {
    assert w[..0] == [] && w[..7] == w;
    SizeStep(w, 0);
    SizeStep(w, 1);
    SizeStep(w, 2);
    SizeOfFour(w, 3);
  }

  function FileHeader(): (h: seq<uint8>)
    ensures |h| == FILE_HEADER_SIZE && HeaderBytes(h)
  {
    SizeOf7(WidthsOf(FILE_HEADER));
    HeaderIs(FILE_HEADER);
    Pack(LittleEndian, FILE_HEADER)
  }

  function PacketBytes(p: Packet): (b: seq<uint8>)
    ensures Storable(p) ==> |b| == RECORD_SIZE
  {
    SizeOf11(RECORD_WIDTHS);
    Pack(LittleEndian, p.fields) + p.payload
  }

  /** The whole file for some packets, behind a file header. */
  function File(header: seq<uint8>, ps: seq<Packet>): seq<uint8> {
    header + Concat(PacketBytes, ps)
  }

  method WriteHeader() returns (header: seq<uint8>)
    ensures HeaderBytes(header)
  {
    header := FileHeader();
  }

  /** `canOpen` is the outcome of opening the file. */
  method WritePcap(records: seq<Record>, canOpen: bool) returns (rc: int, file: seq<uint8>)
    ensures rc == if canOpen then 0 else -1
    ensures canOpen ==> FileBytes(file, records) && file == File(file[..28], PacketsOf(records))
    ensures !canOpen ==> file == []
  {
    if !canOpen {
      return -1, [];
    }
    var header := WriteHeader();
    file := WriteFile(header, records);
    assert file[..28] == header;
    return 0, file;
  }

  method WriteFile(header: seq<uint8>, records: seq<Record>) returns (file: seq<uint8>)
    requires HeaderBytes(header)
    ensures file == File(header, PacketsOf(records)) && FileBytes(file, records)
  {
    FileIsLaid(header, records);
    var body := WriteRecords(records);
    file := header + body;
  }

  method Format(r: Record) returns (bytes: seq<uint8>)
    ensures bytes == PacketBytes(PacketOf(r))
  {
    var p := PacketOf(r);
    bytes := Pack(LittleEndian, p.fields) + p.payload;
  }

  method WriteRecords(records: seq<Record>) returns (body: seq<uint8>)
    ensures body == Concat(PacketBytes, PacketsOf(records))
  {
    body := [];
    ghost var ps := PacketsOf(records);
    for i := 0 to |records|
      invariant body == Concat(PacketBytes, ps[..i])
    {
      ConcatTake(PacketBytes, ps, i);
      var bytes := Format(records[i]);
      body := body + bytes;
    }
    assert ps[..|records|] == ps;
  }

  // ---------------------------------------------------------------------------------------------
  // Reading it back
  // ---------------------------------------------------------------------------------------------

  /** A reader with the writer's widths. */
  function ReadPacket(s: seq<uint8>): Option<Front<Packet>> {
    if |s| < RECORD_SIZE then None
    else
      SizeOf11(RECORD_WIDTHS);
      Some(Front(
        Packet(Unpack(LittleEndian, RECORD_WIDTHS, s), s[PACKET_HEADER_SIZE + FIXED_BODY_SIZE..RECORD_SIZE]),
        RECORD_SIZE))
  }

  lemma PacketReadsBack(p: Packet, rest: seq<uint8>)
    requires Storable(p)
    ensures FrameReadsBack(PacketBytes, ReadPacket, p, rest)
  {
    SizeOf11(RECORD_WIDTHS);
    FieldsThenPayload(RECORD_WIDTHS, p.fields, p.payload, rest);
  }

  lemma FieldsThenPayload(widths: seq<nat>, fields: seq<Field>, payload: seq<uint8>, rest: seq<uint8>)
    requires WidthsOf(fields) == widths && forall i :: 0 <= i < |fields| ==> fields[i].Fits()
    ensures var s := Pack(LittleEndian, fields) + payload + rest;
            && Unpack(LittleEndian, widths, s) == fields
            && s[Size(widths)..Size(widths) + |payload|] == payload
  {
    UnpackOfPack(LittleEndian, fields, payload + rest);
    assert Pack(LittleEndian, fields) + payload + rest == Pack(LittleEndian, fields) + (payload + rest);
  }

  lemma PacketIsFrame(s: seq<uint8>)
    requires ReadPacket(s).Some?
    ensures FrontIsFrame(PacketBytes, ReadPacket(s).value, Storable, s)
  {
    SizeOf11(RECORD_WIDTHS);
    UnpackFits(LittleEndian, RECORD_WIDTHS, s);
    FieldsAndRest(RECORD_WIDTHS, s, RECORD_SIZE);
  }

  lemma FieldsAndRest(widths: seq<nat>, s: seq<uint8>, n: nat)
    requires Size(widths) <= n <= |s|
    ensures Pack(LittleEndian, Unpack(LittleEndian, widths, s)) + s[Size(widths)..n] == s[..n]
  {
    PackOfUnpack(LittleEndian, widths, s);
    FrontAndRest(s, Size(widths), n);
  }

  lemma FrontAndRest(s: seq<uint8>, k: nat, n: nat)
    requires k <= n <= |s|
    ensures s[..k] + s[k..n] == s[..n]
  {
  }

  lemma ReaderFitsWriter()
    ensures ReadsBack(PacketBytes, ReadPacket, Storable) && ReadsFrames(PacketBytes, ReadPacket, Storable)
  {
    forall p, rest | Storable(p) ensures FrameReadsBack(PacketBytes, ReadPacket, p, rest) {
      PacketReadsBack(p, rest);
    }
    forall s | ReadPacket(s).Some? ensures FrontIsFrame(PacketBytes, ReadPacket(s).value, Storable, s) {
      PacketIsFrame(s);
    }
  }

  /** The file of n records has 28 + 292 n bytes, and such a reader gets every stored packet back from it. */
  lemma FileRoundTrip(header: seq<uint8>, records: seq<Record>)
    requires |header| == FILE_HEADER_SIZE
    ensures var file := File(header, PacketsOf(records));
            && |file| == 28 + 292 * |records|
            && ReadAll(ReadPacket, file[FILE_HEADER_SIZE..]) == Some(PacketsOf(records))
  {
    ReaderFitsWriter();
    ReadAllOfConcat(PacketBytes, ReadPacket, Storable, PacketsOf(records));
    assert forall i :: 0 <= i < |records| ==> Storable(PacketsOf(records)[i]);
    ConcatFrom(PacketBytes, PacketsOf(records), RECORD_SIZE, 0);
    assert File(header, PacketsOf(records))[FILE_HEADER_SIZE..] == Concat(PacketBytes, PacketsOf(records));
  }

  /** Any further bytes in whole records are read as packets whose file they are. */
  lemma EveryBodyIsAFile(body: seq<uint8>)
    requires ReadAll(ReadPacket, body).Some?
    ensures Concat(PacketBytes, ReadAll(ReadPacket, body).value) == body
  {
    ReaderFitsWriter();
    ConcatOfReadAll(PacketBytes, ReadPacket, Storable, body);
  }

  predicate SameRecord(a: Record, b: Record) {
    a == b.(timestampNs := a.timestampNs) && Seconds(a) == Seconds(b) && Microseconds(a) == Microseconds(b)
  }

  lemma SamePacket(a: Record, b: Record)
    ensures PacketOf(a) == PacketOf(b) <==> SameRecord(a, b)
  {
    if PacketOf(a) == PacketOf(b) {
      var f, g := PacketOf(a).fields, PacketOf(b).fields;
      assert f[0] == g[0] && f[1] == g[1] && f[4] == g[4] && f[5] == g[5] && f[6] == g[6] && f[7] == g[7];
      assert f[8] == g[8] && f[9] == g[9] && f[10] == g[10];
    }
  }

  /** The same records, as far as the file keeps them. */
  predicate SameRecords(a: seq<Record>, b: seq<Record>) {
    |a| == |b| && forall i :: 0 <= i < |a| ==> SameRecord(a[i], b[i])
  }

  lemma SamePackets(a: seq<Record>, b: seq<Record>)
    ensures PacketsOf(a) == PacketsOf(b) <==> SameRecords(a, b)
  {
    forall i | 0 <= i < |a| == |b| ensures PacketsOf(a)[i] == PacketsOf(b)[i] <==> SameRecord(a[i], b[i]) {
      SamePacket(a[i], b[i]);
    }
  }

  /** Two traces have the same file exactly if they agree on every field, the time to the microsecond. */
  lemma FileDeterminesRecords(header: seq<uint8>, a: seq<Record>, b: seq<Record>)
    requires |header| == FILE_HEADER_SIZE
    ensures File(header, PacketsOf(a)) == File(header, PacketsOf(b)) <==> SameRecords(a, b)
  {
    SamePackets(a, b);
    FileRoundTrip(header, a);
    FileRoundTrip(header, b);
  }

  // ---------------------------------------------------------------------------------------------
  // The file byte by byte
  // ---------------------------------------------------------------------------------------------

  /** The numbers of two and four bytes, low byte first. */
  function Two(b: seq<uint8>, at: nat): nat
    requires at + 2 <= |b|
  {
    Big2(b[at + 1], b[at])
  }

  function Four(b: seq<uint8>, at: nat): nat
    requires at + 4 <= |b|
  {
    Big4(b[at + 3], b[at + 2], b[at + 1], b[at])
  }

  /** The bytes of a record: its header, its fields, its payload. */
  predicate RecordBytes(b: seq<uint8>, r: Record) {
    && |b| == 292
    && Four(b, 0) == r.timestampNs / 1_000_000_000 % 0x1_0000_0000
    && Four(b, 4) == r.timestampNs % 1_000_000_000 / 1000
    && Four(b, 8) == 272 && Four(b, 12) == 272
    && Four(b, 16) == r.direction && b[20] == r.kind
    && Two(b, 21) == r.requesterId && Two(b, 23) == r.completerId
    && b[25] == r.tag && Two(b, 26) == r.length
    && Four(b, 28) == r.addr % 0x1_0000_0000 && Four(b, 32) == r.addr / 0x1_0000_0000
    && b[36..] == r.payload
  }

  /** Where the fields of a record lie. */
  predicate Places(w: seq<nat>) {
    && |w| == 11
    && w[0] == 4 && w[1] == 4 && w[2] == 4 && w[3] == 4 && w[4] == 4 && w[5] == 1 && w[6] == 2 && w[7] == 2
    && w[8] == 1 && w[9] == 2 && w[10] == 8
    && Size(w[..0]) == 0 && Size(w[..1]) == 4 && Size(w[..2]) == 8 && Size(w[..3]) == 12 && Size(w[..4]) == 16
    && Size(w[..5]) == 20 && Size(w[..6]) == 21 && Size(w[..7]) == 23 && Size(w[..8]) == 25 && Size(w[..9]) == 26
    && Size(w[..10]) == 28
  }

  lemma RecordPlaces(w: seq<nat>)
    requires |w| == 11 && w[0] == 4 && w[1] == 4 && w[2] == 4 && w[3] == 4 && w[4] == 4 && w[5] == 1 && w[6] == 2
    requires w[7] == 2 && w[8] == 1 && w[9] == 2 && w[10] == 8
    ensures Places(w)
  {
    assert w[..0] == [];
    SizeStep(w, 0);
    SizeStep(w, 1);
    SizeStep(w, 2);
    SizeStep(w, 3);
    SizeStep(w, 4);
    SizeStep(w, 5);
    SizeStep(w, 6);
    SizeStep(w, 7);
    SizeStep(w, 8);
    SizeStep(w, 9);
  }

  lemma FourAt(b: seq<uint8>, w: seq<nat>, v: seq<nat>, k: nat, at: nat)
    requires k < |w| == |v| && Reads(LittleEndian, b, w, v, k) && w[k] == 4 && Size(w[..k]) == at
    ensures at + 4 <= |b| && Four(b, at) == v[k]
  {
    LittleFour(b[at..at + 4]);
  }

  lemma TwoAt(b: seq<uint8>, w: seq<nat>, v: seq<nat>, k: nat, at: nat)
    requires k < |w| == |v| && Reads(LittleEndian, b, w, v, k) && w[k] == 2 && Size(w[..k]) == at
    ensures at + 2 <= |b| && Two(b, at) == v[k]
  {
    LittleTwo(b[at..at + 2]);
  }

  lemma OneAt(b: seq<uint8>, w: seq<nat>, v: seq<nat>, k: nat, at: nat)
    requires k < |w| == |v| && Reads(LittleEndian, b, w, v, k) && w[k] == 1 && Size(w[..k]) == at
    ensures at < |b| && b[at] == v[k]
  {
    OneByte(LittleEndian, b[at..at + 1]);
  }

  lemma EightAt(b: seq<uint8>, w: seq<nat>, v: seq<nat>, k: nat, at: nat)
    requires k < |w| == |v| && Reads(LittleEndian, b, w, v, k) && w[k] == 8 && Size(w[..k]) == at
    ensures at + 8 <= |b| && 0x1_0000_0000 * Four(b, at + 4) + Four(b, at) == v[k]
    ensures Four(b, at) < 0x1_0000_0000
  {
    var s := b[at..at + 8];
    LittleEight(s);
    LittleFour(s[..4]);
    LittleFour(s[4..]);
  }

  /** Eleven numbers in their places. */
  lemma LaidOut(b: seq<uint8>, w: seq<nat>, v: seq<nat>)
    requires Places(w) && AllRead(LittleEndian, b, w, v)
    ensures |b| >= 36
    ensures Four(b, 0) == v[0] && Four(b, 4) == v[1] && Four(b, 8) == v[2] && Four(b, 12) == v[3] && Four(b, 16) == v[4]
    ensures b[20] == v[5] && Two(b, 21) == v[6] && Two(b, 23) == v[7] && b[25] == v[8] && Two(b, 26) == v[9]
    ensures 0x1_0000_0000 * Four(b, 32) + Four(b, 28) == v[10] && Four(b, 28) < 0x1_0000_0000
  {
    assert forall k :: 0 <= k < 11 ==> Reads(LittleEndian, b, w, v, k);
    FourAt(b, w, v, 0, 0);
    FourAt(b, w, v, 1, 4);
    FourAt(b, w, v, 2, 8);
    FourAt(b, w, v, 3, 12);
    FourAt(b, w, v, 4, 16);
    OneAt(b, w, v, 5, 20);
    TwoAt(b, w, v, 6, 21);
    TwoAt(b, w, v, 7, 23);
    OneAt(b, w, v, 8, 25);
    TwoAt(b, w, v, 9, 26);
    EightAt(b, w, v, 10, 28);
  }

  /** Numbers read from the front of some bytes are read from them whatever follows. */
  lemma ReadInFront(b: seq<uint8>, rest: seq<uint8>, w: seq<nat>, v: seq<nat>)
    requires AllRead(LittleEndian, b, w, v)
    ensures AllRead(LittleEndian, b + rest, w, v)
  {
    forall k | 0 <= k < |w| ensures Reads(LittleEndian, b + rest, w, v, k) {
      assert Reads(LittleEndian, b, w, v, k);
      var i, j := Size(w[..k]), Size(w[..k]) + w[k];
      assert (b + rest)[i..j] == b[i..j];
    }
  }

  lemma RecordIsLaid(r: Record)
    ensures RecordBytes(PacketBytes(PacketOf(r)), r)
  {
    var p := PacketOf(r);
    var w, v := WidthsOf(p.fields), ValuesOf(p.fields);
    AllFieldsAreRead(LittleEndian, p.fields);
    ReadInFront(Pack(LittleEndian, p.fields), p.payload, w, v);
    RecordPlaces(w);
    LaidOut(PacketBytes(p), w, v);
    PayloadIsLast(p);
    HalvesOf(r.addr, Four(PacketBytes(p), 32), Four(PacketBytes(p), 28));
  }

  lemma PayloadIsLast(p: Packet)
    requires Storable(p)
    ensures |PacketBytes(p)| == 292 && PacketBytes(p)[36..] == p.payload
  {
    SizeOf11(RECORD_WIDTHS);
  }

  lemma HalvesOf(n: nat, high: nat, low: nat)
    requires n == 0x1_0000_0000 * high + low && low < 0x1_0000_0000
    ensures low == n % 0x1_0000_0000 && high == n / 0x1_0000_0000
  {
  }

  /** The bytes of the file header: magic number, version 2.4 in four bytes each, two zeros, 65535 and 1. */
  predicate HeaderBytes(h: seq<uint8>) {
    && |h| == 28
    && Four(h, 0) == 0xa1b2_c3d4 && Four(h, 4) == 2 && Four(h, 8) == 4 && Four(h, 12) == 0 && Four(h, 16) == 0
    && Four(h, 20) == 65535 && Four(h, 24) == 1
  }

  lemma HeaderIs(f: seq<Field>)
    requires |f| == 7 && f[0] == Field(0xa1b2_c3d4, 4) && f[1] == Field(2, 4) && f[2] == Field(4, 4)
    requires f[3] == Field(0, 4) && f[4] == Field(0, 4) && f[5] == Field(65535, 4) && f[6] == Field(1, 4)
    ensures |Pack(LittleEndian, f)| == 28 ==> HeaderBytes(Pack(LittleEndian, f))
  {
    Widths();
    AllFieldsAreRead(LittleEndian, f);
    SevenFours(Pack(LittleEndian, f), WidthsOf(f), ValuesOf(f));
  }

  lemma SevenFours(h: seq<uint8>, w: seq<nat>, v: seq<nat>)
    requires |w| == 7 && AllRead(LittleEndian, h, w, v) && forall k :: 0 <= k < 7 ==> w[k] == 4
    ensures |h| >= 28 && Four(h, 0) == v[0] && Four(h, 4) == v[1] && Four(h, 8) == v[2] && Four(h, 12) == v[3]
    ensures Four(h, 16) == v[4] && Four(h, 20) == v[5] && Four(h, 24) == v[6]
  {
    assert w[..0] == [];
    SizeStep(w, 0);
    SizeStep(w, 1);
    SizeStep(w, 2);
    SizeStep(w, 3);
    SizeStep(w, 4);
    SizeStep(w, 5);
    assert forall k :: 0 <= k < 7 ==> Reads(LittleEndian, h, w, v, k);
    FourAt(h, w, v, 0, 0);
    FourAt(h, w, v, 1, 4);
    FourAt(h, w, v, 2, 8);
    FourAt(h, w, v, 3, 12);
    FourAt(h, w, v, 4, 16);
    FourAt(h, w, v, 5, 20);
    FourAt(h, w, v, 6, 24);
  }

  /** A file byte by byte: its header, and behind it 292 bytes for each record. */
  predicate FileBytes(file: seq<uint8>, records: seq<Record>) {
    && |file| == 28 + 292 * |records|
    && HeaderBytes(file[..28])
    && forall i :: 0 <= i < |records| ==> RecordLies(file, records[i], 28 + 292 * i)
  }

  predicate RecordLies(file: seq<uint8>, r: Record, at: nat) {
    at + 292 <= |file| && RecordBytes(file[at..at + 292], r)
  }

  lemma FileIsLaid(header: seq<uint8>, records: seq<Record>)
    requires HeaderBytes(header)
    ensures FileBytes(File(header, PacketsOf(records)), records)
  {
    var file := File(header, PacketsOf(records));
    RestAt(header, records, 0);
    assert file[..28] == header;
    forall i | 0 <= i < |records| ensures RecordLies(file, records[i], 28 + 292 * i) {
      RecordAt(header, records, i);
      RecordIsLaid(records[i]);
      StartsApart(i);
    }
  }

  // ---------------------------------------------------------------------------------------------
  // A reader that trusts incl_len
  // ---------------------------------------------------------------------------------------------

  function RecordStart(i: nat): nat {
    FILE_HEADER_SIZE + RECORD_SIZE * i
  }

  /** Where a reader that skips each packet by its incl_len looks next. */
  function Skip(file: seq<uint8>, at: nat): nat
    requires at + PACKET_HEADER_SIZE <= |file|
  {
    at + PACKET_HEADER_SIZE + Value(LittleEndian, file[at + 8..at + 12])
  }

  /** The second and third field of a packet, at their place in its bytes. */
  lemma TimeAndLengthAt(p: Packet)
    requires Storable(p)
    ensures |p.fields| == 11 && |PacketBytes(p)| == RECORD_SIZE
    ensures Value(LittleEndian, PacketBytes(p)[4..8]) == p.fields[1].value
    ensures Value(LittleEndian, PacketBytes(p)[8..12]) == p.fields[2].value
  {
    var s, ws := PacketBytes(p), RECORD_WIDTHS;
    SizeOf11(ws);
    UnpackOfPack(LittleEndian, p.fields, p.payload);
    UnpackAt(LittleEndian, ws, s, 1);
    UnpackAt(LittleEndian, ws, s, 2);
  }

  lemma SkipFirstTwo(header: seq<uint8>, p: Packet, q: Packet, rest: seq<uint8>)
    requires |header| == FILE_HEADER_SIZE && Storable(p) && Storable(q)
    ensures |p.fields| == 11 == |q.fields|
    ensures var file, second := header + (PacketBytes(p) + (PacketBytes(q) + rest)), RecordStart(1);
            && |file| >= RecordStart(2)
            && Skip(file, FILE_HEADER_SIZE) == FILE_HEADER_SIZE + PACKET_HEADER_SIZE + p.fields[2].value
            && Skip(file, second - 4) == second - 4 + PACKET_HEADER_SIZE + q.fields[1].value
  {
    TimeAndLengthAt(p);
    TimeAndLengthAt(q);
    FirstTwo(header, PacketBytes(p), PacketBytes(q), rest);
  }

  lemma FirstTwo(header: seq<uint8>, a: seq<uint8>, b: seq<uint8>, rest: seq<uint8>)
    requires |header| == FILE_HEADER_SIZE && |a| == RECORD_SIZE == |b|
    ensures var file := header + (a + (b + rest));
            && |file| >= RecordStart(2)
            && file[FILE_HEADER_SIZE + 8..FILE_HEADER_SIZE + 12] == a[8..12]
            && file[RecordStart(1) - 4 + 8..RecordStart(1) - 4 + 12] == b[4..8]
  {
  }

  lemma SkipsInFile(header: seq<uint8>, ps: seq<Packet>)
    requires |header| == FILE_HEADER_SIZE && |ps| >= 2 && Storable(ps[0]) && Storable(ps[1])
    ensures |ps[0].fields| == 11 == |ps[1].fields|
    ensures var file, second := File(header, ps), RecordStart(1);
            && |file| >= RecordStart(2)
            && Skip(file, FILE_HEADER_SIZE) == FILE_HEADER_SIZE + PACKET_HEADER_SIZE + ps[0].fields[2].value
            && Skip(file, second - 4) == second - 4 + PACKET_HEADER_SIZE + ps[1].fields[1].value
  {
    var rest := Concat(PacketBytes, ps[2..]);
    assert ps[1..][1..] == ps[2..];
    assert Concat(PacketBytes, ps[1..]) == PacketBytes(ps[1]) + rest;
    SkipFirstTwo(header, ps[0], ps[1], rest);
    assert File(header, ps) == header + (PacketBytes(ps[0]) + (PacketBytes(ps[1]) + rest));
  }

  /** At its start lie record i and, behind it, the records after it. */
  lemma RestAt(header: seq<uint8>, records: seq<Record>, i: nat)
    requires |header| == FILE_HEADER_SIZE && i <= |records|
    ensures var file := File(header, PacketsOf(records));
            && RecordStart(i) <= RecordStart(|records|) == |file|
            && file[RecordStart(i)..] == Concat(PacketBytes, PacketsOf(records)[i..])
  {
    var ps := PacketsOf(records);
    forall k | 0 <= k < |ps| ensures |PacketBytes(ps[k])| == RECORD_SIZE {
      assert ps[k] == PacketOf(records[k]);
    }
    ConcatFrom(PacketBytes, ps, RECORD_SIZE, i);
    DropMore(header, Concat(PacketBytes, ps), RECORD_SIZE * i);
  }

  lemma RecordAt(header: seq<uint8>, records: seq<Record>, i: nat)
    requires |header| == FILE_HEADER_SIZE && i < |records|
    ensures var file := File(header, PacketsOf(records));
            && RecordStart(i + 1) <= |file|
            && file[RecordStart(i)..RecordStart(i + 1)] == PacketBytes(PacketOf(records[i]))
  {
    var ps := PacketsOf(records);
    RestAt(header, records, i);
    ConcatFirst(PacketBytes, ps[i..]);
    assert ps[i] == PacketOf(records[i]);
    TakeFront(File(header, ps), RecordStart(i), PacketBytes(ps[i]), Concat(PacketBytes, ps[i..][1..]));
    StartsApart(i);
  }

  lemma StartsApart(i: nat)
    ensures RecordStart(i + 1) == RecordStart(i) + RECORD_SIZE
  {
  }

  lemma TakeFront(s: seq<uint8>, at: nat, first: seq<uint8>, more: seq<uint8>)
    requires at <= |s| && s[at..] == first + more
    ensures at + |first| <= |s| && s[at..at + |first|] == first
  {
    assert s[at..][..|first|] == s[at..at + |first|];
  }

  /** Where a reader that skips a fixed body size stands after i records. */
  function FixedSkip(skip: nat, i: nat): nat {
    FILE_HEADER_SIZE + (PACKET_HEADER_SIZE + skip) * i
  }

  /** After i skips, what is left of the file is the records from i on. */
  ghost predicate StandsAt(file: seq<uint8>, records: seq<Record>, skip: nat, i: nat)
    requires i <= |records|
  {
    && FixedSkip(skip, i) <= |file|
    && file[FixedSkip(skip, i)..] == Concat(PacketBytes, PacketsOf(records)[i..])
  }

  /** On the file of any records, a reader with a fixed skip meets them all exactly when the skip is the body size. */
  lemma FixedSkipInSyncIff(header: seq<uint8>, records: seq<Record>, skip: nat)
    requires |header| == FILE_HEADER_SIZE
    ensures var file := File(header, PacketsOf(records));
            (forall i :: 0 <= i <= |records| ==> StandsAt(file, records, skip, i))
            <==> records == [] || skip == BODY_SIZE
  {
    var file := File(header, PacketsOf(records));
    if records == [] || skip == BODY_SIZE {
      forall i | 0 <= i <= |records| ensures StandsAt(file, records, skip, i) {
        RestAt(header, records, i);
        SameStart(skip, i, |records|);
      }
    } else {
      RestAt(header, records, 1);
      StandsWhereItLies(file, records, skip, 1);
    }
  }

  /** Where a reader stands is where the records it has left lie, so it is off if its position is. */
  lemma StandsWhereItLies(file: seq<uint8>, records: seq<Record>, skip: nat, i: nat)
    requires i <= |records| && RecordStart(i) <= |file|
    requires file[RecordStart(i)..] == Concat(PacketBytes, PacketsOf(records)[i..])
    ensures StandsAt(file, records, skip, i) ==> FixedSkip(skip, i) == RecordStart(i)
  {
  }

  lemma SameStart(skip: nat, i: nat, n: nat)
    requires i <= n && (n == 0 || skip == BODY_SIZE)
    ensures FixedSkip(skip, i) == RecordStart(i)
  {
  }

  /** With the stored length as its skip, the reader stands 4 i bytes before record i. */
  lemma InclLenDrift(header: seq<uint8>, records: seq<Record>, i: nat)
    requires |header| == FILE_HEADER_SIZE && i < |records|
    ensures var file, at := File(header, PacketsOf(records)), FixedSkip(INCL_LEN, i) + 4 * i;
            at + RECORD_SIZE <= |file| && file[at..at + RECORD_SIZE] == PacketBytes(PacketOf(records[i]))
  {
    RecordAt(header, records, i);
    DriftedStart(i);
    StartsApart(i);
  }

  lemma DriftedStart(i: nat)
    ensures FixedSkip(INCL_LEN, i) + 4 * i == RecordStart(i)
  {
  }

  /**
   The stored length is four bytes short of the body, so after the first packet a reader that follows it stands
   four bytes early; if there is a second record, it takes its microseconds for its length.
   */
  lemma InclLenLosesSync(header: seq<uint8>, records: seq<Record>)
    requires |header| == FILE_HEADER_SIZE && records != []
    ensures var file, second := File(header, PacketsOf(records)), RecordStart(1);
            && |file| >= second
            && Skip(file, FILE_HEADER_SIZE) == second - 4
            && (|records| > 1 ==>
                  && |file| >= RecordStart(2)
                  && Skip(file, second - 4) == second - 4 + PACKET_HEADER_SIZE + Microseconds(records[1]))
  {
    RecordAt(header, records, 0);
    SkipsFirst(File(header, PacketsOf(records)), PacketOf(records[0]));
    LengthsOf(records[0]);
    if |records| > 1 {
      SkipsInFile(header, PacketsOf(records));
      LengthsOf(records[1]);
    }
  }

  lemma LengthsOf(r: Record)
    ensures PacketOf(r).fields[2].value == INCL_LEN && PacketOf(r).fields[1].value == Microseconds(r)
  {
  }

  lemma SkipsFirst(file: seq<uint8>, p: Packet)
    requires Storable(p) && |file| >= RecordStart(1) && file[RecordStart(0)..RecordStart(1)] == PacketBytes(p)
    ensures |p.fields| == 11
    ensures Skip(file, FILE_HEADER_SIZE) == FILE_HEADER_SIZE + PACKET_HEADER_SIZE + p.fields[2].value
  {
    TimeAndLengthAt(p);
    SliceOfSlice(file, FILE_HEADER_SIZE, RecordStart(1), 8, 12);
  }

  lemma SliceOfSlice(s: seq<uint8>, a: nat, b: nat, i: nat, j: nat)
    requires i <= j && a + j <= b <= |s|
    ensures s[a..b][i..j] == s[a + i..a + j]
  {
    var inner, outer := s[a..b][i..j], s[a + i..a + j];
    forall k | 0 <= k < j - i ensures inner[k] == outer[k] {
      assert inner[k] == s[a..b][i + k];
    }
    assert inner == outer;
  }

  /** Where a reader that follows the stored lengths stands after i packets, unless the file ended before. */
  function Followed(file: seq<uint8>, i: nat): Option<nat> {
    if i == 0 then Some(FILE_HEADER_SIZE)
    else
      match Followed(file, i - 1)
      case None => None
      case Some(at) => if at + PACKET_HEADER_SIZE <= |file| then Some(Skip(file, at)) else None
  }

  /** Such a reader meets the records of a file exactly when there are none. */
  lemma FollowingInSyncIff(header: seq<uint8>, records: seq<Record>)
    requires |header| == FILE_HEADER_SIZE
    ensures var file := File(header, PacketsOf(records));
            (forall i :: 0 <= i <= |records| ==> Followed(file, i) == Some(RecordStart(i))) <==> records == []
  {
    if records != [] {
      var file := File(header, PacketsOf(records));
      InclLenLosesSync(header, records);
      assert Followed(file, 0) == Some(FILE_HEADER_SIZE);
      assert Followed(file, 1) == Some(RecordStart(1) - 4);
    }
  }
}
