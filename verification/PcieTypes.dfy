/** The values every component shares: machine integers, TLPs and trace records. */
module PcieTypes {
  type uint8 = x: int | 0 <= x < 0x100
  type uint16 = x: int | 0 <= x < 0x1_0000
  type uint32 = x: int | 0 <= x < 0x1_0000_0000
  type uint64 = x: int | 0 <= x < 0x1_0000_0000_0000_0000

  datatype Option<+T> = None | Some(value: T)

  const TLP_MEM_READ: uint32 := 0x00
  const TRACE_TX: uint32 := 1
  const TRACE_RX: uint32 := 2
  const NS_PER_SECOND := 1_000_000_000
  const PAYLOAD_SIZE := 256

  /** The `data` pointer of a TLP: null, or the bytes it points to. */
  datatype Payload = Missing | Bytes(bytes: seq<uint8>)

  /** `kind` is the 4-byte enumeration `type` of the C structure. */
  datatype Tlp = Tlp(
    kind: uint32,
    requesterId: uint16,
    completerId: uint16,
    tag: uint8,
    length: uint16,
    addr: uint64,
    data: Payload)
  {
    /** A pointer that is not null points to exactly `length` bytes. */
    predicate Valid() {
      data.Bytes? ==> |data.bytes| == length
    }
  }

  datatype RawRecord = Record(
    timestampNs: uint64,
    direction: uint32,
    kind: uint8,
    requesterId: uint16,
    completerId: uint16,
    tag: uint8,
    length: uint16,
    addr: uint64,
    payload: seq<uint8>)

  const EMPTY_RECORD: RawRecord := Record(0, 0, 0, 0, 0, 0, 0, 0, seq(PAYLOAD_SIZE, _ => 0))

  /** One entry of the trace: its payload buffer always has 256 bytes. */
  type Record = r: RawRecord | |r.payload| == PAYLOAD_SIZE witness EMPTY_RECORD

  /** A row of the trace table of the GUI. */
  datatype Row = Row(
    ts: string,
    direction: string,
    kind: string,
    requester: string,
    completer: string,
    tag: string,
    length: string,
    addr: string,
    payload: string)

  function Min(a: int, b: int): int {
    if a <= b then a else b
  }

  function Max(a: int, b: int): int {
    if a >= b then a else b
  }

  /** Bit i of a number. */
  predicate Bit(n: nat, i: nat) {
    if i == 0 then n % 2 == 1 else Bit(n / 2, i - 1)
  }

  lemma {:induction false} ZeroBits(i: nat)
    ensures !Bit(0, i)
  {
    if i > 0 {
      ZeroBits(i - 1);
    }
  }
}
