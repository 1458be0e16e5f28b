/** The 16-slot completion queue of the PCI backend. */
module CompletionRing {
  import opened PcieTypes

  const MAX_COMPLETIONS := 16
  const SLOT_BYTES := 256

  /** One slot: a TLP header and a payload buffer of 256 bytes. */
  datatype Slot = Slot(tlp: Tlp, data: seq<uint8>) {
    predicate Valid() {
      |data| == SLOT_BYTES && tlp.length <= SLOT_BYTES
    }

    /** The slot as a receiver sees it. */
    function View(): Completion
      requires Valid()
    {
      Completion(Header(tlp), data[..tlp.length])
    }
  }

  /** A queued completion: its header, and its `length` payload bytes. */
  datatype Completion = Completion(header: Tlp, payload: seq<uint8>)

  /** The header without its pointer, which means nothing once the header is copied. */
  function Header(t: Tlp): Tlp {
    t.(data := Missing)
  }

  predicate AllValid(slots: seq<Slot>) {
    |slots| == MAX_COMPLETIONS && forall i :: 0 <= i < MAX_COMPLETIONS ==> slots[i].Valid()
  }

  function Index(head: nat, i: nat): nat {
    (head + i) % MAX_COMPLETIONS
  }

  /** The queue held by a ring: `count` slots from `head` on, wrapping around. */
  function Contents(slots: seq<Slot>, head: nat, count: nat): (q: seq<Completion>)
    requires AllValid(slots)
    ensures |q| == count
  {
    seq(count, i requires 0 <= i < count => slots[Index(head, i)].View())
  }

  lemma ContentsPush(slots: seq<Slot>, head: nat, count: nat, s: Slot)
    requires AllValid(slots) && count < MAX_COMPLETIONS && s.Valid()
    ensures Contents(slots[Index(head, count) := s], head, count + 1) == Contents(slots, head, count) + [s.View()]
  {
  }

  lemma ContentsPop(slots: seq<Slot>, head: nat, count: nat)
    requires AllValid(slots) && 0 < count
    ensures Contents(slots, head, count) ==
            [slots[Index(head, 0)].View()] + Contents(slots, Index(head, 1), count - 1)
  {
    var next, rest := Contents(slots, Index(head, 1), count - 1), Contents(slots, head, count)[1..];
    forall i | 0 <= i < count - 1 ensures next[i] == rest[i] {
      IndexShift(head, i);
    }
  }

  lemma FrontAndRest(slots: seq<Slot>, head: nat, count: nat)
    requires AllValid(slots) && 0 < count && head < MAX_COMPLETIONS
    ensures Contents(slots, head, count) ==
            [slots[head].View()] + Contents(slots, (head + 1) % MAX_COMPLETIONS, count - 1)
  {
    ContentsPop(slots, head, count);
    assert Index(head, 0) == head;
  }

  lemma IndexShift(head: nat, i: nat)
    ensures Index(Index(head, 1), i) == Index(head, i + 1)
  {
  }

  class Ring {
    const completions: array<Slot>
    var head: nat
    var tail: nat
    var count: nat

    /** Everything ever accepted and everything ever handed out, in order. */
    ghost var accepted: seq<Completion>
    ghost var delivered: seq<Completion>

    ghost predicate Valid()
      reads this, completions
    {
      && AllValid(completions[..])
      && head < MAX_COMPLETIONS && count <= MAX_COMPLETIONS
      && tail == (head + count) % MAX_COMPLETIONS
      && accepted == delivered + Contents(completions[..], head, count)
    }

    ghost function Queue(): (q: seq<Completion>)
      requires Valid()
      reads this, completions
    {
      Contents(completions[..], head, count)
    }

    constructor ()
      ensures Valid() && fresh(completions)
      ensures Queue() == [] && accepted == [] && delivered == []
    {
      completions := new Slot[MAX_COMPLETIONS](
        _ => Slot(Tlp(0, 0, 0, 0, 0, 0, Missing), seq(SLOT_BYTES, _ => 0)));
      head, tail, count := 0, 0, 0;
      accepted, delivered := [], [];
    }

    /**
     A payload longer than the slot is outside what the copy allows for. A header that announces bytes
     but carries no payload is queued with whatever bytes the slot held before.
     */
    method Enqueue(cpl: Tlp) returns (rc: int)
      requires Valid() && cpl.Valid() && cpl.length <= SLOT_BYTES
      modifies this, completions
      ensures Valid() && delivered == old(delivered)
      ensures rc == if old(count) < 16 then 0 else -1
      ensures rc != 0 ==> Queue() == old(Queue()) && accepted == old(accepted)
      ensures rc == 0 ==> Queue() == old(Queue() + [Completion(Header(cpl), Copied(cpl, completions[tail].data))])
      ensures rc == 0 ==> IsQueued(Queue()[old(count)], cpl, old(completions[tail].data))
    {
      if count >= MAX_COMPLETIONS {
        return -1;
      }
      var data := completions[tail].data;
      if cpl.length > 0 && cpl.data.Bytes? {
        data := cpl.data.bytes + data[cpl.length..];
      }
      Push(Slot(cpl, data));
      return 0;
    }

    method Push(slot: Slot)
      requires Valid() && slot.Valid() && count < MAX_COMPLETIONS
      modifies this, completions
      ensures Valid() && delivered == old(delivered)
      ensures Queue() == old(Queue()) + [slot.View()] && accepted == old(accepted) + [slot.View()]
    {
      ContentsPush(completions[..], head, count, slot);
      accepted := accepted + [slot.View()];
      completions[tail] := slot;
      tail := (tail + 1) % MAX_COMPLETIONS;
      count := count + 1;
    }

    /** `oom` says that the allocation of the payload copy fails. */
    method Dequeue(oom: bool) returns (rc: int, header: Tlp, payload: array?<uint8>)
      requires Valid()
      modifies this
      ensures Valid() && accepted == old(accepted)
      ensures rc == if old(count) == 0 || (oom && old(Queue())[0].header.length > 0) then -1 else 0
      ensures rc != 0 ==> Queue() == old(Queue()) && delivered == old(delivered)
      ensures payload != null ==> fresh(payload)
      ensures rc == 0 ==>
                var c := Completion(Header(header), if payload == null then [] else payload[..]);
                old(Queue()) == [c] + Queue() && delivered == old(delivered) + [c]
    {
      header, payload := Tlp(0, 0, 0, 0, 0, 0, Missing), null;
      if count == 0 {
        return -1, header, payload;
      }
      var comp := completions[head];
      header := comp.tlp;
      if header.length > 0 {
        if oom {
          return -1, header, payload;
        }
        payload := CopyPayload(comp);
      }
      Advance();
      return 0, header, payload;
    }

    method Advance()
      requires Valid() && count > 0
      modifies this
      ensures Valid() && accepted == old(accepted)
      ensures var c := old(completions[head].View());
              old(Queue()) == [c] + Queue() && delivered == old(delivered) + [c]
    {
      FrontAndRest(completions[..], head, count);
      delivered := delivered + [completions[head].View()];
      head := (head + 1) % MAX_COMPLETIONS;
      count := count - 1;
    }
  }

  method CopyPayload(comp: Slot) returns (payload: array<uint8>)
    requires comp.Valid()
    ensures fresh(payload) && payload[..] == comp.View().payload
  {
    payload := new uint8[comp.tlp.length];
    forall j | 0 <= j < comp.tlp.length {
      payload[j] := comp.data[j];
    }
  }

  /** The payload of a queued completion, given what its slot held before. */
  function Copied(cpl: Tlp, stale: seq<uint8>): (r: seq<uint8>)
    requires cpl.Valid() && cpl.length <= |stale|
    ensures |r| == cpl.length
  {
    if cpl.data.Bytes? then cpl.data.bytes else stale[..cpl.length]
  }

  /** A queued completion: the header without its pointer, and as payload the bytes it has or the slot had. */
  predicate IsQueued(c: Completion, cpl: Tlp, stale: seq<uint8>)
    requires cpl.Valid() && cpl.length <= |stale|
  {
    && c.header == Tlp(cpl.kind, cpl.requesterId, cpl.completerId, cpl.tag, cpl.length, cpl.addr, Missing)
    && |c.payload| == cpl.length
    && forall i :: 0 <= i < cpl.length ==> c.payload[i] == if cpl.data.Bytes? then cpl.data.bytes[i] else stale[i]
  }

  /** What is delivered depends on the completion alone exactly when it carries every byte it announces. */
  lemma PayloadIsOwn(cpl: Tlp)
    requires cpl.Valid() && cpl.length <= SLOT_BYTES
    ensures (forall a, b | |a| == SLOT_BYTES == |b| :: Copied(cpl, a) == Copied(cpl, b))
            <==> cpl.data.Bytes? || cpl.length == 0
  {
    var zeros: seq<uint8>, ones: seq<uint8> := seq(SLOT_BYTES, _ => 0), seq(SLOT_BYTES, _ => 1);
    if cpl.data.Missing? && cpl.length > 0 {
      assert Copied(cpl, zeros)[0] != Copied(cpl, ones)[0];
    }
  }
}
