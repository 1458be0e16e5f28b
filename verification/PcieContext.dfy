/** The capture context: the growable trace, the counters, and the sniffer dispatch loop. */
module PcieContext {
  import opened PcieTypes

  const INITIAL_CAPACITY := 16
  const MAX_SNIFFERS := 8
  const DUMMY_LIMIT := 1000
  const DUMMY_BASE := 0x1000

  // ---------------------------------------------------------------------------------------------
  // Filters
  // ---------------------------------------------------------------------------------------------

  function And(a: nat, b: nat): nat
    decreases a
  {
    if a == 0 then 0 else 2 * And(a / 2, b / 2) + (if a % 2 == 1 && b % 2 == 1 then 1 else 0)
  }

  /** The bits of a bitwise and are those set in both numbers. */
  lemma {:induction false} AndBits(a: nat, b: nat, i: nat)
    ensures Bit(And(a, b), i) <==> Bit(a, i) && Bit(b, i)
  {
    if a == 0 {
      ZeroBits(i);
    } else if i > 0 {
      assert And(a, b) / 2 == And(a / 2, b / 2);
      AndBits(a / 2, b / 2, i - 1);
    }
  }

  datatype Filter = Filter(mask: uint32, value: uint32) {
    predicate Matches(t: Tlp) {
      And(t.kind, mask) == value
    }
  }

  /** PCIE_MATCH_TYPE. */
  function MatchType(kind: uint32): Filter {
    Filter(0xFF, kind)
  }

  function Ones(n: nat): nat {
    if n == 0 then 0 else 2 * Ones(n - 1) + 1
  }

  lemma {:induction false} Apart(p: nat, q: nat, m: nat)
    requires p > q
    ensures p * m >= q * m + m
  {
    if p > q + 1 {
      Apart(p - 1, q, m);
    }
    assert p * m == (p - 1) * m + m;
  }

  lemma RemainderIs(a: nat, m: nat, q: nat, r: nat)
    requires r < m && a == q * m + r
    ensures a % m == r
  {
    if a / m > q {
      Apart(a / m, q, m);
    } else if a / m < q {
      Apart(q, a / m, m);
    }
  }

  lemma HalfModulo(a: nat, m: nat)
    requires m > 0
    ensures a % (2 * m) == 2 * (a / 2 % m) + a % 2
  {
    var q, r := a / 2 / m, a / 2 % m;
    assert q * (2 * m) == 2 * (q * m);
    RemainderIs(a, 2 * m, q, 2 * r + a % 2);
  }

  /** Ones keep the low bits. */
  lemma {:induction false} AndOnes(n: nat, a: nat)
    ensures And(a, Ones(n)) == a % (Ones(n) + 1)
    decreases n
  {
    if n == 0 || a == 0 {
      AndZero(a);
    } else {
      AndOnes(n - 1, a / 2);
      AndStep(a, Ones(n - 1));
      HalfModulo(a, Ones(n - 1) + 1);
      assert Ones(n) + 1 == 2 * (Ones(n - 1) + 1);
    }
  }

  lemma AndStep(a: nat, b: nat)
    requires a > 0
    ensures And(a, 2 * b + 1) == 2 * And(a / 2, b) + a % 2
  {
    assert (2 * b + 1) / 2 == b;
  }

  lemma {:induction false} AndZero(a: nat)
    ensures And(a, 0) == 0
  {
    if a > 0 {
      AndZero(a / 2);
    }
  }

  /** The type filter accepts exactly the TLPs whose type has that low byte: for one-byte types, its own type. */
  lemma MatchTypeIsEquality(kind: uint32, t: Tlp)
    ensures MatchType(kind).Matches(t) <==> t.kind % 0x100 == kind
    ensures t.kind < 0x100 ==> (MatchType(kind).Matches(t) <==> t.kind == kind)
  {
    MatchesByte(MatchType(kind), t);
    SmallIsLowByte(t.kind);
  }

  lemma SmallIsLowByte(a: nat)
    ensures a < 0x100 ==> a % 0x100 == a
  {
  }

  lemma MatchesByte(f: Filter, t: Tlp)
    requires f.mask == 0xFF
    ensures f.Matches(t) <==> t.kind % 0x100 == f.value
  {
    AndByte(t.kind, f.mask);
  }

  lemma AndByte(a: nat, mask: nat)
    requires mask == 0xFF
    ensures And(a, mask) == a % 0x100
  {
    OnesOfByte();
    AndMask(a, 8, mask);
  }

  lemma OnesOfByte()
    ensures Ones(8) == 0xFF
  {
    assert Ones(4) == 15;
  }

  lemma AndMask(a: nat, n: nat, mask: nat)
    requires mask == Ones(n)
    ensures And(a, mask) == a % (mask + 1)
  {
    AndOnes(n, a);
  }

  // ---------------------------------------------------------------------------------------------
  // Backends
  // ---------------------------------------------------------------------------------------------

  /** The k-th TLP of the dummy backend. */
  function DummyTlp(k: nat): (t: Tlp)
    requires k < DUMMY_LIMIT
    ensures t.Valid()
  {
    Tlp(TLP_MEM_READ, 0, 0, 0, 4, DUMMY_BASE + k * 4, Missing)
  }

  function DummyFrom(k: nat): (ts: seq<Tlp>)
    requires k <= DUMMY_LIMIT
    ensures |ts| == DUMMY_LIMIT - k
    ensures forall i :: 0 <= i < |ts| ==> ts[i].Valid()
  {
    var ts := seq(DUMMY_LIMIT - k, i requires 0 <= i < DUMMY_LIMIT - k => DummyTlp(k + i));
    assert forall i :: 0 <= i < |ts| ==> ts[i] == DummyTlp(k + i);
    ts
  }

  /** The dummy backend, which counts, or one that hands out given TLPs and then fails. */
  class Backend {
    const isDummy: bool
    var count: nat
    var pending: seq<Tlp>

    /** The TLPs this backend will still deliver. */
    ghost var remaining: seq<Tlp>

    ghost predicate Valid()
      reads this
    {
      && count <= DUMMY_LIMIT
      && remaining == (if isDummy then DummyFrom(count) else pending)
      && forall i :: 0 <= i < |remaining| ==> remaining[i].Valid()
    }

    constructor Dummy()
      ensures Valid() && remaining == DummyFrom(0)
    {
      isDummy, count, pending, remaining := true, 0, [], DummyFrom(0);
    }

    constructor Scripted(feed: seq<Tlp>)
      requires forall i :: 0 <= i < |feed| ==> feed[i].Valid()
      ensures Valid() && remaining == feed
    {
      isDummy, count, pending, remaining := false, 0, feed, feed;
    }

    method Recv() returns (t: Option<Tlp>)
      requires Valid()
      modifies this
      ensures Valid()
      ensures t == None ==> old(remaining) == [] && remaining == []
      ensures t.Some? ==> t.value.Valid() && old(remaining) == [t.value] + remaining
    {
      if isDummy {
        if count >= DUMMY_LIMIT {
          return None;
        }
        t := Some(DummyTlp(count));
        assert DummyFrom(count) == [DummyTlp(count)] + DummyFrom(count + 1);
        count := count + 1;
        remaining := DummyFrom(count);
      } else {
        if pending == [] {
          return None;
        }
        t := Some(pending[0]);
        pending := pending[1..];
        remaining := pending;
      }
    }
  }

  // ---------------------------------------------------------------------------------------------
  // The trace entry of a TLP
  // ---------------------------------------------------------------------------------------------

  /** The payload buffer: the bytes of the TLP cut at 256, then zeros. */
  function TracePayload(t: Tlp): (p: seq<uint8>)
    requires t.Valid()
    ensures |p| == PAYLOAD_SIZE
  {
    var n := if t.data.Bytes? then Min(t.length, PAYLOAD_SIZE) else 0;
    (if n > 0 then t.data.bytes[..n] else []) + seq(PAYLOAD_SIZE - n, _ => 0)
  }

  function RecordOf(t: Tlp, direction: uint32, now: uint64): Record
    requires t.Valid()
  {
    RawRecord.Record(now, direction, t.kind % 0x100, t.requesterId, t.completerId, t.tag, t.length, t.addr,
                     TracePayload(t))
  }

  /** An entry of the trace, field by field: of the type its low byte, of the payload 256 bytes, padded with zeros. */
  predicate Traces(r: Record, t: Tlp, direction: uint32, now: uint64)
    requires t.Valid()
  {
    && r.timestampNs == now && r.direction == direction && r.kind == t.kind % 0x100
    && r.requesterId == t.requesterId && r.completerId == t.completerId && r.tag == t.tag
    && r.length == t.length && r.addr == t.addr
    && |r.payload| == 256
    && forall i :: 0 <= i < 256 ==> r.payload[i] == if t.data.Bytes? && i < t.length then t.data.bytes[i] else 0
  }

  lemma RecordTraces(t: Tlp, direction: uint32, now: uint64)
    requires t.Valid()
    ensures Traces(RecordOf(t, direction, now), t, direction, now)
  {
  }

  /** 16 doubled k times. */
  function Doubled(k: nat): nat {
    if k == 0 then 16 else 2 * Doubled(k - 1)
  }

  lemma {:induction false} CapacityIsDoubled(c: nat)
    ensures IsCapacity(c) <==> c == 0 || exists k: nat :: Doubled(k) == c
    decreases c
  {
    if k: nat :| Doubled(k) == c {
      DoubledIsCapacity(k);
    } else if c > INITIAL_CAPACITY && c % 2 == 0 {
      CapacityIsDoubled(c / 2);
      if k: nat :| Doubled(k) == c / 2 {
        assert Doubled(k + 1) == c;
      }
    } else {
      assert Doubled(0) == 16;
    }
  }

  lemma {:induction false} DoubledIsCapacity(k: nat)
    ensures Doubled(k) >= 16 && IsCapacity(Doubled(k))
  {
    if k > 0 {
      DoubledIsCapacity(k - 1);
      assert Doubled(k) / 2 == Doubled(k - 1);
    }
  }

  /** Capacities are 0 or 16 doubled some number of times. */
  predicate IsCapacity(c: nat)
    decreases c
  {
    c == 0 || c == INITIAL_CAPACITY || (c > INITIAL_CAPACITY && c % 2 == 0 && IsCapacity(c / 2))
  }

  // ---------------------------------------------------------------------------------------------
  // Dispatch
  // ---------------------------------------------------------------------------------------------

  /** A callback call: which sniffer got which TLP. */
  datatype Delivery = Delivery(sniffer: nat, tlp: Tlp)

  /** The calls made for one TLP, in registration order. */
  function Offer(filters: seq<Filter>, t: Tlp): seq<Delivery> {
    if filters == [] then []
    else
      var n := |filters| - 1;
      Offer(filters[..n], t) + if filters[n].Matches(t) then [Delivery(n, t)] else []
  }

  /** Calls with one TLP: to each sniffer below n that is to be hit, in the order of registration, and to no other. */
  predicate CallsWhere(added: seq<Delivery>, n: nat, t: Tlp, hit: nat -> bool) {
    && (forall k :: 0 <= k < |added| ==> added[k].tlp == t && added[k].sniffer < n && hit(added[k].sniffer))
    && (forall i, j :: 0 <= i < j < |added| ==> added[i].sniffer < added[j].sniffer)
    && forall s :: 0 <= s < n && hit(s) ==> IsCalled(added, s)
  }

  predicate IsCalled(added: seq<Delivery>, s: nat) {
    exists k :: 0 <= k < |added| && added[k].sniffer == s
  }

  /** The sniffers to call for a TLP are those whose filter matches it. */
  function Hits(filters: seq<Filter>): Tlp -> nat -> bool {
    (t: Tlp) => (s: nat) => s < |filters| && filters[s].Matches(t)
  }

  lemma {:induction false} OfferInOrder(filters: seq<Filter>, n: nat, t: Tlp, hit: nat -> bool)
    requires n <= |filters| && forall s :: 0 <= s < n ==> hit(s) == filters[s].Matches(t)
    ensures CallsWhere(Offer(filters[..n], t), n, t, hit)
  {
    if n > 0 {
      OfferInOrder(filters, n - 1, t, hit);
      assert filters[..n][..n - 1] == filters[..n - 1];
      OneMoreCall(Offer(filters[..n - 1], t), n - 1, t, hit);
    }
  }

  lemma OneMoreCall(front: seq<Delivery>, n: nat, t: Tlp, hit: nat -> bool)
    requires CallsWhere(front, n, t, hit)
    ensures CallsWhere(front + if hit(n) then [Delivery(n, t)] else [], n + 1, t, hit)
  {
    var added := front + if hit(n) then [Delivery(n, t)] else [];
    forall s | 0 <= s < n + 1 && hit(s) ensures IsCalled(added, s) {
      if s < n {
        assert IsCalled(front, s);
        var k :| 0 <= k < |front| && front[k].sniffer == s;
        assert added[k] == front[k];
      } else {
        assert added[|added| - 1].sniffer == n;
      }
    }
  }

  /**
   The calls of a loop, with the index of the TLP behind each: in the order of the TLPs, for one TLP in the order
   of registration, one for every TLP and every sniffer that it is to hit.
   */
  predicate CallsInOrder(added: seq<Delivery>, index: seq<nat>, n: nat, ts: seq<Tlp>, hit: Tlp -> nat -> bool) {
    && |index| == |added|
    && (forall k :: 0 <= k < |added| ==> IsCall(added, index, k, n, ts, hit))
    && (forall i, j :: 0 <= i < j < |added| ==> Precedes(added, index, i, j))
    && forall p, s :: 0 <= p < |ts| && 0 <= s < n && hit(ts[p])(s) ==> IsMade(added, index, p, s)
  }

  ghost predicate InOrder(added: seq<Delivery>, filters: seq<Filter>, ts: seq<Tlp>) {
    exists index :: CallsInOrder(added, index, |filters|, ts, Hits(filters))
  }

  predicate IsCall(added: seq<Delivery>, index: seq<nat>, k: nat, n: nat, ts: seq<Tlp>, hit: Tlp -> nat -> bool)
    requires k < |added| == |index|
  {
    index[k] < |ts| && added[k].tlp == ts[index[k]] && added[k].sniffer < n && hit(ts[index[k]])(added[k].sniffer)
  }

  predicate Precedes(added: seq<Delivery>, index: seq<nat>, i: nat, j: nat)
    requires i < |added| == |index| && j < |added|
  {
    index[i] < index[j] || (index[i] == index[j] && added[i].sniffer < added[j].sniffer)
  }

  predicate IsMade(added: seq<Delivery>, index: seq<nat>, p: nat, s: nat)
    requires |added| == |index|
  {
    exists k :: 0 <= k < |added| && index[k] == p && added[k].sniffer == s
  }

  lemma {:induction false} DispatchInOrder(filters: seq<Filter>, ts: seq<Tlp>) returns (index: seq<nat>)
    ensures CallsInOrder(Dispatch(filters, ts), index, |filters|, ts, Hits(filters))
  {
    if ts == [] {
      index := [];
    } else {
      var later := DispatchInOrder(filters, ts[1..]);
      OfferInOrder(filters, |filters|, ts[0], Hits(filters)(ts[0]));
      assert filters[..|filters|] == filters;
      var first, rest := Offer(filters, ts[0]), Dispatch(filters, ts[1..]);
      index := OrderBehind(first, rest, later, |filters|, ts, Hits(filters));
    }
  }

  lemma DispatchIsInOrder(filters: seq<Filter>, ts: seq<Tlp>)
    ensures InOrder(Dispatch(filters, ts), filters, ts)
  {
    var index := DispatchInOrder(filters, ts);
  }

  /** The calls for the first TLP, and behind them those for the others. */
  lemma OrderBehind(first: seq<Delivery>, rest: seq<Delivery>, later: seq<nat>, n: nat, ts: seq<Tlp>,
                    hit: Tlp -> nat -> bool) returns (index: seq<nat>)
    requires ts != [] && CallsWhere(first, n, ts[0], hit(ts[0])) && CallsInOrder(rest, later, n, ts[1..], hit)
    ensures CallsInOrder(first + rest, index, n, ts, hit)
  {
    var m, added := |first|, first + rest;
    index := seq(|added|, k requires 0 <= k < |added| => if k < m then 0 else later[k - m] + 1);
    forall k | 0 <= k < |added| ensures IsCall(added, index, k, n, ts, hit) {
      if k >= m {
        assert IsCall(rest, later, k - m, n, ts[1..], hit);
      }
    }
    forall i, j | 0 <= i < j < |added| ensures Precedes(added, index, i, j) {
      if i >= m {
        assert Precedes(rest, later, i - m, j - m);
      }
    }
    forall p, s | 0 <= p < |ts| && 0 <= s < n && hit(ts[p])(s) ensures IsMade(added, index, p, s) {
      MadeBehind(first, rest, later, index, p, s, n, ts, hit);
    }
  }

  lemma MadeBehind(first: seq<Delivery>, rest: seq<Delivery>, later: seq<nat>, index: seq<nat>, p: nat, s: nat, n: nat,
                   ts: seq<Tlp>, hit: Tlp -> nat -> bool)
    requires ts != [] && CallsWhere(first, n, ts[0], hit(ts[0])) && CallsInOrder(rest, later, n, ts[1..], hit)
    requires |index| == |first + rest|
    requires forall k :: 0 <= k < |index| ==> index[k] == if k < |first| then 0 else later[k - |first|] + 1
    requires p < |ts| && s < n && hit(ts[p])(s)
    ensures IsMade(first + rest, index, p, s)
  {
    var added := first + rest;
    if p == 0 {
      assert IsCalled(first, s);
      var k :| 0 <= k < |first| && first[k].sniffer == s;
      assert added[k] == first[k] && index[k] == 0;
    } else {
      assert ts[1..][p - 1] == ts[p] && IsMade(rest, later, p - 1, s);
      var k :| 0 <= k < |rest| && later[k] == p - 1 && rest[k].sniffer == s;
      assert added[|first| + k] == rest[k] && index[|first| + k] == p;
    }
  }

  function Dispatch(filters: seq<Filter>, ts: seq<Tlp>): seq<Delivery> {
    if ts == [] then [] else Offer(filters, ts[0]) + Dispatch(filters, ts[1..])
  }

  class Context {
    var records: array<Record>
    var traceCount: nat
    var traceCapacity: nat
    var sent: nat
    var received: nat
    var sniffers: seq<Filter>

    /** The events recorded since the last reset. */
    ghost var history: seq<Record>
    /** How many events were ever recorded, and how many entries growing the buffer ever moved. */
    ghost var appended: nat
    ghost var moved: nat
    /** The callback calls made so far. */
    ghost var calls: seq<Delivery>

    ghost predicate Valid()
      reads this, records
    {
      && records.Length == traceCapacity
      && traceCount <= traceCapacity
      && records[..traceCount] == history
      && |sniffers| <= MAX_SNIFFERS
      && |history| <= appended
      && IsCapacity(traceCapacity)
      && (traceCapacity == 0 ==> moved == 0)
      && (traceCapacity > 0 ==> moved + INITIAL_CAPACITY == traceCapacity && appended > 0)
      && (traceCapacity > INITIAL_CAPACITY ==> traceCapacity < 2 * appended)
    }

    constructor ()
      ensures Valid() && history == [] && calls == [] && sniffers == [] && appended == moved == sent == received == 0
    {
      records := new Record[0](_ => EMPTY_RECORD);
      traceCount, traceCapacity, sent, received, sniffers := 0, 0, 0, 0, [];
      history, appended, moved, calls := [], 0, 0, [];
    }

    /** Growing the buffer never moves twice as many entries as were recorded. */
    lemma GrowthIsAmortized()
      requires Valid()
      ensures moved <= 2 * appended && (appended > 0 ==> moved < 2 * appended)
    {
    }

    /** `canGrow` says whether the allocator can satisfy a request to grow; if not, the event is lost. */
    method Record(t: Tlp, direction: uint32, now: uint64, canGrow: bool)
      requires Valid() && t.Valid()
      modifies this`records, this`traceCount, this`traceCapacity, this`history, this`appended, this`moved, records
      ensures Valid()
      ensures old(traceCount) < old(traceCapacity) || canGrow ==>
                && history == old(history) + [RecordOf(t, direction, now)] && appended == old(appended) + 1
                && Traces(history[|history| - 1], t, direction, now)
      ensures old(traceCount) == old(traceCapacity) && !canGrow ==>
                history == old(history) && appended == old(appended) && traceCapacity == old(traceCapacity)
    {
      if traceCount == traceCapacity {
        if !canGrow {
          return;
        }
        Grow();
      }
      RecordTraces(t, direction, now);
      records[traceCount] := RecordOf(t, direction, now);
      traceCount := traceCount + 1;
      history := history + [RecordOf(t, direction, now)];
      appended := appended + 1;
    }

    /** Moves the trace to a buffer of twice the size; the caller records one more event right after. */
    method Grow()
      requires Valid() && traceCount == traceCapacity
      modifies this`records, this`traceCapacity, this`moved
      ensures fresh(records) && records.Length == traceCapacity > traceCount && records[..traceCount] == history
      ensures traceCapacity == if old(traceCapacity) == 0 then 16 else 2 * old(traceCapacity)
      ensures moved == old(moved) + traceCount
      ensures IsCapacity(traceCapacity)
    {
      var newCapacity := if traceCapacity == 0 then INITIAL_CAPACITY else traceCapacity * 2;
      var entry := new Record[newCapacity](_ => EMPTY_RECORD);
      forall i | 0 <= i < traceCount {
        entry[i] := records[i];
      }
      assert entry[..traceCount] == records[..traceCount];
      moved := moved + traceCount;
      records := entry;
      traceCapacity := newCapacity;
    }

    /** `rc` is what the backend returns. The attempt is counted, the TLP is traced only on success. */
    method Send(t: Tlp, rc: int, now: uint64, canGrow: bool) returns (result: int)
      requires Valid() && t.Valid()
      modifies this, records
      ensures Valid() && result == rc && sent == old(sent) + 1 && received == old(received)
      ensures calls == old(calls) && sniffers == old(sniffers)
      ensures rc != 0 ==> history == old(history)
      ensures rc == 0 && (old(traceCount) < old(traceCapacity) || canGrow) ==>
                history == old(history) + [RecordOf(t, TRACE_TX, now)] && Traces(history[|history| - 1], t, 1, now)
      ensures rc == 0 && old(traceCount) == old(traceCapacity) && !canGrow ==> history == old(history)
    {
      sent := sent + 1;
      if rc == 0 {
        Record(t, TRACE_TX, now, canGrow);
      }
      return rc;
    }

    method Recv(backend: Backend, now: uint64, canGrow: bool) returns (t: Option<Tlp>)
      requires Valid() && backend.Valid()
      modifies this, records, backend
      ensures Valid() && backend.Valid() && sent == old(sent)
      ensures calls == old(calls) && sniffers == old(sniffers)
      ensures t == None <==> old(backend.remaining) == []
      ensures t == None ==> history == old(history) && received == old(received)
      ensures t.Some? ==> old(backend.remaining) == [t.value] + backend.remaining && received == old(received) + 1
      ensures t.Some? && (old(traceCount) < old(traceCapacity) || canGrow) ==>
                && t.value.Valid() && history == old(history) + [RecordOf(t.value, TRACE_RX, now)]
                && Traces(history[|history| - 1], t.value, 2, now)
      ensures t.Some? && old(traceCount) == old(traceCapacity) && !canGrow ==> history == old(history)
    {
      t := backend.Recv();
      if t.Some? {
        received := received + 1;
        Record(t.value, TRACE_RX, now, canGrow);
      }
    }

    /** Reports success even when the event was lost. */
    method Append(t: Tlp, direction: uint32, now: uint64, canGrow: bool) returns (rc: int)
      requires Valid() && t.Valid()
      modifies this, records
      ensures Valid() && rc == 0 && sent == old(sent) && received == old(received)
      ensures calls == old(calls) && sniffers == old(sniffers)
      ensures history == if old(traceCount) < old(traceCapacity) || canGrow
                         then old(history) + [RecordOf(t, direction, now)] else old(history)
      ensures old(traceCount) < old(traceCapacity) || canGrow ==> Traces(history[|history| - 1], t, direction, now)
    {
      Record(t, direction, now, canGrow);
      return 0;
    }

    method Reset()
      requires Valid()
      modifies this`traceCount, this`history
      ensures Valid() && history == []
    {
      traceCount := 0;
      history := [];
    }

    method TraceCount() returns (n: nat)
      requires Valid()
      ensures n == |history|
    {
      n := traceCount;
    }

    method Sniff(filter: Filter)
      requires Valid() && |sniffers| < MAX_SNIFFERS
      modifies this`sniffers
      ensures Valid() && sniffers == old(sniffers) + [filter]
    {
      sniffers := sniffers + [filter];
    }

    method Deliver(t: Tlp)
      modifies this`calls
      ensures calls == old(calls) + Offer(sniffers, t)
      ensures CallsWhere(calls[|old(calls)|..], |sniffers|, t, Hits(sniffers)(t))
    {
      OfferInOrder(sniffers, |sniffers|, t, Hits(sniffers)(t));
      var i := 0;
      while i < |sniffers|
        invariant 0 <= i <= |sniffers|
        invariant calls == old(calls) + Offer(sniffers[..i], t)
      {
        assert sniffers[..i + 1][..i] == sniffers[..i];
        if sniffers[i].Matches(t) {
          calls := calls + [Delivery(i, t)];
        }
        i := i + 1;
      }
      assert sniffers[..|sniffers|] == sniffers;
    }

    /** Drains the backend; received TLPs reach the sniffers but not the trace. */
    method Loop(backend: Backend)
      requires Valid() && backend.Valid()
      modifies this`received, this`calls, backend
      ensures Valid() && backend.Valid() && backend.remaining == []
      ensures calls == old(calls) + Dispatch(sniffers, old(backend.remaining))
      ensures InOrder(calls[|old(calls)|..], sniffers, old(backend.remaining))
      ensures received == old(received) + |old(backend.remaining)|
    {
      DispatchIsInOrder(sniffers, backend.remaining);
      ghost var ahead := backend.remaining;
      ghost var total := DispatchAfter(calls, sniffers, ahead);
      DispatchAppends(calls, sniffers, ahead);
      ghost var count := received + |ahead|;
      var t := backend.Recv();
      while t.Some?
        invariant backend.Valid()
        invariant ahead == match t case None => backend.remaining case Some(tlp) => [tlp] + backend.remaining
        invariant t == None ==> ahead == []
        invariant DispatchAfter(calls, sniffers, ahead) == total && received + |ahead| == count
        decreases |ahead|
      {
        received := received + 1;
        DispatchFront(calls, sniffers, t.value, backend.remaining);
        Deliver(t.value);
        ahead := backend.remaining;
        t := backend.Recv();
      }
    }
  }

  /** The calls so far, and then those that some TLPs cause. */
  function DispatchAfter(calls: seq<Delivery>, filters: seq<Filter>, ts: seq<Tlp>): seq<Delivery>
    decreases |ts|
  {
    if ts == [] then calls else DispatchAfter(calls + Offer(filters, ts[0]), filters, ts[1..])
  }

  lemma DispatchFront(calls: seq<Delivery>, filters: seq<Filter>, t: Tlp, ts: seq<Tlp>)
    ensures DispatchAfter(calls, filters, [t] + ts) == DispatchAfter(calls + Offer(filters, t), filters, ts)
  {
    assert ([t] + ts)[1..] == ts;
  }

  lemma {:induction false} DispatchAppends(calls: seq<Delivery>, filters: seq<Filter>, ts: seq<Tlp>)
    ensures DispatchAfter(calls, filters, ts) == calls + Dispatch(filters, ts)
    decreases |ts|
  {
    if ts == [] {
      assert calls + [] == calls;
    } else {
      var offer := Offer(filters, ts[0]);
      DispatchAppends(calls + offer, filters, ts[1..]);
      assert (calls + offer) + Dispatch(filters, ts[1..]) == calls + (offer + Dispatch(filters, ts[1..]));
    }
  }

  /** The TLPs of the calls made to sniffer i, in order. */
  function Seen(calls: seq<Delivery>, i: nat): seq<Tlp> {
    if calls == [] then []
    else (if calls[0].sniffer == i then [calls[0].tlp] else []) + Seen(calls[1..], i)
  }

  /** The TLPs that pass a filter, in order. */
  function Passing(f: Filter, ts: seq<Tlp>): seq<Tlp> {
    if ts == [] then [] else (if f.Matches(ts[0]) then [ts[0]] else []) + Passing(f, ts[1..])
  }

  lemma {:induction false} SeenAppend(a: seq<Delivery>, b: seq<Delivery>, i: nat)
    ensures Seen(a + b, i) == Seen(a, i) + Seen(b, i)
  {
    if a == [] {
      assert a + b == b;
    } else {
      var c := a + b;
      assert c[0] == a[0] && c[1..] == a[1..] + b;
      SeenAppend(a[1..], b, i);
      assert Seen(c, i) == (if a[0].sniffer == i then [a[0].tlp] else []) + (Seen(a[1..], i) + Seen(b, i));
    }
  }

  lemma {:induction false} SeenOffer(filters: seq<Filter>, t: Tlp, i: nat)
    ensures Seen(Offer(filters, t), i) == if i < |filters| && filters[i].Matches(t) then [t] else []
  {
    if filters != [] {
      var n := |filters| - 1;
      SeenOffer(filters[..n], t, i);
      SeenAppend(Offer(filters[..n], t), if filters[n].Matches(t) then [Delivery(n, t)] else [], i);
    }
  }

  /** Each sniffer sees exactly the subsequence of the received TLPs that its filter passes. */
  lemma {:induction false} SnifferSeesItsFilter(filters: seq<Filter>, ts: seq<Tlp>, i: nat)
    requires i < |filters|
    ensures Seen(Dispatch(filters, ts), i) == Passing(filters[i], ts)
  {
    if ts != [] {
      SnifferSeesItsFilter(filters, ts[1..], i);
      SeenOffer(filters, ts[0], i);
      SeenAppend(Offer(filters, ts[0]), Dispatch(filters, ts[1..]), i);
    }
  }

  /** A fresh dummy backend feeds the loop 1000 reads at consecutive DWORDs. */
  lemma DummyFeed()
    ensures |DummyFrom(0)| == 1000
    ensures forall i :: 0 <= i < 1000 ==> DummyFrom(0)[i] == Tlp(0, 0, 0, 0, 4, 0x1000 + 4 * i, Missing)
  {
    forall i | 0 <= i < 1000
      ensures DummyFrom(0)[i] == Tlp(0, 0, 0, 0, 4, 0x1000 + 4 * i, Missing)
    {
      assert DummyFrom(0)[i] == DummyTlp(i);
    }
  }
}
