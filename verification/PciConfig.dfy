/** Chunked access to a sysfs config file, and the PCI Express capability walk on top of it. */
module PciConfig {
  import opened PcieTypes

  const CONFIG_SIZE := 256
  const STATUS_OFFSET := 0x06
  const CAPABILITIES_POINTER := 0x34
  const PCI_EXPRESS_ID := 0x10
  const WALK_LIMIT := 48

  /** `after` is `before` with n bytes from `at` on taken from `source`, where they start at `from`. */
  ghost predicate Copied(before: seq<uint8>, after: seq<uint8>, at: nat, source: seq<uint8>, from: nat, n: nat) {
    && |after| == |before|
    && (n > 0 ==> at + n <= |before| && from + n <= |source|)
    && forall i :: 0 <= i < |before| ==> after[i] == if at <= i < at + n then source[from + i - at] else before[i]
  }

  /** Copying a range in two pieces is copying it at once. */
  lemma CopiedInPieces(s0: seq<uint8>, s1: seq<uint8>, s2: seq<uint8>, at: nat, source: seq<uint8>, from: nat,
                       a: nat, b: nat)
    requires Copied(s0, s1, at, source, from, a) && Copied(s1, s2, at + a, source, from + a, b)
    ensures Copied(s0, s2, at, source, from, a + b)
  {
  }

  /** The file and the caller's buffer. */
  datatype Memory = Memory(file: seq<uint8>, buf: seq<uint8>)

  /** n bytes were written from the buffer to the file, or read from it into the buffer, and nothing else changed. */
  ghost predicate Moved(m0: Memory, m: Memory, offset: nat, cursor: nat, n: nat, isWrite: bool) {
    if isWrite then m.buf == m0.buf && Copied(m0.file, m.file, offset, m0.buf, cursor, n)
    else m.file == m0.file && Copied(m0.buf, m.buf, cursor, m0.file, offset, n)
  }

  lemma MovedInPieces(m0: Memory, m1: Memory, m2: Memory, offset: nat, a: nat, b: nat, isWrite: bool)
    requires Moved(m0, m1, offset, 0, a, isWrite) && Moved(m1, m2, offset + a, a, b, isWrite)
    ensures Moved(m0, m2, offset, 0, a + b, isWrite)
  {
    if isWrite {
      CopiedInPieces(m0.file, m1.file, m2.file, offset, m0.buf, 0, a, b);
    } else {
      CopiedInPieces(m0.buf, m1.buf, m2.buf, 0, m0.file, offset, a, b);
    }
  }

  /** A whole transfer: a read delivers exactly the range, a write replaces exactly the range. */
  lemma WholeTransfer(m0: Memory, m: Memory, offset: nat, isWrite: bool)
    requires m0.buf != [] && Moved(m0, m, offset, 0, |m0.buf|, isWrite)
    ensures offset + |m0.buf| <= |m0.file|
    ensures isWrite ==> m == Memory(m0.file[..offset] + m0.buf + m0.file[offset + |m0.buf|..], m0.buf)
    ensures !isWrite ==> m == Memory(m0.file, m0.file[offset..offset + |m0.buf|])
  {
  }

  /**
   How the kernel treats the next transfers. A number that is not positive is returned as it is (an error
   or an empty transfer), a positive one caps the bytes moved; in the end transfers are as long as the
   file allows.
   */
  datatype Kernel = Steady | Next(answer: int, later: Kernel) {
    predicate FaultFree() {
      Steady? || (answer > 0 && later.FaultFree())
    }

    function Answer(want: nat, available: nat): (result: int)
      ensures result <= Min(want, available)
      ensures FaultFree() && want > 0 && available > 0 ==> result > 0
    {
      if Steady? then Min(want, available) else if answer <= 0 then answer else Min(answer, Min(want, available))
    }

    function Later(): (k: Kernel)
      ensures FaultFree() ==> k.FaultFree()
    {
      if Steady? then Steady else later
    }
  }

  /** The config file of one device, and the kernel behind it. */
  class ConfigFile {
    var bytes: seq<uint8>
    var kernel: Kernel

    ghost predicate FaultFree()
      reads this
    {
      kernel.FaultFree()
    }

    /** pread and pwrite: both move the same number of bytes, in opposite directions. */
    method Transfer(buf: array<uint8>, cursor: nat, want: nat, offset: nat, isWrite: bool) returns (result: int)
      requires cursor + want <= buf.Length
      modifies this, buf
      ensures result <= want
      ensures old(FaultFree()) ==> FaultFree() && (want > 0 ==> (result > 0 <==> offset < |old(bytes)|))
      ensures Moved(old(Memory(bytes, buf[..])), Memory(bytes, buf[..]), offset, cursor, Max(result, 0), isWrite)
    {
      result := kernel.Answer(want, Max(|bytes| - offset, 0));
      kernel := kernel.Later();
      if result > 0 {
        if isWrite {
          bytes := bytes[..offset] + buf[cursor..cursor + result] + bytes[offset + result..];
        } else {
          forall i | 0 <= i < result {
            buf[cursor + i] := bytes[offset + i];
          }
        }
      }
    }
  }

  /**
   The transfer loop. However the kernel cuts the request into pieces, success means that the whole
   range was moved and nothing else changed; a failure leaves a prefix of length `done` moved.
   */
  method AccessConfig(file: ConfigFile, offset: nat, buf: array<uint8>, isWrite: bool)
    returns (rc: int, ghost done: nat)
    modifies file, buf
    ensures Moved(old(Memory(file.bytes, buf[..])), Memory(file.bytes, buf[..]), offset, 0, done, isWrite)
    ensures rc == if done == buf.Length then 0 else -1
    ensures old(file.FaultFree()) ==>
              file.FaultFree() && (rc == 0 <==> buf.Length == 0 || offset + buf.Length <= |old(file.bytes)|)
  {
    done := 0;
    ghost var m0 := Memory(file.bytes, buf[..]);
    var remaining: int := buf.Length;
    var cursor, at := 0, offset;
    while remaining > 0
      invariant 0 <= remaining && cursor + remaining == buf.Length
      invariant cursor == done && at == offset + done
      invariant Moved(m0, Memory(file.bytes, buf[..]), offset, 0, done, isWrite)
      invariant old(file.FaultFree()) ==> file.FaultFree()
      decreases remaining
    {
      ghost var m1 := Memory(file.bytes, buf[..]);
      var result := file.Transfer(buf, cursor, remaining, at, isWrite);
      if result <= 0 {
        // an error, or a short transfer
        return -1, done;
      }
      MovedInPieces(m0, m1, Memory(file.bytes, buf[..]), offset, done, result, isWrite);
      remaining := remaining - result;
      cursor := cursor + result;
      at := at + result;
      done := done + result;
    }
    rc := 0;
  }

  // ---------------------------------------------------------------------------------------------
  // The capability list
  // ---------------------------------------------------------------------------------------------

  /** The n-th pointer of the chain that starts at 0x34; a chain that ended stays at 0. */
  function Node(cfg: seq<uint8>, n: nat): uint8
    requires |cfg| >= CONFIG_SIZE
  {
    if n == 0 then cfg[CAPABILITIES_POINTER]
    else
      var p := Node(cfg, n - 1);
      if p == 0 || p + 1 >= |cfg| then 0 else cfg[p + 1]
  }

  /** The n-th node can be read and is a PCI Express capability. */
  predicate Hit(cfg: seq<uint8>, n: nat)
    requires |cfg| >= CONFIG_SIZE
  {
    var p := Node(cfg, n);
    p != 0 && p + 1 < |cfg| && cfg[p] == PCI_EXPRESS_ID
  }

  ghost predicate FirstHit(cfg: seq<uint8>, n: nat)
    requires |cfg| >= CONFIG_SIZE
  {
    Hit(cfg, n) && forall m: nat :: m < n ==> !Hit(cfg, m)
  }

  predicate HasCapabilities(cfg: seq<uint8>) {
    |cfg| >= CONFIG_SIZE && (cfg[STATUS_OFFSET] / 0x10) % 2 == 1
  }

  /** What the walk computes when no transfer fails. */
  function Walk(cfg: seq<uint8>): Option<uint8> {
    if HasCapabilities(cfg) then WalkFrom(cfg, cfg[CAPABILITIES_POINTER], WALK_LIMIT) else None
  }

  function WalkFrom(cfg: seq<uint8>, p: uint8, steps: nat): Option<uint8>
    decreases steps
  {
    if steps == 0 || p == 0 || p + 1 >= |cfg| then None
    else if cfg[p] == PCI_EXPRESS_ID then Some(p)
    else if cfg[p + 1] == 0 then None
    else WalkFrom(cfg, cfg[p + 1], steps - 1)
  }

  /** The walk as the library runs it; a failing transfer can lose the answer but never change it. */
  method FindPcieCapability(file: ConfigFile) returns (found: Option<uint8>)
    modifies file
    ensures file.bytes == old(file.bytes)
    ensures found.Some? ==> found == Walk(file.bytes)
    ensures old(file.FaultFree()) ==> found == Walk(file.bytes)
    ensures found.Some? ==> Leads(file.bytes, found.value)
    ensures old(file.FaultFree()) && found == None ==> forall p: uint8 :: !Leads(file.bytes, p)
  {
    WalkLeads(file.bytes);
    var cfg := new uint8[CONFIG_SIZE](_ => 0);
    var rc, done := AccessConfig(file, 0, cfg, false);
    if rc != 0 {
      return None;
    }
    if (cfg[STATUS_OFFSET] / 0x10) % 2 == 0 {
      return None;
    }
    var capPtr := cfg[CAPABILITIES_POINTER];
    assert cfg[..][CAPABILITIES_POINTER] == file.bytes[CAPABILITIES_POINTER];
    assert cfg[..][STATUS_OFFSET] == file.bytes[STATUS_OFFSET];
    var i := 0;
    while i < WALK_LIMIT && capPtr > 0
      invariant 0 <= i <= WALK_LIMIT
      invariant file.bytes == old(file.bytes)
      invariant old(file.FaultFree()) ==> file.FaultFree()
      invariant Walk(file.bytes) == WalkFrom(file.bytes, capPtr, WALK_LIMIT - i)
    {
      var hdr := new uint8[2](_ => 0);
      rc, done := AccessConfig(file, capPtr, hdr, false);
      if rc != 0 {
        return None;
      }
      assert hdr[..][0] == file.bytes[capPtr] && hdr[..][1] == file.bytes[capPtr + 1];
      if hdr[0] == PCI_EXPRESS_ID {
        return Some(capPtr);
      }
      if hdr[1] == 0 {
        break;
      }
      capPtr := hdr[1];
      i := i + 1;
    }
    return None;
  }

  /** A path along the list from p: pointers that can be read, each stored behind the one before, with ID 0x10 last. */
  predicate IsPath(cfg: seq<uint8>, p: uint8, path: seq<uint8>) {
    && path != [] && path[0] == p
    && (forall k :: 0 <= k < |path| ==> path[k] != 0 && path[k] + 1 < |cfg|)
    && (forall k :: 0 <= k < |path| - 1 ==> StepsOn(cfg, path, k))
    && cfg[path[|path| - 1]] == 0x10
  }

  predicate StepsOn(cfg: seq<uint8>, path: seq<uint8>, k: nat)
    requires k + 1 < |path|
  {
    var p: int := path[k];
    p + 1 < |cfg| && cfg[p] != 0x10 && cfg[p + 1] == path[k + 1]
  }

  /** The capability list, announced by bit 4 of byte 6 and starting at byte 0x34, leads to p in at most 48 steps. */
  ghost predicate Leads(cfg: seq<uint8>, p: uint8) {
    && |cfg| >= 256 && Bit(cfg[6], 4)
    && exists path :: IsPath(cfg, cfg[0x34], path) && |path| <= 48 && path[|path| - 1] == p
  }

  lemma {:induction false} PathOfWalk(cfg: seq<uint8>, p: uint8, steps: nat) returns (path: seq<uint8>)
    requires WalkFrom(cfg, p, steps).Some?
    ensures IsPath(cfg, p, path) && |path| <= steps && WalkFrom(cfg, p, steps) == Some(path[|path| - 1])
    decreases steps
  {
    if cfg[p] == PCI_EXPRESS_ID {
      path := [p];
    } else {
      var rest := PathOfWalk(cfg, cfg[p + 1], steps - 1);
      path := [p] + rest;
      forall k | 0 <= k < |path| - 1 ensures StepsOn(cfg, path, k) {
        assert k > 0 ==> StepsOn(cfg, rest, k - 1);
      }
    }
  }

  lemma {:induction false} WalkOfPath(cfg: seq<uint8>, p: uint8, steps: nat, path: seq<uint8>)
    requires IsPath(cfg, p, path) && |path| <= steps
    ensures WalkFrom(cfg, p, steps) == Some(path[|path| - 1])
    decreases steps
  {
    if |path| > 1 {
      var rest := path[1..];
      assert StepsOn(cfg, path, 0);
      forall k | 0 <= k < |rest| - 1 ensures StepsOn(cfg, rest, k) {
        assert StepsOn(cfg, path, k + 1);
      }
      WalkOfPath(cfg, cfg[p + 1], steps - 1, rest);
    }
  }

  /** The walk finds what the list leads to, and nothing else. */
  lemma WalkLeads(cfg: seq<uint8>)
    ensures forall p: uint8 :: Walk(cfg) == Some(p) <==> Leads(cfg, p)
  {
    StatusBit(cfg);
    if Walk(cfg).Some? {
      var path := PathOfWalk(cfg, cfg[CAPABILITIES_POINTER], WALK_LIMIT);
    }
    forall p: uint8 | Leads(cfg, p) ensures Walk(cfg) == Some(p) {
      var path :| IsPath(cfg, cfg[0x34], path) && |path| <= 48 && path[|path| - 1] == p;
      WalkOfPath(cfg, cfg[0x34], WALK_LIMIT, path);
    }
  }

  lemma StatusBit(cfg: seq<uint8>)
    ensures HasCapabilities(cfg) <==> |cfg| >= 256 && Bit(cfg[6], 4)
  {
    if |cfg| >= 256 {
      BitFour(cfg[6]);
    }
  }

  lemma BitFour(n: nat)
    ensures Bit(n, 4) <==> n / 0x10 % 2 == 1
  {
    assert Bit(n, 4) == Bit(n / 2, 3) == Bit(n / 2 / 2, 2) == Bit(n / 2 / 2 / 2, 1) == Bit(n / 2 / 2 / 2 / 2, 0);
  }

  /** From node k with enough steps left, the walk returns the first hit at or after k, if it is near enough. */
  lemma {:induction false} WalkFromNode(cfg: seq<uint8>, k: nat, steps: nat)
    requires |cfg| >= CONFIG_SIZE
    ensures WalkFrom(cfg, Node(cfg, k), steps).Some? <==> exists n: nat :: k <= n < k + steps && Hit(cfg, n)
    ensures forall n: nat :: k <= n < k + steps && Hit(cfg, n) && (forall m: nat :: k <= m < n ==> !Hit(cfg, m))
                             ==> WalkFrom(cfg, Node(cfg, k), steps) == Some(Node(cfg, n))
    decreases steps
  {
    var p := Node(cfg, k);
    if steps > 0 {
      if Hit(cfg, k) {
      } else if p == 0 || p + 1 >= |cfg| || cfg[p + 1] == 0 {
        forall n: nat | k <= n ensures !Hit(cfg, n) {
          if k < n { DeadEnd(cfg, k + 1, n); }
        }
      } else {
        WalkFromNode(cfg, k + 1, steps - 1);
      }
    }
  }

  lemma {:induction false} DeadEnd(cfg: seq<uint8>, k: nat, n: nat)
    requires |cfg| >= CONFIG_SIZE && k <= n && Node(cfg, k) == 0
    ensures Node(cfg, n) == 0
    decreases n
  {
    if k < n { DeadEnd(cfg, k, n - 1); }
  }

  /** Exactly: the walk succeeds when one of the first 48 nodes is a hit, and returns the first of them. */
  lemma WalkIsFirstHit(cfg: seq<uint8>)
    ensures Walk(cfg).Some? <==> HasCapabilities(cfg) && exists n: nat :: n < WALK_LIMIT && Hit(cfg, n)
    ensures HasCapabilities(cfg) ==>
              forall n: nat :: n < WALK_LIMIT && FirstHit(cfg, n) ==> Walk(cfg) == Some(Node(cfg, n))
  {
    if HasCapabilities(cfg) {
      WalkFromNode(cfg, 0, WALK_LIMIT);
    }
  }

  /** Every pointer met on the chain is zero or one of the 48 DWORD addresses 0x40, 0x44, ..., 0xFC. */
  ghost predicate AlignedChain(cfg: seq<uint8>)
    requires |cfg| >= CONFIG_SIZE
  {
    forall n: nat :: Node(cfg, n) == 0 || (0x40 <= Node(cfg, n) && Node(cfg, n) % 4 == 0)
  }

  /** Two equal nodes make the chain periodic from the first of them on. */
  lemma {:induction false} Periodic(cfg: seq<uint8>, i: nat, j: nat, d: nat)
    requires |cfg| >= CONFIG_SIZE && Node(cfg, i) == Node(cfg, j)
    ensures Node(cfg, i + d) == Node(cfg, j + d)
  {
    if d > 0 { Periodic(cfg, i, j, d - 1); }
  }

  /** A sequence of distinct numbers below k has at most k elements. */
  lemma {:induction false} Pigeonhole(s: seq<nat>, k: nat)
    requires forall i :: 0 <= i < |s| ==> s[i] < k
    requires forall i, j :: 0 <= i < j < |s| ==> s[i] != s[j]
    ensures |s| <= k
  {
    assert s != [] ==> s[0] < k;
    if k > 0 {
      if m :| 0 <= m < |s| && s[m] == k - 1 {
        var rest := s[..m] + s[m + 1..];
        assert forall i :: 0 <= i < |rest| ==> rest[i] == if i < m then s[i] else s[i + 1];
        Pigeonhole(rest, k - 1);
      } else {
        Pigeonhole(s, k - 1);
      }
    }
  }

  /** On an aligned chain, cyclic or not, the first hit is among the first 48 nodes. */
  lemma FirstHitIsNear(cfg: seq<uint8>, n: nat)
    requires |cfg| >= CONFIG_SIZE && AlignedChain(cfg) && FirstHit(cfg, n)
    ensures n < WALK_LIMIT
  {
    forall i: nat | i <= n ensures Node(cfg, i) != 0 {
      if Node(cfg, i) == 0 { DeadEnd(cfg, i, n); }
    }
    forall i: nat, j: nat | i < j <= n ensures Node(cfg, i) != Node(cfg, j) {
      if Node(cfg, i) == Node(cfg, j) {
        Periodic(cfg, i, j, n - j);
        assert Hit(cfg, i + (n - j));
      }
    }
    var slots: seq<nat> := seq(n + 1, i requires 0 <= i <= n => (Node(cfg, i) - 0x40) / 4);
    forall i, j | 0 <= i < j < |slots| ensures slots[i] != slots[j] {
      assert Node(cfg, i) != Node(cfg, j);
      assert Node(cfg, i) % 4 == 0 && Node(cfg, j) % 4 == 0;
    }
    Pigeonhole(slots, WALK_LIMIT);
  }

  /** The bound of 48 loses nothing: on an aligned chain the walk finds a hit at any distance. */
  lemma WalkIsComplete(cfg: seq<uint8>)
    requires HasCapabilities(cfg) && AlignedChain(cfg)
    ensures Walk(cfg).Some? <==> exists n: nat :: Hit(cfg, n)
    ensures forall n: nat :: FirstHit(cfg, n) ==> Walk(cfg) == Some(Node(cfg, n))
  {
    WalkIsFirstHit(cfg);
    forall n: nat | FirstHit(cfg, n) ensures n < WALK_LIMIT {
      FirstHitIsNear(cfg, n);
    }
    if n: nat :| Hit(cfg, n) {
      var m := LeastHit(cfg, n);
    }
  }

  lemma {:induction false} LeastHit(cfg: seq<uint8>, n: nat) returns (m: nat)
    requires |cfg| >= CONFIG_SIZE && Hit(cfg, n)
    ensures FirstHit(cfg, m)
  {
    if k: nat :| k < n && Hit(cfg, k) {
      m := LeastHit(cfg, k);
    } else {
      m := n;
    }
  }

  /** A chain that visits every second byte from 0x40 on and carries the PCI Express ID at node 48. */
  function DenseChain(): seq<uint8> {
    seq(CONFIG_SIZE, i requires 0 <= i < CONFIG_SIZE =>
      if i == STATUS_OFFSET then 0x10
      else if i == CAPABILITIES_POINTER then 0x40
      else if i == 0xA0 then PCI_EXPRESS_ID
      else if 0x40 <= i < 0xFF && i % 2 == 1 then i + 1
      else 0)
  }

  lemma {:induction false} DenseChainNode(n: nat)
    requires n <= 48
    ensures Node(DenseChain(), n) == 0x40 + 2 * n
    ensures Hit(DenseChain(), n) <==> n == 48
  {
    if n > 0 { DenseChainNode(n - 1); }
  }

  /** Without alignment the bound does lose hits. */
  lemma UnalignedChainMissesHit()
    ensures HasCapabilities(DenseChain()) && Hit(DenseChain(), 48) && Walk(DenseChain()) == None
  {
    forall n: nat | n <= WALK_LIMIT ensures Hit(DenseChain(), n) <==> n == 48 {
      DenseChainNode(n);
    }
    WalkIsFirstHit(DenseChain());
  }
}
