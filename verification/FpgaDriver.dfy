/** The simulated FPGA driver: a register file, a command handler and two delayed works. */
module FpgaDriver {
  import opened PcieTypes

  const BAR_SIZE := 4 * 1024 * 1024
  const CMD_SEND_TLP := Word(0x01, 0, 0, 0)
  const CMD_RESET := Word(0x02, 0, 0, 0)
  const STATUS_READY := Word(0x00, 0, 0, 0)
  const STATUS_BUSY := Word(0x01, 0, 0, 0)
  const STATUS_COMPLETE := Word(0x02, 0, 0, 0)

  /** A 32-bit register as its bytes in memory, the low byte first. */
  datatype Word = Word(b0: uint8, b1: uint8, b2: uint8, b3: uint8) {
    function Bytes(): (s: seq<uint8>)
      ensures |s| == 4
    {
      [b0, b1, b2, b3]
    }
  }

  /** A delayed work is scheduled or not; scheduling it again changes nothing. */
  datatype Work = Idle | Scheduled

  /** The bytes of the register file, and which of the two works are scheduled. */
  datatype Machine = Machine(regs: seq<uint8>, completeWork: Work, readyWork: Work) {
    predicate Valid() {
      |regs| == BAR_SIZE
    }

    /** The command register: the first word. */
    function Command(): Word
      requires Valid()
    {
      Word(regs[0], regs[1], regs[2], regs[3])
    }

    predicate Quiescent() {
      completeWork.Idle? && readyWork.Idle?
    }

    function Measure(): nat {
      (if completeWork.Scheduled? then 2 else 0) + (if readyWork.Scheduled? then 1 else 0)
    }
  }

  /** `s` with the bytes from `at` replaced by `d`. */
  function Patch(s: seq<uint8>, at: nat, d: seq<uint8>): (r: seq<uint8>)
    requires at + |d| <= |s|
    ensures |r| == |s|
  {
    s[..at] + d + s[at + |d|..]
  }

  /** The register file with a value in the command register. */
  function SetCommand(regs: seq<uint8>, w: Word): (r: seq<uint8>)
    requires |regs| == BAR_SIZE
    ensures |r| == BAR_SIZE && Word(r[0], r[1], r[2], r[3]) == w
  {
    Patch(regs, 0, w.Bytes())
  }

  /** A user write of `data` at `offset`, or the firing of one of the works. */
  datatype Event = Write(offset: nat, data: seq<uint8>) | CompleteFires | ReadyFires

  /** A work fires only while it is scheduled; a user may write at any time. */
  predicate Enabled(m: Machine, e: Event) {
    match e
    case Write(_, _) => true
    case CompleteFires => m.completeWork.Scheduled?
    case ReadyFires => m.readyWork.Scheduled?
  }

  function Stored(m: Machine, offset: nat, data: seq<uint8>): (r: Machine)
    requires m.Valid() && offset < BAR_SIZE
    ensures r.Valid()
  {
    var n := Min(|data|, BAR_SIZE - offset);
    m.(regs := Patch(m.regs, offset, data[..n]))
  }

  /** The command handler, run after a write that covers the first byte of the command register. */
  function Handled(m: Machine): (r: Machine)
    requires m.Valid()
    ensures r.Valid()
  {
    if m.Command() == CMD_SEND_TLP then Machine(SetCommand(m.regs, STATUS_BUSY), Scheduled, m.readyWork)
    else if m.Command() == CMD_RESET then m.(regs := seq(BAR_SIZE, _ => 0))
    else m
  }

  function Written(m: Machine, offset: nat, data: seq<uint8>): (r: Machine)
    requires m.Valid()
    ensures r.Valid()
  {
    if offset >= BAR_SIZE then m
    else if offset == 0 && data != [] then Handled(Stored(m, offset, data))
    else Stored(m, offset, data)
  }

  function Step(m: Machine, e: Event): (r: Machine)
    requires m.Valid() && Enabled(m, e)
    ensures r.Valid()
  {
    match e
    case Write(offset, data) => Written(m, offset, data)
    case CompleteFires => Machine(SetCommand(m.regs, STATUS_COMPLETE), Idle, Scheduled)
    case ReadyFires => Machine(SetCommand(m.regs, STATUS_READY), m.completeWork, Idle)
  }

  class Driver {
    const regs: array<uint8>
    var completeWork: Work
    var readyWork: Work

    ghost function State(): (m: Machine)
      reads this, regs
    {
      Machine(regs[..], completeWork, readyWork)
    }

    constructor ()
      ensures State() == Initial() && fresh(regs)
    {
      regs := new uint8[BAR_SIZE](_ => 0);
      completeWork, readyWork := Idle, Idle;
      new;
      assert regs[..] == Initial().regs;
    }

    method Store(offset: nat, data: seq<uint8>)
      requires offset + |data| <= regs.Length
      modifies regs
      ensures regs[..] == Patch(old(regs[..]), offset, data)
    {
      forall i | 0 <= i < |data| {
        regs[offset + i] := data[i];
      }
    }

    /** Returns the number of bytes stored, or None for an offset outside the register file. */
    method Write(offset: nat, data: seq<uint8>) returns (written: Option<nat>)
      requires State().Valid()
      modifies this, regs
      ensures State() == Step(old(State()), Event.Write(offset, data))
      ensures written == if offset >= BAR_SIZE then None else Some(Min(|data|, BAR_SIZE - offset))
      ensures AsWritten(old(State()), offset, data, State())
    {
      ghost var before := State();
      WriteIs(before, offset, data);
      if offset >= BAR_SIZE {
        return None;
      }
      var toWrite := Min(|data|, BAR_SIZE - offset);
      Store(offset, data[..toWrite]);
      if offset <= 0 && offset + toWrite > 0 {
        var cmd := Word(regs[0], regs[1], regs[2], regs[3]);
        if cmd == CMD_SEND_TLP {
          Store(0, STATUS_BUSY.Bytes());
          completeWork := Scheduled;
        } else if cmd == CMD_RESET {
          forall i | 0 <= i < BAR_SIZE {
            regs[i] := 0;
          }
          Store(0, STATUS_READY.Bytes());
          assert regs[..] == seq(BAR_SIZE, _ => 0);
        }
      }
      return Some(toWrite);
    }

    method CompleteWork()
      requires State().Valid() && completeWork.Scheduled?
      modifies this, regs
      ensures State() == Step(old(State()), CompleteFires)
      ensures BytesAre(regs[..4], 2) && regs[4..] == old(regs[4..])
      ensures completeWork.Idle? && readyWork.Scheduled?
    {
      SetCommandIs(regs[..], STATUS_COMPLETE);
      completeWork := Idle;
      Store(0, STATUS_COMPLETE.Bytes());
      readyWork := Scheduled;
    }

    method ReadyWork()
      requires State().Valid() && readyWork.Scheduled?
      modifies this, regs
      ensures State() == Step(old(State()), ReadyFires)
      ensures BytesAre(regs[..4], 0) && regs[4..] == old(regs[4..])
      ensures completeWork == old(completeWork) && readyWork.Idle?
    {
      SetCommandIs(regs[..], STATUS_READY);
      readyWork := Idle;
      Store(0, STATUS_READY.Bytes());
    }
  }

  /** A register that holds a number below 256. */
  predicate BytesAre(bytes: seq<uint8>, low: uint8) {
    bytes == [low, 0, 0, 0]
  }

  /** Byte i of the register file once the user data is stored; what lies beyond the window is dropped. */
  function StoredByte(regs: seq<uint8>, offset: nat, data: seq<uint8>, i: nat): uint8
    requires i < |regs|
  {
    if offset <= i < offset + |data| then data[i - offset] else regs[i]
  }

  /**
   What a write does, in terms of bytes. If it covers the first byte of the command register, a command word of
   1 makes that register 1, BUSY, and schedules the first work; one of 2 clears every byte. All other bytes, and
   every byte after any other write, are as stored, and no other work is touched.
   */
  predicate AsWritten(m: Machine, offset: nat, data: seq<uint8>, r: Machine)
    requires m.Valid()
  {
    var word := [StoredByte(m.regs, offset, data, 0), StoredByte(m.regs, offset, data, 1),
                 StoredByte(m.regs, offset, data, 2), StoredByte(m.regs, offset, data, 3)];
    var handled := offset == 0 && data != [];
    && r.Valid() && r.readyWork == m.readyWork
    && r.completeWork == (if handled && BytesAre(word, 1) then Scheduled else m.completeWork)
    && forall i :: 0 <= i < BAR_SIZE ==>
         r.regs[i] == if handled && BytesAre(word, 2) then 0 else StoredByte(m.regs, offset, data, i)
  }

  lemma StoredIs(m: Machine, offset: nat, data: seq<uint8>)
    requires m.Valid() && offset < BAR_SIZE
    ensures forall i :: 0 <= i < BAR_SIZE ==> Stored(m, offset, data).regs[i] == StoredByte(m.regs, offset, data, i)
  {
    var n := Min(|data|, BAR_SIZE - offset);
    forall i | 0 <= i < BAR_SIZE ensures Stored(m, offset, data).regs[i] == StoredByte(m.regs, offset, data, i) {
      if offset <= i < offset + n {
        assert Stored(m, offset, data).regs[i] == data[..n][i - offset];
      }
    }
  }

  lemma WriteIs(m: Machine, offset: nat, data: seq<uint8>)
    requires m.Valid()
    ensures AsWritten(m, offset, data, Step(m, Write(offset, data)))
  {
    if offset < BAR_SIZE {
      StoredIs(m, offset, data);
      HandledIs(Stored(m, offset, data));
    }
  }

  lemma HandledIs(s: Machine)
    requires s.Valid()
    ensures var r, word := Handled(s), [s.regs[0], s.regs[1], s.regs[2], s.regs[3]];
            && r.readyWork == s.readyWork
            && r.completeWork == (if BytesAre(word, 1) then Scheduled else s.completeWork)
            && forall i :: 0 <= i < BAR_SIZE ==> r.regs[i] == if BytesAre(word, 2) then 0 else s.regs[i]
  {
    var word := [s.regs[0], s.regs[1], s.regs[2], s.regs[3]];
    assert BytesAre(word, 1) <==> s.Command() == CMD_SEND_TLP;
    assert BytesAre(word, 2) <==> s.Command() == CMD_RESET;
    SetCommandIs(s.regs, STATUS_BUSY);
  }

  lemma SetCommandIs(regs: seq<uint8>, w: Word)
    requires |regs| == BAR_SIZE
    ensures forall i :: 4 <= i < BAR_SIZE ==> SetCommand(regs, w)[i] == regs[i]
    ensures SetCommand(regs, w)[..4] == [w.b0, w.b1, w.b2, w.b3]
  {
  }

  /** After loading, a send command and the two works it leads to show BUSY, COMPLETE and READY, in this order. */
  lemma SendRuns(send: Event)
    requires send == Write(0, [1, 0, 0, 0])
    ensures Runs(Initial(), [send, CompleteFires]) && Enabled(After(Initial(), [send, CompleteFires]), ReadyFires)
    ensures BytesAre(After(Initial(), [send]).regs[..4], 1)
    ensures BytesAre(After(Initial(), [send, CompleteFires]).regs[..4], 2)
    ensures var end := Step(After(Initial(), [send, CompleteFires]), ReadyFires);
            BytesAre(end.regs[..4], 0) && end.Quiescent()
  {
    var m1 := Step(Initial(), send);
    WriteIs(Initial(), 0, send.data);
    OneStep(Initial(), send);
    TwoSteps(Initial(), send, CompleteFires);
    SetCommandIs(m1.regs, STATUS_COMPLETE);
    SetCommandIs(Step(m1, CompleteFires).regs, STATUS_READY);
  }

  lemma OneStep(m: Machine, e: Event)
    requires m.Valid() && Enabled(m, e)
    ensures Runs(m, [e]) && After(m, [e]) == Step(m, e)
  {
    assert [e][1..] == [] && Runs(Step(m, e), []);
  }

  /** A status that announces a work never stands without that work being scheduled. */
  ghost predicate Inv(m: Machine) {
    && m.Valid()
    && (m.Command() == STATUS_BUSY ==> m.completeWork.Scheduled?)
    && (m.Command() == STATUS_COMPLETE ==> m.readyWork.Scheduled?)
  }

  /**
   A write that reaches the command register behind its first byte, so that the handler does not run,
   and clears what it reaches.
   */
  predicate Torn(e: Event) {
    && e.Write? && 1 <= e.offset <= 3 && e.data != []
    && forall i :: 0 <= i < |e.data| && e.offset + i < 4 ==> e.data[i] == 0
  }

  /** The writes under which every state with the invariant keeps it are exactly those that are not torn. */
  lemma WriteKeepsInvIff(e: Event)
    requires e.Write?
    ensures (forall m: Machine | Inv(m) :: Inv(Step(m, e))) <==> !Torn(e)
  {
    if Torn(e) {
      var m := Machine(
        seq(BAR_SIZE, i requires 0 <= i => if i == 0 || (e.offset <= i < 4 && i < e.offset + |e.data|) then 1 else 0),
        Idle, Idle);
      assert m.regs[e.offset] == 1;
      var r := Step(m, e);
      assert r.regs[0] == 1;
      forall i | 1 <= i < 4 ensures r.regs[i] == 0 {
        if e.offset <= i < e.offset + |e.data| { assert e.data[i - e.offset] == 0; }
      }
      assert Inv(m) && !Inv(r);
    } else {
      forall m: Machine | Inv(m) ensures Inv(Step(m, e)) {
        StepKeepsInv(m, e);
      }
    }
  }

  /** The driver as it is loaded. */
  ghost function Initial(): (m: Machine)
    ensures m.Valid() && Inv(m)
  {
    Machine(seq(BAR_SIZE, _ => 0), Idle, Idle)
  }

  /** The word that a torn write turns into BUSY: its low byte, and a one wherever the write clears. */
  function Prepared(e: Event): (word: seq<uint8>)
    requires e.Write?
    ensures |word| == 4
  {
    seq(4, i requires 0 <= i < 4 => if i == 0 || e.offset <= i < e.offset + |e.data| then 1 else 0)
  }

  /** For every torn write there is another one that, done first after loading, makes it announce BUSY. */
  lemma TornIsReachable(e: Event, first: Event)
    requires Torn(e) && first == Write(0, Prepared(e))
    ensures !Torn(first) && Runs(Initial(), [first, e])
    ensures var m := After(Initial(), [first, e]); m.Command() == STATUS_BUSY && m.Quiescent() && !Inv(m)
  {
    var word := Prepared(e);
    var m1 := Stored(Initial(), 0, word);
    assert word[..4] == word && m1.regs == Patch(Initial().regs, 0, word);
    assert m1.Command() == Word(word[0], word[1], word[2], word[3]);
    assert word[e.offset] == 1;
    assert Step(Initial(), first) == m1;
    TornClears(m1, e);
    TwoSteps(Initial(), first, e);
  }

  /** A torn write clears the bytes it reaches, and the handler does not run. */
  lemma TornClears(m: Machine, e: Event)
    requires m.Valid() && Torn(e) && m.Command() == Word(1, Prepared(e)[1], Prepared(e)[2], Prepared(e)[3])
    ensures Step(m, e) == Stored(m, e.offset, e.data) && Step(m, e).Command() == STATUS_BUSY
  {
    var r := Stored(m, e.offset, e.data);
    assert r.regs[0] == 1;
    forall i | 1 <= i < 4 ensures r.regs[i] == 0 {
      if e.offset <= i < e.offset + |e.data| { assert r.regs[i] == e.data[i - e.offset] == 0; }
    }
  }

  lemma TwoSteps(m: Machine, first: Event, second: Event)
    requires m.Valid() && Enabled(m, first) && Enabled(Step(m, first), second)
    ensures Runs(m, [first, second]) && After(m, [first, second]) == Step(Step(m, first), second)
  {
    var m1 := Step(m, first);
    var m2 := Step(m1, second);
    assert [first, second][1..] == [second] && [second][1..] == [];
    assert Runs(m2, []) && Runs(m1, [second]) && After(m1, [second]) == After(m2, []) == m2;
  }

  /** For instance a word that is no command, and a zero over its second byte. */
  lemma TornRunAnnouncesBusy(first: Event, second: Event)
    requires first == Write(0, [1, 1, 0, 0]) && second == Write(1, [0])
    ensures Torn(second) && Runs(Initial(), [first, second])
    ensures var m := After(Initial(), [first, second]);
            m.Command() == STATUS_BUSY && m.Quiescent() && !Inv(m)
  {
    assert Prepared(second) == [1, 1, 0, 0];
    TornIsReachable(second, first);
  }

  lemma StepKeepsInv(m: Machine, e: Event)
    requires Inv(m) && Enabled(m, e) && !Torn(e)
    ensures Inv(Step(m, e))
  {
    if e.CompleteFires? {
      CompleteStep(m, e);
    } else if e.ReadyFires? {
      ReadyStep(m, e);
    } else if e.offset == 0 && e.data != [] {
      HandledHasInv(Stored(m, 0, e.data));
    } else if e.offset < BAR_SIZE {
      UnhandledWrite(m, e.offset, e.data);
    }
  }

  /** Whatever was written, the handler leaves no announced status without its work. */
  lemma HandledHasInv(m: Machine)
    requires m.Valid()
    ensures Inv(Handled(m))
  {
  }

  /** A write behind the first byte changes no command byte, or leaves one that no announced status has. */
  lemma UnhandledWrite(m: Machine, offset: nat, data: seq<uint8>)
    requires m.Valid() && offset < BAR_SIZE && !Torn(Write(offset, data)) && (offset == 0 ==> data == [])
    ensures var r := Stored(m, offset, data);
            r.Command() == m.Command() || (r.Command() != STATUS_BUSY && r.Command() != STATUS_COMPLETE)
  {
    var r := Stored(m, offset, data);
    if offset <= 3 && data != [] {
      var i :| 0 <= i < |data| && offset + i < 4 && data[i] != 0;
      assert r.regs[offset + i] == data[i];
    }
  }

  ghost predicate Runs(m: Machine, events: seq<Event>)
    requires m.Valid()
    decreases |events|
  {
    events == [] || (Enabled(m, events[0]) && Runs(Step(m, events[0]), events[1..]))
  }

  ghost function After(m: Machine, events: seq<Event>): (r: Machine)
    requires m.Valid() && Runs(m, events)
    ensures r.Valid()
    decreases |events|
  {
    if events == [] then m else After(Step(m, events[0]), events[1..])
  }

  /** However sends, resets, other writes and firings interleave, the invariant holds in every state. */
  lemma {:induction false} EveryReachableState(m: Machine, events: seq<Event>)
    requires Inv(m) && Runs(m, events) && forall i :: 0 <= i < |events| ==> !Torn(events[i])
    ensures Inv(After(m, events))
    decreases |events|
  {
    if events != [] {
      StepKeepsInv(m, events[0]);
      EveryReachableState(Step(m, events[0]), events[1..]);
    }
  }

  /** `r` is reached from `m` by n firings at most: what they leave, and that they lower the measure. */
  predicate Drained(m: Machine, r: Machine, n: nat)
    requires m.Valid() && r.Valid()
  {
    && r.Measure() + n <= m.Measure()
    && (r.Quiescent() ==> r.Command() == if m.Quiescent() then m.Command() else STATUS_READY)
    && r.regs[4..] == m.regs[4..]
  }

  lemma CompleteStep(m: Machine, e: Event)
    requires m.Valid() && Enabled(m, e) && e.CompleteFires?
    ensures Drained(m, Step(m, e), 1) && Step(m, e).Command() == STATUS_COMPLETE && Step(m, e).readyWork.Scheduled?
  {
  }

  lemma ReadyStep(m: Machine, e: Event)
    requires m.Valid() && Enabled(m, e) && e.ReadyFires?
    ensures Drained(m, Step(m, e), 1) && Step(m, e).Command() == STATUS_READY
  {
  }

  lemma DrainedFurther(m: Machine, next: Machine, r: Machine, n: nat)
    requires m.Valid() && next.Valid() && r.Valid() && Drained(m, next, 1) && Drained(next, r, n)
    ensures Drained(m, r, n + 1)
  {
  }

  /**
   With no further writes the works run out: each firing lowers the measure, and once no work is left to
   fire the register is READY if one was scheduled, and otherwise as it was.
   */
  lemma {:induction false} WorksDrain(m: Machine, firings: seq<Event>)
    requires m.Valid() && Runs(m, firings) && forall i :: 0 <= i < |firings| ==> !firings[i].Write?
    ensures Drained(m, After(m, firings), |firings|)
    decreases |firings|
  {
    if firings == [] {
      assert After(m, firings) == m;
    } else {
      var e, rest := firings[0], firings[1..];
      if e.CompleteFires? {
        CompleteStep(m, e);
      } else {
        ReadyStep(m, e);
      }
      WorksDrain(Step(m, e), rest);
      DrainedFurther(m, Step(m, e), After(Step(m, e), rest), |rest|);
      assert After(m, firings) == After(Step(m, e), rest);
    }
  }

  /** A state with a scheduled work always has one that may fire, so a run that stops is quiescent. */
  lemma QuiescentIffStuck(m: Machine)
    ensures m.Quiescent() <==> forall e: Event :: Enabled(m, e) ==> e.Write?
  {
    assert Enabled(m, CompleteFires) == m.completeWork.Scheduled? && Enabled(m, ReadyFires) == m.readyWork.Scheduled?;
  }

  /** So a transfer that was announced always ends in READY. */
  lemma BusyEndsReady(m: Machine, firings: seq<Event>)
    requires Inv(m) && Runs(m, firings) && forall i :: 0 <= i < |firings| ==> !firings[i].Write?
    requires m.Command() in {STATUS_BUSY, STATUS_COMPLETE}
    ensures After(m, firings).Quiescent() ==> After(m, firings).Command() == STATUS_READY
    ensures |firings| <= 3
  {
    WorksDrain(m, firings);
  }
}
