/** Messages framed one after another in a byte stream, for any message type and any frame format. */
module Framing {
  import opened PcieTypes

  /** The first message of a stream and the number of bytes it takes. */
  datatype Front<T> = Front(message: T, size: nat)

  type Framer<!T> = T -> seq<uint8>
  type Reader<!T> = seq<uint8> -> Option<Front<T>>

  function Concat<T>(frame: Framer<T>, ts: seq<T>): seq<uint8> {
    if ts == [] then [] else frame(ts[0]) + Concat(frame, ts[1..])
  }

  /** Reads messages to the end of the stream; a message that takes no bytes, or more than there are, is an error. */
  function ReadAll<T>(read: Reader<T>, s: seq<uint8>): Option<seq<T>>
    decreases |s|
  {
    if s == [] then Some([])
    else
      match read(s)
      case None => None
      case Some(front) =>
        if front.size == 0 || front.size > |s| then None
        else
          match ReadAll(read, s[front.size..])
          case None => None
          case Some(rest) => Some([front.message] + rest)
  }

  lemma {:induction false} ConcatAppend<T>(frame: Framer<T>, ts: seq<T>, t: T)
    ensures Concat(frame, ts + [t]) == Concat(frame, ts) + frame(t)
  {
    if ts == [] {
      assert [] + [t] == [t] && [t][1..] == [];
      assert frame(t) + [] == [] + frame(t);
    } else {
      assert (ts + [t])[1..] == ts[1..] + [t];
      ConcatAppend(frame, ts[1..], t);
      assert (frame(ts[0]) + Concat(frame, ts[1..])) + frame(t) == frame(ts[0]) + (Concat(frame, ts[1..]) + frame(t));
    }
  }

  lemma ConcatFirst<T>(frame: Framer<T>, ts: seq<T>)
    requires ts != []
    ensures Concat(frame, ts) == frame(ts[0]) + Concat(frame, ts[1..])
  {
  }

  lemma ConcatTake<T>(frame: Framer<T>, ts: seq<T>, i: nat)
    requires i < |ts|
    ensures Concat(frame, ts[..i + 1]) == Concat(frame, ts[..i]) + frame(ts[i])
  {
    ConcatAppend(frame, ts[..i], ts[i]);
    assert ts[..i + 1] == ts[..i] + [ts[i]];
  }

  predicate All<T>(good: T -> bool, ts: seq<T>) {
    forall i :: 0 <= i < |ts| ==> good(ts[i])
  }

  /** The reader gets a good message back from its frame, whatever follows. */
  ghost predicate ReadsBack<T(!new)>(frame: Framer<T>, read: Reader<T>, good: T -> bool) {
    forall t, rest :: good(t) ==> FrameReadsBack(frame, read, t, rest)
  }

  predicate FrameReadsBack<T(==)>(frame: Framer<T>, read: Reader<T>, t: T, rest: seq<uint8>) {
    frame(t) != [] && read(frame(t) + rest) == Some(Front(t, |frame(t)|))
  }

  /** The reader accepts only frames of good messages. */
  ghost predicate ReadsFrames<T(!new)>(frame: Framer<T>, read: Reader<T>, good: T -> bool) {
    forall s :: read(s).Some? ==> FrontIsFrame(frame, read(s).value, good, s)
  }

  predicate FrontIsFrame<T>(frame: Framer<T>, front: Front<T>, good: T -> bool, s: seq<uint8>) {
    good(front.message) && 0 < front.size <= |s| && frame(front.message) == s[..front.size]
  }

  /** Messages in front of what more was read, if it could be read. */
  function Before<T>(ts: seq<T>, more: Option<seq<T>>): Option<seq<T>> {
    match more
    case None => None
    case Some(us) => Some(ts + us)
  }

  lemma BeforeAppend<T>(ts: seq<T>, t: T, more: Option<seq<T>>)
    ensures Before(ts, Before([t], more)) == Before(ts + [t], more)
  {
    if more.Some? {
      assert ts + ([t] + more.value) == ts + [t] + more.value;
    }
  }

  lemma BeforeEnd<T>(t: T)
    ensures Before([] + [t], Some([])) == Some([t])
  {
    assert [] + [t] + [] == [t];
  }

  lemma BeforeNothing<T>(more: Option<seq<T>>)
    ensures Before([], more) == more
  {
    if more.Some? {
      assert [] + more.value == more.value;
    }
  }

  /** Good messages at the front of a stream are read back, whatever follows them. */
  lemma {:induction false} ReadAllBehind<T(!new)>(frame: Framer<T>, read: Reader<T>, good: T -> bool, ts: seq<T>,
                                                  rest: seq<uint8>)
    requires ReadsBack(frame, read, good) && All(good, ts)
    ensures ReadAll(read, Concat(frame, ts) + rest) == Before(ts, ReadAll(read, rest))
    decreases |ts|
  {
    if ts == [] {
      assert [] + rest == rest;
      BeforeNothing(ReadAll(read, rest));
    } else {
      var first, more := frame(ts[0]), Concat(frame, ts[1..]) + rest;
      assert Concat(frame, ts) + rest == first + more;
      assert FrameReadsBack(frame, read, ts[0], more);
      ReadAllFirst(frame, read, ts[0], more);
      ReadAllBehind(frame, read, good, ts[1..], rest);
      BeforeFirst(ts, ReadAll(read, rest));
    }
  }

  lemma ReadAllFirst<T>(frame: Framer<T>, read: Reader<T>, t: T, more: seq<uint8>)
    requires frame(t) != [] && read(frame(t) + more) == Some(Front(t, |frame(t)|))
    ensures ReadAll(read, frame(t) + more) == Before([t], ReadAll(read, more))
  {
    assert (frame(t) + more)[|frame(t)|..] == more;
  }

  lemma BeforeFirst<T>(ts: seq<T>, more: Option<seq<T>>)
    requires ts != []
    ensures Before([ts[0]], Before(ts[1..], more)) == Before(ts, more)
  {
    if more.Some? {
      assert [ts[0]] + (ts[1..] + more.value) == ts + more.value;
    }
  }

  lemma ReadAllOfConcat<T(!new)>(frame: Framer<T>, read: Reader<T>, good: T -> bool, ts: seq<T>)
    requires ReadsBack(frame, read, good) && All(good, ts)
    ensures ReadAll(read, Concat(frame, ts)) == Some(ts)
  {
    ReadAllBehind(frame, read, good, ts, []);
    assert Concat(frame, ts) + [] == Concat(frame, ts) && ts + [] == ts;
  }

  lemma {:induction false} ConcatOfReadAll<T(!new)>(frame: Framer<T>, read: Reader<T>, good: T -> bool, s: seq<uint8>)
    requires ReadsFrames(frame, read, good) && ReadAll(read, s).Some?
    ensures Concat(frame, ReadAll(read, s).value) == s && All(good, ReadAll(read, s).value)
    decreases |s|
  {
    if s != [] {
      var front := read(s).value;
      var rest := s[front.size..];
      assert FrontIsFrame(frame, front, good, s);
      ConcatOfReadAll(frame, read, good, rest);
      var more := ReadAll(read, rest).value;
      assert ([front.message] + more)[1..] == more;
      assert s[..front.size] + rest == s;
    }
  }

  lemma Times(size: nat, n: nat)
    requires n > 0
    ensures size * n == size + size * (n - 1) >= 0
  {
  }

  lemma TimesMonotone(size: nat, i: nat, n: nat)
    requires i <= n
    ensures 0 <= size * i <= size * n
  {
  }

  lemma {:induction false} ConcatLength<T>(frame: Framer<T>, ts: seq<T>, size: nat)
    requires forall k :: 0 <= k < |ts| ==> |frame(ts[k])| == size
    ensures |Concat(frame, ts)| == size * |ts|
    decreases |ts|
  {
    if ts != [] {
      ConcatLength(frame, ts[1..], size);
      Times(size, |ts|);
    }
  }

  lemma DropMore<T>(first: seq<T>, rest: seq<T>, k: nat)
    requires k <= |rest|
    ensures (first + rest)[|first| + k..] == rest[k..]
  {
  }

  /** With frames of one size, message i starts at i sizes. */
  lemma {:induction false} ConcatFrom<T>(frame: Framer<T>, ts: seq<T>, size: nat, i: nat)
    requires i <= |ts| && forall k :: 0 <= k < |ts| ==> |frame(ts[k])| == size
    ensures |Concat(frame, ts)| == size * |ts|
    ensures 0 <= size * i <= size * |ts| && Concat(frame, ts)[size * i..] == Concat(frame, ts[i..])
    decreases |ts|
  {
    ConcatLength(frame, ts, size);
    TimesMonotone(size, i, |ts|);
    if i == 0 {
      assert ts[0..] == ts;
    } else {
      var rest := Concat(frame, ts[1..]);
      ConcatFrom(frame, ts[1..], size, i - 1);
      Times(size, i);
      assert ts[1..][i - 1..] == ts[i..];
      DropMore(frame(ts[0]), rest, size * (i - 1));
    }
  }
}
