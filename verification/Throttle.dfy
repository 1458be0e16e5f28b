/** The pacing of the dummy backend: one static deadline shared by send and receive. */
module Throttle {
  import opened PcieTypes

  /**
   One throttled call: when it read the clock, when it returned, and the interval it added to its
   clock reading to form the next deadline.
   */
  datatype Call = Call(now: nat, done: nat, interval: nat)

  function Interval(tps: uint32): (i: nat)
    requires tps > 0
    ensures i <= NS_PER_SECOND
  {
    NS_PER_SECOND / tps
  }

  /** The deadline after a run of calls: the last clock reading, taken before any sleep, plus the interval. */
  function Deadline(calls: seq<Call>): nat {
    if calls == [] then 0 else calls[|calls| - 1].now + calls[|calls| - 1].interval
  }

  /** A run of calls under a monotone clock and sleeps that last at least as long as asked. */
  ghost predicate Run(calls: seq<Call>) {
    forall k :: 0 <= k < |calls| ==> Waits(calls, k)
  }

  /** Call k starts after the previous one ended and does not end before its deadline. */
  predicate Waits(calls: seq<Call>, k: nat)
    requires k < |calls|
  {
    && calls[k].now <= calls[k].done
    && Deadline(calls[..k]) <= calls[k].done
    && (k > 0 ==> calls[k - 1].done <= calls[k].now)
  }

  lemma RunExtend(calls: seq<Call>, c: Call)
    requires Run(calls) && c.now <= c.done && Deadline(calls) <= c.done
    requires calls != [] ==> calls[|calls| - 1].done <= c.now
    ensures Run(calls + [c]) && Deadline(calls + [c]) == c.now + c.interval
  {
    var run := calls + [c];
    forall k | 0 <= k < |run| ensures Waits(run, k) {
      assert k < |calls| ==> Waits(calls, k);
      assert run[..k] == calls[..k];
      assert calls[..|calls|] == calls;
    }
  }

  /** Each call waits for the deadline of the one before. */
  lemma RunStep(calls: seq<Call>, k: nat)
    requires Run(calls) && k + 1 < |calls|
    ensures calls[k].now <= calls[k].done <= calls[k + 1].now
    ensures calls[k + 1].done >= calls[k].now + calls[k].interval
  {
    assert Waits(calls, k) && Waits(calls, k + 1);
    assert calls[..k + 1][k] == calls[k];
  }

  class Pacer {
    var next: uint64
    ghost var calls: seq<Call>
    /** The rate at which each of the calls was made. */
    ghost var rates: seq<uint32>

    ghost predicate Valid()
      reads this
    {
      && next == Deadline(calls) && Run(calls)
      && |rates| == |calls|
      && forall k :: 0 <= k < |calls| ==> IsQuotient(1_000_000_000, rates[k], calls[k].interval)
    }

    constructor ()
      ensures Valid() && next == 0 && calls == [] && rates == []
    {
      next, calls, rates := 0, [], [];
    }

    /**
     `now` is the clock reading and `elapsed` the time the call takes on top of the sleep it asks for.
     A zero rate leaves the pacer alone. The clock stays far enough below 2^64 for the sum to fit.
     */
    method Apply(tps: uint32, now: uint64, elapsed: nat) returns (done: nat)
      requires Valid() && now + NS_PER_SECOND < 0x1_0000_0000_0000_0000
      requires calls != [] ==> calls[|calls| - 1].done <= now
      modifies this
      ensures Valid()
      ensures tps == 0 ==> next == old(next) && calls == old(calls) && rates == old(rates) && done == now + elapsed
      ensures tps > 0 ==> done == (if now < old(next) then old(next) else now) + elapsed
      ensures tps > 0 ==> next >= now && tps * (next - now) <= 1_000_000_000 < tps * (next - now + 1)
      ensures tps > 0 ==> calls == old(calls) + [Call(now, done, next - now)] && rates == old(rates) + [tps]
    {
      done := now + elapsed;
      if tps == 0 {
        return;
      }
      if now < next {
        var delay := next - now;
        done := now + delay + elapsed;
      }
      IntervalIsQuotient(tps);
      next := now + Interval(tps);
      RunExtend(calls, Call(now, done, Interval(tps)));
      calls := calls + [Call(now, done, Interval(tps))];
      rates := rates + [tps];
    }

    /** N consecutive calls at one rate take at least floor(N/2) of the intervals that the rate stands for. */
    lemma ConfiguredRate(tps: uint32, a: nat, n: nat)
      requires Valid() && n > 0 && a + n <= |calls| && tps > 0
      requires forall k :: a <= k < a + n ==> rates[k] == tps
      ensures calls[a + n - 1].done >= calls[a].now + (n / 2) * (1_000_000_000 / tps)
    {
      var i := 1_000_000_000 / tps;
      forall k | a <= k < a + n ensures calls[k].interval >= i {
        QuotientIs(1_000_000_000, tps, calls[k].interval);
      }
      PacingBound(calls, i, a, n);
    }
  }

  /** q is the whole number of times that d goes into n. */
  predicate IsQuotient(n: nat, d: nat, q: nat) {
    d * q <= n < d * (q + 1)
  }

  lemma IntervalIsQuotient(tps: uint32)
    requires tps > 0
    ensures IsQuotient(1_000_000_000, tps, Interval(tps))
  {
    var i := Interval(tps);
    assert 1_000_000_000 == i * tps + 1_000_000_000 % tps;
    assert tps * (i + 1) == i * tps + tps;
  }

  lemma QuotientIs(n: nat, d: nat, q: nat)
    requires d > 0 && IsQuotient(n, d, q)
    ensures q == n / d
  {
    var p := n / d;
    assert n == p * d + n % d;
    if p < q {
      OneMore(d, p, q);
    } else if q < p {
      OneMore(d, q, p);
    }
  }

  lemma {:induction false} OneMore(d: nat, p: nat, q: nat)
    requires p < q
    ensures d * (p + 1) <= d * q
  {
    if p + 1 < q {
      OneMore(d, p, q - 1);
    }
    assert d * q == d * (q - 1) + d;
  }

  /** No deadline of the calls from a on is set less than i after the clock reading it is based on. */
  ghost predicate AtLeast(calls: seq<Call>, i: nat, a: nat, n: nat) {
    a + n <= |calls| && forall k :: a <= k < a + n ==> calls[k].interval >= i
  }

  /** Any call starts an interval after the last but one before it, so pairs of calls are spaced by one interval. */
  lemma {:induction false} PairSpacing(calls: seq<Call>, i: nat, a: nat, m: nat)
    requires Run(calls) && AtLeast(calls, i, a, 2 * m) && a + 2 * m < |calls|
    ensures calls[a + 2 * m].now >= calls[a].now + m * i
  {
    if m > 0 {
      var k := a + 2 * (m - 1);
      PairSpacing(calls, i, a, m - 1);
      RunStep(calls, k);
      RunStep(calls, k + 1);
      assert m * i == (m - 1) * i + i;
    }
  }

  /** N consecutive calls, wherever they start in a run, take at least floor(N/2) intervals. */
  lemma PacingBound(calls: seq<Call>, i: nat, a: nat, n: nat)
    requires Run(calls) && AtLeast(calls, i, a, n) && n > 0
    ensures calls[a + n - 1].done >= calls[a].now + (n / 2) * i
  {
    var m := n / 2;
    if n == 2 * m + 1 {
      PairSpacing(calls, i, a, m);
      assert Waits(calls, a + 2 * m);
    } else {
      PairSpacing(calls, i, a, m - 1);
      RunStep(calls, a + 2 * (m - 1));
      assert m * i == (m - 1) * i + i;
    }
  }

  /** Calls made back to back from t on, with sleeps exactly as long as asked. */
  function Greedy(t: nat, i: nat, n: nat): (calls: seq<Call>)
    ensures |calls| == n
  {
    seq(n, k requires 0 <= k => Call(t + (k / 2) * i, t + ((k + 1) / 2) * i, i))
  }

  /** The pacer's own fastest run: each call reads the clock as the one before returns, and sleeps exactly as asked. */
  ghost predicate BackToBack(calls: seq<Call>) {
    forall k :: 0 <= k < |calls| ==> Eager(calls, k)
  }

  predicate Eager(calls: seq<Call>, k: nat)
    requires k < |calls|
  {
    && calls[k].done == Max(calls[k].now, Deadline(calls[..k]))
    && (k > 0 ==> calls[k].now == calls[k - 1].done)
  }

  /** The bound is attained for every n: the pacer lets two calls through per interval, not one. */
  lemma PacingBoundIsTight(t: nat, i: nat, n: nat)
    requires n > 0
    ensures Run(Greedy(t, i, n)) && AtLeast(Greedy(t, i, n), i, 0, n) && BackToBack(Greedy(t, i, n))
    ensures Greedy(t, i, n)[n - 1].done == Greedy(t, i, n)[0].now + (n / 2) * i
  {
    var calls := Greedy(t, i, n);
    forall k | 0 <= k < n ensures Waits(calls, k) && Eager(calls, k) {
      GreedyCall(t, i, n, k);
    }
  }

  lemma HalfSteps(k: nat, i: nat)
    requires k > 0
    ensures ((k + 1) / 2) * i == ((k - 1) / 2) * i + i
    ensures k / 2 == (k - 1) / 2 || k / 2 == (k + 1) / 2
  {
    assert (k + 1) / 2 == (k - 1) / 2 + 1;
  }

  lemma GreedyCall(t: nat, i: nat, n: nat, k: nat)
    requires k < n
    ensures var calls := Greedy(t, i, n);
            Waits(calls, k) && Eager(calls, k)
  {
    var calls := Greedy(t, i, n);
    if k > 0 {
      assert calls[..k][k - 1] == calls[k - 1];
      HalfSteps(k, i);
    }
  }

  /** One call per interval, which the setting asks for: every call ends an interval after the one before. */
  ghost predicate OnePerInterval(calls: seq<Call>, i: nat) {
    forall k :: 0 < k < |calls| ==> calls[k].done >= calls[k - 1].done + i
  }

  ghost predicate Continues(calls: seq<Call>, c: Call) {
    Run(calls + [c])
  }

  /**
   When a run can be continued at the promised rate whatever its last caller does next: exactly when its
   last call did not have to sleep (the deadline had passed) and lost no time before it returned.
   */
  lemma NextCallIsPaced(calls: seq<Call>, last: Call)
    requires Run(calls + [last]) && last.interval > 0
    ensures (forall c: Call :: Continues(calls + [last], c) ==> c.done >= last.done + last.interval)
            <==> last.now == last.done
  {
    var run := calls + [last];
    assert Waits(run, |calls|);
    forall c: Call | Continues(run, c) ensures c.done >= last.now + last.interval {
      assert Waits(run + [c], |run|);
      assert (run + [c])[..|run|] == run;
      assert (run + [c])[|run|] == c;
    }
    if last.now < last.done {
      var c := Call(last.done, Max(last.done, last.now + last.interval), last.interval);
      RunExtend(run, c);
      assert Continues(run, c);
      assert c.done < last.done + last.interval;
    }
  }

  /** Three calls in a row already break the promised rate, for any interval. */
  lemma PromisedRateFails(t: nat, i: nat)
    requires i > 0
    ensures Run(Greedy(t, i, 3)) && BackToBack(Greedy(t, i, 3)) && !OnePerInterval(Greedy(t, i, 3), i)
  {
    PacingBoundIsTight(t, i, 3);
    var calls := Greedy(t, i, 3);
    assert calls[2].done == calls[1].done;
  }
}
