/**
 * When snapshots are emitted and when they are dropped. Times are counted from the moment the
 * emitter was made. A call is granted once a buffer, a part of the interval, has passed since the
 * last emission; the time of the last emission then moves on by one whole interval.
 */
module EmissionSchedule {

  type Duration = int

  datatype Schedule = Schedule(interval: Duration, buffer: Duration)
  {
    predicate Valid() {
      0 < interval && 0 <= buffer <= interval
    }

    /** The emissions that a calendar with one every interval has due at a moment. */
    function Due(elapsed: int): nat
      requires Valid()
    {
      if elapsed <= buffer then 0 else (elapsed - buffer - 1) / interval + 1
    }

    /** The number of granted calls among calls at these moments. */
    function Granted(calls: seq<int>): nat {
      if calls == [] then 0
      else
        var k := Granted(calls[..|calls| - 1]);
        if k * interval + buffer < calls[|calls| - 1] then k + 1 else k
    }
  }

  predicate Ordered(calls: seq<int>) {
    && (forall i :: 0 <= i < |calls| ==> 0 <= calls[i])
    && (forall i, j :: 0 <= i < j < |calls| ==> calls[i] <= calls[j])
  }

  lemma Times(a: int, b: int, c: nat)
    requires a <= b
    ensures a * c <= b * c
  {
    assert b * c == a * c + (b - a) * c;
  }

  lemma DueExactly(s: Schedule, elapsed: int, j: nat)
    requires s.Valid()
    ensures j < s.Due(elapsed) <==> j * s.interval + s.buffer < elapsed
  {
    var past := elapsed - s.buffer - 1;
    if past >= 0 {
      var q, r := past / s.interval, past % s.interval;
      assert past == q * s.interval + r;
      if j <= q {
        Times(j, q, s.interval);
      } else {
        Times(q + 1, j, s.interval);
      }
    } else {
      Times(0, j, s.interval);
    }
  }

  lemma DueGrows(s: Schedule, earlier: int, later: int)
    requires s.Valid() && earlier <= later
    ensures s.Due(earlier) <= s.Due(later)
  {
    var n := s.Due(earlier);
    if n > 0 {
      DueExactly(s, earlier, n - 1);
      DueExactly(s, later, n - 1);
    }
  }

  lemma DueWithinInterval(s: Schedule, earlier: int, later: int)
    requires s.Valid() && later <= earlier + s.interval
    ensures s.Due(later) <= s.Due(earlier) + 1
  {
    var k := s.Due(earlier);
    DueExactly(s, earlier, k);
    DueExactly(s, later, k + 1);
    assert (k + 1) * s.interval == k * s.interval + s.interval;
  }

  /** A call is granted if and only if fewer emissions have been granted than are due. */
  lemma GrantedNext(s: Schedule, calls: seq<int>, now: int)
    requires s.Valid()
    ensures s.Granted(calls + [now]) == if s.Granted(calls) < s.Due(now) then s.Granted(calls) + 1 else s.Granted(calls)
  {
    assert (calls + [now])[..|calls|] == calls;
    DueExactly(s, now, s.Granted(calls));
  }

  /**
   * Emissions never run ahead of the calendar, whatever the calls: the last one granted was due,
   * so emissions take at least an interval each, less the part of one that the buffer leaves off.
   */
  lemma {:induction false} NeverAhead(s: Schedule, calls: seq<int>)
    requires s.Valid() && Ordered(calls) && calls != []
    ensures s.Granted(calls) <= s.Due(calls[|calls| - 1])
    ensures s.Granted(calls) > 0 ==> (s.Granted(calls) - 1) * s.interval + s.buffer < calls[|calls| - 1]
  {
    var n := |calls| - 1;
    assert calls == calls[..n] + [calls[n]];
    GrantedNext(s, calls[..n], calls[n]);
    if n > 0 {
      NeverAhead(s, calls[..n]);
      DueGrows(s, calls[n - 1], calls[n]);
    }
    if s.Granted(calls) > 0 {
      DueExactly(s, calls[n], s.Granted(calls) - 1);
    }
  }

  /**
   * That part is granted early, time after time: with NeverAhead, the earliest moment of the k-th
   * emission is the one right after k - 1 intervals and the buffer, in which k intervals have not yet
   * passed unless the buffer is all but the interval.
   */
  lemma {:induction false} EarliestEmission(s: Schedule, k: nat) returns (calls: seq<int>)
    requires s.Valid() && k > 0
    ensures Ordered(calls) && calls != [] && s.Granted(calls) == k
    ensures calls[|calls| - 1] == (k - 1) * s.interval + s.buffer + 1
    ensures calls[|calls| - 1] < s.Granted(calls) * s.interval <==> s.buffer + 1 < s.interval
  {
    var now := (k - 1) * s.interval + s.buffer + 1;
    assert k * s.interval == (k - 1) * s.interval + s.interval;
    DueExactly(s, now, k - 1);
    if k == 1 {
      calls := [now];
      assert calls == [] + [now];
      GrantedNext(s, [], now);
    } else {
      var before := EarliestEmission(s, k - 1);
      assert (k - 1) * s.interval == (k - 2) * s.interval + s.interval;
      calls := before + [now];
      GrantedNext(s, before, now);
    }
  }

  /** After a stall that leaves m emissions due, the next m calls are all granted. */
  lemma {:induction false} CatchesUp(s: Schedule, calls: seq<int>, more: seq<int>)
    requires s.Valid() && Ordered(calls + more)
    requires more != [] ==> s.Granted(calls) + |more| <= s.Due(more[0])
    ensures s.Granted(calls + more) == s.Granted(calls) + |more|
  {
    if more == [] {
      assert calls + more == calls;
    } else {
      var n := |more| - 1;
      var front := more[..n];
      assert calls + more == (calls + front) + [more[n]];
      assert Ordered(calls + front) by {
        assert calls + front == (calls + more)[..|calls| + n];
      }
      CatchesUp(s, calls, front);
      assert more[0] == (calls + more)[|calls|] && more[n] == (calls + more)[|calls| + n];
      DueGrows(s, more[0], more[n]);
      GrantedNext(s, calls + front, more[n]);
    }
  }

  /** Calls at most an interval apart keep exactly to the calendar. */
  lemma {:induction false} OnTime(s: Schedule, calls: seq<int>)
    requires s.Valid() && Ordered(calls) && calls != []
    requires calls[0] <= s.interval + s.buffer
    requires forall i :: 0 < i < |calls| ==> calls[i] <= calls[i - 1] + s.interval
    ensures s.Granted(calls) == s.Due(calls[|calls| - 1])
  {
    var n := |calls| - 1;
    assert calls == calls[..n] + [calls[n]];
    GrantedNext(s, calls[..n], calls[n]);
    if n == 0 {
      DueExactly(s, calls[0], 1);
    } else {
      OnTime(s, calls[..n]);
      DueGrows(s, calls[n - 1], calls[n]);
      DueWithinInterval(s, calls[n - 1], calls[n]);
    }
  }

  lemma GrantedOrCaughtUp(s: Schedule, calls: seq<int>)
    requires s.Valid() && Ordered(calls) && calls != []
    ensures
      var k, n := s.Granted(calls), |calls| - 1;
      k <= s.Due(calls[n]) && (k == s.Granted(calls[..n]) + 1 || (k == s.Granted(calls[..n]) && k == s.Due(calls[n])))
  {
    var n := |calls| - 1;
    assert calls == calls[..n] + [calls[n]];
    GrantedNext(s, calls[..n], calls[n]);
    NeverAhead(s, calls);
  }

  function DueAt(s: Schedule, calls: seq<int>, j: nat): nat
    requires s.Valid() && j <= |calls|
  {
    if j == 0 then 0 else s.Due(calls[j - 1])
  }

  /**
   * In closed form: after any calls, emissions are behind the calendar only for want of calls since
   * some moment at which they had caught up.
   */
  lemma {:induction false} GrantedIsLeast(s: Schedule, calls: seq<int>) returns (caughtUp: nat)
    requires s.Valid() && Ordered(calls)
    ensures caughtUp <= |calls| && s.Granted(calls) == DueAt(s, calls, caughtUp) + |calls| - caughtUp
    ensures forall j :: 0 <= j <= |calls| ==> s.Granted(calls) <= DueAt(s, calls, j) + |calls| - j
  {
    if calls == [] {
      caughtUp := 0;
    } else {
      var n := |calls| - 1;
      assert calls == calls[..n] + [calls[n]];
      GrantedOrCaughtUp(s, calls);
      caughtUp := GrantedIsLeast(s, calls[..n]);
      assert forall j :: 0 <= j <= n ==> DueAt(s, calls[..n], j) == DueAt(s, calls, j);
      if s.Granted(calls) == s.Granted(calls[..n]) {
        caughtUp := n + 1;
      }
    }
  }
}
