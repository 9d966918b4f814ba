/** What the congestion window does over whole runs: it doubles in slow start, is halved by a drop, grows by a
    segment a window in congestion avoidance, and after a timeout climbs back to half of what it was. */
module CongestionRuns {
  import opened Words
  import opened AimdReno

  // ---- drops ----

  /** In every run a drop halves the window and leads to congestion avoidance, if nothing is left to count down
      since the last; otherwise it changes nothing. */
  lemma {:induction false} DropHalves(s: State, events: seq<Event>)
    requires s.Safe()
    ensures Run(s, events).Some? && Run(s, events + [Drop]).Some?
    ensures var before, after := Run(s, events).value, Run(s, events + [Drop]).value;
      if before.dropcnt == 0 then
        after.mode == CongestionAvoidance && HalfOf(after.cwnd, before.cwnd, s.Least()) && after.dropcnt == after.cwnd
      else after == before
  {
    RunKeepsSafe(s, events);
    RunNext(s, events, Drop);
  }

  /** What is left of the count after n acknowledgements. */
  lemma {:induction false} CountsDown(s: State, n: nat)
    requires s.Safe()
    ensures Run(s, Acks(n)).Some? && Run(s, Acks(n)).value.Safe()
    ensures Run(s, Acks(n)).value.dropcnt == if n * s.mss <= s.dropcnt then s.dropcnt - n * s.mss else 0
    decreases n
  {
    if n > 0 {
      CountsDown(s, n - 1);
      var before := Run(s, Acks(n - 1)).value;
      RunNext(s, Acks(n - 1), Ack);
      SafeNeverFails(before);
      StepsKeepValid(before);
      assert n * s.mss == (n - 1) * s.mss + s.mss;
    }
  }

  /** After a drop that took effect, the next takes effect exactly once a window's worth of segments, of the
      halved window, is acknowledged. */
  lemma {:induction false} NextDropExactly(s: State, n: nat)
    requires s.Safe() && s.dropcnt == 0
    ensures var halved := Run(s, [Drop]);
      && halved.Some? && HalfOf(halved.value.cwnd, s.cwnd, s.Least())
      && Run(halved.value, Acks(n)).Some?
      && var before := Run(halved.value, Acks(n)).value;
         && Run(before, [Drop]).Some?
         && var after := Run(before, [Drop]).value;
            if n * s.mss >= halved.value.cwnd then HalfOf(after.cwnd, before.cwnd, s.Least()) else after == before
  {
    DropHalves(s, []);
    assert [] + [Drop] == [Drop];
    RunKeepsSafe(s, [Drop]);
    var halved := Run(s, [Drop]).value;
    CountsDown(halved, n);
    DropHalves(Run(halved, Acks(n)).value, []);
  }

  // ---- slow start ----

  /** Before the first loss every acknowledgement adds a segment. */
  lemma {:induction false} SlowStartGrows(s: State, n: nat)
    requires s.Safe() && s.mode == UnboundedSlowStart && s.cwnd + n * s.mss <= U64_MAX
    ensures Run(s, Acks(n)).Some?
    ensures var t := Run(s, Acks(n)).value; t.mode == UnboundedSlowStart && t.cwnd == s.cwnd + n * s.mss && t.Safe()
    decreases n
  {
    if n > 0 {
      assert n * s.mss == (n - 1) * s.mss + s.mss;
      SlowStartGrows(s, n - 1);
      RunNext(s, Acks(n - 1), Ack);
      StepsKeepValid(Run(s, Acks(n - 1)).value);
    }
  }

  /** So acknowledging a window of segments doubles it. */
  lemma {:induction false} SlowStartDoubles(s: State, n: nat)
    requires s.Safe() && s.mode == UnboundedSlowStart && n * s.mss == s.cwnd && 2 * s.cwnd <= U64_MAX
    ensures Run(s, Acks(n)).Some? && Run(s, Acks(n)).value.cwnd == 2 * s.cwnd
  {
    SlowStartGrows(s, n);
  }

  /** What n acknowledgements make of a window that climbs to a target, a segment at a time, and ends slow start
      where it gets there. */
  ghost predicate Climbs(from: nat, target: nat, mss: nat, n: nat, t: State) {
    if n == 0 || from + n * mss < target then t.cwnd == from + n * mss && !t.mode.CongestionAvoidance?
    else if n == 1 || from + (n - 1) * mss < target then t.cwnd == target && t.mode.CongestionAvoidance?
    else t.cwnd >= target && t.mode.CongestionAvoidance?
  }

  lemma {:induction false} ThresholdReached(s: State, target: u64, n: nat)
    requires s.Safe() && s.mode == ThresholdSlowStart(target)
    ensures Run(s, Acks(n)).Some? && Run(s, Acks(n)).value.Safe()
    ensures Climbs(s.cwnd, target, s.mss, n, Run(s, Acks(n)).value)
    ensures n == 0 || s.cwnd + n * s.mss < target ==> Run(s, Acks(n)).value.mode == s.mode
    decreases n
  {
    if n == 0 {
      assert 0 * s.mss == 0;
    } else {
      assert n * s.mss == (n - 1) * s.mss + s.mss;
      ThresholdReached(s, target, n - 1);
      RunNext(s, Acks(n - 1), Ack);
      var before := Run(s, Acks(n - 1)).value;
      SafeNeverFails(before);
      StepsKeepValid(before);
    }
  }

  /** After a timeout, in every run: ten segments, then one more for every acknowledgement, until half the
      window of before is reached, and congestion avoidance from there. */
  lemma {:induction false} TimeoutStartsOver(s: State, events: seq<Event>, n: nat) returns (half: nat)
    requires s.Safe()
    ensures Run(s, events).Some? && Run(s, events + [Timeout]).Some?
    ensures var before, after := Run(s, events).value, Run(s, events + [Timeout]).value;
      && HalfOf(half, before.cwnd, s.Least()) && after.cwnd == s.Least() && after.dropcnt == 0
      && Run(after, Acks(n)).Some? && Climbs(s.Least(), half, s.mss, n, Run(after, Acks(n)).value)
  {
    RunKeepsSafe(s, events);
    RunNext(s, events, Timeout);
    StepsKeepValid(Run(s, events).value);
    var after := Run(s, events + [Timeout]).value;
    half := after.mode.ssthresh;
    ThresholdReached(after, half, n);
  }

  // ---- congestion avoidance ----

  /** An increase is at least mss * mss / cwnd, less half a unit for rounding. */
  lemma {:induction false} IncreaseAtLeast(s: State, top: nat)
    requires 0 < s.cwnd <= top
    ensures s.Increase() >= 0 && 2 * s.Increase() * top + top >= 2 * Square(s.mss)
  {
    var inc := s.Increase();
    DivideDown(Square(s.mss) + s.cwnd / 2, s.cwnd);
    assert s.cwnd * inc == inc * s.cwnd;
    MultiplyUp(s.cwnd, top, 2 * inc);
    assert 2 * inc * s.cwnd == 2 * (inc * s.cwnd);
  }

  /** One acknowledgement in congestion avoidance adds the increase, short of the largest window. */
  lemma {:induction false} OneMoreAck(s: State, n: nat)
    requires s.Safe() && s.mode.CongestionAvoidance? && n > 0
    ensures Run(s, Acks(n - 1)).Some? && Run(s, Acks(n)).Some?
    ensures var before, after := Run(s, Acks(n - 1)).value, Run(s, Acks(n)).value;
      && before.Safe() && after.Safe() && before.mode.CongestionAvoidance? && after.mode.CongestionAvoidance?
      && 0 < before.cwnd <= after.cwnd
      && (after.cwnd < U64_MAX ==> before.Increase() >= 0 && after.cwnd == before.cwnd + before.Increase())
  {
    RunKeepsSafe(s, Acks(n - 1));
    RunNext(s, Acks(n - 1), Ack);
    var before := Run(s, Acks(n - 1)).value;
    SafeNeverFails(before);
    StepsKeepValid(before);
    StaysInAvoidance(s, n - 1);
    IncreaseFits(before);
  }

  lemma {:induction false} AvoidanceAdds(s: State, n: nat, top: nat)
    requires s.Safe() && s.mode.CongestionAvoidance?
    requires Run(s, Acks(n)).Some? && Run(s, Acks(n)).value.cwnd <= top < U64_MAX
    ensures var t := Run(s, Acks(n)).value;
      t.cwnd >= s.cwnd && 2 * (t.cwnd - s.cwnd) * top + n * top >= 2 * n * Square(s.mss)
    decreases n
  {
    if n > 0 {
      OneMoreAck(s, n);
      hide Run, State.Safe, State.Increase, Square;
      var before := Run(s, Acks(n - 1)).value;
      AvoidanceAdds(s, n - 1, top);
      IncreaseAtLeast(before, top);
      AddUp(2 * (before.cwnd - s.cwnd), 2 * before.Increase(), n - 1, top, Square(s.mss));
    }
  }

  lemma {:induction false} StaysInAvoidance(s: State, n: nat)
    requires s.Safe() && s.mode.CongestionAvoidance?
    ensures Run(s, Acks(n)).Some? && Run(s, Acks(n)).value.mode.CongestionAvoidance?
    decreases n
  {
    RunKeepsSafe(s, Acks(n));
    if n > 0 {
      StaysInAvoidance(s, n - 1);
      RunNext(s, Acks(n - 1), Ack);
      RunKeepsSafe(s, Acks(n - 1));
      SafeNeverFails(Run(s, Acks(n - 1)).value);
    }
  }

  lemma {:induction false} AddUp(a: nat, b: nat, n: nat, top: nat, m: nat)
    requires a * top + n * top >= 2 * n * m && b * top + top >= 2 * m
    ensures (a + b) * top + (n + 1) * top >= 2 * (n + 1) * m
  {
    Distribute(a, b, top);
    Distribute(n, 1, top);
    Distribute(2 * n, 2, m);
  }

  /** Acknowledging a window of segments adds at least one segment, less half a Q16 unit each for rounding. */
  lemma {:induction false} AvoidanceGrowsAtLeast(s: State, n: nat)
    requires s.Safe() && s.mode.CongestionAvoidance?
    ensures Run(s, Acks(n)).Some?
    ensures var t := Run(s, Acks(n)).value;
      t.cwnd <= n * s.mss && t.cwnd < U64_MAX ==> 2 * (t.cwnd - s.cwnd) + n >= 2 * s.mss
  {
    RunKeepsSafe(s, Acks(n));
    var t := Run(s, Acks(n)).value;
    if t.cwnd <= n * s.mss && t.cwnd < U64_MAX {
      AvoidanceAdds(s, n, t.cwnd);
      DivideBy(t.cwnd - s.cwnd, t.cwnd, s.mss, n);
    }
  }

  lemma {:induction false} DivideBy(grown: nat, c: nat, m: nat, n: nat)
    requires c > 0 && n * m >= c && 2 * grown * c + n * c >= 2 * n * Square(m)
    ensures 2 * grown + n >= 2 * m
  {
    MultiplyUp(c, n * m, 2 * m);
    Associate(n, m, 2 * m);
    assert 2 * n * Square(m) == n * m * (2 * m);
    Distribute(2 * grown, n, c);
    if 2 * grown + n < 2 * m {
      MultiplyUp(2 * grown + n + 1, 2 * m, c);
      Distribute(2 * grown + n, 1, c);
    }
  }
}
