/** The round-trip estimate and the timeout computed from it (section 2 of RFC 6298), in exact
    arithmetic. Times are in milliseconds. */
module RoundTrip {
  import opened Fragments

  const RTO_INITIAL_MS: nat := 1000
  const RTO_MIN_MS: nat := 1000
  const RTO_MAX_MS: nat := 60000

  const ALPHA: real := 0.125
  const BETA: real := 0.25
  const G_MS: real := 4.0
  const K: real := 4.0

  type Rto = r: int | RTO_MIN_MS <= r <= RTO_MAX_MS witness RTO_MIN_MS

  function Clamp(ms: nat): Rto {
    if ms < RTO_MIN_MS then RTO_MIN_MS else if ms > RTO_MAX_MS then RTO_MAX_MS else ms
  }

  /** The smoothed round trip and its variation. */
  datatype Smoothed = Smoothed(srtt: real, rttvar: real)
  type Estimate = e: Smoothed | e.srtt >= 0.0 && e.rttvar >= 0.0 witness Smoothed(0.0, 0.0)

  function Abs(x: real): real {
    if x < 0.0 then -x else x
  }

  function Max(x: real, y: real): real {
    if x >= y then x else y
  }

  function Measured(e: Option<Estimate>, rtt: nat): Estimate {
    var r := rtt as real;
    match e
    case None => Smoothed(r, r / 2.0)
    case Some(Smoothed(srtt, rttvar)) =>
      Smoothed((1.0 - ALPHA) * srtt + ALPHA * r, (1.0 - BETA) * rttvar + BETA * Abs(srtt - r))
  }

  /** The least integer not below. */
  function Ceil(x: real): int {
    -((-x).Floor)
  }

  function Timeout(e: Estimate): Rto {
    Clamp(Ceil(e.srtt + Max(G_MS, K * e.rttvar)))
  }

  /** The estimate after some round trips. */
  function EstimateOf(rtts: seq<nat>): (e: Option<Estimate>)
    ensures e.None? <==> rtts == []
    decreases |rtts|
  {
    if rtts == [] then None else Some(Measured(EstimateOf(rtts[..|rtts| - 1]), rtts[|rtts| - 1]))
  }

  ghost predicate Within(rtts: seq<nat>, lo: nat, hi: nat) {
    forall i :: 0 <= i < |rtts| ==> lo <= rtts[i] <= hi
  }

  /** The estimate never leaves the range of the round trips measured, nor the variation the greater of
      its width and half its upper end. This is exact arithmetic; the program's 32-bit floats round. */
  lemma {:induction false} EstimateInRange(rtts: seq<nat>, lo: nat, hi: nat)
    requires rtts != [] && Within(rtts, lo, hi)
    ensures var e := EstimateOf(rtts).value;
      && lo as real <= e.srtt <= hi as real
      && e.rttvar <= Max((hi - lo) as real, hi as real / 2.0)
    decreases |rtts|
  {
    var front := rtts[..|rtts| - 1];
    if front != [] {
      EstimateInRange(front, lo, hi);
    }
  }

  /** So no timeout falls short of the least round trip measured, up to its maximum; nor does it exceed,
      down to its minimum, what the range of the round trips accounts for. Where the program's 32-bit floats
      round upwards before the ceiling is taken, it may exceed it by a millisecond. */
  lemma {:induction false} TimeoutInRange(rtts: seq<nat>, lo: nat, hi: nat)
    requires rtts != [] && Within(rtts, lo, hi)
    ensures var rto := Timeout(EstimateOf(rtts).value);
      && (lo <= RTO_MAX_MS ==> lo <= rto)
      && (rto == RTO_MIN_MS || rto as real < 1.0 + hi as real + Max(G_MS, K * Max((hi - lo) as real, hi as real / 2.0)))
  {
    EstimateInRange(rtts, lo, hi);
  }

  /** What is left of the first round trip's variation after n more of the same. */
  function Decayed(rtt: nat, n: nat): real {
    if n == 0 then rtt as real / 2.0 else 0.75 * Decayed(rtt, n - 1)
  }

  function Same(rtt: nat, n: nat): (r: seq<nat>)
    ensures |r| == n
  {
    if n == 0 then [] else Same(rtt, n - 1) + [rtt]
  }

  /** Under a steady round trip the estimate is that round trip, and the variation dies away. */
  lemma {:induction false} SteadyRoundTrip(rtt: nat, n: nat)
    ensures EstimateOf(Same(rtt, n + 1)) == Some(Smoothed(rtt as real, Decayed(rtt, n)))
    decreases n
  {
    var rtts := Same(rtt, n + 1);
    assert rtts[..n] == Same(rtt, n);
    if n > 0 {
      SteadyRoundTrip(rtt, n - 1);
    }
  }

  lemma {:induction false} EstimateNext(rtts: seq<nat>, rtt: nat)
    ensures EstimateOf(rtts + [rtt]) == Some(Measured(EstimateOf(rtts), rtt))
  {
    assert (rtts + [rtt])[..|rtts|] == rtts;
  }

  /** What is left of a difference after n new round trips. */
  function Remaining(away: real, n: nat): real {
    if n == 0 then away else 0.875 * Remaining(away, n - 1)
  }

  /** When the round trip changes, the estimate follows: an eighth of what is missing each time. */
  lemma {:induction false} EstimateFollows(before: seq<nat>, rtt: nat, n: nat)
    requires before != []
    ensures var was, e := EstimateOf(before).value, EstimateOf(before + Same(rtt, n)).value;
      e.srtt == rtt as real + Remaining(was.srtt - rtt as real, n)
    decreases n
  {
    hide EstimateOf;
    if n == 0 {
      assert before + [] == before;
    } else {
      EstimateFollows(before, rtt, n - 1);
      assert before + Same(rtt, n) == before + Same(rtt, n - 1) + [rtt];
      EstimateNext(before + Same(rtt, n - 1), rtt);
    }
  }

  /** And a round trip that deviates counts for a quarter of the variation. */
  lemma {:induction false} DeviationCounts(before: seq<nat>, rtt: nat)
    requires before != []
    ensures var was, e := EstimateOf(before).value, EstimateOf(before + [rtt]).value;
      && e.rttvar - was.rttvar == 0.25 * ((if was.srtt <= rtt as real then rtt as real - was.srtt
                                           else was.srtt - rtt as real) - was.rttvar)
  {
    EstimateNext(before, rtt);
  }

  /** No round trip within four variations of the estimate, or within four milliseconds of it, outlasts the
      timeout, but for the maximum; and the first timeout is three round trips. */
  lemma {:induction false} TimeoutCovers(e: Estimate, rtt: nat)
    requires rtt as real <= e.srtt + 4.0 * e.rttvar || rtt as real <= e.srtt + 4.0
    ensures rtt <= RTO_MAX_MS ==> rtt <= Timeout(e)
  {
  }

  lemma {:induction false} FirstTimeout(rtt: nat)
    requires RTO_MIN_MS <= 3 * rtt <= RTO_MAX_MS
    ensures Timeout(EstimateOf([rtt]).value) == 3 * rtt
  {
    EstimateNext([], rtt);
    assert [] + [rtt] == [rtt];
    var e := EstimateOf([rtt]).value;
    assert e.srtt + K * e.rttvar == (3 * rtt) as real;
  }
}
