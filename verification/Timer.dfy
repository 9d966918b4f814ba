/** The retransmission timer as values: when it is started, stopped and left alone, how it backs off, and
    when the endpoint gives up. */
module Timer {
  import opened Words
  import opened Fragments
  import opened RoundTrip

  const DISCONNECT_TIMEOUT_MS: nat := 10000

  /** Times are milliseconds that leave room for one more timeout in 64 bits. */
  type time = t: int | 0 <= t <= 0xffff_ffff_ffff witness 0

  datatype StateId = PreInit | Active | Closing | Closed | Zombie

  /** What the host is told of the connection. */
  datatype Notice = OnConnect | OnDisconnect | OnTimeout

  /** The timeout running, and what the ones before it since the timer was started amount to. */
  datatype RtoTimer = RtoTimer(rto: Rto, sum: nat)

  /** The segment whose acknowledgement is timed. */
  datatype RttTimer = RttTimer(segmentId: u32, sendTime: time, expireTime: nat)

  /** All that bears on time: the endpoint's state, when the host's timer is due, the endpoint's own timer,
      the timeout, the round trip being timed, the estimate, and the notices given to the host. */
  datatype Timing = Timing(
    state: StateId,
    due: Option<nat>,
    timer: Option<RtoTimer>,
    rto: Rto,
    rtt: Option<RttTimer>,
    estimate: Option<Estimate>,
    notices: seq<Notice>)
  {
    /** The clock has not run backwards since the segment being timed was sent. */
    predicate NotBefore(now: time) {
      rtt.Some? ==> rtt.value.sendTime <= now
    }

    function Started(now: time): Timing {
      this.(due := Some(now + rto), timer := Some(RtoTimer(rto, 0)))
    }
  }

  /** Whether an acknowledgement is the one being timed. */
  predicate Measures(rtt: Option<RttTimer>, segmentId: u32) {
    rtt.Some? && segmentId == WrapAdd(rtt.value.segmentId, 1)
  }

  /** What an acknowledgement does to the estimate. */
  function Estimated(t: Timing, segmentId: u32, now: time): Timing
    requires t.NotBefore(now)
  {
    if Measures(t.rtt, segmentId) then
      var e := Measured(t.estimate, now - t.rtt.value.sendTime);
      t.(estimate := Some(e), rto := Timeout(e), rtt := None)
    else if t.rtt.Some? && t.rtt.value.expireTime <= now then t.(rtt := None)
    else t
  }

  /** What an acknowledgement does to all of it, `next` being the index of the next segment. */
  function Answered(t: Timing, segmentId: u32, next: nat, now: time): Timing
    requires t.NotBefore(now)
  {
    var u := Estimated(t, segmentId, now);
    if u.timer.None? then u
    else if segmentId == Wire(next) then u.(due := None, timer := None)
    else u.Started(now)
  }

  /** A timer that ran is as it was; one that did not may have been started. The same goes for the round
      trip being timed, of the segment of index `next`. */
  ghost predicate Kept(before: Timing, after: Timing, next: nat, now: time) {
    && after == before.(due := after.due, timer := after.timer, rtt := after.rtt)
    && (if before.timer.Some? || after.timer.None? then after.due == before.due && after.timer == before.timer
        else after.due == Some(now + before.rto) && after.timer == Some(RtoTimer(before.rto, 0)))
    && (if before.rtt.Some? || after.rtt.None? then after.rtt == before.rtt
        else after.rtt == Some(RttTimer(Wire(next), now, now + before.rto)))
  }

  /** The timer expires: the endpoint gives up, or waits twice as long. */
  function Expired(t: Timing, now: time, timeout: nat): Timing
    requires t.timer.Some?
  {
    var sum := t.timer.value.sum + t.timer.value.rto;
    if sum >= timeout then
      t.(state := Zombie, timer := Some(RtoTimer(t.timer.value.rto, sum)), notices := t.notices + [OnTimeout])
    else
      var rto := Clamp(2 * t.rto);
      t.(rto := rto, due := Some(now + rto), timer := Some(RtoTimer(rto, sum)))
  }

  /** The connection has ended; the host's timer is used to leave the closed state. */
  function Ended(t: Timing, now: time): Timing {
    t.(state := Closed, due := Some(now + DISCONNECT_TIMEOUT_MS), timer := None, notices := t.notices + [OnDisconnect])
  }

  // ---- backing off ----

  /** The timeout set after n expiries without an acknowledgement, from one of r0 (sections 2.4, 2.5
      and 5.5 of RFC 6298). */
  function Backoff(r0: Rto, n: nat): Rto {
    if n == 0 then r0 else Clamp(2 * Backoff(r0, n - 1))
  }

  /** What the first n timeouts amount to. */
  function Waited(r0: Rto, n: nat): nat {
    if n == 0 then 0 else Waited(r0, n - 1) + Backoff(r0, n - 1)
  }

  lemma {:induction false} BackoffBounds(r0: Rto, n: nat)
    ensures RTO_MIN_MS <= Backoff(r0, n) <= RTO_MAX_MS
    ensures Backoff(r0, n) <= Waited(r0, n) + r0
    ensures RTO_MIN_MS * n <= Waited(r0, n) <= RTO_MAX_MS * n
    decreases n
  {
    if n > 0 {
      BackoffBounds(r0, n - 1);
    }
  }

  /** The expiry at which the endpoint gives up: the first at which the timeouts amount to `timeout`. */
  ghost predicate GivesUpAt(r0: Rto, timeout: nat, n: nat) {
    n > 0 && timeout <= Waited(r0, n) && (n > 1 ==> Waited(r0, n - 1) < timeout)
  }

  /** It comes after at most ceil(timeout / 1000) expiries, and the wait is less than 2 * timeout + r0
      all told. */
  lemma {:induction false} GiveUpTiming(r0: Rto, timeout: nat, n: nat)
    requires GivesUpAt(r0, timeout, n)
    ensures n == 1 || n <= (timeout + 999) / 1000
    ensures timeout == 0 || Waited(r0, n) < 2 * timeout + r0
  {
    BackoffBounds(r0, n - 1);
  }

  /** And there is such an expiry. */
  lemma {:induction false} GivesUp(r0: Rto, timeout: nat)
    ensures exists n :: GivesUpAt(r0, timeout, n)
  {
    BackoffBounds(r0, timeout + 1);
    FirstReaching(r0, timeout, timeout + 1);
  }

  lemma {:induction false} FirstReaching(r0: Rto, timeout: nat, m: nat)
    requires m > 0 && timeout <= Waited(r0, m)
    ensures exists n :: GivesUpAt(r0, timeout, n)
    decreases m
  {
    if m > 1 && timeout <= Waited(r0, m - 1) {
      FirstReaching(r0, timeout, m - 1);
    } else {
      assert GivesUpAt(r0, timeout, m);
    }
  }

  // ---- runs without an acknowledgement ----

  /** Short of an acknowledgement, of closing and of the other side's closing, whatever an endpoint is
      asked to do either keeps the timer or is the timer's expiry; one that is closed changes nothing. */
  datatype Event = Quiet | Expiry

  datatype Moment = Moment(event: Event, now: time, next: nat, after: Timing)

  ghost predicate Steps(before: Timing, m: Moment, timeout: nat) {
    match m.event
    case Quiet => Kept(before, m.after, m.next, m.now) && (before.state == Closed ==> m.after == before)
    case Expiry =>
      && before.due.Some? && before.due.value <= m.now
      && match before.state
         case Active | Closing =>
           before.timer.Some? && Kept(Expired(before, m.now, timeout), m.after, m.next, m.now)
         case Closed => m.after == before.(state := Zombie)
         case _ => false
  }

  function EndOf(start: Timing, run: seq<Moment>): Timing {
    if run == [] then start else run[|run| - 1].after
  }

  ghost predicate Silence(start: Timing, run: seq<Moment>, timeout: nat)
    decreases |run|
  {
    run == [] ||
    var front, last := run[..|run| - 1], run[|run| - 1];
    Silence(start, front, timeout) && Steps(EndOf(start, front), last, timeout)
  }

  function Expiries(run: seq<Moment>): nat
    decreases |run|
  {
    if run == [] then 0 else Expiries(run[..|run| - 1]) + if run[|run| - 1].event == Expiry then 1 else 0
  }

  /** The time of the latest expiry, or else `start`. */
  function LatestExpiry(start: nat, run: seq<Moment>): nat
    decreases |run|
  {
    if run == [] then start
    else if run[|run| - 1].event == Expiry then run[|run| - 1].now
    else LatestExpiry(start, run[..|run| - 1])
  }

  /** The host calls exactly when its timer is due. */
  ghost predicate Punctual(start: Timing, run: seq<Moment>)
    decreases |run|
  {
    run == [] ||
    var front, last := run[..|run| - 1], run[|run| - 1];
    Punctual(start, front) && (last.event == Expiry ==> EndOf(start, front).due == Some(last.now as nat))
  }

  /** The timer has just been started: by a segment, by an acknowledgement, or on closing. */
  predicate Armed(t: Timing, at: nat) {
    t.state in {Active, Closing} && t.timer == Some(RtoTimer(t.rto, 0)) && t.due == Some(at + t.rto)
  }

  /** So it is whenever a timer that did not run is started, and after every acknowledgement that leaves
      the timer running. */
  lemma {:induction false} StartArms(before: Timing, after: Timing, segmentId: u32, next: nat, now: time)
    requires before.state in {Active, Closing} && before.NotBefore(now)
    ensures Kept(before, after, next, now) && before.timer.None? && after.timer.Some? ==> Armed(after, now)
    ensures Answered(before, segmentId, next, now).timer.Some? ==> Armed(Answered(before, segmentId, next, now), now)
  {
  }

  /** Where a silence of n expiries has led, from a timer started at `at`. */
  ghost predicate Waiting(start: Timing, at: nat, n: nat, latest: nat, timeout: nat, t: Timing) {
    var r0 := start.rto;
    if t.state == Zombie then
      && GivesUpAt(r0, timeout, n) && latest >= at + Waited(r0, n)
      && t.notices == start.notices + [OnTimeout]
    else
      && t.state == start.state && t.notices == start.notices
      && (n > 0 ==> Waited(r0, n) < timeout)
      && t.rto == Backoff(r0, n) && t.timer == Some(RtoTimer(t.rto, Waited(r0, n)))
      && t.due == Some(latest + t.rto) && latest >= at + Waited(r0, n)
  }

  lemma {:induction false} KeepsWaiting(start: Timing, at: nat, n: nat, latest: nat, timeout: nat,
                                        t: Timing, m: Moment)
    requires start.state in {Active, Closing} && Waiting(start, at, n, latest, timeout, t) && Steps(t, m, timeout)
    ensures m.event == Quiet ==> Waiting(start, at, n, latest, timeout, m.after)
    ensures m.event == Expiry ==> Waiting(start, at, n + 1, m.now, timeout, m.after)
  {
  }

  lemma {:induction false} SilentSoFar(start: Timing, at: nat, run: seq<Moment>, timeout: nat)
    requires Armed(start, at) && Silence(start, run, timeout)
    ensures Waiting(start, at, Expiries(run), LatestExpiry(at, run), timeout, EndOf(start, run))
    decreases |run|
  {
    if run != [] {
      var front, last := run[..|run| - 1], run[|run| - 1];
      SilentSoFar(start, at, front, timeout);
      KeepsWaiting(start, at, Expiries(front), LatestExpiry(at, front), timeout, EndOf(start, front), last);
    }
  }

  lemma {:induction false} WaitedUp(r0: Rto, m: nat, n: nat)
    requires m <= n
    ensures Waited(r0, m) <= Waited(r0, n)
    decreases n
  {
    if m < n {
      WaitedUp(r0, m, n - 1);
    }
  }

  /** In every run without an acknowledgement, from the timer's start on and in the active and in the
      closing state alike: the endpoint gives up with exactly the expiry named above, and tells the host
      once; not before `timeout` has passed; and short of that the host's timer is set, so that the next
      expiry will come. */
  lemma {:induction false} GivesUpExactly(start: Timing, at: nat, run: seq<Moment>, timeout: nat)
    requires Armed(start, at) && Silence(start, run, timeout)
    ensures var n, t := Expiries(run), EndOf(start, run);
      && (t.state == Zombie <==> GivesUpAt(start.rto, timeout, n))
      && (n == 0 || n == 1 || n <= (timeout + 999) / 1000)
      && (t.state == Zombie ==>
          && t.notices == start.notices + [OnTimeout] && LatestExpiry(at, run) >= at + timeout
          && (timeout == 0 || Waited(start.rto, n) < 2 * timeout + start.rto))
      && (t.state != Zombie ==> t.state == start.state && t.notices == start.notices && t.due.Some?)
  {
    SilentSoFar(start, at, run, timeout);
    var n := Expiries(run);
    if EndOf(start, run).state == Zombie {
      GiveUpTiming(start.rto, timeout, n);
    } else {
      BackoffBounds(start.rto, n);
    }
  }

  /** If the host is punctual, the expiries come exactly when the timeouts add up to them: giving up
      takes less than 2 * timeout + r0. */
  lemma {:induction false} PunctualSilence(start: Timing, at: nat, run: seq<Moment>, timeout: nat)
    requires Armed(start, at) && Silence(start, run, timeout) && Punctual(start, run)
    ensures LatestExpiry(at, run) == at + Waited(start.rto, Expiries(run))
    ensures EndOf(start, run).state == Zombie && timeout > 0 ==> LatestExpiry(at, run) < at + 2 * timeout + start.rto
    decreases |run|
  {
    GivesUpExactly(start, at, run, timeout);
    if run != [] {
      var front := run[..|run| - 1];
      PunctualSilence(start, at, front, timeout);
      SilentSoFar(start, at, front, timeout);
    }
  }

  // ---- once the connection has ended ----

  /** An endpoint lingers for ten seconds after the end, with the host's timer set, whatever still arrives; the
      expiry that comes then is the last. */
  lemma {:induction false} Lingers(before: Timing, at: time, run: seq<Moment>, timeout: nat)
    requires Silence(Ended(before, at), run, timeout)
    ensures var t := EndOf(Ended(before, at), run);
      if Expiries(run) == 0 then t.state == Closed && t.due == Some(at as nat + 10_000)
      else Expiries(run) == 1 && t.state == Zombie && LatestExpiry(at, run) >= at + 10_000
    ensures EndOf(Ended(before, at), run).notices == before.notices + [OnDisconnect]
    decreases |run|
  {
    if run != [] {
      Lingers(before, at, run[..|run| - 1], timeout);
    }
  }
}
