/** The congestion window, in Q16 fixed point on 64-bit words. */
module AimdReno {
  import opened Words
  import opened Fragments

  const U64_MAX: nat := 0xffff_ffff_ffff_ffff
  const INITIAL_CWND_MSS: nat := 10

  /** The largest segment size for which the arithmetic never overflows. */
  const SAFE_MSS: nat := 46340

  datatype Mode = UnboundedSlowStart | ThresholdSlowStart(ssthresh: u64) | CongestionAvoidance

  // ---- the window as a value ----

  function SaturatingAdd(a: u64, b: u64): u64 {
    if a + b <= U64_MAX then a + b else U64_MAX
  }

  function Square(a: nat): nat {
    a * a
  }

  function Max(a: nat, b: nat): nat {
    if a >= b then a else b
  }

  /** `mss` is in Q16 like the rest. */
  datatype State = State(mode: Mode, mss: u64, cwnd: u64, dropcnt: u64) {
    function Least(): nat {
      INITIAL_CWND_MSS * mss
    }

    /** Whether the next acknowledgement would overflow or divide by zero. */
    predicate AckFails() {
      mode.CongestionAvoidance? && (cwnd == 0 || Square(mss) + cwnd / 2 > U64_MAX)
    }

    /** What congestion avoidance adds for one acknowledgement: mss * mss / cwnd, rounded. */
    function Increase(): nat
      requires cwnd > 0
    {
      (Square(mss) + cwnd / 2) / cwnd
    }

    function CountedDown(): u64 {
      if dropcnt > mss then dropcnt - mss else 0
    }

    function Acked(): State
      requires !AckFails()
    {
      var counted := this.(dropcnt := CountedDown());
      match mode
      case UnboundedSlowStart => counted.(cwnd := SaturatingAdd(cwnd, mss))
      case ThresholdSlowStart(ssthresh) =>
        var cwnd' := SaturatingAdd(cwnd, mss);
        if cwnd' >= ssthresh then counted.(cwnd := ssthresh, mode := CongestionAvoidance) else counted.(cwnd := cwnd')
      case CongestionAvoidance =>
        IncreaseFits(this);
        counted.(cwnd := SaturatingAdd(cwnd, Increase()))
    }

    function TimedOut(): State
      requires Least() <= U64_MAX
    {
      State(ThresholdSlowStart(Max(cwnd / 2, Least())), mss, Least(), 0)
    }

    predicate DropCounts() {
      dropcnt == 0
    }

    function Dropped(): State
      requires Least() <= U64_MAX
    {
      if DropCounts() then
        var halved := Max(cwnd / 2, Least());
        State(CongestionAvoidance, mss, halved, halved)
      else this
    }

    /** The window never falls below ten segments, nor rises beyond the threshold of a slow start. */
    predicate Valid() {
      && 0 < mss && Least() <= cwnd && Least() <= U64_MAX
      && (mode.ThresholdSlowStart? ==> cwnd <= mode.ssthresh)
    }

    predicate Safe() {
      Valid() && mss <= SAFE_MSS * 0x1_0000
    }
  }

  lemma {:induction false} IncreaseFits(s: State)
    requires s.cwnd > 0 && Square(s.mss) + s.cwnd / 2 <= U64_MAX
    ensures 0 <= s.Increase() <= U64_MAX
  {
    DivideDown(Square(s.mss) + s.cwnd / 2, s.cwnd);
  }

  lemma {:induction false} DivideDown(a: nat, b: nat)
    requires b > 0
    ensures 0 <= a / b <= a
    ensures b * (a / b) <= a < b * (a / b) + b
  {
    assert a == b * (a / b) + a % b;
    if a / b > a {
      MultiplyUp(1, b, a / b);
    }
  }

  lemma {:induction false} MultiplyUp(a: int, b: int, c: int)
    requires a <= b && c >= 0
    ensures a * c <= b * c && c * a <= c * b
  {
  }

  lemma {:induction false} SquareUp(a: nat, b: nat)
    requires a <= b
    ensures Square(a) <= Square(b)
  {
    MultiplyUp(a, b, a);
    MultiplyUp(a, b, b);
  }

  /** With segments no larger than the limit no acknowledgement fails, whatever the window. */
  lemma {:induction false} SafeNeverFails(s: State)
    requires s.Safe()
    ensures !s.AckFails()
  {
    SquareUp(s.mss, SAFE_MSS * 0x1_0000);
    assert Square(SAFE_MSS * 0x1_0000) + U64_MAX / 2 <= U64_MAX;
  }

  lemma {:induction false} StepsKeepValid(s: State)
    requires s.Valid()
    ensures !s.AckFails() ==> s.Acked().Valid() && s.Acked().mss == s.mss && s.Acked().cwnd >= s.cwnd
    ensures s.TimedOut().Valid() && s.TimedOut().mss == s.mss
    ensures s.Dropped().Valid() && s.Dropped().mss == s.mss
  {
  }

  class AimdReno {
    var mode: Mode
    var mss: u64
    var cwnd: u64
    var dropcnt: u64

    function Model(): State
      reads this
    {
      State(mode, mss, cwnd, dropcnt)
    }

    /** As large as the constructor admits. */
    ghost predicate Admitted()
      reads this
    {
      mss <= 65535 * 0x1_0000
    }

    constructor (mss: nat)
      requires mss <= 65535
      ensures Admitted() && Model() == Init(mss)
      ensures 0 < mss <= SAFE_MSS ==> Model().Safe()
    {
      mode := UnboundedSlowStart;
      this.mss := mss * 0x1_0000;
      cwnd := INITIAL_CWND_MSS * mss * 0x1_0000;
      dropcnt := 0;
    }

    /** Reports whether the arithmetic fails, as it never does with a safe segment size. */
    method HandleAck() returns (fails: bool)
      requires Admitted()
      modifies this
      ensures Admitted() && fails == old(Model()).AckFails()
      ensures !fails ==> Model() == old(Model()).Acked()
      ensures old(Model()).Safe() ==> !fails && Model().Safe()
    {
      if Model().Safe() {
        SafeNeverFails(Model());
        StepsKeepValid(Model());
      }
      if dropcnt > mss {
        dropcnt := dropcnt - mss;
      } else {
        dropcnt := 0;
      }
      fails := false;
      match mode
      case UnboundedSlowStart =>
        cwnd := SaturatingAdd(cwnd, mss);
      case ThresholdSlowStart(ssthresh) =>
        var newCwnd := SaturatingAdd(cwnd, mss);
        if newCwnd >= ssthresh {
          cwnd := ssthresh;
          mode := CongestionAvoidance;
        } else {
          cwnd := newCwnd;
        }
      case CongestionAvoidance =>
        if cwnd == 0 || mss * mss + cwnd / 2 > U64_MAX {
          return true;
        }
        IncreaseFits(Model());
        var product: u64 := mss * mss;
        var rounded: u64 := product + cwnd / 2;
        var increase: u64 := rounded / cwnd;
        cwnd := SaturatingAdd(cwnd, increase);
    }

    method HandleTimeout()
      requires Admitted()
      modifies this
      ensures Admitted() && Model() == old(Model()).TimedOut()
      ensures old(Model()).Safe() ==> Model().Safe()
    {
      var before := cwnd;
      var least: u64 := INITIAL_CWND_MSS * mss;
      cwnd := least;
      dropcnt := 0;
      mode := ThresholdSlowStart(Max(before / 2, least));
    }

    method HandleDrop()
      requires Admitted()
      modifies this
      ensures Admitted() && Model() == old(Model()).Dropped()
      ensures old(Model()).Safe() ==> Model().Safe()
    {
      var least: u64 := INITIAL_CWND_MSS * mss;
      if dropcnt == 0 {
        var newCwnd := Max(cwnd / 2, least);
        cwnd := newCwnd;
        dropcnt := newCwnd;
        mode := CongestionAvoidance;
      }
    }

    /** The window in whole bytes. */
    method Cwnd() returns (bytes: nat)
      ensures bytes * 0x1_0000 <= Model().cwnd < (bytes + 1) * 0x1_0000
    {
      bytes := cwnd / 0x1_0000;
    }
  }

  function Init(mss: nat): State
    requires mss <= 65535
  {
    State(UnboundedSlowStart, mss * 0x1_0000, INITIAL_CWND_MSS * mss * 0x1_0000, 0)
  }

  // ---- runs ----

  datatype Event = Ack | Timeout | Drop

  /** The state after a run, or None once an acknowledgement overflowed or divided by zero. */
  function Run(s: State, events: seq<Event>): (r: Option<State>)
    requires s.Least() <= U64_MAX
    ensures r.Some? ==> r.value.mss == s.mss
    decreases |events|
  {
    if events == [] then Some(s)
    else
      var before := Run(s, events[..|events| - 1]);
      if before.None? then None
      else
        match events[|events| - 1]
        case Ack => if before.value.AckFails() then None else Some(before.value.Acked())
        case Timeout => Some(before.value.TimedOut())
        case Drop => Some(before.value.Dropped())
  }

  lemma {:induction false} RunNext(s: State, events: seq<Event>, e: Event)
    requires s.Least() <= U64_MAX
    ensures var before, after := Run(s, events), Run(s, events + [e]);
      if before.None? then after.None?
      else match e
        case Ack => after == if before.value.AckFails() then None else Some(before.value.Acked())
        case Timeout => after == Some(before.value.TimedOut())
        case Drop => after == Some(before.value.Dropped())
  {
    assert (events + [e])[..|events|] == events;
  }

  lemma {:induction false} RunKeepsSafe(s: State, events: seq<Event>)
    requires s.Safe()
    ensures Run(s, events).Some? && Run(s, events).value.Safe()
    decreases |events|
  {
    if events != [] {
      RunKeepsSafe(s, events[..|events| - 1]);
      var before := Run(s, events[..|events| - 1]).value;
      SafeNeverFails(before);
      StepsKeepValid(before);
    }
  }

  // ---- when the arithmetic is safe ----

  ghost predicate NeverFails(mss: nat)
    requires mss <= 65535
  {
    forall events :: Run(Init(mss), events).Some?
  }

  function Acks(n: nat): (r: seq<Event>)
    ensures |r| == n
  {
    if n == 0 then [] else Acks(n - 1) + [Ack]
  }

  /** Beyond the limit every acknowledgement in congestion avoidance adds something, until one fails. */
  lemma {:induction false} BigIncrease(s: State)
    requires s.cwnd > 0 && s.mss > SAFE_MSS * 0x1_0000 && s.mss % 0x1_0000 == 0
    ensures s.Increase() >= 1
    ensures s.cwnd == U64_MAX ==> Square(s.mss) + s.cwnd / 2 > U64_MAX
  {
    SquareUp((SAFE_MSS + 1) * 0x1_0000, s.mss);
    assert 2 * Square((SAFE_MSS + 1) * 0x1_0000) > U64_MAX + 1;
    DivideDown(Square(s.mss) + s.cwnd / 2, s.cwnd);
    if s.Increase() <= 0 {
      MultiplyUp(s.Increase(), 0, s.cwnd);
    }
  }

  lemma {:induction false} BigKeepsGrowing(s: State, n: nat)
    requires s.mode.CongestionAvoidance? && s.cwnd > 0 && s.Least() <= U64_MAX
    requires s.mss > SAFE_MSS * 0x1_0000 && s.mss % 0x1_0000 == 0
    ensures var after := Run(s, Acks(n));
      after.Some? ==>
        && after.value.mode.CongestionAvoidance? && after.value.mss == s.mss
        && (after.value.cwnd >= s.cwnd + n || after.value.cwnd == U64_MAX)
    decreases n
  {
    if n > 0 {
      BigKeepsGrowing(s, n - 1);
      RunNext(s, Acks(n - 1), Ack);
      var before := Run(s, Acks(n - 1));
      if before.Some? && !before.value.AckFails() {
        BigIncrease(before.value);
      }
    }
  }

  lemma {:induction false} BigFails(s: State)
    requires s.mode.CongestionAvoidance? && s.cwnd > 0 && s.Least() <= U64_MAX
    requires s.mss > SAFE_MSS * 0x1_0000 && s.mss % 0x1_0000 == 0
    ensures Run(s, Acks(U64_MAX + 1)).None?
  {
    var n := U64_MAX;
    BigKeepsGrowing(s, n);
    RunNext(s, Acks(n), Ack);
    if Run(s, Acks(n)).Some? {
      BigIncrease(Run(s, Acks(n)).value);
    }
  }

  lemma {:induction false} RunSplits(s: State, a: seq<Event>, b: seq<Event>)
    requires s.Least() <= U64_MAX && Run(s, a).Some?
    ensures Run(s, a + b) == Run(Run(s, a).value, b)
    decreases |b|
  {
    if b == [] {
      assert a + b == a;
    } else {
      var front, e := b[..|b| - 1], b[|b| - 1];
      RunSplits(s, a, front);
      assert a + b == (a + front) + [e] && b == front + [e];
      RunNext(s, a + front, e);
      RunNext(Run(s, a).value, front, e);
    }
  }

  lemma {:induction false} FirstDrop(mss: nat)
    requires mss <= 65535
    ensures Run(Init(mss), [Drop]) == Some(Init(mss).Dropped())
  {
    RunNext(Init(mss), [], Drop);
    assert [] + [Drop] == [Drop];
  }

  /** No run ever overflows or divides by zero exactly when the segment size is neither zero nor
      beyond 46340 bytes; the constructor admits all up to 65535. */
  lemma {:induction false} NeverFailsExactly(mss: nat)
    requires mss <= 65535
    ensures NeverFails(mss) <==> 0 < mss <= SAFE_MSS
  {
    if 0 < mss <= SAFE_MSS {
      forall events
        ensures Run(Init(mss), events).Some?
      {
        RunKeepsSafe(Init(mss), events);
      }
    } else {
      FirstDrop(mss);
      var s := Init(mss).Dropped();
      if mss == 0 {
        RunNext(Init(mss), [Drop], Ack);
      } else {
        BigFails(s);
        RunSplits(Init(mss), [Drop], Acks(U64_MAX + 1));
      }
    }
  }

  // ---- growth ----

  /** An increase is at most mss * mss / cwnd, and half a unit from rounding. */
  lemma {:induction false} IncreaseBound(s: State, c0: nat)
    requires 0 < c0 <= s.cwnd
    ensures 2 * s.Increase() * c0 <= 2 * Square(s.mss) + c0
  {
    var inc := s.Increase();
    DivideDown(Square(s.mss) + s.cwnd / 2, s.cwnd);
    RoundedQuotient(Square(s.mss), s.cwnd, c0, inc);
  }

  lemma {:induction false} RoundedQuotient(a: nat, b: nat, c: nat, inc: int)
    requires 0 < c <= b && b * inc <= a + b / 2
    ensures 2 * inc * c <= 2 * a + c
  {
    if inc <= 0 {
      MultiplyUp(2 * inc, 0, c);
    } else {
      Distribute(2 * inc - 1, 1, b);
      Distribute(2 * inc - 1, 1, c);
      MultiplyUp(c, b, 2 * inc - 1);
    }
  }

  lemma {:induction false} Distribute(a: int, b: int, c: int)
    ensures (a + b) * c == a * c + b * c
  {
  }

  lemma {:induction false} GrowthStep(c: nat, before: nat, after: nat, inc: nat, step: nat, budget: nat)
    requires c <= before <= after <= before + inc
    requires Spent(c, before) <= budget && 2 * inc * c <= step
    ensures Spent(c, after) <= budget + step
  {
    Distribute(2 * (before - c), 2 * (after - before), c);
    MultiplyUp(2 * (after - before), 2 * inc, c);
  }

  /** `n * step`, one step at a time. */
  function Budget(n: nat, step: nat): nat {
    if n == 0 then 0 else Budget(n - 1, step) + step
  }

  lemma {:induction false} BudgetIsProduct(n: nat, step: nat)
    ensures Budget(n, step) == n * step
    decreases n
  {
    if n > 0 {
      BudgetIsProduct(n - 1, step);
      Distribute(n - 1, 1, step);
    }
  }

  /** What growth from c to `cwnd` costs out of the budget. */
  function Spent(c: nat, cwnd: nat): nat
    requires c <= cwnd
  {
    2 * (cwnd - c) * c
  }

  lemma {:induction false} AvoidanceStep(s: State, n: nat) returns (inc: nat)
    requires s.Safe() && n > 0 && Run(s, Acks(n - 1)).Some?
    requires var before := Run(s, Acks(n - 1)).value;
      before.Safe() && before.mode.CongestionAvoidance? && s.cwnd <= before.cwnd
    ensures Run(s, Acks(n)).Some?
    ensures var before, after := Run(s, Acks(n - 1)).value, Run(s, Acks(n)).value;
      && after.Safe() && after.mode.CongestionAvoidance?
      && before.cwnd <= after.cwnd <= before.cwnd + inc
    ensures 2 * inc * s.cwnd <= 2 * Square(s.mss) + s.cwnd
  {
    RunNext(s, Acks(n - 1), Ack);
    var before := Run(s, Acks(n - 1)).value;
    SafeNeverFails(before);
    StepsKeepValid(before);
    IncreaseFits(before);
    IncreaseBound(before, s.cwnd);
    inc := before.Increase();
  }

  lemma {:induction false} GrowthSoFar(s: State, n: nat)
    requires s.Safe() && s.mode.CongestionAvoidance?
    ensures Run(s, Acks(n)).Some?
    ensures var after := Run(s, Acks(n)).value;
      && after.Safe() && after.mode.CongestionAvoidance? && s.cwnd <= after.cwnd
      && Spent(s.cwnd, after.cwnd) <= Budget(n, 2 * Square(s.mss) + s.cwnd)
    decreases n
  {
    if n > 0 {
      GrowthSoFar(s, n - 1);
      var inc := AvoidanceStep(s, n);
      var step := 2 * Square(s.mss) + s.cwnd;
      GrowthStep(s.cwnd, Run(s, Acks(n - 1)).value.cwnd, Run(s, Acks(n)).value.cwnd, inc, step, Budget(n - 1, step));
    }
  }

  lemma {:induction false} DivideOut(grown: nat, c: nat, m: nat, n: nat)
    requires c > 0 && n * m <= c && 2 * grown * c <= n * (2 * Square(m) + c)
    ensures 2 * grown <= 2 * m + n
  {
    MultiplyUp(n * m, c, m);
    Associate(n, m, m);
    Distribute(2 * Square(m), c, n);
    Distribute(2 * m, n, c);
    assert 2 * grown * c <= (2 * m + n) * c;
    if 2 * grown > 2 * m + n {
      MultiplyUp(2 * m + n + 1, 2 * grown, c);
      Distribute(2 * m + n, 1, c);
    }
  }

  lemma {:induction false} Associate(a: nat, b: nat, c: nat)
    ensures a * (b * c) == a * b * c
  {
  }

  /** The growth bound of congestion avoidance (section 3.1 of RFC 5681): acknowledgements for no
      more than one window add at most one segment, and half a Q16 unit each for rounding. */
  lemma {:induction false} GrowthBound(s: State, n: nat)
    requires s.Safe() && s.mode.CongestionAvoidance? && n * s.mss <= s.cwnd
    ensures Run(s, Acks(n)).Some?
    ensures 2 * (Run(s, Acks(n)).value.cwnd - s.cwnd) <= 2 * s.mss + n
  {
    GrowthSoFar(s, n);
    BudgetIsProduct(n, 2 * Square(s.mss) + s.cwnd);
    DivideOut(Run(s, Acks(n)).value.cwnd - s.cwnd, s.cwnd, s.mss, n);
  }

  // ---- halving ----

  function AckCount(events: seq<Event>): nat
    decreases |events|
  {
    if events == [] then 0
    else AckCount(events[..|events| - 1]) + if events[|events| - 1] == Ack then 1 else 0
  }

  lemma {:induction false} Countdown(s: State, events: seq<Event>)
    requires s.Safe() && Timeout !in events
    ensures Run(s, events).Some?
    ensures AckCount(events) * s.mss + Run(s, events).value.dropcnt >= s.dropcnt
    decreases |events|
  {
    RunKeepsSafe(s, events);
    if events != [] {
      var front := events[..|events| - 1];
      Countdown(s, front);
      RunKeepsSafe(s, front);
      SafeNeverFails(Run(s, front).value);
      assert (AckCount(front) + 1) * s.mss == AckCount(front) * s.mss + s.mss;
    }
  }

  /** Half of a window, rounded down, but ten segments at least. */
  predicate HalfOf(half: nat, cwnd: nat, least: nat) {
    half >= least && (2 * half <= cwnd < 2 * (half + 1) || (half == least && cwnd < 2 * least))
  }

  /** At most one halving per window: after a drop that takes effect, and without a timeout, another
      takes effect only once a window's worth of segments has been acknowledged. */
  lemma {:induction false} OneHalvingPerWindow(s: State, events: seq<Event>)
    requires s.Safe() && s.DropCounts() && Timeout !in events
    requires Run(s.Dropped(), events).Some? && Run(s.Dropped(), events).value.DropCounts()
    ensures HalfOf(s.Dropped().cwnd, s.cwnd, s.Least()) && AckCount(events) * s.mss >= s.Dropped().cwnd
  {
    StepsKeepValid(s);
    Countdown(s.Dropped(), events);
  }

  /** In every run the window stays at ten segments or more, and no acknowledgement lowers it. */
  lemma {:induction false} WindowFloor(mss: nat, events: seq<Event>)
    requires 0 < mss <= SAFE_MSS
    ensures Run(Init(mss), events).Some?
    ensures var s := Run(Init(mss), events).value;
      && s.mss == mss * 0x1_0000
      && s.cwnd >= INITIAL_CWND_MSS * mss * 0x1_0000
      && (s.mode.ThresholdSlowStart? ==> s.cwnd <= s.mode.ssthresh)
      && !s.AckFails() && s.Acked().cwnd >= s.cwnd
  {
    RunKeepsSafe(Init(mss), events);
    var s := Run(Init(mss), events).value;
    SafeNeverFails(s);
    StepsKeepValid(s);
  }
}
