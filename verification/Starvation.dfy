/** An endpoint whose segments in flight are all lost while the receiver's reorder buffer is empty: its syncs
    are ignored but answered, and what follows from that. */
module Starvation {
  import opened Words
  import opened Fragments
  import opened Codec
  import opened RoundTrip
  import opened Timer
  import opened Endpoint
  import S = Sending
  import T = SegmentTx
  import R = SegmentRx
  import C = AimdReno

  /** The bytes lost fill the window even after an acknowledgement: eleven segments. */
  const ELEVEN: nat := 11
  const ELEVEN_SEGMENTS: nat := ELEVEN * S.FRAGMENT_SIZE

  /** Everything in flight is lost, nothing waits at the receiver, and the distance to the next segment is no
      larger than the identifier the receiver expects. */
  ghost predicate Starved(s: Sender, rx: SegmentRx) {
    && s.clock.state == Active && TimerAgrees(s)
    && rx.pending == [] && |rx.log| == s.tx.base < s.tx.next
    && s.tx.next <= s.tx.base + Wire(s.tx.base) && s.tx.next <= s.tx.base + rx.size
    && T.Sum(s.tx.sizes) >= ELEVEN_SEGMENTS
    && !Measures(s.clock.rtt, Wire(s.tx.base))
  }

  /** The receiver ignores whatever sync the sender has to offer. */
  lemma {:induction false} SyncIgnored(s: Sender, rx: SegmentRx)
    requires Starved(s, rx)
    ensures SyncedRx(rx, StreamSync(Wire(s.tx.next))) == rx
  {
    R.EmptySyncIgnoredExactly(rx, s.tx.next);
  }

  // ---- runs ----

  /** The timer expires, and a sync is sent; its answer arrives, once and before the next expiry, or never, with a
      frame that may call for a reply of its own; the other side sends something else, or the user flushes; the
      user enqueues a packet. */
  datatype Deed =
    | Expire
    | Hear(rel: Option<u32>, reply: Option<StreamAck>)
    | Reply(reply: Option<StreamAck>)
    | Enqueue(packet: Packet, mode: S.SendMode)

  datatype Turn = Turn(deed: Deed, now: time, record: seq<Sent>, after: Sender)

  /** What the endpoint's methods ensure; `owed` says whether the latest sync may still be answered. */
  ghost predicate Does(s: Sender, owed: bool, m: Turn, rx: SegmentRx, prio: Priorities, timeout: nat) {
    && s.clock.state == Active
    && match m.deed
       case Expire =>
         && s.clock.timer.Some? && s.clock.due.Some? && s.clock.due.value <= m.now
         && if Expired(s.clock, m.now, timeout).state == Zombie then
              m.after == s.(clock := Expired(s.clock, m.now, timeout)) && m.record == []
            else FlushEnded(FlushStart(Retried(s, m.now, timeout), prio, None, m.now), m.after, m.record)
       case Hear(rel, reply) =>
         && owed && s.clock.NotBefore(m.now)
         && FlushEnded(FlushStart(AckedSender(s, AsSent(AckOf(rx, rel)), m.now), prio, reply, m.now), m.after, m.record)
       case Reply(reply) => FlushEnded(FlushStart(s, prio, reply, m.now), m.after, m.record)
       case Enqueue(packet, mode) =>
         && (mode.Unreliable? ==> mode.timeout <= 0xffff)
         && m.after.queues == s.queues.Enqueue(packet, mode, m.now)
         && m.after == s.(queues := m.after.queues) && m.record == []
  }

  function OwedAfter(owed: bool, d: Deed): bool {
    match d
    case Expire => true
    case Hear(_, _) => false
    case _ => owed
  }

  /** A sync is out and has not been answered. */
  function Owed(run: seq<Turn>): bool
    decreases |run|
  {
    run != [] && OwedAfter(Owed(run[..|run| - 1]), run[|run| - 1].deed)
  }

  function Latest(start: Sender, run: seq<Turn>): Sender {
    if run == [] then start else run[|run| - 1].after
  }

  ghost predicate Course(start: Sender, run: seq<Turn>, rx: SegmentRx, prio: Priorities, timeout: nat)
    decreases |run|
  {
    run == [] ||
    var front, last := run[..|run| - 1], run[|run| - 1];
    Course(start, front, rx, prio, timeout) && Does(Latest(start, front), Owed(front), last, rx, prio, timeout)
  }

  function ExpireCount(run: seq<Turn>): nat
    decreases |run|
  {
    if run == [] then 0 else ExpireCount(run[..|run| - 1]) + if run[|run| - 1].deed == Expire then 1 else 0
  }

  /** Every sync is answered before the next is sent. */
  ghost predicate AllAnswered(run: seq<Turn>)
    decreases |run|
  {
    run == [] ||
    var front, last := run[..|run| - 1], run[|run| - 1];
    AllAnswered(front) && (last.deed == Expire ==> !Owed(front))
  }

  // ---- nothing is sent ----

  /** The window after a timeout, and after the one acknowledgement that may follow. */
  ghost predicate Choked(cc: Congestion, credit: bool) {
    if credit then cc.mode.ThresholdSlowStart? && cc.cwnd == cc.Least() else cc.cwnd <= cc.Least() + cc.mss
  }

  lemma {:induction false} ChokedWindow(cc: Congestion, credit: bool)
    requires Choked(cc, credit)
    ensures WindowBytes(cc) <= ELEVEN_SEGMENTS
  {
  }

  lemma {:induction false} TimeoutChokes(cc: Congestion)
    ensures Choked(TimedOutWindow(cc), true)
  {
  }

  lemma {:induction false} AnswerChokes(cc: Congestion, drop: bool)
    requires Choked(cc, true)
    ensures Choked(AckedWindow(cc, drop), false)
  {
  }

  /** With more bytes in flight than the window no segment leaves. */
  lemma {:induction false} NothingLeaves(from: FlushStart, s: Sender, record: seq<Sent>)
    requires Flushed(from, s, record) && T.Sum(from.s.tx.sizes) >= WindowBytes(from.s.cc)
    ensures SegmentCount(record) == 0 && s.tx == from.s.tx
  {
    NoneSent(from.s.tx, record);
  }

  lemma {:induction false} NoneSent(tx: T.Tx, record: seq<Sent>)
    requires SegmentCount(record) == 0
    ensures SentAll(tx, record) == tx
    decreases |record|
  {
    if record != [] {
      NoneSent(tx, record[..|record| - 1]);
    }
  }

  /** The answer acknowledges nothing, does not measure a round trip, and starts the timer over. */
  lemma {:induction false} AnswerChangesLittle(s: Sender, rx: SegmentRx, rel: Option<u32>, now: time)
    requires Starved(s, rx) && s.clock.NotBefore(now)
    ensures var ack := AsSent(AckOf(rx, rel)); var t := AckedSender(s, ack, now);
      && t.tx == s.tx.(acked := t.tx.acked) && t.clock == s.clock.(rtt := t.clock.rtt).Started(now)
      && Starved(t, rx) && (Choked(s.cc, true) ==> Choked(t.cc, false))
  {
    hide AckedTx, AckedWindow, AckedQueues, Answered, ShowsDrop, HistoryByte, R.LogParity, Choked;
    hide T.Tx.Valid, T.Sum, S.Queues.Valid, C.State.Safe, R.Rx.Valid;
    var ack := AsSent(AckOf(rx, rel));
    AnswerAdvancesNothing(s.tx, ack);
    NotCaughtUp(s.tx);
    AnswerRestarts(s.clock, ack.segmentId, s.tx.next, now);
    if Choked(s.cc, true) {
      AnswerChokes(s.cc, ShowsDrop(s.tx, ack));
    }
  }

  lemma {:induction false} NotCaughtUp(tx: SegmentTx)
    requires tx.base != tx.next
    ensures Wire(tx.base) != Wire(tx.next)
  {
    WireDistance(tx.base, tx.next);
  }

  lemma {:induction false} AnswerRestarts(t: Timing, id: u32, next: nat, now: time)
    requires t.NotBefore(now) && t.timer.Some? && !Measures(t.rtt, id) && id != Wire(next)
    ensures var after := Answered(t, id, next, now);
      after == t.(rtt := after.rtt).Started(now) && (after.rtt == t.rtt || after.rtt == None)
  {
  }

  lemma {:induction false} AnswerAdvancesNothing(tx: SegmentTx, ack: StreamAck)
    requires ack.segmentId == Wire(tx.base)
    ensures AckedTx(tx, ack) == tx.(acked := AckedTx(tx, ack).acked)
  {
    UnwrapAhead(tx.base, tx.base);
    assert tx.sizes[0..] == tx.sizes;
  }

  // ---- what every run keeps ----

  /** What a flush leaves as it was when nothing can be sent. */
  lemma {:induction false} FlushKeepsStarved(from: FlushStart, s: Sender, record: seq<Sent>, rx: SegmentRx, owed: bool)
    requires Starved(from.s, rx) && Choked(from.s.cc, owed) && FlushEnded(from, s, record)
    ensures SegmentCount(record) == 0 && s.tx == from.s.tx
    ensures Starved(s, rx) && Choked(s.cc, owed)
    ensures s.clock == from.s.clock.(rtt := s.clock.rtt)
  {
    ChokedWindow(from.s.cc, owed);
    NothingLeaves(from, s, record);
    NotMeasured(from.s.tx.base, from.s.tx.next);
  }

  lemma {:induction false} NotMeasured(base: nat, next: nat)
    requires base <= next < base + LAP - 1
    ensures Wire(base) != WrapAdd(Wire(next), 1)
  {
    WireNext(next);
    WireDistance(base, next + 1);
  }

  /** Not a segment more than at the start, nor one acknowledged. */
  ghost predicate SameFlight(tx: T.Tx, tx': T.Tx) {
    tx'.base == tx.base && tx'.next == tx.next && tx'.sizes == tx.sizes
  }

  /** What becomes of the timer. */
  function ClockAfter(t: Timing, d: Deed, now: time, timeout: nat): Timing
    requires t.timer.Some?
  {
    match d
    case Expire => Expired(t, now, timeout)
    case Hear(_, _) => t.Started(now)
    case _ => t
  }

  /** Nothing leaves, and the receiver's silence is unbroken, unless the endpoint gives up. */
  ghost predicate StaysStarved(s: Sender, owed: bool, m: Turn, rx: SegmentRx, timeout: nat)
    requires s.clock.timer.Some?
  {
    && SegmentCount(m.record) == 0 && SameFlight(s.tx, m.after.tx)
    && m.after.clock == ClockAfter(s.clock, m.deed, m.now, timeout).(rtt := m.after.clock.rtt)
    && (m.after.clock.state == Zombie || (Starved(m.after, rx) && Choked(m.after.cc, OwedAfter(owed, m.deed))))
  }

  lemma {:induction false} RetriedStarved(s: Sender, now: time, timeout: nat, rx: SegmentRx)
    requires Starved(s, rx) && Expired(s.clock, now, timeout).state != Zombie
    ensures Starved(Retried(s, now, timeout), rx)
  {
    hide RewoundQueues, TimedOutWindow, T.Tx.Valid, T.Sum, S.Queues.Valid, C.State.Safe, R.Rx.Valid;
  }

  lemma {:induction false} ExpireKeepsStarved(s: Sender, owed: bool, m: Turn, rx: SegmentRx, prio: Priorities,
                                              timeout: nat)
    requires Starved(s, rx) && Does(s, owed, m, rx, prio, timeout) && m.deed == Expire
    ensures StaysStarved(s, owed, m, rx, timeout)
  {
    hide Starved, FlushEnded, Choked, RewoundQueues, TimedOutWindow, T.Tx.Valid, T.Sum, S.Queues.Valid, C.State.Safe;
    if Expired(s.clock, m.now, timeout).state != Zombie {
      var t := Retried(s, m.now, timeout);
      RetriedStarved(s, m.now, timeout, rx);
      TimeoutChokes(s.cc);
      FlushKeepsStarved(FlushStart(t, prio, None, m.now), m.after, m.record, rx, true);
    }
  }

  lemma {:induction false} HearKeepsStarved(s: Sender, owed: bool, m: Turn, rx: SegmentRx, prio: Priorities,
                                            timeout: nat)
    requires Starved(s, rx) && Does(s, owed, m, rx, prio, timeout) && m.deed.Hear? && Choked(s.cc, owed)
    ensures StaysStarved(s, owed, m, rx, timeout)
  {
    hide Starved, FlushEnded, Choked, AckedSender, AckOf, T.Tx.Valid, T.Sum, S.Queues.Valid, C.State.Safe;
    var t := AckedSender(s, AsSent(AckOf(rx, m.deed.rel)), m.now);
    AnswerChangesLittle(s, rx, m.deed.rel, m.now);
    FlushKeepsStarved(FlushStart(t, prio, m.deed.reply, m.now), m.after, m.record, rx, false);
  }

  lemma {:induction false} ReplyKeepsStarved(s: Sender, owed: bool, m: Turn, rx: SegmentRx, prio: Priorities,
                                             timeout: nat)
    requires Starved(s, rx) && Does(s, owed, m, rx, prio, timeout) && m.deed.Reply? && Choked(s.cc, owed)
    ensures StaysStarved(s, owed, m, rx, timeout)
  {
    hide Starved, FlushEnded, Choked, T.Tx.Valid, T.Sum, S.Queues.Valid, C.State.Safe;
    FlushKeepsStarved(FlushStart(s, prio, m.deed.reply, m.now), m.after, m.record, rx, owed);
  }

  lemma {:induction false} EnqueueKeepsStarved(s: Sender, owed: bool, m: Turn, rx: SegmentRx, prio: Priorities,
                                               timeout: nat)
    requires Starved(s, rx) && Does(s, owed, m, rx, prio, timeout) && m.deed.Enqueue? && Choked(s.cc, owed)
    ensures StaysStarved(s, owed, m, rx, timeout)
  {
    hide FlushEnded, Choked, S.Queues.Enqueue, T.Tx.Valid, T.Sum, S.Queues.Valid, C.State.Safe;
  }

  lemma {:induction false} TurnKeepsStarved(s: Sender, owed: bool, m: Turn, rx: SegmentRx, prio: Priorities,
                                            timeout: nat)
    requires Starved(s, rx) && Does(s, owed, m, rx, prio, timeout)
    requires Choked(s.cc, owed) || m.deed == Expire
    ensures StaysStarved(s, owed, m, rx, timeout)
  {
    hide Starved, Does, Choked, StaysStarved;
    match m.deed
    case Expire => ExpireKeepsStarved(s, owed, m, rx, prio, timeout);
    case Hear(_, _) => HearKeepsStarved(s, owed, m, rx, prio, timeout);
    case Reply(_) => ReplyKeepsStarved(s, owed, m, rx, prio, timeout);
    case Enqueue(_, _) => EnqueueKeepsStarved(s, owed, m, rx, prio, timeout);
  }

  /** From the first expiry on, in every run of expiries, syncs, answers and flushes: no segment is sent,
      none is acknowledged, and the receiver ignores every sync. */
  lemma {:induction false} NothingEverLeaves(start: Sender, run: seq<Turn>, rx: SegmentRx, prio: Priorities,
                                             timeout: nat)
    requires Starved(start, rx) && Course(start, run, rx, prio, timeout)
    requires run != [] ==> run[0].deed == Expire
    ensures forall m :: m in run ==> SegmentCount(m.record) == 0
    ensures SameFlight(start.tx, Latest(start, run).tx)
    ensures var s := Latest(start, run);
      s.clock.state == Zombie || (Starved(s, rx) && (run != [] ==> Choked(s.cc, Owed(run))))
    ensures SyncedRx(rx, StreamSync(Wire(Latest(start, run).tx.next))) == rx
    decreases |run|
  {
    hide Starved, Choked;
    SyncIgnored(start, rx);
    if run != [] {
      var front, last := run[..|run| - 1], run[|run| - 1];
      NothingEverLeaves(start, front, rx, prio, timeout);
      TurnKeepsStarved(Latest(start, front), Owed(front), last, rx, prio, timeout);
    }
  }

  // ---- giving up ----

  /** Where n expiries have led, each sync answered before the next. */
  ghost predicate Hanging(start: Timing, n: nat, owed: bool, timeout: nat, t: Timing) {
    && (t.state == Zombie <==> n > 0 && timeout <= Backoff(start.rto, n - 1))
    && (t.state != Zombie ==>
        && t.state == Active && t.rto == Backoff(start.rto, n) && t.due.Some?
        && t.timer == Some(RtoTimer(t.rto, if owed && n > 0 then Backoff(start.rto, n - 1) else 0)))
  }

  lemma {:induction false} ClockKeepsHanging(start: Timing, n: nat, owed: bool, timeout: nat, t: Timing, d: Deed,
                                             now: time, after: Timing)
    requires Hanging(start, n, owed, timeout, t) && t.state == Active && (n == 0 ==> d == Expire)
    requires d == Expire ==> !owed
    requires after == ClockAfter(t, d, now, timeout).(rtt := after.rtt)
    ensures Hanging(start, if d == Expire then n + 1 else n, OwedAfter(owed, d), timeout, after)
  {
  }

  lemma {:induction false} KeepsHanging(start: Timing, n: nat, owed: bool, timeout: nat, s: Sender, m: Turn,
                                        rx: SegmentRx, prio: Priorities)
    requires s.clock.state == Zombie || (Starved(s, rx) && (n > 0 ==> Choked(s.cc, owed)))
    requires Hanging(start, n, owed, timeout, s.clock) && Does(s, owed, m, rx, prio, timeout)
    requires n == 0 ==> m.deed == Expire
    requires m.deed == Expire ==> !owed
    ensures Hanging(start, if m.deed == Expire then n + 1 else n, OwedAfter(owed, m.deed), timeout, m.after.clock)
  {
    hide FlushEnded, Starved, Choked, Hanging, ClockAfter, OwedAfter;
    TurnKeepsStarved(s, owed, m, rx, prio, timeout);
    ClockKeepsHanging(start, n, owed, timeout, s.clock, m.deed, m.now, m.after.clock);
  }

  lemma {:induction false} HangingFirst(start: Sender, rx: SegmentRx, timeout: nat)
    requires Starved(start, rx) && start.clock.timer == Some(RtoTimer(start.clock.rto, 0))
    ensures Hanging(start.clock, 0, false, timeout, start.clock)
  {
    hide R.Rx.Valid, T.Tx.Valid, T.Sum, S.Queues.Valid, C.State.Safe;
  }

  lemma {:induction false} HangingSoFar(start: Sender, run: seq<Turn>, rx: SegmentRx, prio: Priorities, timeout: nat)
    requires Starved(start, rx) && start.clock.timer == Some(RtoTimer(start.clock.rto, 0))
    requires Course(start, run, rx, prio, timeout) && AllAnswered(run)
    requires run != [] ==> run[0].deed == Expire
    ensures Hanging(start.clock, ExpireCount(run), Owed(run), timeout, Latest(start, run).clock)
    ensures run != [] ==> ExpireCount(run) > 0
    decreases |run|
  {
    hide Starved, Choked, Hanging, Does;
    if run == [] {
      HangingFirst(start, rx, timeout);
    } else {
      var front, last := run[..|run| - 1], run[|run| - 1];
      HangingSoFar(start, front, rx, prio, timeout);
      NothingEverLeaves(start, front, rx, prio, timeout);
      KeepsHanging(start.clock, ExpireCount(front), Owed(front), timeout, Latest(start, front), last, rx, prio);
    }
  }

  /** Answered, the endpoint only gives up when the doubled timeout reaches the limit by itself, for every answer
      starts the timer over; with a limit beyond a minute it never does, and never sends either. */
  lemma {:induction false} GivesUpOnlyByTimeoutAlone(start: Sender, run: seq<Turn>, rx: SegmentRx,
                                                     prio: Priorities, timeout: nat)
    requires Starved(start, rx) && start.clock.timer == Some(RtoTimer(start.clock.rto, 0))
    requires Course(start, run, rx, prio, timeout) && AllAnswered(run)
    requires run != [] ==> run[0].deed == Expire
    ensures var n, t := ExpireCount(run), Latest(start, run).clock;
      && (t.state == Zombie <==> n > 0 && timeout <= Backoff(start.clock.rto, n - 1))
      && (timeout > RTO_MAX_MS ==> t.state == Active && t.due.Some?)
  {
    HangingSoFar(start, run, rx, prio, timeout);
    BackoffBounds(start.clock.rto, ExpireCount(run) - if ExpireCount(run) > 0 then 1 else 0);
  }

  // ---- such a state ----

  function InFlight(n: nat): (tx: T.Tx)
    ensures tx.next == tx.base + n
    ensures n <= SEGMENT_WINDOW_SIZE ==> tx.Valid() && tx.size == SEGMENT_WINDOW_SIZE
  {
    if n == 0 then T.InitTx(ELEVEN, SEGMENT_WINDOW_SIZE) else InFlight(n - 1).Send(S.FRAGMENT_SIZE, false)
  }

  lemma {:induction false} InFlightSum(n: nat)
    ensures T.Sum(InFlight(n).sizes) == n * S.FRAGMENT_SIZE && InFlight(n).base == ELEVEN
    decreases n
  {
    if n > 0 {
      InFlightSum(n - 1);
      T.SumNext(InFlight(n - 1).sizes, S.FRAGMENT_SIZE);
    }
  }

  /** Eleven full segments lost after eleven that arrived. */
  lemma {:induction false} ElevenLost(timeout: nat) returns (s: Sender, rx: SegmentRx)
    ensures Starved(s, rx) && Sound(s, timeout) && s.clock.timer == Some(RtoTimer(s.clock.rto, 0))
  {
    hide InFlight, T.Tx.Valid, T.Sum, S.Queues.Valid, C.State.Safe;
    var clock := Timing(Active, Some(RTO_INITIAL_MS), Some(RtoTimer(RTO_INITIAL_MS, 0)), RTO_INITIAL_MS, None, None,
                        [OnConnect]);
    InFlightSum(ELEVEN);
    s := Sender(InFlight(ELEVEN), FRESH_FRAGMENTS, FRESH_CONGESTION, clock);
    rx := R.Rx(R.Skips(ELEVEN), [], SEGMENT_WINDOW_SIZE);
  }
}
